/**
 * Byte arithmetic on RSA keys (`email/dkim-crypto.ts`; sections 8.1.3 and 10.1 of X.690). Importing a
 * key and checking a signature are left to the platform.
 */
module DkimKeys {
  import opened Wrappers
  import opened MailLines

  newtype byte = b: int | 0 <= b < 256

  type Bytes = seq<byte>

  // ---- Big-endian numbers

  /** The big-endian unsigned integer. */
  function Value(bytes: Bytes): nat {
    if bytes == [] then 0 else Value(bytes[..|bytes| - 1]) * 256 + bytes[|bytes| - 1] as nat
  }

  function Pow2(k: nat): (p: nat)
    ensures p > 0
  {
    if k == 0 then 1 else 2 * Pow2(k - 1)
  }

  /** `bits` is the bit length of `v`: the power of two just above `v`, with 0 for zero. */
  predicate IsBitLength(v: nat, bits: nat) {
    v < Pow2(bits) && (bits > 0 ==> Pow2(bits - 1) <= v)
  }

  lemma {:induction false} Pow2Grows(a: nat, b: nat)
    requires a <= b
    ensures Pow2(a) <= Pow2(b)
  {
    if a < b {
      Pow2Grows(a, b - 1);
    }
  }

  /** A number has one bit length. */
  lemma {:induction false} BitLengthIsUnique(v: nat, a: nat, b: nat)
    requires IsBitLength(v, a) && IsBitLength(v, b)
    ensures a == b
  {
    if a < b {
      Pow2Grows(a, b - 1);
    } else if b < a {
      Pow2Grows(b, a - 1);
    }
  }

  lemma {:induction false} ZerosAreNothing(bytes: Bytes, at: nat)
    requires at <= |bytes| && forall i :: 0 <= i < at ==> bytes[i] == 0
    ensures Value(bytes) == Value(bytes[at..])
    decreases |bytes|
  {
    if at == |bytes| {
      if at > 0 {
        ZerosAreNothing(bytes[..at - 1], at - 1);
        assert bytes[..at - 1][at - 1..] == [];
      }
    } else {
      var n := |bytes| - 1;
      ZerosAreNothing(bytes[..n], at);
      assert bytes[..n][at..] == bytes[at..][..n - at];
    }
  }

  lemma {:induction false} AppendByte(front: Bytes, last: byte)
    ensures Value(front + [last]) == Value(front) * 256 + last as nat
  {
    assert (front + [last])[..|front|] == front;
  }

  lemma {:induction false} Pow2Eight(k: nat)
    ensures Pow2(k + 8) == 256 * Pow2(k)
  {
    assert Pow2(k + 8) == 2 * Pow2(k + 7) && Pow2(k + 7) == 2 * Pow2(k + 6) && Pow2(k + 6) == 2 * Pow2(k + 5);
    assert Pow2(k + 5) == 2 * Pow2(k + 4) && Pow2(k + 4) == 2 * Pow2(k + 3) && Pow2(k + 3) == 2 * Pow2(k + 2);
    assert Pow2(k + 2) == 2 * Pow2(k + 1) && Pow2(k + 1) == 2 * Pow2(k);
  }

  /** Eight more bits for every byte after the first. */
  lemma {:induction false} BitsOfBytes(bytes: Bytes, bits: nat)
    requires bytes != [] && bits > 0 && IsBitLength(bytes[0] as nat, bits)
    ensures IsBitLength(Value(bytes), bits + 8 * (|bytes| - 1))
    decreases |bytes|
  {
    var n := |bytes| - 1;
    if n == 0 {
      assert bytes[..0] == [];
    } else {
      BitsOfBytes(bytes[..n], bits);
      var k := bits + 8 * (n - 1);
      Pow2Eight(k);
      Pow2Eight(k - 1);
    }
  }

  /** After `k` shifts of `v` to the right, `b` is left. */
  ghost predicate IsShifted(b: nat, v: nat, k: nat) {
    b * Pow2(k) <= v < (b + 1) * Pow2(k) && (b == 0 && v > 0 ==> k > 0 && Pow2(k - 1) <= v)
  }

  /** One shift to the right. */
  lemma {:induction false} HalfStep(b: nat, v: nat, k: nat)
    requires b > 0 && IsShifted(b, v, k)
    ensures IsShifted(b / 2, v, k + 1)
  {
    var p := Pow2(k);
    assert Pow2(k + 1) == 2 * p;
    assert b / 2 * (2 * p) == (b / 2 * 2) * p;
    assert (b / 2 + 1) * (2 * p) == (b / 2 * 2 + 2) * p;
    if b % 2 == 0 {
      assert b / 2 * 2 == b;
      assert (b + 2) * p == (b + 1) * p + p;
    } else {
      assert b / 2 * 2 == b - 1;
      assert (b - 1) * p == b * p - p;
    }
    assert b == 1 ==> b * p == p;
  }

  lemma {:induction false} ShiftedOut(v: nat, k: nat)
    requires v > 0 && IsShifted(0, v, k)
    ensures k > 0 && IsBitLength(v, k)
  {
  }

  lemma {:induction false} NotShifted(v: nat)
    requires v > 0
    ensures IsShifted(v, v, 0)
  {
  }

  method BitsOfByte(first: nat) returns (bits: nat)
    requires first > 0
    ensures bits > 0 && IsBitLength(first, bits)
  {
    hide IsShifted, IsBitLength, Pow2;
    var byte := first;
    bits := 0;
    NotShifted(first);
    while byte > 0
      invariant IsShifted(byte, first, bits)
    {
      HalfStep(byte, first, bits);
      byte := byte / 2;
      bits := bits + 1;
    }
    ShiftedOut(first, bits);
  }

  /** `bitLength`: leading zero bytes are skipped, then the bits of the first byte are counted. */
  method BitLength(bytes: Bytes) returns (bits: nat)
    ensures IsBitLength(Value(bytes), bits)
  {
    var at := 0;
    while at < |bytes| && bytes[at] == 0
      invariant 0 <= at <= |bytes| && forall i :: 0 <= i < at ==> bytes[i] == 0
    {
      at := at + 1;
    }
    ZerosAreNothing(bytes, at);
    if at == |bytes| {
      assert bytes[at..] == [];
      return 0;
    }
    bits := BitsOfByte(bytes[at] as nat);
    BitsOfBytes(bytes[at..], bits);
    bits := (|bytes| - at - 1) * 8 + bits;
  }

  // ---- DER lengths (section 8.1.3 of X.690)

  /** The fewest octets that hold `n`, big-endian; none for 0. */
  function Digits(n: nat): Bytes {
    if n == 0 then [] else Digits(n / 256) + [(n % 256) as byte]
  }

  lemma {:induction false} ValueOfDigits(n: nat)
    ensures Value(Digits(n)) == n
    ensures n > 0 ==> Digits(n) != [] && Digits(n)[0] != 0
  {
    if n > 0 {
      ValueOfDigits(n / 256);
      AppendByte(Digits(n / 256), (n % 256) as byte);
      if n / 256 > 0 {
        assert Digits(n)[0] == Digits(n / 256)[0];
      }
    }
  }

  /** No shorter octets spell the same number. */
  lemma {:induction false} DigitsAreFewest(bytes: Bytes)
    ensures |Digits(Value(bytes))| <= |bytes|
  {
    if bytes != [] {
      var n := |bytes| - 1;
      DigitsAreFewest(bytes[..n]);
      var v, high, low := Value(bytes), Value(bytes[..n]), bytes[n] as nat;
      assert v == high * 256 + low;
      assert v / 256 == high;
    }
  }

  const LIMIT := 0x8000_0000

  lemma {:induction false} FewDigits(n: nat)
    requires n < LIMIT
    ensures |Digits(n)| <= 4
  {
    assert n / 256 / 256 / 256 / 256 == 0;
    assert Digits(n / 256 / 256 / 256 / 256) == [];
    assert |Digits(n / 256 / 256 / 256)| <= 1;
    assert |Digits(n / 256 / 256)| <= 2;
    assert |Digits(n / 256)| <= 3;
  }

  /** `encodeDerLength`, for the lengths that 32-bit shifts can take. */
  function DerLength(length: nat): Bytes
    requires length < LIMIT
  {
    FewDigits(length);
    if length < 0x80 then [length as byte] else [(0x80 + |Digits(length)|) as byte] + Digits(length)
  }

  /** A definite length at the start of `bytes`, and how many octets it takes. */
  function ReadLength(bytes: Bytes): Option<(nat, nat)> {
    if bytes == [] then None
    else if bytes[0] < 0x80 then Some((bytes[0] as nat, 1))
    else
      var n := bytes[0] as nat - 0x80;
      if n == 0 || |bytes| < 1 + n then None else Some((Value(bytes[1..1 + n]), 1 + n))
  }

  /** An encoded length reads back exactly, whatever follows it. */
  lemma {:induction false} LengthRoundTrip(length: nat, rest: Bytes)
    requires length < LIMIT
    ensures ReadLength(DerLength(length) + rest) == Some((length, |DerLength(length)|))
    ensures length >= 0x80 ==> DerLength(length)[1] != 0
  {
    FewDigits(length);
    ValueOfDigits(length);
    var digits := Digits(length);
    if length >= 0x80 {
      assert (DerLength(length) + rest)[1..1 + |digits|] == digits;
    }
  }

  /** A length of more than one octet is at least 128: no shorter form would hold it. */
  lemma {:induction false} LengthIsMinimal(length: nat, bytes: Bytes)
    requires length < LIMIT && ReadLength(bytes).Some? && ReadLength(bytes).value.0 == length
    ensures |DerLength(length)| <= ReadLength(bytes).value.1
  {
    if bytes[0] >= 0x80 {
      DigitsAreFewest(bytes[1..1 + (bytes[0] as nat - 0x80)]);
    }
  }

  // ---- Elements

  /** `encodeDerLengthPrefixed`. */
  function Prefixed(tag: byte, content: Bytes): Bytes
    requires |content| < LIMIT
  {
    [tag] + (DerLength(|content|) + content)
  }

  /** The content of the element that `bytes` begin with, when its tag is `tag`. */
  function Content(tag: byte, bytes: Bytes): Option<Bytes> {
    if bytes == [] || bytes[0] != tag || ReadLength(bytes[1..]).None? then None
    else
      var length, used := ReadLength(bytes[1..]).value.0, 1 + ReadLength(bytes[1..]).value.1;
      if used + length <= |bytes| then Some(bytes[used..used + length]) else None
  }

  lemma {:induction false} ContentOfPrefixed(tag: byte, content: Bytes, rest: Bytes)
    requires |content| < LIMIT
    ensures Content(tag, Prefixed(tag, content) + rest) == Some(content)
  {
    hide DerLength, ReadLength;
    var length := DerLength(|content|);
    var all := Prefixed(tag, content) + rest;
    LengthRoundTrip(|content|, content + rest);
    assert all[1..] == length + (content + rest);
    assert all[1 + |length|..1 + |length| + |content|] == content;
  }

  // ---- SubjectPublicKeyInfo

  /** `SEQUENCE { OID rsaEncryption, NULL }`. */
  const RSA_ALGORITHM: Bytes := [
    0x30, 0x0d, 0x06, 0x09, 0x2a, 0x86, 0x48, 0x86, 0xf7, 0x0d, 0x01, 0x01, 0x01, 0x05, 0x00]

  /** `looksLikeSpki`: the first element inside the outer one is a SEQUENCE. */
  predicate LooksLikeSpki(der: Bytes) {
    var at := if |der| > 1 && der[1] >= 0x80 then 2 + (der[1] as nat - 0x80) else 2;
    at < |der| && der[at] == 0x30
  }

  predicate Fits(key: Bytes) {
    |key| < LIMIT - 32
  }

  lemma {:induction false} LengthIsShort(length: nat)
    requires length < LIMIT
    ensures 1 <= |DerLength(length)| <= 5
  {
    FewDigits(length);
  }

  function BitString(key: Bytes): (r: Bytes)
    requires Fits(key)
    ensures |r| <= |key| + 7
  {
    LengthIsShort(|key| + 1);
    Prefixed(0x03, [0 as byte] + key)
  }

  function Wrapped(key: Bytes): Bytes
    requires Fits(key)
  {
    Prefixed(0x30, RSA_ALGORITHM + BitString(key))
  }

  /** `spkiForRsaPublicKey`; `None` for a key that is no SEQUENCE. */
  function SpkiForRsaPublicKey(key: Bytes): Option<Bytes>
    requires Fits(key)
  {
    if key == [] || key[0] != 0x30 then None else if LooksLikeSpki(key) then Some(key) else Some(Wrapped(key))
  }

  lemma {:induction false} AlgorithmBegins(more: Bytes)
    ensures RSA_ALGORITHM + more != [] && (RSA_ALGORITHM + more)[0] == 0x30
  {
  }

  /** A sequence around a sequence is taken for an envelope. */
  lemma {:induction false} PrefixedLooksLikeSpki(content: Bytes)
    requires |content| < LIMIT && content != [] && content[0] == 0x30
    ensures LooksLikeSpki(Prefixed(0x30, content)) && Prefixed(0x30, content)[0] == 0x30
  {
    var length, der := DerLength(|content|), Prefixed(0x30, content);
    FewDigits(|content|);
    assert der[1] == length[0];
    assert der[1 + |length|] == content[0];
  }

  lemma {:induction false} WrappedLooksLikeSpki(key: Bytes)
    requires Fits(key)
    ensures LooksLikeSpki(Wrapped(key)) && Wrapped(key) != [] && Wrapped(key)[0] == 0x30
  {
    hide LooksLikeSpki;
    AlgorithmBegins(BitString(key));
    PrefixedLooksLikeSpki(RSA_ALGORITHM + BitString(key));
  }

  /** Wrapping a wrapped key changes nothing. */
  lemma {:induction false} WrapIsIdempotent(key: Bytes)
    requires Fits(key) && SpkiForRsaPublicKey(key).Some? && Fits(SpkiForRsaPublicKey(key).value)
    ensures SpkiForRsaPublicKey(SpkiForRsaPublicKey(key).value) == SpkiForRsaPublicKey(key)
  {
    hide LooksLikeSpki, Wrapped;
    WrappedLooksLikeSpki(key);
  }

  /** The key inside an envelope: the bit string after the algorithm, without its count of unused bits. */
  function Unwrapped(spki: Bytes): Option<Bytes> {
    var content := Content(0x30, spki);
    if content.None? || |content.value| < |RSA_ALGORITHM| then None
    else
      var bits := Content(0x03, content.value[|RSA_ALGORITHM|..]);
      if bits.None? || bits.value == [] || bits.value[0] != 0 then None else Some(bits.value[1..])
  }

  /** The envelope holds exactly the key that was wrapped. */
  lemma {:induction false} UnwrapUndoesWrap(key: Bytes)
    requires Fits(key)
    ensures Unwrapped(Wrapped(key)) == Some(key)
  {
    hide Content;
    var bits := BitString(key);
    var content := RSA_ALGORITHM + bits;
    ContentOfPrefixed(0x30, content, []);
    assert Wrapped(key) + [] == Wrapped(key);
    assert content[|RSA_ALGORITHM|..] == bits;
    ContentOfPrefixed(0x03, [0 as byte] + key, []);
    assert bits + [] == bits;
    assert ([0 as byte] + key)[1..] == key;
  }

  // ---- Filling the buffers

  method EncodeDerLength(length: nat) returns (encoded: Bytes)
    requires length < LIMIT
    ensures encoded == DerLength(length)
  {
    if length < 0x80 {
      return [length as byte];
    }
    FewDigits(length);
    var bytes: Bytes := [];
    var n := length;
    assert Digits(length) + [] == Digits(length);
    while n > 0
      invariant Digits(n) + bytes == Digits(length)
    {
      Regroup(Digits(n / 256), [(n % 256) as byte], bytes, []);
      bytes := [(n % 256) as byte] + bytes;
      n := n / 256;
    }
    assert [] + bytes == bytes;
    encoded := [(0x80 + |bytes|) as byte] + bytes;
  }

  /** `out.set(source, at)`. */
  method Set(out: array<byte>, source: Bytes, at: nat)
    requires at + |source| <= out.Length
    modifies out
    ensures out[..] == old(out[..at]) + source + old(out[at + |source|..])
  {
    for i := 0 to |source|
      invariant forall k :: 0 <= k < i ==> out[at + k] == source[k]
      invariant forall k :: 0 <= k < out.Length && !(at <= k < at + i) ==> out[k] == old(out[k])
    {
      out[at + i] := source[i];
    }
  }

  method EncodeDerLengthPrefixed(tag: byte, content: Bytes) returns (out: array<byte>)
    requires |content| < LIMIT
    ensures fresh(out) && out[..] == Prefixed(tag, content)
  {
    hide DerLength;
    var lengthBytes := EncodeDerLength(|content|);
    out := new byte[1 + |lengthBytes| + |content|];
    out[0] := tag;
    Set(out, lengthBytes, 1);
    assert out[0] == tag && out[1..1 + |lengthBytes|] == lengthBytes;
    Set(out, content, 1 + |lengthBytes|);
    assert out[..] == [tag] + (lengthBytes + content);
  }

  method Wrap(key: Bytes) returns (spki: Option<Bytes>)
    requires Fits(key)
    ensures spki == SpkiForRsaPublicKey(key)
  {
    hide Prefixed, LooksLikeSpki;
    if key == [] || key[0] != 0x30 {
      return None;
    }
    if LooksLikeSpki(key) {
      return Some(key);
    }
    var content := new byte[|key| + 1];
    content[0] := 0x00;
    Set(content, key, 1);
    assert content[..] == [0 as byte] + key;
    var bitString := EncodeDerLengthPrefixed(0x03, content[..]);
    LengthIsShort(|key| + 1);
    assert bitString[..] == BitString(key);
    var out := EncodeDerLengthPrefixed(0x30, RSA_ALGORITHM + bitString[..]);
    spki := Some(out[..]);
  }
}
