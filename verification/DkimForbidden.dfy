/**
 * Refusing a header block whose line breaks receivers read differently (`email/dkim-message.ts`).
 * The bit operations on disjoint bit fields are written as sums, quotients and remainders.
 */
module DkimForbidden {
  import opened Wrappers
  import opened DkimMessage
  import opened MailLines

  // ---- UTF-8 packings

  /** `x >> 6k`. */
  function Shr(x: nat, k: nat): nat {
    if k == 0 then x else Shr(x, k - 1) / 64
  }

  /** The lead octet of an `n`-octet form without its payload: `n` one bits and a zero. */
  function Marker(n: nat): nat
    requires 2 <= n <= 6
  {
    match n case 2 => 0xC0 case 3 => 0xE0 case 4 => 0xF0 case 5 => 0xF8 case 6 => 0xFC
  }

  /** How many payloads the lead octet of an `n`-octet form has: `2^(7 - n)`. */
  function LeadRoom(n: nat): nat
    requires 2 <= n <= 6
  {
    match n case 2 => 0x20 case 3 => 0x10 case 4 => 0x08 case 5 => 0x04 case 6 => 0x02
  }

  /** `2^(5n + 1)`, what an `n`-octet form can hold. */
  function Capacity(n: nat): nat
    requires 2 <= n <= 6
  {
    match n case 2 => 0x800 case 3 => 0x1_0000 case 4 => 0x20_0000 case 5 => 0x400_0000 case 6 => 0x8000_0000
  }

  /** The continuation octets of the low `6k` bits. */
  function Continuations(codePoint: nat, k: nat): (r: seq<nat>)
    ensures |r| == k
  {
    if k == 0 then [] else [0x80 + Shr(codePoint, k - 1) % 64] + Continuations(codePoint, k - 1)
  }

  function Packing(codePoint: nat, n: nat): (bytes: seq<nat>)
    requires 2 <= n <= 6
    ensures |bytes| == n
  {
    [Marker(n) + Shr(codePoint, n - 1)] + Continuations(codePoint, n - 1)
  }

  function PackingsFrom(codePoint: nat, n: nat): seq<seq<nat>>
    requires 2 <= n <= 7
    decreases 7 - n
  {
    if n == 7 then []
    else if codePoint >= Capacity(n) then PackingsFrom(codePoint, n + 1)
    else [Packing(codePoint, n)] + PackingsFrom(codePoint, n + 1)
  }

  /** `utf8Packings`: the minimal form and every overlong one. */
  function Packings(codePoint: nat): seq<seq<nat>> {
    PackingsFrom(codePoint, 2)
  }

  // ---- A lenient decoder, which takes overlong forms too (section 2 of RFC 2279)

  predicate AreContinuations(bytes: seq<nat>) {
    forall i :: 0 <= i < |bytes| ==> 0x80 <= bytes[i] <= 0xBF
  }

  /** The bits of continuation octets after those of `high`. */
  function Append(high: nat, bytes: seq<nat>): nat
    requires AreContinuations(bytes)
    decreases |bytes|
  {
    if bytes == [] then high else Append(high * 64 + (bytes[0] - 0x80), bytes[1..])
  }

  /** The code point of one UTF-8-shaped sequence of 2 to 6 octets. */
  function Decode(bytes: seq<nat>): Option<nat> {
    if 2 <= |bytes| <= 6 && Marker(|bytes|) <= bytes[0] < Marker(|bytes|) + LeadRoom(|bytes|)
      && AreContinuations(bytes[1..])
    then Some(Append(bytes[0] - Marker(|bytes|), bytes[1..]))
    else None
  }

  lemma {:induction false} ContinuationsAreShaped(codePoint: nat, k: nat)
    ensures AreContinuations(Continuations(codePoint, k))
  {
    if k > 0 {
      ContinuationsAreShaped(codePoint, k - 1);
    }
  }

  lemma {:induction false} AppendUndoesContinuations(codePoint: nat, k: nat)
    ensures AreContinuations(Continuations(codePoint, k))
      && Append(Shr(codePoint, k), Continuations(codePoint, k)) == codePoint
  {
    ContinuationsAreShaped(codePoint, k);
    if k > 0 {
      AppendUndoesContinuations(codePoint, k - 1);
      assert Continuations(codePoint, k)[1..] == Continuations(codePoint, k - 1);
      assert Shr(codePoint, k) * 64 + Shr(codePoint, k - 1) % 64 == Shr(codePoint, k - 1);
    }
  }

  /** What continuation octets spell lies below the bits in front, and they are the ones that spell it. */
  lemma {:induction false} ContinuationsUndoAppend(high: nat, bytes: seq<nat>)
    requires AreContinuations(bytes)
    ensures Shr(Append(high, bytes), |bytes|) == high
    ensures Continuations(Append(high, bytes), |bytes|) == bytes
    decreases |bytes|
  {
    if bytes != [] {
      ContinuationsUndoAppend(high * 64 + (bytes[0] - 0x80), bytes[1..]);
      assert bytes == [bytes[0]] + bytes[1..];
    }
  }

  /** `r` times 64 to the `k`. */
  function Scale(r: nat, k: nat): nat
    decreases k
  {
    if k == 0 then r else Scale(64 * r, k - 1)
  }

  lemma {:induction false} ShrBelow(x: nat, k: nat, r: nat)
    ensures Shr(x, k) < r <==> x < Scale(r, k)
  {
    if k > 0 {
      ShrBelow(x, k - 1, 64 * r);
    }
  }

  /** The lead octet has room for the payload exactly when the form can hold the code point. */
  lemma {:induction false} LeadFits(codePoint: nat, n: nat)
    requires 2 <= n <= 6
    ensures Shr(codePoint, n - 1) < LeadRoom(n) <==> codePoint < Capacity(n)
  {
    ShrBelow(codePoint, n - 1, LeadRoom(n));
    assert Scale(0x20, 1) == Scale(0x800, 0);
    assert Scale(0x10, 2) == Scale(0x400, 1) == Scale(0x1_0000, 0);
    assert Scale(0x08, 3) == Scale(0x200, 2) == Scale(0x8000, 1) == Scale(0x20_0000, 0);
    assert Scale(0x04, 4) == Scale(0x100, 3) == Scale(0x4000, 2) == Scale(0x10_0000, 1) == Scale(0x400_0000, 0);
    assert Scale(0x02, 5) == Scale(0x80, 4) == Scale(0x2000, 3) == Scale(0x8_0000, 2) == Scale(0x200_0000, 1);
  }

  lemma {:induction false} DecodePacking(codePoint: nat, n: nat)
    requires 2 <= n <= 6 && codePoint < Capacity(n)
    ensures Decode(Packing(codePoint, n)) == Some(codePoint)
  {
    LeadFits(codePoint, n);
    AppendUndoesContinuations(codePoint, n - 1);
    assert Packing(codePoint, n)[1..] == Continuations(codePoint, n - 1);
  }

  lemma {:induction false} DecodedIsPacking(bytes: seq<nat>)
    requires Decode(bytes).Some?
    ensures var codePoint := Decode(bytes).value;
      codePoint < Capacity(|bytes|) && bytes == Packing(codePoint, |bytes|)
  {
    var n := |bytes|;
    var codePoint := Decode(bytes).value;
    ContinuationsUndoAppend(bytes[0] - Marker(n), bytes[1..]);
    LeadFits(codePoint, n);
    assert bytes == [bytes[0]] + bytes[1..];
  }

  lemma {:induction false} PackingsAre(codePoint: nat, n: nat, bytes: seq<nat>)
    requires 2 <= n <= 7
    ensures bytes in PackingsFrom(codePoint, n) <==>
      (n <= |bytes| <= 6 && codePoint < Capacity(|bytes|) && bytes == Packing(codePoint, |bytes|))
    decreases 7 - n
  {
    if n < 7 {
      PackingsAre(codePoint, n + 1, bytes);
    }
  }

  /** `utf8Packings` gives exactly the octet sequences that decode to the code point. */
  lemma {:induction false} PackingsDecode(codePoint: nat, bytes: seq<nat>)
    ensures bytes in Packings(codePoint) <==> Decode(bytes) == Some(codePoint)
  {
    PackingsAre(codePoint, 2, bytes);
    if Decode(bytes).Some? {
      DecodedIsPacking(bytes);
    }
    if bytes in Packings(codePoint) {
      DecodePacking(codePoint, |bytes|);
    }
  }

  // ---- What a header block may not hold

  /** The code points that hide a line break: LF, CR, VT, FF, the three separators, NEL, U+2028 and U+2029. */
  const LINE_BREAKS: seq<nat> := [0x0A, 0x0D, 0x0B, 0x0C, 0x1C, 0x1D, 0x1E, 0x85, 0x2028, 0x2029]

  /** Those of which the plain octet is refused as well. */
  const RAW_LINE_BREAKS: set<nat> := {0x0B, 0x0C, 0x1C, 0x1D, 0x1E, 0x85}

  function SequencesOf(codePoints: seq<nat>): seq<seq<nat>> {
    if codePoints == [] then [] else Packings(codePoints[0]) + SequencesOf(codePoints[1..])
  }

  lemma {:induction false} SequencesDecode(codePoints: seq<nat>, bytes: seq<nat>)
    ensures bytes in SequencesOf(codePoints) <==> (Decode(bytes).Some? && Decode(bytes).value in codePoints)
  {
    if codePoints != [] {
      SequencesDecode(codePoints[1..], bytes);
      PackingsDecode(codePoints[0], bytes);
    }
  }

  ghost predicate StandsAt(codes: seq<nat>, i: nat, bytes: seq<nat>) {
    i + |bytes| <= |codes| && codes[i..i + |bytes|] == bytes
  }

  /** `bytes` stand at `i`, and a lenient decoder reads them as one of the code points. */
  ghost predicate Hides(listed: seq<nat>, codes: seq<nat>, i: nat, bytes: seq<nat>) {
    StandsAt(codes, i, bytes) && Decode(bytes).Some? && Decode(bytes).value in listed
  }

  ghost predicate IsHidden(listed: seq<nat>, codes: seq<nat>, i: nat) {
    exists bytes :: Hides(listed, codes, i, bytes)
  }

  ghost predicate IsForbiddenAt(listed: seq<nat>, raw: set<nat>, codes: seq<nat>, i: nat) {
    i < |codes| && (codes[i] in raw || IsHidden(listed, codes, i))
  }

  ghost predicate HasForbidden(listed: seq<nat>, raw: set<nat>, codes: seq<nat>) {
    exists i :: IsForbiddenAt(listed, raw, codes, i)
  }

  predicate IsCrLfAt(block: string, i: nat) {
    i + 1 < |block| && block[i] == '\r' && block[i + 1] == '\n'
  }

  ghost predicate HasLoneCr(block: string) {
    exists i :: 0 <= i < |block| && block[i] == '\r' && !IsCrLfAt(block, i)
  }

  ghost predicate HasCrLf(block: string) {
    exists i :: 0 <= i < |block| && IsCrLfAt(block, i)
  }

  predicate IsBareLfAt(block: string, i: nat) {
    i < |block| && block[i] == '\n' && (i == 0 || block[i - 1] != '\r')
  }

  ghost predicate HasBareLf(block: string) {
    exists i :: 0 <= i < |block| && IsBareLfAt(block, i)
  }

  function Codes(block: string): seq<nat> {
    seq(|block|, i requires 0 <= i < |block| => block[i] as nat)
  }

  /** The header section with the empty line that ends it; the whole message when it has none. */
  function Block(raw: string): string {
    match Locate(raw) case None => raw case Some(end) => raw[..end.at + end.sepLen]
  }

  datatype Refusal = LoneCr | MixedEndings | HiddenLineBreak

  ghost function RefusalOf(block: string): Option<Refusal> {
    if HasLoneCr(block) then Some(LoneCr)
    else if HasCrLf(block) && HasBareLf(block) then Some(MixedEndings)
    else if HasForbidden(LINE_BREAKS, RAW_LINE_BREAKS, Codes(block)) then Some(HiddenLineBreak)
    else None
  }

  // ---- The loops

  /** The sequences of a table entry all begin with its octet and come from the list. */
  ghost predicate IsGrouped(sequences: seq<seq<nat>>, table: map<nat, seq<seq<nat>>>) {
    forall lead, b :: lead in table && b in table[lead] ==> b in sequences && b != [] && b[0] == lead
  }

  ghost predicate IsFiled(table: map<nat, seq<seq<nat>>>, b: seq<nat>) {
    b != [] && b[0] in table && b in table[b[0]]
  }

  /** The table of sequences by lead octet. */
  method GroupByLead(sequences: seq<seq<nat>>) returns (table: map<nat, seq<seq<nat>>>)
    requires forall b :: b in sequences ==> b != []
    ensures forall b :: b in sequences ==> IsFiled(table, b)
    ensures IsGrouped(sequences, table)
  {
    table := map[];
    for i := 0 to |sequences|
      invariant forall k :: 0 <= k < i ==> IsFiled(table, sequences[k])
      invariant IsGrouped(sequences, table)
    {
      assert sequences[i] in sequences;
      var lead := sequences[i][0];
      if lead in table {
        table := table[lead := table[lead] + [sequences[i]]];
      } else {
        table := table[lead := [sequences[i]]];
      }
    }
  }

  lemma {:induction false} StandsByOctet(codes: seq<nat>, i: nat, bytes: seq<nat>)
    requires i + |bytes| <= |codes|
    ensures StandsAt(codes, i, bytes) <==> forall k :: 0 <= k < |bytes| ==> codes[i + k] == bytes[k]
  {
    if StandsAt(codes, i, bytes) {
      forall k | 0 <= k < |bytes|
        ensures codes[i + k] == bytes[k]
      {
        assert codes[i..i + |bytes|][k] == bytes[k];
      }
    }
  }

  method MatchesSequenceAt(codes: seq<nat>, i: nat, bytes: seq<nat>) returns (matches: bool)
    ensures matches <==> StandsAt(codes, i, bytes)
  {
    if i + |bytes| > |codes| {
      return false;
    }
    StandsByOctet(codes, i, bytes);
    for k := 0 to |bytes|
      invariant forall j :: 0 <= j < k ==> codes[i + j] == bytes[j]
    {
      if codes[i + k] != bytes[k] {
        return false;
      }
    }
    matches := true;
  }

  ghost predicate AnyStands(codes: seq<nat>, i: nat, candidates: seq<seq<nat>>) {
    exists k :: 0 <= k < |candidates| && StandsAt(codes, i, candidates[k])
  }

  /** Whether one of the sequences stands at `i`. */
  method AnyMatchesAt(codes: seq<nat>, i: nat, candidates: seq<seq<nat>>) returns (found: bool)
    ensures found <==> AnyStands(codes, i, candidates)
  {
    for k := 0 to |candidates|
      invariant forall j :: 0 <= j < k ==> !StandsAt(codes, i, candidates[j])
    {
      var matches := MatchesSequenceAt(codes, i, candidates[k]);
      if matches {
        return true;
      }
    }
    found := false;
  }

  lemma {:induction false} SomeStands(codes: seq<nat>, i: nat, sequences: seq<seq<nat>>, b: seq<nat>)
    requires b in sequences && StandsAt(codes, i, b)
    ensures AnyStands(codes, i, sequences)
  {
    var k :| 0 <= k < |sequences| && sequences[k] == b;
    assert StandsAt(codes, i, sequences[k]);
  }

  /** Looking up the octet at `i` finds what stands there. */
  lemma {:induction false} LookupFinds(
    sequences: seq<seq<nat>>, codes: seq<nat>, i: nat, table: map<nat, seq<seq<nat>>>)
    requires i < |codes|
    requires forall b :: b in sequences ==> IsFiled(table, b)
    requires IsGrouped(sequences, table)
    ensures AnyStands(codes, i, sequences) <==> (codes[i] in table && AnyStands(codes, i, table[codes[i]]))
  {
    if AnyStands(codes, i, sequences) {
      var k :| 0 <= k < |sequences| && StandsAt(codes, i, sequences[k]);
      var b := sequences[k];
      assert b in sequences;
      assert b[0] == codes[i];
      SomeStands(codes, i, table[codes[i]], b);
    } else if codes[i] in table && AnyStands(codes, i, table[codes[i]]) {
      var k :| 0 <= k < |table[codes[i]]| && StandsAt(codes, i, table[codes[i]][k]);
      assert table[codes[i]][k] in table[codes[i]];
      SomeStands(codes, i, sequences, table[codes[i]][k]);
    }
  }

  lemma {:induction false} HiddenIsStanding(listed: seq<nat>, codes: seq<nat>, i: nat)
    ensures IsHidden(listed, codes, i) <==> AnyStands(codes, i, SequencesOf(listed))
  {
    var sequences := SequencesOf(listed);
    if AnyStands(codes, i, sequences) {
      var k :| 0 <= k < |sequences| && StandsAt(codes, i, sequences[k]);
      SequencesDecode(listed, sequences[k]);
      assert Hides(listed, codes, i, sequences[k]);
    }
    if IsHidden(listed, codes, i) {
      var bytes :| Hides(listed, codes, i, bytes);
      SequencesDecode(listed, bytes);
      SomeStands(codes, i, sequences, bytes);
    }
  }

  lemma {:induction false} SequencesNotEmpty(listed: seq<nat>)
    ensures forall b :: b in SequencesOf(listed) ==> b != []
  {
    forall b | b in SequencesOf(listed)
      ensures b != []
    {
      SequencesDecode(listed, b);
    }
  }

  /** `scanForbiddenHeaderBytes`, over any list of code points and raw octets. */
  method ScanForbiddenHeaderBytes(listed: seq<nat>, raw: set<nat>, codes: seq<nat>) returns (found: bool)
    ensures found <==> HasForbidden(listed, raw, codes)
  {
    SequencesNotEmpty(listed);
    var table := GroupByLead(SequencesOf(listed));
    for i := 0 to |codes|
      invariant forall k :: 0 <= k < i ==> !IsForbiddenAt(listed, raw, codes, k)
    {
      LookupFinds(SequencesOf(listed), codes, i, table);
      HiddenIsStanding(listed, codes, i);
      var hidden := false;
      if codes[i] in table {
        hidden := AnyMatchesAt(codes, i, table[codes[i]]);
      }
      if hidden || codes[i] in raw {
        assert IsForbiddenAt(listed, raw, codes, i);
        return true;
      }
    }
    found := false;
  }

  /** The empty line that ends a header section ends in LF. */
  lemma {:induction false} EmptyLineEndsInLf(raw: string)
    requires Locate(raw).Some?
    ensures var end := Locate(raw).value; raw[end.at + end.sepLen - 1] == '\n'
  {
    var n := EmptyLineLen(raw);
    if n == 0 {
      EmptyLineEndsInLf(raw[1..]);
    } else {
      var rest := raw[EndingLen(raw)..];
      assert rest[EndingLen(rest) - 1] == '\n';
    }
  }

  /** Looking past the block for the LF of a CRLF finds none: the block ends in LF or with the message. */
  lemma {:induction false} NextIsInBlock(raw: string, i: nat)
    requires i < |Block(raw)| && raw[i] == '\r'
    ensures Block(raw)[i] == '\r'
    ensures IsCrLfAt(Block(raw), i) <==> (i + 1 < |raw| && raw[i + 1] == '\n')
  {
    if Locate(raw).Some? {
      EmptyLineEndsInLf(raw);
    }
  }

  /** What the loop over line endings has seen before `i`. */
  ghost predicate SeenEndings(block: string, i: nat, crLf: bool, bareLf: bool) {
    && i <= |block| && (i > 0 ==> block[i - 1] != '\r')
    && (forall k :: 0 <= k < i && block[k] == '\r' ==> IsCrLfAt(block, k))
    && (crLf <==> exists k :: 0 <= k < i && IsCrLfAt(block, k))
    && (bareLf <==> exists k :: 0 <= k < i && IsBareLfAt(block, k))
  }

  lemma {:induction false} SeenCrLf(block: string, i: nat, crLf: bool, bareLf: bool)
    requires SeenEndings(block, i, crLf, bareLf) && IsCrLfAt(block, i)
    ensures SeenEndings(block, i + 2, true, bareLf)
  {
    assert !IsBareLfAt(block, i) && !IsBareLfAt(block, i + 1);
  }

  lemma {:induction false} SeenOther(block: string, i: nat, crLf: bool, bareLf: bool)
    requires SeenEndings(block, i, crLf, bareLf) && i < |block| && block[i] != '\r'
    ensures SeenEndings(block, i + 1, crLf, bareLf || block[i] == '\n')
  {
    assert !IsCrLfAt(block, i);
    assert IsBareLfAt(block, i) <==> block[i] == '\n';
  }

  /** `refuseHeaderLineEndings`: a block is accepted exactly when none of the three faults is in it. */
  method RefuseHeaderLineEndings(raw: string) returns (refusal: Option<Refusal>)
    ensures refusal == RefusalOf(Block(raw))
  {
    var headerEnd := LocateHeaderEnd(raw);
    var end := match headerEnd case None => |raw| case Some(e) => e.at + e.sepLen;
    ghost var block := Block(raw);
    assert block == raw[..end];
    var sawCrLf, sawBareLf := false, false;
    var i := 0;
    while i < end
      invariant SeenEndings(block, i, sawCrLf, sawBareLf)
    {
      if raw[i] == '\r' {
        NextIsInBlock(raw, i);
        if i + 1 >= |raw| || raw[i + 1] != '\n' {
          return Some(LoneCr);
        }
        SeenCrLf(block, i, sawCrLf, sawBareLf);
        sawCrLf := true;
        i := i + 2;
      } else {
        SeenOther(block, i, sawCrLf, sawBareLf);
        if raw[i] == '\n' {
          sawBareLf := true;
        }
        i := i + 1;
      }
    }
    if sawCrLf && sawBareLf {
      return Some(MixedEndings);
    }
    var found := ScanForbiddenHeaderBytes(LINE_BREAKS, RAW_LINE_BREAKS, Codes(raw[..end]));
    refusal := if found then Some(HiddenLineBreak) else None;
  }
}
