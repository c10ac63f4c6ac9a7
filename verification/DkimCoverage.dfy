/**
 * What a signature that reached its final check covers (`email/dkim-verify.ts`; sections 3.6.1, 5.4
 * and 6.1.1 of RFC 6376).
 */
module DkimCoverage {
  import opened Wrappers
  import opened MailLines
  import opened Octets
  import opened Scan
  import JsText
  import opened DkimMessage
  import opened DkimForbidden
  import opened DkimHeaders
  import opened DkimPairing
  import opened DkimCanonicalize
  import opened DkimTagList
  import opened DkimSignature
  import opened DkimVerify

  predicate AreHeaderNames(names: seq<string>) {
    forall i :: 0 <= i < |names| ==> IsHeaderName(names[i])
  }

  lemma {:induction false} NoBadName(names: seq<string>)
    requires FirstBadName(names) == None
    ensures AreHeaderNames(names)
  {
    if names != [] {
      NoBadName(names[1..]);
      assert names == [names[0]] + names[1..];
    }
  }

  /** A parsed signature asks for well-formed names only. */
  lemma {:induction false} ParsedNames(raw: string)
    requires Parse(raw).Ok?
    ensures AreHeaderNames(Parse(raw).value.0.signedHeaders)
  {
    hide ParseCanonicalization, ParseAlgorithm, Lower, WithoutJsSpace, AreHeaderNames;
    NoBadName(Parse(raw).value.0.signedHeaders);
  }

  lemma {:induction false} LowerPadding(c: char)
    ensures In(Padding, c) <==> In(Padding, LowerChar(c))
  {
  }

  /** A name that is asked for as written holds no padding. */
  lemma {:induction false} AskedIsPlain(name: string)
    requires IsHeaderName(Lower(name))
    ensures forall i :: 0 <= i < |name| ==> !In(Padding, name[i])
  {
    forall i | 0 <= i < |name|
      ensures !In(Padding, name[i])
    {
      assert Lower(name)[i] == LowerChar(name[i]);
      LowerPadding(name[i]);
    }
  }

  /** A name without padding reads only as itself. */
  lemma {:induction false} PlainReadsAsItself(name: string, targets: set<string>)
    requires forall i :: 0 <= i < |name| ==> !In(Padding, name[i])
    requires IsDisguised(name, targets)
    ensures Lower(name) in targets
  {
    var k :| ReadsAs(name, k, targets);
    assert name[..|name|] == name;
    PlainIsStripped(name);
  }

  lemma {:induction false} DisguisedAsMore(name: string, few: set<string>, more: set<string>)
    requires IsDisguised(name, few) && few <= more
    ensures IsDisguised(name, more)
  {
    var k :| ReadsAs(name, k, few);
    assert ReadsAs(name, k, more);
  }

  lemma {:induction false} FromIsNotTransit()
    ensures !IsTransitAdded("from")
  {
    assert "from"[0] == 'f';
  }

  /** A disguised From is not itself a name that can be asked for. */
  lemma {:induction false} DisguisedIsNotAsked(name: string, names: seq<string>)
    requires AreHeaderNames(names) && IsDisguised(name, {"from"}) && Lower(name) != "from"
    ensures Lower(name) !in names
  {
    hide IsDisguised, IsHeaderName;
    if Lower(name) in names {
      AskedIsPlain(name);
      PlainReadsAsItself(name, {"from"});
    }
  }

  lemma {:induction false} DisguisedFromIsRefused(headers: seq<string>, names: seq<string>, i: nat)
    requires AreHeaderNames(names) && "from" in names
    requires i < |headers| && IsFromLine(headers[i]) && NameOf(headers[i]) != Some("from")
    ensures HasDisguised(headers, names)
  {
    hide IsDisguised, AreHeaderNames;
    var name := TrimmedName(headers[i]).value;
    DisguisedIsNotAsked(name, names);
    DisguisedAsMore(name, {"from"}, AskedNames(names));
    assert IsDisguisedLine(headers[i], names);
  }

  /** A selection that asks for From takes every line that anyone could read as From. */
  lemma {:induction false} FromLineIsTaken(headers: seq<string>, names: seq<string>, i: nat)
    requires Select(headers, names).Ok? && AreHeaderNames(names) && "from" in names
    requires i < |headers| && IsFromLine(headers[i])
    ensures i in Select(headers, names).value
  {
    hide IsTransitAdded, HasGrown, IsFromLine, HasDisguised, AreHeaderNames, NameOf;
    FromIsNotTransit();
    if NameOf(headers[i]) != Some("from") {
      DisguisedFromIsRefused(headers, names, i);
    }
    AllTaken(headers, names, i, "from");
  }

  /** The key may be used for this signature (section 3.6.1). */
  predicate IsUsableKey(key: Key, signature: Signature) {
    && !Lists(key.flags, "y")
    && (Lists(key.flags, "s") && IdentityDomain(signature).Some? ==>
        IdentityDomain(signature).value == signature.domain)
    && (key.hashAlgorithms.Some? ==> "sha256" in key.hashAlgorithms.value)
    && (key.serviceTypes.Some? ==> "*" in key.serviceTypes.value || "email" in key.serviceTypes.value)
  }

  /** Some method of `q=` is one this verifier speaks. */
  predicate AsksForDns(method_: string) {
    exists m :: m in SplitOn(Lower(method_), ':') && Without(Wsp, m) in {"dns/txt", "dns"}
  }

  /** The signature may be used now, for this identity (section 6.1.1). */
  predicate IsUsableSignature(signature: Signature, env: Env) {
    && "from" in signature.signedHeaders && |signature.signedHeaders| <= env.limits.signedNames
    && (IdentityDomain(signature).Some? ==> IsSameOrParentDomain(signature.domain, IdentityDomain(signature).value))
    && (signature.expiration.Some? ==> signature.expiration.value >= env.now)
    && (signature.expiration.Some? && signature.timestamp.Some? ==>
        signature.timestamp.value < signature.expiration.value)
    && (signature.queryMethod.Some? ==> AsksForDns(signature.queryMethod.value))
  }

  lemma {:induction false} SpeaksExactly(methods: seq<string>)
    ensures SpeaksDns(methods) <==> exists m :: m in methods && Without(Wsp, m) in {"dns/txt", "dns"}
  {
    hide Without;
    if methods != [] {
      SpeaksExactly(methods[1..]);
      assert methods == [methods[0]] + methods[1..];
      assert methods[0] in methods && forall m :: m in methods[1..] ==> m in methods;
    }
  }

  /** The domain of an identity is what follows its last "@". */
  lemma {:induction false} IdentityDomainIs(signature: Signature, local: string, domain: string)
    requires signature.identity == Some(local + ("@" + domain)) && '@' !in domain
    ensures IdentityDomain(signature) == Some(Lower(domain))
  {
    var identity := local + ("@" + domain);
    LastIndexOfIs(local, domain, '@');
    assert identity[|local| + 1..] == domain;
  }

  /** `l=` leaves the first octets of the canonical body in, all of them when it counts more. */
  lemma {:induction false} SignedBodyIs(bodies: Bodies, signature: Signature)
    ensures var octets := if signature.body.Simple? then bodies.simple else bodies.relaxed;
      && SignedBody(bodies, signature) <= octets
      && (signature.bodyLength.None? || signature.bodyLength.value >= |octets| ==> SignedBody(bodies, signature) == octets)
      && (signature.bodyLength.Some? ==> |SignedBody(bodies, signature)| <= signature.bodyLength.value)
      && (|SignedBody(bodies, signature)| < |octets| ==>
           signature.bodyLength == Some(|SignedBody(bodies, signature)|))
  {
  }

  // ---- Exactly when a signature is valid

  /** The canonical fields stand in the order they were asked for. */
  lemma {:induction false} FieldsInOrder(a: seq<Field>, b: seq<Field>, algorithm: Canonicalization)
    ensures CanonicalFields(a + b, algorithm) == CanonicalFields(a, algorithm) + CanonicalFields(b, algorithm)
    ensures forall field: Field :: CanonicalFields([field], algorithm) == CanonicalHeader(field.name, field.value, algorithm)
  {
    hide CanonicalHeader;
    forall field: Field
      ensures CanonicalFields([field], algorithm) == CanonicalHeader(field.name, field.value, algorithm)
    {
      assert [field][1..] == [];
    }
    if a == [] {
      assert a + b == b;
    } else {
      FieldsInOrder(a[1..], b, algorithm);
      assert (a + b)[1..] == a[1..] + b;
      Regroup(CanonicalHeader(a[0].name, a[0].value, algorithm), CanonicalFields(a[1..], algorithm),
        CanonicalFields(b, algorithm), "");
    }
  }

  /** The signed fields and the signature field with its `b=` deleted, as section 3.7 hashes them. */
  ghost predicate IsSigned(input: string, field: Field, headers: seq<string>, signature: Signature) {
    var picks := Picks(Names(headers), signature.signedHeaders);
    && Select(headers, signature.signedHeaders) == Ok(picks) && AreFieldLines(headers, picks)
    && var bare := DeleteTag(field.value, "b");
      bare.Ok? && input == CanonicalFields(FieldsAt(headers, picks), signature.header)
        + WithoutEnding(CanonicalHeader(field.name, bare.value, signature.header))
  }

  /** A key is found and may be used. */
  predicate HasUsableKey(key: Key, signature: Signature, env: Env) {
    env.keyOf(signature.domain, signature.selector) == Fetched(key) && IsUsableKey(key, signature)
  }

  /** What section 6.1 of RFC 6376 asks of a signature before its octets are checked against the key. */
  ghost predicate MayBeChecked(
    p: Prepared, b: string, field: Field, headers: seq<string>, bodies: Bodies, env: Env)
  {
    && JsText.Trim(field.value) != "" && Parse(field.value) == Ok((p.signature, b))
    && IsUsableSignature(p.signature, env) && HasFrom(headers) && HasUsableKey(p.key, p.signature, env)
    && env.hash(SignedBody(bodies, p.signature)) == p.signature.bodyHash
    && p.signedOctets == |SignedBody(bodies, p.signature)|
    && p.totalOctets == |CanonicalOctets(bodies, p.signature.body)|
    && IsSigned(p.input, field, headers, p.signature)
  }

  /** The key's own answer. */
  function CheckOf(p: Prepared, b: string, env: Env): Option<bool> {
    env.check(p.signature.algorithm, p.input, b, p.key)
  }

  lemma {:induction false} AsksExactly(signature: Signature)
    ensures signature.queryMethod.Some? ==>
      (SpeaksDns(SplitOn(Lower(signature.queryMethod.value), ':')) <==> AsksForDns(signature.queryMethod.value))
  {
    hide Lower, SplitOn;
    if signature.queryMethod.Some? {
      SpeaksExactly(SplitOn(Lower(signature.queryMethod.value), ':'));
    }
  }

  lemma {:induction false} RefusesExactly(signature: Signature, headers: seq<string>, env: Env)
    ensures RefuseSignature(signature, headers, env) == None <==>
      (IsUsableSignature(signature, env) && HasFrom(headers))
  {
    hide HasFrom, IdentityDomain, IsSameOrParentDomain, Lower, SplitOn, SpeaksDns, AsksForDns;
    AsksExactly(signature);
  }

  lemma {:induction false} KeyExactly(signature: Signature, env: Env, key: Key)
    ensures KeyFor(signature, env) == Ok(key) <==> HasUsableKey(key, signature, env)
  {
    hide IdentityDomain;
  }

  /** What was parsed can be deleted from. */
  lemma {:induction false} ParsedDeletes(raw: string)
    requires Parse(raw).Ok?
    ensures DeleteTag(raw, "b").Ok?
  {
    hide ScanTags, FromTags;
  }

  lemma {:induction false} InputExactly(field: Field, headers: seq<string>, signature: Signature, fields: seq<Field>)
    requires SignedFields(headers, signature.signedHeaders) == Ok(fields) && DeleteTag(field.value, "b").Ok?
    ensures forall input :: IsSigned(input, field, headers, signature) <==>
      input == Input(fields, field.name, field.value, signature.header)
  {
    hide DeleteTag, CanonicalFields, CanonicalHeader, WithoutEnding, Picks, Names, HasGrown, HasDisguised;
    PicksAreFields(headers, signature.signedHeaders);
  }

  lemma {:induction false} NotSigned(input: string, field: Field, headers: seq<string>, signature: Signature)
    requires SignedFields(headers, signature.signedHeaders).Err?
    ensures !IsSigned(input, field, headers, signature)
  {
    hide DeleteTag, CanonicalFields, CanonicalHeader, WithoutEnding, Picks, Names, HasGrown, HasDisguised;
  }

  lemma {:induction false} AssemblesExactly(
    signature: Signature, key: Key, field: Field, headers: seq<string>, bodies: Bodies, env: Env, p: Prepared)
    requires DeleteTag(field.value, "b").Ok?
    ensures Assemble(signature, key, field.name, field.value, headers, bodies, env) == Ok(p) <==>
      (p.signature == signature && p.key == key && env.hash(SignedBody(bodies, signature)) == signature.bodyHash
       && p.signedOctets == |SignedBody(bodies, signature)|
       && p.totalOctets == |CanonicalOctets(bodies, signature.body)|
       && IsSigned(p.input, field, headers, signature))
  {
    hide DeleteTag, Input, IsSigned, SignedFields, SignedBody, CanonicalOctets;
    match SignedFields(headers, signature.signedHeaders)
    case Ok(fields) => InputExactly(field, headers, signature, fields);
    case Err(_) => NotSigned(p.input, field, headers, signature);
  }

  lemma {:induction false} PreparesExactly(
    signature: Signature, field: Field, headers: seq<string>, bodies: Bodies, env: Env, p: Prepared)
    requires DeleteTag(field.value, "b").Ok?
    ensures Prepare(signature, field.name, field.value, headers, bodies, env) == Ok(p) <==>
      (p.signature == signature && IsUsableSignature(signature, env) && HasFrom(headers)
       && HasUsableKey(p.key, signature, env) && env.hash(SignedBody(bodies, signature)) == signature.bodyHash
       && p.signedOctets == |SignedBody(bodies, signature)|
       && p.totalOctets == |CanonicalOctets(bodies, signature.body)|
       && IsSigned(p.input, field, headers, signature))
  {
    hide DeleteTag, IsSigned, SignedBody, CanonicalOctets, IsUsableSignature, HasFrom, HasUsableKey, Assemble;
    hide RefuseSignature, KeyFor;
    RefusesExactly(signature, headers, env);
    KeyExactly(signature, env, p.key);
    var key := KeyFor(signature, env);
    if key.Ok? {
      KeyExactly(signature, env, key.value);
      AssemblesExactly(signature, key.value, field, headers, bodies, env, p);
    }
  }

  /**
   * A signature is checked exactly when it meets the standard; and it is valid exactly when the key's
   * own check of the octets of section 3.7 says so.
   */
  lemma {:induction false} ValidExactly(field: Field, headers: seq<string>, bodies: Bodies, env: Env)
    ensures var v := VerifyOne(field, headers, bodies, env);
      && (forall p, b :: MayBeChecked(p, b, field, headers, bodies, env) <==>
           (v.Checked? && v.prepared == p && v.b == b))
      && (v.Checked? ==>
           && (v.failure == None <==> CheckOf(v.prepared, v.b, env) == Some(true))
           && (v.failure == Some(WrongSignature) <==> CheckOf(v.prepared, v.b, env) == Some(false))
           && (v.failure == Some(CheckFailed) <==> CheckOf(v.prepared, v.b, env) == None))
  {
    hide Parse, Prepare, IsUsableSignature, HasFrom, HasUsableKey, SignedBody, CanonicalOctets, IsSigned, JsText.Trim;
    forall p, b
      ensures MayBeChecked(p, b, field, headers, bodies, env) <==>
        var v := VerifyOne(field, headers, bodies, env); v.Checked? && v.prepared == p && v.b == b
    {
      if Parse(field.value).Ok? {
        ParsedDeletes(field.value);
        PreparesExactly(Parse(field.value).value.0, field, headers, bodies, env, p);
      }
    }
  }

  // ---- Exactly when a message has a valid signature

  /** The message is within its limits, and its header section has one reading. */
  ghost predicate IsReadable(raw: string, env: Env) {
    && |raw| <= env.limits.message && RefusalOf(Block(raw)) == None
    && |Split(raw).headers| <= env.limits.headerFields
  }

  lemma {:induction false} SignatureLinesAreAll(headers: seq<string>)
    ensures forall at: nat :: at in SignatureLines(headers) <==> at < |headers| && IsSignatureLine(headers[at])
    ensures forall i, j :: 0 <= i < j < |SignatureLines(headers)| ==> SignatureLines(headers)[i] < SignatureLines(headers)[j]
  {
    hide IsSignatureLine;
    if headers != [] {
      var front := headers[..|headers| - 1];
      SignatureLinesAreAll(front);
      assert forall at :: 0 <= at < |front| ==> front[at] == headers[at];
      forall i | 0 <= i < |SignatureLines(front)|
        ensures SignatureLines(front)[i] < |front|
      {
        assert SignatureLines(front)[i] in SignatureLines(front);
      }
    }
  }

  lemma {:induction false} VerdictAt(headers: seq<string>, bodies: Bodies, env: Env, lines: seq<nat>, k: nat)
    requires k < |lines|
    ensures VerifyFields(headers, bodies, env, lines)[k] == VerifyAt(headers, bodies, env, k, lines[k])
  {
    hide VerifyAt;
    if k < |lines| - 1 {
      VerdictAt(headers, bodies, env, lines[..|lines| - 1], k);
    }
  }

  /** The `k`-th signature field of the message is one that may be checked, and its check is true. */
  ghost predicate IsValidAt(message: Message, env: Env, k: nat) {
    var lines := SignatureLines(message.headers);
    && k < |lines| && k < env.limits.signatures
    && lines[k] < |message.headers| && FieldOf(message.headers[lines[k]]).Some?
    && exists p, b ::
      && MayBeChecked(p, b, FieldOf(message.headers[lines[k]]).value, Others(message.headers, lines[k]),
           BodiesOf(message.body), env)
      && CheckOf(p, b, env) == Some(true)
  }

  lemma {:induction false} ValidAtExactly(message: Message, env: Env, k: nat)
    requires k < |SignatureLines(message.headers)|
    ensures var headers, lines := message.headers, SignatureLines(message.headers);
      IsValid(VerifyAt(headers, BodiesOf(message.body), env, k, lines[k])) <==> IsValidAt(message, env, k)
  {
    hide VerifyOne, MayBeChecked, BodiesOf, SignatureLines, CheckOf;
    var headers, at := message.headers, SignatureLines(message.headers)[k];
    if k < env.limits.signatures && at < |headers| && FieldOf(headers[at]).Some? {
      ValidExactly(FieldOf(headers[at]).value, Others(headers, at), BodiesOf(message.body), env);
    }
  }

  /**
   * The `k`-th verdict of a message is "valid" exactly when the message is readable and its `k`-th
   * signature field meets the standard with a key whose check is true.
   */
  lemma {:induction false} MessageIsValidExactly(raw: string, env: Env, k: nat)
    requires k < |VerifyAll(raw, env)|
    ensures IsValid(VerifyAll(raw, env)[k]) <==> IsReadable(raw, env) && IsValidAt(Split(raw), env, k)
  {
    hide RefusalOf, Block, Split, IsValidAt, SignatureLines, VerifyAt, BodiesOf, VerifyFields;
    var message := Split(raw);
    if IsReadable(raw, env) {
      if SignatureLines(message.headers) == [] {
        NoneIsValid(message, env, k);
      } else {
        ValidAtExactly(message, env, k);
        VerdictAt(message.headers, BodiesOf(message.body), env, SignatureLines(message.headers), k);
      }
    }
  }

  lemma {:induction false} NoneIsValid(message: Message, env: Env, k: nat)
    requires SignatureLines(message.headers) == []
    ensures !IsValidAt(message, env, k)
  {
  }

  /**
   * A signature is checked only when it and its key may be used, the body hash is the one it states,
   * and every line that anyone could read as From, of which there is one, is among the signed lines.
   */
  lemma {:induction false} CheckedCoversFrom(field: Field, headers: seq<string>, bodies: Bodies, env: Env)
    requires VerifyOne(field, headers, bodies, env).Checked?
    ensures var p := VerifyOne(field, headers, bodies, env).prepared;
      && (VerifyOne(field, headers, bodies, env).failure == None <==>
           CheckOf(p, VerifyOne(field, headers, bodies, env).b, env) == Some(true))
      && IsUsableSignature(p.signature, env) && IsUsableKey(p.key, p.signature)
      && env.hash(SignedBody(bodies, p.signature)) == p.signature.bodyHash
      && HasFrom(headers) && Select(headers, p.signature.signedHeaders).Ok?
      && forall i :: 0 <= i < |headers| && IsFromLine(headers[i]) ==>
           i in Select(headers, p.signature.signedHeaders).value
  {
    ValidExactly(field, headers, bodies, env);
    hide Parse, HasFrom, IsFromLine, Select, DeleteTag, SignedBody, IdentityDomain, AsksForDns, IsUsableKey, VerifyOne;
    hide JsText.Trim, AreHeaderNames, CanonicalOctets;
    var v := VerifyOne(field, headers, bodies, env);
    assert MayBeChecked(v.prepared, v.b, field, headers, bodies, env);
    ParsedNames(field.value);
    var names := Parse(field.value).value.0.signedHeaders;
    forall i | 0 <= i < |headers| && IsFromLine(headers[i])
      ensures i in Select(headers, names).value
    {
      FromLineIsTaken(headers, names, i);
    }
  }
}
