/**
 * Verifying every signature of a message (`email/dkim-verify.ts`). Hashing, key lookup and the
 * signature check are functions of the octets that reach them, and are not looked into.
 */
module DkimVerify {
  import opened Wrappers
  import opened MailLines
  import opened Octets
  import opened Scan
  import JsText
  import opened DkimMessage
  import opened DkimForbidden
  import opened DkimHeaders
  import opened DkimCanonicalize
  import opened DkimTagList
  import opened DkimSignature

  datatype Key = Key(
    octets: string, flags: Option<seq<string>>, hashAlgorithms: Option<seq<string>>, serviceTypes: Option<seq<string>>)

  datatype KeyAnswer = Fetched(key: Key) | Revoked | FetchFailed

  datatype Limits = Limits(message: nat, headerFields: nat, signatures: nat, signedNames: nat)

  datatype Env = Env(
    hash: string -> string, keyOf: (string, string) -> KeyAnswer,
    check: (Algorithm, string, string, Key) -> Option<bool>, now: nat, limits: Limits)

  datatype Reason =
    | MessageTooLong | LineEndings(refusal: Refusal) | TooManyFields | NoSignature | NotChecked | EmptySignature
    | Unreadable(error: SignatureError) | TooManyNames | FromNotSigned | NoFromField | ForeignIdentity | EmptyWindow
    | Expired | UnknownQuery | KeyRevoked | KeyFetchFailed | TestingKey | StrictIdentity | HashNotAllowed
    | NotForEmail | Selection(selectError: SelectError) | BodyHashMismatch | CheckFailed | WrongSignature

  /** What is checked against the key, and how much of the body it covers. */
  datatype Prepared = Prepared(signature: Signature, key: Key, input: string, signedOctets: nat, totalOctets: nat)

  datatype Verdict = Refused(reason: Reason) | Checked(prepared: Prepared, b: string, failure: Option<Reason>)

  // ---- The checks on the signature and on the key

  /** `headerNameMatches`. */
  ghost predicate NameMatches(name: string, target: string) {
    Lower(Trim(Padding, name)) == target || IsDisguised(Trim(Padding, name), {target})
  }

  ghost predicate IsFromLine(header: string) {
    FieldOf(header).Some? && NameMatches(FieldOf(header).value.name, "from")
  }

  ghost predicate HasFrom(headers: seq<string>) {
    exists i :: 0 <= i < |headers| && IsFromLine(headers[i])
  }

  /** `signerIdentityDomain`. */
  function IdentityDomain(signature: Signature): (d: Option<string>) {
    match signature.identity
    case None => None
    case Some(identity) =>
      Some(Lower(identity[LastIndexOf(identity, '@') + 1..]))
  }

  predicate EndsWith(s: string, end: string) {
    |s| >= |end| && s[|s| - |end|..] == end
  }

  predicate IsSameOrParentDomain(domain: string, candidate: string) {
    candidate == domain || EndsWith(candidate, "." + domain)
  }

  predicate SpeaksDns(methods: seq<string>) {
    methods != [] && (Without(Wsp, methods[0]) in {"dns/txt", "dns"} || SpeaksDns(methods[1..]))
  }

  /** The checks of `refuseSignatureHeader` that come after the one for a From field. */
  function RefuseDates(signature: Signature, env: Env): Option<Reason> {
    var identity := IdentityDomain(signature);
    if identity.Some? && !IsSameOrParentDomain(signature.domain, identity.value) then Some(ForeignIdentity)
    else if signature.expiration.Some? && signature.timestamp.Some?
      && signature.expiration.value <= signature.timestamp.value then Some(EmptyWindow)
    else if signature.expiration.Some? && signature.expiration.value < env.now then Some(Expired)
    else if signature.queryMethod.Some? && !SpeaksDns(SplitOn(Lower(signature.queryMethod.value), ':')) then
      Some(UnknownQuery)
    else None
  }

  /** `refuseSignatureHeader`. */
  ghost function RefuseSignature(signature: Signature, headers: seq<string>, env: Env): Option<Reason> {
    if |signature.signedHeaders| > env.limits.signedNames then Some(TooManyNames)
    else if "from" !in signature.signedHeaders then Some(FromNotSigned)
    else if !HasFrom(headers) then Some(NoFromField)
    else RefuseDates(signature, env)
  }

  predicate Lists(values: Option<seq<string>>, value: string) {
    values.Some? && value in values.value
  }

  /** `refuseKeyRecord`. */
  function RefuseKey(key: Key, signature: Signature): Option<Reason> {
    var identity := IdentityDomain(signature);
    if Lists(key.flags, "y") then Some(TestingKey)
    else if Lists(key.flags, "s") && identity.Some? && identity.value != signature.domain then Some(StrictIdentity)
    else if key.hashAlgorithms.Some? && !Lists(key.hashAlgorithms, "sha256") then Some(HashNotAllowed)
    else if key.serviceTypes.Some? && !Lists(key.serviceTypes, "*") && !Lists(key.serviceTypes, "email") then
      Some(NotForEmail)
    else None
  }

  /** The key to check with, or why there is none. */
  function KeyFor(signature: Signature, env: Env): Result<Key, Reason> {
    match env.keyOf(signature.domain, signature.selector)
    case FetchFailed => Err(KeyFetchFailed)
    case Revoked => Err(KeyRevoked)
    case Fetched(key) =>
      var refusal := RefuseKey(key, signature);
      if refusal.Some? then Err(refusal.value) else Ok(key)
  }

  // ---- What is hashed

  /** The body under both canonicalizations. */
  datatype Bodies = Bodies(simple: string, relaxed: string)

  function BodiesOf(body: string): Bodies {
    Bodies(CanonicalBody(body, Simple), CanonicalBody(body, Relaxed))
  }

  function CanonicalOctets(bodies: Bodies, algorithm: Canonicalization): string {
    if algorithm.Simple? then bodies.simple else bodies.relaxed
  }

  /** The octets of the canonical body that `l=` leaves in. */
  function SignedBody(bodies: Bodies, signature: Signature): string {
    var octets := CanonicalOctets(bodies, signature.body);
    if signature.bodyLength.Some? && signature.bodyLength.value < |octets| then octets[..signature.bodyLength.value]
    else octets
  }

  function CanonicalFields(fields: seq<Field>, algorithm: Canonicalization): string {
    if fields == [] then ""
    else CanonicalHeader(fields[0].name, fields[0].value, algorithm) + CanonicalFields(fields[1..], algorithm)
  }

  /** `replace(/\r\n$/, "")`. */
  function WithoutEnding(line: string): string {
    if |line| >= 2 && line[|line| - 2..] == CRLF then line[..|line| - 2] else line
  }

  /** The signature input: the signed fields, and the signature field without its `b=` value (section 3.7). */
  function Input(fields: seq<Field>, name: string, raw: string, algorithm: Canonicalization): string {
    var deleted := DeleteTag(raw, "b");
    CanonicalFields(fields, algorithm) +
    WithoutEnding(CanonicalHeader(name, if deleted.Ok? then deleted.value else raw, algorithm))
  }

  // ---- One signature, all signatures

  /** The steps after the key is known. */
  ghost function Assemble(
    signature: Signature, key: Key, name: string, raw: string, headers: seq<string>, bodies: Bodies, env: Env)
    : Result<Prepared, Reason>
  {
    match SignedFields(headers, signature.signedHeaders)
    case Err(error) => Err(Selection(error))
    case Ok(fields) =>
      var octets := SignedBody(bodies, signature);
      if env.hash(octets) != signature.bodyHash then Err(BodyHashMismatch)
      else
        Ok(Prepared(signature, key, Input(fields, name, raw, signature.header), |octets|,
          |CanonicalOctets(bodies, signature.body)|))
  }

  ghost function Prepare(
    signature: Signature, name: string, raw: string, headers: seq<string>, bodies: Bodies, env: Env)
    : Result<Prepared, Reason>
  {
    var refusal := RefuseSignature(signature, headers, env);
    if refusal.Some? then Err(refusal.value)
    else
      match KeyFor(signature, env)
      case Err(reason) => Err(reason)
      case Ok(key) => Assemble(signature, key, name, raw, headers, bodies, env)
  }

  /** `verifyOneSignature`: `field` is the signature, `headers` are all the other lines. */
  ghost function VerifyOne(field: Field, headers: seq<string>, bodies: Bodies, env: Env): Verdict {
    if JsText.Trim(field.value) == "" then Refused(EmptySignature)
    else
      match Parse(field.value)
      case Err(error) => Refused(Unreadable(error))
      case Ok((signature, b)) =>
        match Prepare(signature, field.name, field.value, headers, bodies, env)
        case Err(reason) => Refused(reason)
        case Ok(prepared) => Conclude(prepared, b, env)
  }

  function Conclude(prepared: Prepared, b: string, env: Env): Verdict {
    var answer := env.check(prepared.signature.algorithm, prepared.input, b, prepared.key);
    Checked(prepared, b,
      if answer.None? then Some(CheckFailed) else if answer.value then None else Some(WrongSignature))
  }

  predicate IsValid(verdict: Verdict) {
    verdict.Checked? && verdict.failure == None
  }

  predicate IsSignatureLine(header: string) {
    NameOf(header) == Some("dkim-signature")
  }

  function SignatureLines(headers: seq<string>): seq<nat> {
    if headers == [] then []
    else
      var last := |headers| - 1;
      SignatureLines(headers[..last]) + if IsSignatureLine(headers[last]) then [last] else []
  }

  function Others(headers: seq<string>, at: nat): seq<string>
    requires at < |headers|
  {
    headers[..at] + headers[at + 1..]
  }

  /** The result for the `index`-th signature field, which is line `at`. */
  ghost function VerifyAt(headers: seq<string>, bodies: Bodies, env: Env, index: nat, at: nat): Verdict {
    if index >= env.limits.signatures then Refused(NotChecked)
    else if at < |headers| && FieldOf(headers[at]).Some? then
      VerifyOne(FieldOf(headers[at]).value, Others(headers, at), bodies, env)
    else Refused(NoSignature)
  }

  ghost function VerifyFields(headers: seq<string>, bodies: Bodies, env: Env, lines: seq<nat>): (r: seq<Verdict>)
    ensures |r| == |lines|
  {
    if lines == [] then []
    else
      var last := |lines| - 1;
      VerifyFields(headers, bodies, env, lines[..last]) + [VerifyAt(headers, bodies, env, last, lines[last])]
  }

  ghost function VerifyMessage(message: Message, env: Env): seq<Verdict> {
    if |message.headers| > env.limits.headerFields then [Refused(TooManyFields)]
    else if SignatureLines(message.headers) == [] then [Refused(NoSignature)]
    else VerifyFields(message.headers, BodiesOf(message.body), env, SignatureLines(message.headers))
  }

  /** `verifyDkimSignatures`. */
  ghost function VerifyAll(raw: string, env: Env): seq<Verdict> {
    if |raw| > env.limits.message then [Refused(MessageTooLong)]
    else
      match RefusalOf(Block(raw))
      case Some(refusal) => [Refused(LineEndings(refusal))]
      case None => VerifyMessage(Split(raw), env)
  }

  lemma {:induction false} SignatureLinesAre(headers: seq<string>, k: nat)
    requires k < |SignatureLines(headers)|
    ensures var at := SignatureLines(headers)[k]; at < |headers| && IsSignatureLine(headers[at])
  {
    var front := headers[..|headers| - 1];
    if k < |SignatureLines(front)| {
      SignatureLinesAre(front, k);
    }
  }

  // ---- The methods

  method FindFrom(headers: seq<string>) returns (found: bool)
    ensures found <==> HasFrom(headers)
  {
    for i := 0 to |headers|
      invariant forall k :: 0 <= k < i ==> !IsFromLine(headers[k])
    {
      var colon := IndexOf(headers[i], ':');
      if colon != -1 {
        var trimmed := Trimmed(Padding, headers[i][..colon]);
        var loose: Option<string> := None;
        if Lower(trimmed) != "from" {
          loose := LooseHeaderNameMatch(trimmed, {"from"}, 4);
        }
        if Lower(trimmed) == "from" || loose.Some? {
          assert IsFromLine(headers[i]);
          return true;
        }
      }
    }
    found := false;
  }

  method FindSignatureLines(headers: seq<string>) returns (lines: seq<nat>)
    ensures lines == SignatureLines(headers)
  {
    lines := [];
    for i := 0 to |headers|
      invariant lines == SignatureLines(headers[..i])
    {
      assert headers[..i + 1][..i] == headers[..i] && headers[..i + 1][i] == headers[i];
      if IsSignatureLine(headers[i]) {
        lines := lines + [i];
      }
    }
    assert headers[..|headers|] == headers;
  }

  method SignatureInput(fields: seq<Field>, name: string, raw: string, algorithm: Canonicalization)
    returns (input: string)
    ensures input == Input(fields, name, raw, algorithm)
  {
    hide DeleteTag, CanonicalHeader;
    var parts := "";
    assert fields[0..] == fields;
    for k := 0 to |fields|
      invariant CanonicalFields(fields, algorithm) == parts + CanonicalFields(fields[k..], algorithm)
    {
      var line := CanonicalizeHeader(fields[k].name, fields[k].value, algorithm);
      assert fields[k..][1..] == fields[k + 1..] && fields[k..][0] == fields[k];
      Regroup(parts, line, CanonicalFields(fields[k + 1..], algorithm), "");
      parts := parts + line;
    }
    assert fields[|fields|..] == [] && parts + "" == parts;
    var deleted := DeleteTagValue(raw, "b");
    var line := CanonicalizeHeader(name, if deleted.Ok? then deleted.value else raw, algorithm);
    input := parts + WithoutEnding(line);
  }

  method AssembleInput(
    signature: Signature, key: Key, name: string, raw: string, headers: seq<string>, bodies: Bodies, env: Env)
    returns (r: Result<Prepared, Reason>)
    ensures r == Assemble(signature, key, name, raw, headers, bodies, env)
  {
    hide SignedFields, Input, SignedBody, CanonicalOctets;
    var selected := SelectSignedHeaders(headers, signature.signedHeaders);
    match selected
    case Err(error) => r := Err(Selection(error));
    case Ok(fields) =>
      var octets := SignedBody(bodies, signature);
      if env.hash(octets) != signature.bodyHash {
        return Err(BodyHashMismatch);
      }
      var input := SignatureInput(fields, name, raw, signature.header);
      r := Ok(Prepared(signature, key, input, |octets|, |CanonicalOctets(bodies, signature.body)|));
  }

  method VerifyOneSignature(field: Field, headers: seq<string>, bodies: Bodies, env: Env) returns (verdict: Verdict)
    ensures verdict == VerifyOne(field, headers, bodies, env)
  {
    hide Parse, Assemble, KeyFor, RefuseDates, HasFrom;
    if JsText.Trim(field.value) == "" {
      return Refused(EmptySignature);
    }
    var parsed := Parse(field.value);
    if parsed.Err? {
      return Refused(Unreadable(parsed.error));
    }
    var signature, b := parsed.value.0, parsed.value.1;
    if |signature.signedHeaders| > env.limits.signedNames {
      return Refused(TooManyNames);
    }
    if "from" !in signature.signedHeaders {
      return Refused(FromNotSigned);
    }
    var hasFrom := FindFrom(headers);
    if !hasFrom {
      return Refused(NoFromField);
    }
    var refusal := RefuseDates(signature, env);
    if refusal.Some? {
      return Refused(refusal.value);
    }
    var key := KeyFor(signature, env);
    if key.Err? {
      return Refused(key.error);
    }
    var prepared := AssembleInput(signature, key.value, field.name, field.value, headers, bodies, env);
    match prepared
    case Err(reason) => verdict := Refused(reason);
    case Ok(p) => verdict := Conclude(p, b, env);
  }

  method VerifyLines(headers: seq<string>, bodies: Bodies, env: Env, lines: seq<nat>) returns (results: seq<Verdict>)
    requires forall k :: 0 <= k < |lines| ==> lines[k] < |headers| && FieldOf(headers[lines[k]]).Some?
    ensures results == VerifyFields(headers, bodies, env, lines)
  {
    hide VerifyOne, FieldOf;
    results := [];
    for index := 0 to |lines|
      invariant results == VerifyFields(headers, bodies, env, lines[..index])
    {
      var at := lines[index];
      assert lines[..index + 1][..index] == lines[..index] && lines[..index + 1][index] == at;
      if index >= env.limits.signatures {
        results := results + [Refused(NotChecked)];
      } else {
        var verdict := VerifyOneSignature(FieldOf(headers[at]).value, Others(headers, at), bodies, env);
        results := results + [verdict];
      }
    }
    assert lines[..|lines|] == lines;
  }

  method VerifyDkimSignatures(raw: string, env: Env) returns (results: seq<Verdict>)
    ensures results == VerifyAll(raw, env)
  {
    hide RefusalOf, VerifyFields, SignatureLines, CanonicalBody;
    if |raw| > env.limits.message {
      return [Refused(MessageTooLong)];
    }
    var refusal := RefuseHeaderLineEndings(raw);
    if refusal.Some? {
      return [Refused(LineEndings(refusal.value))];
    }
    var message := SplitMessage(raw);
    if |message.headers| > env.limits.headerFields {
      return [Refused(TooManyFields)];
    }
    var fields := FindSignatureLines(message.headers);
    if fields == [] {
      return [Refused(NoSignature)];
    }
    forall k | 0 <= k < |fields|
      ensures fields[k] < |message.headers| && FieldOf(message.headers[fields[k]]).Some?
    {
      SignatureLinesAre(message.headers, k);
    }
    var simple := CanonicalizeBody(message.body, Simple);
    var relaxed := CanonicalizeBody(message.body, Relaxed);
    results := VerifyLines(message.headers, Bodies(simple, relaxed), env, fields);
  }

  /** The first valid verdict, or the first of all. */
  predicate IsFirstValid(verdicts: seq<Verdict>, k: int) {
    0 <= k < |verdicts| && (IsValid(verdicts[k]) || k == 0) && forall j :: 0 <= j < k ==> !IsValid(verdicts[j])
  }

  /** `verifyDkim`: the first valid verdict, or the first of all when none is valid. */
  method VerifyDkim(raw: string, env: Env) returns (verdict: Verdict)
    ensures IsValid(verdict) <==> exists k :: 0 <= k < |VerifyAll(raw, env)| && IsValid(VerifyAll(raw, env)[k])
    ensures exists k :: IsFirstValid(VerifyAll(raw, env), k) && verdict == VerifyAll(raw, env)[k]
  {
    var results := VerifyDkimSignatures(raw, env);
    NeverEmpty(raw, env);
    hide VerifyAll;
    for k := 0 to |results|
      invariant forall j :: 0 <= j < k ==> !IsValid(results[j])
    {
      if IsValid(results[k]) {
        assert IsFirstValid(results, k);
        return results[k];
      }
    }
    verdict := results[0];
    assert IsFirstValid(results, 0);
  }

  lemma {:induction false} NeverEmpty(raw: string, env: Env)
    ensures VerifyAll(raw, env) != []
  {
    hide RefusalOf, SignatureLines, VerifyAt, BodiesOf, Split, Block;
  }
}
