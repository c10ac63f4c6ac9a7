/**
 * Verdicts do not depend on how storage ends lines, on the fields a relay adds, or, up to the final
 * check, on the value of `b=` (`email/dkim-verify.ts`; sections 3.7 and 5.4.2 of RFC 6376).
 */
module DkimInvariance {
  import opened Wrappers
  import opened MailLines
  import opened Octets
  import JsText
  import Scan
  import opened DkimMessage
  import opened DkimForbidden
  import opened DkimPairing
  import opened DkimHeaders
  import opened DkimCanonicalize
  import opened DkimTagList
  import opened DkimSignature
  import opened DkimVerify
  import opened DkimStorage

  // ---- Storage

  lemma {:induction false} SameBodies(body: seq<string>)
    requires body != [] && AreLines(body, LF)
    ensures BodiesOf(JoinLines(body, LF)) == BodiesOf(JoinLines(body, CRLF))
  {
    BodyStorage(body, Simple);
    BodyStorage(body, Relaxed);
  }

  /** A message gets the same verdicts whether its lines are stored with CRLF or with LF. */
  lemma {:induction false} StorageMakesNoDifference(head: seq<string>, body: seq<string>, env: Env)
    requires ArePlainHeaders(head) && body != [] && AreLines(body, LF)
    requires |Stored(head, body, LF)| <= env.limits.message && |Stored(head, body, CRLF)| <= env.limits.message
    ensures VerifyAll(Stored(head, body, LF), env) == VerifyAll(Stored(head, body, CRLF), env)
  {
    hide Stored, Split, Block, RefusalOf, VerifyFields, SignatureLines, BodiesOf;
    RefusalOfStored(head, body, LF);
    RefusalOfStored(head, body, CRLF);
    PlainAreHeaderLines(head);
    SplitUndoesStore(head, body, LF);
    SplitUndoesStore(head, body, CRLF);
    SameBodies(body);
  }

  // ---- Relays

  predicate IsPrintableName(name: string) {
    name != "" && forall i :: 0 <= i < |name| ==> !In(Padding, name[i])
  }

  /** A field that a relay puts on top: its name is written plainly and is one relays add. */
  predicate IsRelayField(header: string) {
    && FieldOf(header).Some? && IsPrintableName(FieldOf(header).value.name)
    && IsTransitAdded(Lower(FieldOf(header).value.name))
  }

  /** A field that is folded over several lines. */
  function Folded(top: string, conts: seq<string>): string
    decreases |conts|
  {
    if conts == [] then top else Folded(top + (CRLF + conts[0]), conts[1..])
  }

  /** Lines that continue a field, as a header section may hold them. */
  predicate AreContinuations(conts: seq<string>) {
    forall i :: 0 <= i < |conts| ==> Continues(conts[i])
  }

  /** No octet sequence in the lines is refused. */
  ghost predicate AreAllowed(lines: seq<string>) {
    !HasForbiddenLine(LINE_BREAKS, RAW_LINE_BREAKS, lines)
  }

  lemma {:induction false} PrintableIsTrim(name: string)
    requires IsPrintableName(name)
    ensures Trim(Padding, name) == name && Strip(name) == name
  {
    TrimBetween(Padding, "", name, "");
    assert "" + name + "" == name;
    PlainIsStripped(name);
  }

  /** A plain name reads only as itself. */
  lemma {:induction false} PlainNameReadsAsItself(name: string, targets: set<string>)
    requires IsPrintableName(name)
    ensures IsDisguised(name, targets) <==> Lower(name) in targets
  {
    hide Lower;
    PrintableIsTrim(name);
    assert name[..|name|] == name;
    assert ReadsAs(name, |name|, targets) <==> Lower(name) in targets;
  }

  lemma {:induction false} TransitNames(name: string)
    requires IsTransitAdded(name)
    ensures name != "from" && name != "dkim-signature"
  {
    if "resent-" <= name {
      assert name[0] == 'r';
    } else if "arc-" <= name {
      assert name[0] == 'a';
    }
  }

  lemma {:induction false} RelayFieldNames(line: string)
    requires IsRelayField(line)
    ensures var name := FieldOf(line).value.name;
      NameOf(line) == Some(Lower(name)) && TrimmedName(line) == Some(name) && IsTransitAdded(Lower(name))
  {
    PrintableIsTrim(FieldOf(line).value.name);
  }

  lemma {:induction false} RelayFieldIsNoFrom(line: string)
    requires IsRelayField(line)
    ensures !IsFromLine(line) && !IsSignatureLine(line)
  {
    hide HasForbidden, FieldOf, IsTransitAdded, Lower;
    var name := FieldOf(line).value.name;
    RelayFieldNames(line);
    TransitNames(Lower(name));
    PrintableIsTrim(name);
    PlainNameReadsAsItself(name, {"from"});
  }

  lemma {:induction false} SameFrom(line: string, headers: seq<string>)
    requires IsRelayField(line)
    ensures HasFrom([line] + headers) <==> HasFrom(headers)
  {
    hide IsFromLine, IsRelayField;
    RelayFieldIsNoFrom(line);
    var all := [line] + headers;
    assert all[0] == line;
    if HasFrom(headers) {
      var i :| 0 <= i < |headers| && IsFromLine(headers[i]);
      assert all[i + 1] == headers[i];
    }
    if HasFrom(all) {
      var i :| 0 <= i < |all| && IsFromLine(all[i]);
      assert i > 0 && headers[i - 1] == all[i];
    }
  }

  lemma {:induction false} RelayFieldIsHarmless(line: string, headers: seq<string>, names: seq<string>)
    requires IsRelayField(line) && !IsOversigned(NameOf(line), Names(headers), names)
    ensures IsHarmless(line, headers, names)
  {
    hide HasForbidden, FieldOf, IsTransitAdded, Lower;
    RelayFieldNames(line);
    PlainNameReadsAsItself(FieldOf(line).value.name, AskedNames(names));
  }

  lemma {:induction false} GrownBelow(line: Option<string>, lines: seq<Option<string>>, names: seq<string>)
    requires HasGrown(lines, names)
    ensures HasGrown([line] + lines, names)
  {
    hide IsTransitAdded;
    var name :| 0 < Count(names, name) < |Instances(lines, name)| && !IsTransitAdded(name);
    InstancesBelow(line, lines, name);
    assert 0 < Count(names, name) < |Instances([line] + lines, name)|;
  }

  /** Selection gives the same fields, or refuses for the same reason, under a line a relay added. */
  lemma {:induction false} SameSelection(line: string, headers: seq<string>, names: seq<string>)
    requires IsHarmless(line, headers, names)
    ensures SignedFields([line] + headers, names) == SignedFields(headers, names)
  {
    hide IsTransitAdded, NameOf, Names, HasDisguised, FieldOf;
    NamesBelow(line, headers);
    if Select(headers, names).Ok? {
      HarmlessIsUnseen(line, headers, names);
      PicksAreFields(headers, names);
      FieldsBelow(line, headers, Picks(Names(headers), names));
    } else if HasGrown(Names(headers), names) {
      GrownBelow(NameOf(line), Names(headers), names);
    } else {
      DisguisedBelow(line, headers, names);
      TransitKeepsGrown(NameOf(line), Names(headers), names);
    }
  }

  /** The signature does not ask for the relay's field once more than the message had it. */
  ghost predicate LeavesAlone(field: Field, headers: seq<string>, line: string) {
    Parse(field.value).Ok? ==> !IsOversigned(NameOf(line), Names(headers), Parse(field.value).value.0.signedHeaders)
  }

  lemma {:induction false} SamePrepared(
    line: string, signature: Signature, name: string, raw: string, headers: seq<string>, bodies: Bodies, env: Env)
    requires IsRelayField(line) && !IsOversigned(NameOf(line), Names(headers), signature.signedHeaders)
    ensures Prepare(signature, name, raw, [line] + headers, bodies, env) ==
      Prepare(signature, name, raw, headers, bodies, env)
  {
    hide IsRelayField, IsOversigned, HasFrom, SignedFields, KeyFor, RefuseDates, Input, SignedBody, IsHarmless;
    SameFrom(line, headers);
    RelayFieldIsHarmless(line, headers, signature.signedHeaders);
    SameSelection(line, headers, signature.signedHeaders);
  }

  lemma {:induction false} SameVerdict(line: string, field: Field, headers: seq<string>, bodies: Bodies, env: Env)
    requires IsRelayField(line) && LeavesAlone(field, headers, line)
    ensures VerifyOne(field, [line] + headers, bodies, env) == VerifyOne(field, headers, bodies, env)
  {
    hide IsRelayField, IsOversigned, Prepare, Parse, JsText.Trim;
    if Parse(field.value).Ok? {
      SamePrepared(line, Parse(field.value).value.0, field.name, field.value, headers, bodies, env);
    }
  }

  lemma {:induction false} SignatureLinesBelow(line: string, headers: seq<string>)
    requires !IsSignatureLine(line)
    ensures SignatureLines([line] + headers) == AddOne(SignatureLines(headers))
  {
    hide IsSignatureLine;
    var all := [line] + headers;
    if headers == [] {
      assert all == [line] && all[..0] == [];
    } else {
      var n := |headers| - 1;
      SignatureLinesBelow(line, headers[..n]);
      assert all[..n + 1] == [line] + headers[..n] && all[n + 1] == headers[n];
      AddOneAppend(SignatureLines(headers[..n]), if IsSignatureLine(headers[n]) then [n] else []);
    }
  }

  /** Every signature of the message leaves the relay's field alone. */
  ghost predicate AllLeaveAlone(headers: seq<string>, line: string) {
    forall at :: 0 <= at < |headers| && IsSignatureLine(headers[at]) && FieldOf(headers[at]).Some? ==>
      LeavesAlone(FieldOf(headers[at]).value, Others(headers, at), line)
  }

  lemma {:induction false} SameVerdictAt(
    line: string, headers: seq<string>, bodies: Bodies, env: Env, index: nat, at: nat)
    requires IsRelayField(line) && AllLeaveAlone(headers, line) && at < |headers| && IsSignatureLine(headers[at])
    ensures VerifyAt([line] + headers, bodies, env, index, at + 1) == VerifyAt(headers, bodies, env, index, at)
  {
    hide IsRelayField, LeavesAlone, VerifyOne, FieldOf;
    var all := [line] + headers;
    assert all[at + 1] == headers[at];
    if FieldOf(headers[at]).Some? {
      assert Others(all, at + 1) == [line] + Others(headers, at);
      SameVerdict(line, FieldOf(headers[at]).value, Others(headers, at), bodies, env);
    }
  }

  lemma {:induction false} SameVerdicts(
    line: string, headers: seq<string>, bodies: Bodies, env: Env, lines: seq<nat>)
    requires IsRelayField(line) && AllLeaveAlone(headers, line)
    requires forall k :: 0 <= k < |lines| ==> lines[k] < |headers| && IsSignatureLine(headers[lines[k]])
    ensures VerifyFields([line] + headers, bodies, env, AddOne(lines)) == VerifyFields(headers, bodies, env, lines)
  {
    hide IsRelayField, AllLeaveAlone, VerifyAt, IsSignatureLine;
    if lines != [] {
      var last := |lines| - 1;
      SameVerdicts(line, headers, bodies, env, lines[..last]);
      SameVerdictAt(line, headers, bodies, env, last, lines[last]);
      assert AddOne(lines)[..last] == AddOne(lines[..last]);
    }
  }

  lemma {:induction false} FieldsOnTop(top: string, lines: seq<string>, fields: seq<string>)
    requires fields != [] || lines == [] || !Continues(lines[0])
    ensures Fields(lines, [top] + fields) == [top] + Fields(lines, fields)
    decreases |lines|
  {
    hide Continues;
    if lines != [] {
      AddLineOnTop(top, fields, lines[0]);
      FieldsOnTop(top, lines[1..], AddLine(fields, lines[0]));
    }
  }

  lemma {:induction false} AddLineOnTop(top: string, fields: seq<string>, line: string)
    requires fields != [] || !Continues(line)
    ensures AddLine([top] + fields, line) == [top] + AddLine(fields, line) && AddLine(fields, line) != []
  {
    hide Continues;
    if Continues(line) && fields != [] {
      var last := |fields| - 1;
      assert ([top] + fields)[..last + 1] == [top] + fields[..last];
    }
  }

  /** The lines of a folded field unfold into it. */
  lemma {:induction false} FoldedIsOneField(top: string, conts: seq<string>, rest: seq<string>)
    requires AreContinuations(conts)
    ensures Fields(conts + rest, [top]) == Fields(rest, [Folded(top, conts)])
    decreases |conts|
  {
    hide Continues;
    if conts == [] {
      assert conts + rest == rest;
    } else {
      assert (conts + rest)[0] == conts[0] && (conts + rest)[1..] == conts[1..] + rest;
      assert AddLine([top], conts[0]) == [top + (CRLF + conts[0])];
      FoldedIsOneField(top + (CRLF + conts[0]), conts[1..], rest);
    }
  }

  lemma {:induction false} FoldedBegins(top: string, conts: seq<string>)
    ensures top <= Folded(top, conts)
    ensures top == "" && conts != [] ==> Folded(top, conts) != "" && Folded(top, conts)[0] == '\r'
    decreases |conts|
  {
    if conts != [] {
      var next := top + (CRLF + conts[0]);
      FoldedBegins(next, conts[1..]);
      assert top == "" ==> next[0] == '\r';
    }
  }

  /** The first line of a relay's field begins with its name. */
  lemma {:induction false} RelayFieldBegins(top: string, conts: seq<string>)
    requires IsRelayField(Folded(top, conts))
    ensures top != "" && !Continues(top)
  {
    var header := Folded(top, conts);
    var name := FieldOf(header).value.name;
    FoldedBegins(top, conts);
    assert name == header[..|name|] && name[0] == header[0] && !In(Padding, header[0]);
    assert top != "";
    assert top[0] == header[0];
  }

  /** A relay's field on top of a header section is one more field, and refused for nothing. */
  lemma {:induction false} RelayFieldOnTop(top: string, conts: seq<string>, head: seq<string>)
    requires IsRelayField(Folded(top, conts)) && AreContinuations(conts)
    requires ArePlain([top] + conts) && AreAllowed([top] + conts)
    requires ArePlainHeaders(head) && !Continues(head[0])
    ensures var lines := [top] + conts;
      && ArePlainHeaders(lines + head) && Fields(lines + head, []) == [Folded(top, conts)] + Fields(head, [])
      && (HasForbiddenLine(LINE_BREAKS, RAW_LINE_BREAKS, lines + head + [""]) <==>
           HasForbiddenLine(LINE_BREAKS, RAW_LINE_BREAKS, head + [""]))
  {
    hide HasForbidden, IsRelayField;
    var lines := [top] + conts;
    RelayFieldBegins(top, conts);
    AppendPlain(lines, head);
    Regroup([top], conts, head, []);
    assert (lines + head)[0] == top && (lines + head)[1..] == conts + head;
    assert AddLine([], top) == [top];
    FoldedIsOneField(top, conts, head);
    FieldsOnTop(Folded(top, conts), head, []);
    assert [Folded(top, conts)] + [] == [Folded(top, conts)];
    AllowedLines(lines, head + [""]);
    Regroup(lines, head, [""], []);
  }

  lemma {:induction false} AppendPlain(lines: seq<string>, head: seq<string>)
    requires ArePlain(lines) && ArePlainHeaders(head) && forall i :: 0 <= i < |lines| ==> lines[i] != ""
    ensures ArePlainHeaders(lines + head)
  {
  }

  lemma {:induction false} AllowedLines(lines: seq<string>, rest: seq<string>)
    requires AreAllowed(lines)
    ensures HasForbiddenLine(LINE_BREAKS, RAW_LINE_BREAKS, lines + rest) <==>
      HasForbiddenLine(LINE_BREAKS, RAW_LINE_BREAKS, rest)
  {
    hide HasForbidden;
    var all := lines + rest;
    assert forall i :: 0 <= i < |lines| ==> all[i] == lines[i];
    if HasForbiddenLine(LINE_BREAKS, RAW_LINE_BREAKS, rest) {
      var i :| 0 <= i < |rest| && HasForbidden(LINE_BREAKS, RAW_LINE_BREAKS, Codes(rest[i]));
      assert all[|lines| + i] == rest[i];
    }
    if HasForbiddenLine(LINE_BREAKS, RAW_LINE_BREAKS, all) {
      var i :| 0 <= i < |all| && HasForbidden(LINE_BREAKS, RAW_LINE_BREAKS, Codes(all[i]));
      assert i >= |lines| && rest[i - |lines|] == all[i];
    }
  }

  /**
   * A message gets the same verdicts with and without the field a relay put on top of it, folded over
   * as many lines as it likes.
   */
  lemma {:induction false} RelaysMakeNoDifference(
    top: string, conts: seq<string>, head: seq<string>, body: seq<string>, eol: string, env: Env)
    requires (eol == CRLF || eol == LF) && body != []
    requires IsRelayField(Folded(top, conts)) && AreContinuations(conts)
    requires ArePlain([top] + conts) && AreAllowed([top] + conts)
    requires ArePlainHeaders(head) && !Continues(head[0])
    requires AllLeaveAlone(Fields(head, []), Folded(top, conts))
    requires |Stored([top] + conts + head, body, eol)| <= env.limits.message
    requires |Stored(head, body, eol)| <= env.limits.message && |Fields(head, [])| < env.limits.headerFields
    ensures VerifyAll(Stored([top] + conts + head, body, eol), env) == VerifyAll(Stored(head, body, eol), env)
  {
    hide Stored, Split, Block, RefusalOf, VerifyFields, SignatureLines, BodiesOf, IsRelayField, AllLeaveAlone;
    hide HasForbiddenLine, Fields, IsSignatureLine, Continues, ArePlain, Folded;
    var line, headers := Folded(top, conts), Fields(head, []);
    RelayFieldOnTop(top, conts, head);
    var all := [top] + conts + head;
    RefusalOfStored(head, body, eol);
    RefusalOfStored(all, body, eol);
    PlainAreHeaderLines(head);
    PlainAreHeaderLines(all);
    SplitUndoesStore(head, body, eol);
    SplitUndoesStore(all, body, eol);
    RelayFieldIsNoFrom(line);
    SignatureLinesBelow(line, headers);
    forall k | 0 <= k < |SignatureLines(headers)|
      ensures SignatureLines(headers)[k] < |headers| && IsSignatureLine(headers[SignatureLines(headers)[k]])
    {
      SignatureLinesAre(headers, k);
    }
    SameVerdicts(line, headers, BodiesOf(JoinLines(body, eol)), env, SignatureLines(headers));
  }

  // ---- The value of b=

  /** Two texts of the tag `b=` that differ in the value and in the white space before it. */
  predicate AreBTags(p: Printed, q: Printed) {
    && IsPrintable(p) && IsPrintable(q) && Lower(p.name) == "b"
    && q.lead == p.lead && q.name == p.name && q.before == p.before && q.trail == p.trail
    && UnfoldValue(p.value) != "" && UnfoldValue(q.value) != ""
  }

  lemma {:induction false} SameParsed(
    before: seq<Printed>, p: Printed, q: Printed, after: seq<Printed>, tail: string)
    requires IsTagList(before + [p] + after, tail) && AreNew(before + [p] + after, {}) && AreBTags(p, q)
    ensures var a, b := Parse(Print(before + [p] + after, tail)), Parse(Print(before + [q] + after, tail));
      (a.Err? && b.Err? && a.error == b.error) || (a.Ok? && b.Ok? && a.value.0 == b.value.0)
  {
    hide ScanTags, Lower, IsPrintable, IsTagList, AreNew, UnfoldValue, Print, FromTags, Values;
    ScanSwapped(before, p, q, after, tail);
    ScanSwapped(before, p, p, after, tail);
    var scanned := ScanTags(Print(before + [p] + after, tail));
    OnlyPresenceOfB(Values(scanned.value), UnfoldValue(q.value));
  }

  lemma {:induction false} SameDeleted(
    before: seq<Printed>, p: Printed, q: Printed, after: seq<Printed>, tail: string)
    requires IsTagList(before + [p] + after, tail) && AreNew(before + [p] + after, {}) && AreBTags(p, q)
    ensures DeleteTag(Print(before + [p] + after, tail), "b").Ok?
    ensures DeleteTag(Print(before + [q] + after, tail), "b") == DeleteTag(Print(before + [p] + after, tail), "b")
  {
    hide DeleteTag, Lower, IsPrintable, IsTagList, AreNew, UnfoldValue, Print;
    SwapKeepsTagList(before, p, q, after, tail);
    var none: map<string, string> := map[];
    assert none.Keys == {};
    OneValue(before, p, q, after, none);
    DeleteFromList(before, p, after, tail);
    DeleteFromList(before, q, after, tail);
    assert Emptied(p) == Emptied(q);
  }

  lemma {:induction false} BlankIsSpace(s: string, i: nat)
    requires JsText.Trim(s) == "" && i < |s|
    ensures JsText.IsJsSpace(s[i])
  {
    var t := JsText.TrimStart(s);
    if t != "" {
      NotAllBlank(t);
    }
    LeadingBlank(s, i);
  }

  lemma {:induction false} NotAllBlank(t: string)
    requires t != "" && JsText.TrimEnd(t) == ""
    ensures JsText.IsJsSpace(t[0])
  {
    if |t| > 1 {
      NotAllBlank(t[..|t| - 1]);
    }
  }

  lemma {:induction false} StartsUnblank(s: string)
    ensures var t := JsText.TrimStart(s); t == "" || !JsText.IsJsSpace(t[0])
  {
    if s != "" && JsText.IsJsSpace(s[0]) {
      StartsUnblank(s[1..]);
    }
  }

  lemma {:induction false} LeadingBlank(s: string, i: nat)
    requires i < |s| && JsText.TrimEnd(JsText.TrimStart(s)) == ""
    ensures JsText.IsJsSpace(s[i])
  {
    var t := JsText.TrimStart(s);
    StartsUnblank(s);
    if t != "" {
      NotAllBlank(t);
    }
    if i > 0 {
      LeadingBlank(s[1..], i - 1);
    }
  }

  lemma {:induction false} PrintedIsNotBlank(before: seq<Printed>, p: Printed, after: seq<Printed>, tail: string)
    ensures JsText.Trim(Print(before + [p] + after, tail)) != ""
  {
    var raw := Print(before + [p] + after, tail);
    PrintAround(before, p, after, tail);
    var at := |Print(before, "")| + |p.lead| + |p.name| + |p.before|;
    var front := p.lead + (p.name + p.before);
    EqualsAt(Print(before, ""), p, Print(after, tail));
    if JsText.Trim(raw) == "" {
      BlankIsSpace(raw, at);
    }
  }

  lemma {:induction false} EqualsAt(front: string, p: Printed, rest: string)
    ensures var text := front + (Text(p) + rest);
      var at := |front| + |p.lead| + |p.name| + |p.before|;
      at < |text| && text[at] == '='
  {
    var value := "=" + ValueText(p);
    Regroup(p.lead, p.name, p.before + value, "");
    Regroup(p.lead + p.name, p.before, value, "");
    var head := p.lead + p.name + p.before;
    assert Text(p) == head + value;
    assert Text(p)[|head|] == '=';
    assert (Text(p) + rest)[|head|] == Text(p)[|head|];
    assert (front + (Text(p) + rest))[|front| + |head|] == (Text(p) + rest)[|head|];
  }

  /** The same refusal, or the same input to the same check. */
  predicate SameInput(a: Verdict, b: Verdict) {
    if a.Refused? then b == a else b.Checked? && b.prepared == a.prepared
  }

  /** Whatever value `b=` holds, the octets that are checked are the same. */
  lemma {:induction false} BValueMakesNoDifference(
    name: string, before: seq<Printed>, p: Printed, q: Printed, after: seq<Printed>, tail: string,
    headers: seq<string>, bodies: Bodies, env: Env)
    requires IsTagList(before + [p] + after, tail) && AreNew(before + [p] + after, {}) && AreBTags(p, q)
    ensures SameInput(
      VerifyOne(Field(name, Print(before + [p] + after, tail)), headers, bodies, env),
      VerifyOne(Field(name, Print(before + [q] + after, tail)), headers, bodies, env))
  {
    hide Print, IsTagList, AreNew, AreBTags, Parse, DeleteTag, JsText.Trim, KeyFor, RefuseSignature, SignedFields;
    hide CanonicalHeader, CanonicalFields, SignedBody, WithoutEnding;
    SameParsed(before, p, q, after, tail);
    SameDeleted(before, p, q, after, tail);
    PrintedIsNotBlank(before, p, after, tail);
    PrintedIsNotBlank(before, q, after, tail);
  }
}
