/** Scanning a `tag-list` by offsets, and deleting one value (`email/dkim-signature.ts`; section 3.2 of RFC 6376). */
module DkimTagList {
  import opened Wrappers
  import opened MailLines
  import opened Octets
  import opened Scan

  /** One `name=value` pair: the value, and the offsets of the name, of the value and of its end. */
  datatype Tag = Tag(value: string, tagStart: nat, start: nat, end: nat)

  type Tags = map<string, Tag>

  datatype ScanError = Malformed | UnterminatedQuote | Repeated

  // ---- Values

  /** `replace(/\r?\n[ \t]+/g, "")`. */
  function RemoveFolds(s: string): string
    decreases |s|
  {
    if s == "" then ""
    else
      var n := EndingLen(s);
      if n > 0 && n < |s| && IsWsp(s[n]) then RemoveFolds(s[n + Skip(Wsp, s[n..])..])
      else [s[0]] + RemoveFolds(s[1..])
  }

  /** `replace(/[ \t\r\n]+/g, " ")`. */
  function CollapseFws(s: string): string {
    if s == "" then ""
    else if In(Fws, s[0]) then
      if |s| > 1 && In(Fws, s[1]) then CollapseFws(s[1..]) else " " + CollapseFws(s[1..])
    else [s[0]] + CollapseFws(s[1..])
  }

  lemma {:induction false} FoldAtOnce(ending: string, blanks: string, b: string)
    requires (ending == CRLF || ending == LF) && All(Wsp, blanks) && blanks != "" && (b == "" || !IsWsp(b[0]))
    ensures RemoveFolds(ending + (blanks + b)) == RemoveFolds(b)
  {
    var fold := ending + (blanks + b);
    EndingOf(ending, blanks + b);
    assert fold[|ending|] == blanks[0];
    SkipOver(Wsp, blanks, b);
    assert fold[|ending| + |blanks|..] == b by {
      Regroup(ending, blanks, b, "");
      assert |ending + blanks| == |ending| + |blanks|;
    }
    hide Skip;
  }

  lemma {:induction false} NoFoldHere(c: char, rest: string)
    requires c != '\r' && c != '\n'
    ensures RemoveFolds([c] + rest) == [c] + RemoveFolds(rest)
  {
    assert ([c] + rest)[1..] == rest && EndingLen([c] + rest) == 0;
  }

  /** A line ending and the white space that begins the next line become nothing. */
  lemma {:induction false} FoldVanishes(a: string, ending: string, blanks: string, b: string)
    requires '\r' !in a && '\n' !in a && (ending == CRLF || ending == LF)
    requires All(Wsp, blanks) && blanks != "" && (b == "" || !IsWsp(b[0]))
    ensures RemoveFolds(a + (ending + (blanks + b))) == a + RemoveFolds(b)
  {
    hide RemoveFolds, All;
    var fold := ending + (blanks + b);
    if a == "" {
      FoldAtOnce(ending, blanks, b);
      assert a + fold == fold && "" + RemoveFolds(b) == RemoveFolds(b);
    } else {
      assert a[0] in a && forall c :: c in a[1..] ==> c in a;
      FoldVanishes(a[1..], ending, blanks, b);
      HeadAndRest(a);
      Regroup([a[0]], a[1..], fold, "");
      NoFoldHere(a[0], a[1..] + fold);
      Regroup([a[0]], a[1..], RemoveFolds(b), "");
    }
  }

  /** Any other run of white space becomes one SP. */
  lemma {:induction false} RunCollapses(a: string, run: string, b: string)
    requires (forall i :: 0 <= i < |a| ==> !In(Fws, a[i])) && All(Fws, run) && run != ""
    requires b == "" || !In(Fws, b[0])
    ensures CollapseFws(a + (run + b)) == a + (" " + CollapseFws(b))
    decreases |a| + |run|
  {
    var text := run + b;
    if a != "" {
      RunCollapses(a[1..], run, b);
      assert (a + text)[1..] == a[1..] + text;
      HeadAndRest(a);
      Regroup([a[0]], a[1..], " " + CollapseFws(b), "");
    } else {
      assert a + text == text && "" + (" " + CollapseFws(b)) == " " + CollapseFws(b);
      assert text[1..] == run[1..] + b;
      if |run| > 1 {
        RunCollapses("", run[1..], b);
        assert "" + (run[1..] + b) == run[1..] + b;
      } else {
        assert run[1..] + b == b;
      }
    }
  }

  /** `unfold`: a fold becomes nothing, other white space one SP. */
  function UnfoldValue(value: string): string {
    CollapseFws(RemoveFolds(value))
  }

  /** A value, where its text ends, and where scanning goes on. */
  datatype Value = Value(value: string, end: nat, next: nat)

  function ReadValue(rest: string): (r: Result<Value, ScanError>)
    ensures r.Ok? ==> r.value.end <= r.value.next <= |rest|
  {
    if rest != "" && rest[0] == '"' then ReadQuoted(rest[1..]) else Ok(ReadPlain(rest))
  }

  /** After the opening quote. */
  function ReadQuoted(rest: string): (r: Result<Value, ScanError>)
    ensures r.Ok? ==> r.value.end <= r.value.next <= |rest| + 1
  {
    var close := IndexOf(rest, '"');
    if close == -1 then Err(UnterminatedQuote) else Ok(Value(UnfoldValue(rest[..close]), close + 2, close + 2))
  }

  function PlainEnd(rest: string): (end: nat)
    ensures end <= |rest|
  {
    var semicolon := IndexOf(rest, ';');
    if semicolon == -1 then |rest| else semicolon
  }

  function ReadPlain(rest: string): (r: Value)
    ensures r.end <= r.next <= |rest|
  {
    var valueEnd := PlainEnd(rest);
    var trimmed := TrimEnd(Wsp, rest[..valueEnd]);
    TrimEndShows(Wsp, rest[..valueEnd]);
    Value(UnfoldValue(trimmed), |trimmed|, valueEnd)
  }

  // ---- One tag

  /** A tag by its offsets in the text it was read from, and where scanning goes on. */
  datatype Piece = Piece(name: string, tag: Tag, next: nat)

  /** The next tag of `rest`, if there is one. */
  function ReadTag(rest: string): (r: Result<Option<Piece>, ScanError>)
    ensures r.Ok? && r.value.Some? ==> 0 < r.value.value.next <= |rest|
  {
    var lead := Skip(Separator, rest);
    if lead == |rest| then Ok(None) else ReadName(rest[lead..], lead)
  }

  function ReadName(rest: string, lead: nat): (r: Result<Option<Piece>, ScanError>)
    ensures r.Ok? ==> r.value.Some? && lead < r.value.value.next <= lead + |rest|
  {
    var n := Skip(TagName, rest);
    var probe := n + Skip(Wsp, rest[n..]);
    if n == 0 || probe == |rest| || rest[probe] != '=' then Err(Malformed)
    else ReadAfterEquals(Lower(rest[..n]), rest[probe + 1..], lead, lead + probe + 1)
  }

  function ReadAfterEquals(name: string, rest: string, tagStart: nat, at: nat): (r: Result<Option<Piece>, ScanError>)
    ensures r.Ok? ==> r.value.Some? && at <= r.value.value.next <= at + |rest|
  {
    var wsp := Skip(Wsp, rest);
    match ReadValue(rest[wsp..])
    case Err(error) => Err(error)
    case Ok(v) =>
      Ok(Some(Piece(name, Tag(v.value, tagStart, at + wsp, at + wsp + v.end), at + wsp + v.next)))
  }

  /** A tag whose offsets count from `at` characters before. */
  function Moved(tag: Tag, at: nat): Tag {
    Tag(tag.value, at + tag.tagStart, at + tag.start, at + tag.end)
  }

  /** `scanTagList`, from offset `at` on. */
  function ScanFrom(rest: string, at: nat, tags: Tags): Result<Tags, ScanError>
    decreases |rest|
  {
    match ReadTag(rest)
    case Err(error) => Err(error)
    case Ok(None) => Ok(tags)
    case Ok(Some(piece)) =>
      if piece.name in tags then Err(Repeated)
      else ScanFrom(rest[piece.next..], at + piece.next, tags[piece.name := Moved(piece.tag, at)])
  }

  function ScanTags(raw: string): Result<Tags, ScanError> {
    ScanFrom(raw, 0, map[])
  }

  // ---- Printing

  /** A tag with the white space a signer put around its parts, and the separators in front. */
  datatype Printed = Printed(lead: string, name: string, before: string, after: string, value: string, trail: string)

  /** A tag that is not quoted; a value does not begin or end with white space. */
  predicate IsPrintable(p: Printed) {
    && All(Separator, p.lead) && All(Wsp, p.before) && All(Wsp, p.after) && All(Wsp, p.trail)
    && p.name != "" && All(TagName, p.name)
    && ';' !in p.value && IsTrim(Wsp, p.value) && (p.value == "" ==> p.trail == "")
    && (p.value != "" ==> p.value[0] != '"')
  }

  /** Whether a tag ends here: at the end of the list or at a separator. */
  predicate IsSeparated(text: string) {
    text == "" || text[0] == ';'
  }

  function ValueText(p: Printed): string {
    p.after + (p.value + p.trail)
  }

  function Text(p: Printed): string {
    p.lead + (p.name + (p.before + ("=" + ValueText(p))))
  }

  function Print(list: seq<Printed>, tail: string): string {
    if list == [] then tail else Text(list[0]) + Print(list[1..], tail)
  }

  /** Every tag after the first, and the tail, begin with ";". */
  predicate IsTagList(list: seq<Printed>, tail: string) {
    && All(Separator, tail) && (list != [] ==> IsSeparated(tail))
    && (forall i :: 0 <= i < |list| ==> IsPrintable(list[i]))
    && (forall i :: 1 <= i < |list| ==> list[i].lead != "" && list[i].lead[0] == ';')
  }

  function StartOf(p: Printed): nat {
    |p.lead| + |p.name| + |p.before| + 1 + |p.after|
  }

  /** What scanning should find: the value unfolded, at its exact place. */
  function TagOf(p: Printed): Tag {
    Tag(UnfoldValue(p.value), |p.lead|, StartOf(p), StartOf(p) + |p.value|)
  }

  lemma {:induction false} ReadPrintedValue(p: Printed, rest: string)
    requires IsPrintable(p) && IsSeparated(rest)
    ensures ReadPlain(p.value + (p.trail + rest)) == Value(UnfoldValue(p.value), |p.value|, |p.value| + |p.trail|)
  {
    var head := p.value + p.trail;
    var text := p.value + (p.trail + rest);
    Regroup(p.value, p.trail, rest, "");
    assert ';' !in head;
    PlainEndAt(head, rest);
    assert text[..|head|] == head;
    TrimEndBefore(p.value, p.trail);
  }

  lemma {:induction false} PlainEndAt(head: string, rest: string)
    requires ';' !in head && IsSeparated(rest)
    ensures PlainEnd(head + rest) == |head|
  {
    if rest == "" {
      assert head + rest == head;
      IndexOfIsFirst(head, ';');
    } else {
      IndexOfAppend(head, rest, ';');
    }
  }

  lemma {:induction false} TrimEndBefore(s: string, right: string)
    requires All(Wsp, right) && IsTrim(Wsp, s)
    ensures TrimEnd(Wsp, s + right) == s
  {
    var text := s + right;
    if right == "" {
      assert text == s;
    } else {
      TrimEndBefore(s, right[..|right| - 1]);
      assert text[..|text| - 1] == s + right[..|right| - 1];
    }
  }

  /** What a value begins with is neither white space nor a quote. */
  lemma {:induction false} ValueHead(p: Printed, rest: string)
    requires IsPrintable(p) && IsSeparated(rest)
    ensures var text := p.value + (p.trail + rest); text == "" || (!IsWsp(text[0]) && text[0] != '"')
  {
    if p.value == "" {
      assert p.value + (p.trail + rest) == rest;
    }
  }

  lemma {:induction false} PrintedAfter(p: Printed)
    requires IsPrintable(p)
    ensures All(Wsp, p.after)
  {
  }

  lemma {:induction false} ReadPrintedAfterEquals(p: Printed, rest: string, name: string, tagStart: nat, at: nat)
    requires IsPrintable(p) && IsSeparated(rest)
    ensures ReadAfterEquals(name, ValueText(p) + rest, tagStart, at) ==
      Ok(Some(Piece(name, Tag(UnfoldValue(p.value), tagStart, at + |p.after|, at + |p.after| + |p.value|),
        at + |ValueText(p)|)))
  {
    var text := p.value + (p.trail + rest);
    hide UnfoldValue, IsPrintable;
    PrintedAfter(p);
    Regroup(p.after, p.value + p.trail, rest, "");
    Regroup(p.value, p.trail, rest, "");
    ValueHead(p, rest);
    SkipOver(Wsp, p.after, text);
    ReadPrintedValue(p, rest);
  }

  lemma {:induction false} NameParts(name: string, before: string, value: string)
    ensures var text := name + (before + ("=" + value));
      && |text| > |name| + |before| && text[..|name|] == name && text[|name|..] == before + ("=" + value)
      && text[|name| + |before|] == '=' && text[|name| + |before| + 1..] == value
  {
    var text := name + (before + ("=" + value));
    Regroup(name, before, "=" + value, "");
  }

  lemma {:induction false} NotTagName(before: string, value: string)
    requires All(Wsp, before)
    ensures !In(TagName, (before + ("=" + value))[0]) && !IsWsp(("=" + value)[0])
  {
    var text := before + ("=" + value);
    assert text[0] == if before == "" then '=' else before[0];
  }

  lemma {:induction false} ReadNameOf(name: string, before: string, value: string, lead: nat)
    requires name != "" && All(TagName, name) && All(Wsp, before)
    ensures ReadName(name + (before + ("=" + value)), lead) ==
      ReadAfterEquals(Lower(name), value, lead, lead + |name| + |before| + 1)
  {
    hide ReadAfterEquals;
    NameParts(name, before, value);
    NotTagName(before, value);
    SkipOver(Wsp, before, "=" + value);
    SkipOver(TagName, name, before + ("=" + value));
  }

  lemma {:induction false} ReadTagOf(lead: string, text: string)
    requires All(Separator, lead) && text != "" && !In(Separator, text[0])
    ensures ReadTag(lead + text) == ReadName(text, |lead|)
  {
    hide ReadName;
    SkipOver(Separator, lead, text);
  }

  lemma {:induction false} TextLength(p: Printed)
    ensures |Text(p)| == |p.lead| + |p.name| + |p.before| + 1 + |ValueText(p)|
  {
  }

  lemma {:induction false} NameIsFirst(p: Printed, more: string)
    requires IsPrintable(p)
    ensures p.name + more != "" && !In(Separator, (p.name + more)[0])
  {
  }

  /** Reading a printed tag gives its name, its value and its offsets. */
  lemma {:induction false} ReadPrinted(p: Printed, rest: string)
    requires IsPrintable(p) && IsSeparated(rest)
    ensures ReadTag(Text(p) + rest) == Ok(Some(Piece(Lower(p.name), TagOf(p), |Text(p)|)))
  {
    hide ReadTag, ReadName, ReadAfterEquals, UnfoldValue, Lower;
    var value := ValueText(p) + rest;
    TextLength(p);
    Spread(p.lead, p.name, p.before, ValueText(p), rest);
    NameIsFirst(p, p.before + ("=" + value));
    ReadTagOf(p.lead, p.name + (p.before + ("=" + value)));
    ReadNameOf(p.name, p.before, value, |p.lead|);
    ReadPrintedAfterEquals(p, rest, Lower(p.name), |p.lead|, |p.lead| + |p.name| + |p.before| + 1);
  }

  lemma {:induction false} Spread(a: string, b: string, c: string, d: string, e: string)
    ensures a + (b + (c + ("=" + d))) + e == a + (b + (c + ("=" + (d + e))))
  {
    Regroup(a, b + (c + ("=" + d)), e, "");
    Regroup(b, c + ("=" + d), e, "");
    Regroup(c, "=" + d, e, "");
    Regroup("=", d, e, "");
  }

  // ---- Scanning undoes printing

  /** The tags a printed list should scan to, after `tags`. */
  function Collect(list: seq<Printed>, at: nat, tags: Tags): Tags {
    if list == [] then tags
    else Collect(list[1..], at + |Text(list[0])|, tags[Lower(list[0].name) := Moved(TagOf(list[0]), at)])
  }

  /** No name twice, and none that is taken. */
  predicate AreNew(list: seq<Printed>, taken: set<string>) {
    list == [] || (Lower(list[0].name) !in taken && AreNew(list[1..], taken + {Lower(list[0].name)}))
  }

  lemma {:induction false} PrintIsSeparated(list: seq<Printed>, tail: string)
    requires IsTagList(list, tail) && list != []
    ensures IsSeparated(Print(list[1..], tail)) && IsTagList(list[1..], tail)
  {
    if |list| > 1 {
      assert list[1..][0] == list[1];
      assert Print(list[1..], tail)[0] == list[1].lead[0];
    }
  }

  lemma {:induction false} ScanTail(tail: string)
    requires All(Separator, tail)
    ensures ReadTag(tail) == Ok(None)
  {
    SkipOver(Separator, tail, "");
    assert tail + "" == tail;
  }

  lemma {:induction false} ScanStep(text: string, rest: string, at: nat, tags: Tags, name: string, tag: Tag)
    requires text != "" && ReadTag(text + rest) == Ok(Some(Piece(name, tag, |text|)))
    ensures ScanFrom(text + rest, at, tags) ==
      if name in tags then Err(Repeated) else ScanFrom(rest, at + |text|, tags[name := Moved(tag, at)])
  {
    hide ReadTag, Moved;
    assert (text + rest)[|text|..] == rest;
  }

  lemma {:induction false} ScanEnd(tail: string, at: nat, tags: Tags)
    requires All(Separator, tail)
    ensures ScanFrom(tail, at, tags) == Ok(tags)
  {
    hide ReadTag;
    ScanTail(tail);
  }

  /** A printed list scans to its tags at their exact offsets, unless a name repeats. */
  lemma {:induction false} ScanUndoesPrint(list: seq<Printed>, tail: string, at: nat, tags: Tags)
    requires IsTagList(list, tail)
    ensures ScanFrom(Print(list, tail), at, tags) ==
      if AreNew(list, tags.Keys) then Ok(Collect(list, at, tags)) else Err(Repeated)
    decreases |list|
  {
    hide ReadTag, ScanFrom, TagOf, Text, Lower, IsPrintable, Moved;
    if list == [] {
      ScanEnd(tail, at, tags);
    } else {
      var text, name := Text(list[0]), Lower(list[0].name);
      PrintIsSeparated(list, tail);
      TextLength(list[0]);
      ReadPrinted(list[0], Print(list[1..], tail));
      ScanStep(text, Print(list[1..], tail), at, tags, name, TagOf(list[0]));
      var next := tags[name := Moved(TagOf(list[0]), at)];
      assert next.Keys == tags.Keys + {name};
      ScanUndoesPrint(list[1..], tail, at + |text|, next);
    }
  }

  // ---- Where a tag of a printed list is

  lemma {:induction false} CollectKeeps(list: seq<Printed>, at: nat, tags: Tags, name: string)
    requires AreNew(list, tags.Keys) && name in tags
    ensures name in Collect(list, at, tags) && Collect(list, at, tags)[name] == tags[name]
    decreases |list|
  {
    if list != [] {
      var next := tags[Lower(list[0].name) := Moved(TagOf(list[0]), at)];
      assert next.Keys == tags.Keys + {Lower(list[0].name)};
      CollectKeeps(list[1..], at + |Text(list[0])|, next, name);
    }
  }

  /** The tag between `before` and `after` stands after the text of `before`. */
  lemma {:induction false} CollectedAt(before: seq<Printed>, p: Printed, after: seq<Printed>, at: nat, tags: Tags)
    requires AreNew(before + [p] + after, tags.Keys)
    ensures var all := Collect(before + [p] + after, at, tags);
      Lower(p.name) in all && all[Lower(p.name)] == Moved(TagOf(p), at + |Print(before, "")|)
    decreases |before|
  {
    hide TagOf, Text, Lower, Moved;
    var list := before + [p] + after;
    var next := tags[Lower(list[0].name) := Moved(TagOf(list[0]), at)];
    assert next.Keys == tags.Keys + {Lower(list[0].name)};
    if before == [] {
      assert list[0] == p && list[1..] == after;
      CollectKeeps(after, at + |Text(p)|, next, Lower(p.name));
    } else {
      assert list[0] == before[0] && list[1..] == before[1..] + [p] + after;
      CollectedAt(before[1..], p, after, at + |Text(before[0])|, next);
    }
  }

  lemma {:induction false} PrintAppend(a: seq<Printed>, b: seq<Printed>, tail: string)
    ensures Print(a + b, tail) == Print(a, "") + Print(b, tail)
  {
    if a == [] {
      assert a + b == b && "" + Print(b, tail) == Print(b, tail);
    } else {
      PrintAppend(a[1..], b, tail);
      assert (a + b)[1..] == a[1..] + b;
      Regroup(Text(a[0]), Print(a[1..], ""), Print(b, tail), "");
    }
  }

  lemma {:induction false} PrintAround(before: seq<Printed>, p: Printed, after: seq<Printed>, tail: string)
    ensures Print(before + [p] + after, tail) == Print(before, "") + (Text(p) + Print(after, tail))
  {
    PrintAppend(before, [p] + after, tail);
    assert before + [p] + after == before + ([p] + after);
    assert ([p] + after)[1..] == after;
  }

  /** Of two tags the value of the first ends before the name of the second begins. */
  lemma {:induction false} OffsetsIncrease(
    before: seq<Printed>, p: Printed, between: seq<Printed>, q: Printed, after: seq<Printed>)
    requires AreNew(before + [p] + between + [q] + after, {})
    ensures var none: Tags := map[];
      var all := Collect(before + [p] + between + [q] + after, 0, none);
      && Lower(p.name) in all && Lower(q.name) in all
      && all[Lower(p.name)].end <= all[Lower(q.name)].tagStart
  {
    hide Lower, AreNew, Collect, UnfoldValue, Text, Print;
    var none: Tags := map[];
    assert none.Keys == {};
    assert before + [p] + between + [q] + after == before + [p] + (between + [q] + after);
    CollectedAt(before, p, between + [q] + after, 0, none);
    CollectedAt(before + [p] + between, q, after, 0, none);
    PrintAround(before, p, between, "");
    TextLength(p);
  }

  // ---- Deleting a value (section 3.7)

  /** `deleteTagValue`, once the list is scanned: the text to the "=" of the tag, and the text after its value. */
  function DeleteSpan(raw: string, tag: Tag): string
    requires tag.tagStart <= |raw| && tag.end <= |raw|
  {
    raw[..tag.tagStart + IndexOf(raw[tag.tagStart..], '=') + 1] + raw[tag.end..]
  }

  /** A tag without its value, and without the white space in front of it. */
  function Emptied(p: Printed): Printed {
    p.(after := p.trail, value := "", trail := "")
  }

  /** A tag without its value and all the white space around it, as section 3.7 of RFC 6376 has it. */
  function EmptiedByStandard(p: Printed): Printed {
    p.(after := "", value := "", trail := "")
  }

  lemma {:induction false} CutOut(a: string, b: string, c: string, d: string)
    ensures (a + (b + (c + d)))[..|a| + |b|] == a + b
    ensures (a + (b + (c + d)))[|a| + |b| + |c|..] == d
    ensures (a + (b + (c + d)))[|a|..] == b + (c + d)
  {
  }

  function Head(p: Printed): string {
    p.name + (p.before + "=")
  }

  lemma {:induction false} EqualsFollowsName(p: Printed, back: string)
    requires IsPrintable(p)
    ensures IndexOf(Head(p) + back, '=') + 1 == |Head(p)|
  {
    Regroup(p.name, p.before + "=", back, "");
    Regroup(p.before, "=", back, "");
    Regroup(p.name, p.before, "=" + back, "");
    IndexOfAppend(p.name + p.before, "=" + back, '=');
  }

  lemma {:induction false} TextParts(p: Printed, rest: string)
    ensures Text(p) + rest == p.lead + (Head(p) + ((p.after + p.value) + (p.trail + rest)))
    ensures Text(Emptied(p)) + rest == p.lead + (Head(p) + (p.trail + rest))
  {
    PartsOf(p.lead, p.name, p.before, p.after, p.value, p.trail, rest);
    PartsOf(p.lead, p.name, p.before, p.trail, "", "", rest);
    assert p.trail + "" + ("" + rest) == p.trail + rest;
  }

  lemma {:induction false} PartsOf(l: string, n: string, b: string, a: string, v: string, t: string, r: string)
    ensures l + (n + (b + ("=" + (a + (v + t))))) + r == l + ((n + (b + "=")) + ((a + v) + (t + r)))
  {
    Spread(l, n, b, a + (v + t), r);
    Regroup(a, v, t, r);
    Regroup(a + v, t, r, "");
    Regroup(a, v, t, "");
    var end := (a + v) + (t + r);
    Regroup(n, b + "=", end, "");
    Regroup(b, "=", end, "");
  }

  lemma {:induction false} RawParts(before: string, p: Printed, rest: string)
    ensures before + (Text(p) + rest) == (before + p.lead) + (Head(p) + ((p.after + p.value) + (p.trail + rest)))
    ensures before + (Text(Emptied(p)) + rest) == (before + p.lead + Head(p)) + (p.trail + rest)
  {
    hide Text, Emptied, Head;
    TextParts(p, rest);
    var value, back := p.after + p.value, p.trail + rest;
    Regroup(before, p.lead, Head(p) + (value + back), "");
    Regroup(before, p.lead, Head(p) + back, "");
    Regroup(before + p.lead, Head(p), back, "");
  }

  /** Deleting the value of a printed tag leaves the rest of the text as it was, whatever the value. */
  lemma {:induction false} DeletePrinted(before: string, p: Printed, rest: string)
    requires IsPrintable(p)
    ensures var raw := before + (Text(p) + rest);
      var tag := Moved(TagOf(p), |before|);
      tag.tagStart <= |raw| && tag.end <= |raw| && DeleteSpan(raw, tag) == before + (Text(Emptied(p)) + rest)
  {
    hide Text, Emptied, UnfoldValue;
    var raw := before + (Text(p) + rest);
    var front, value, back := before + p.lead, p.after + p.value, p.trail + rest;
    RawParts(before, p, rest);
    CutOut(front, Head(p), value, back);
    EqualsFollowsName(p, value + back);
  }

  /** `deleteTagValue` on a scanned list; a missing tag leaves the text as it is. */
  function DeleteTag(raw: string, name: string): Result<string, ScanError> {
    match ScanTags(raw)
    case Err(error) => Err(error)
    case Ok(tags) =>
      if name in tags && tags[name].tagStart <= |raw| && tags[name].end <= |raw| then Ok(DeleteSpan(raw, tags[name]))
      else Ok(raw)
  }

  lemma {:induction false} PartsAreTagLists(before: seq<Printed>, p: Printed, after: seq<Printed>, tail: string)
    requires IsTagList(before + [p] + after, tail)
    ensures IsPrintable(p) && IsTagList(after, tail)
  {
    hide IsPrintable;
    var list := before + [p] + after;
    assert list[|before|] == p;
    assert forall i :: 0 <= i < |after| ==> after[i] == list[|before| + 1 + i];
  }

  /** Deleting the value of a tag of a printed list gives the list with that tag empty, whatever the value was. */
  lemma {:induction false} DeleteFromList(before: seq<Printed>, p: Printed, after: seq<Printed>, tail: string)
    requires IsTagList(before + [p] + after, tail) && AreNew(before + [p] + after, {})
    ensures DeleteTag(Print(before + [p] + after, tail), Lower(p.name)) ==
      Ok(Print(before + [Emptied(p)] + after, tail))
  {
    hide ScanFrom, TagOf, Text, Lower, IsPrintable, Emptied, IsTagList, AreNew, DeleteSpan;
    var list := before + [p] + after;
    ScanUndoesPrint(list, tail, 0, map[]);
    var none: Tags := map[];
    assert none.Keys == {};
    CollectedAt(before, p, after, 0, map[]);
    PartsAreTagLists(before, p, after, tail);
    PrintAround(before, p, after, tail);
    PrintAround(before, Emptied(p), after, tail);
    DeletePrinted(Print(before, ""), p, Print(after, tail));
  }

  /** What is left is what section 3.7 of RFC 6376 asks for exactly when no white space follows the value. */
  lemma {:induction false} DeletedAsStandard(before: seq<Printed>, p: Printed, after: seq<Printed>, tail: string)
    requires IsTagList(before + [p] + after, tail) && AreNew(before + [p] + after, {})
    ensures var deleted := DeleteTag(Print(before + [p] + after, tail), Lower(p.name));
      deleted == Ok(Print(before + [EmptiedByStandard(p)] + after, tail)) <==> p.trail == ""
  {
    hide Text, DeleteTag, Lower, IsTagList, AreNew;
    DeleteFromList(before, p, after, tail);
    PrintAround(before, Emptied(p), after, tail);
    PrintAround(before, EmptiedByStandard(p), after, tail);
    TextLength(Emptied(p));
    TextLength(EmptiedByStandard(p));
    assert |ValueText(Emptied(p))| == |p.trail| && |ValueText(EmptiedByStandard(p))| == 0;
  }

  // ---- Values, without their places

  function Values(tags: Tags): map<string, string> {
    map name | name in tags :: tags[name].value
  }

  function ListValues(list: seq<Printed>, values: map<string, string>): map<string, string> {
    if list == [] then values
    else ListValues(list[1..], values[Lower(list[0].name) := UnfoldValue(list[0].value)])
  }

  lemma {:induction false} CollectedValues(list: seq<Printed>, at: nat, tags: Tags)
    ensures Values(Collect(list, at, tags)) == ListValues(list, Values(tags))
    decreases |list|
  {
    hide Lower, UnfoldValue, Text;
    if list != [] {
      var next := tags[Lower(list[0].name) := Moved(TagOf(list[0]), at)];
      CollectedValues(list[1..], at + |Text(list[0])|, next);
      assert Values(next) == Values(tags)[Lower(list[0].name) := UnfoldValue(list[0].value)];
    }
  }

  lemma {:induction false} OtherValue(list: seq<Printed>, values: map<string, string>, name: string, value: string)
    requires AreNew(list, values.Keys + {name})
    ensures ListValues(list, values[name := value]) == ListValues(list, values)[name := value]
    decreases |list|
  {
    hide Lower, UnfoldValue;
    if list != [] {
      var head, unfolded := Lower(list[0].name), UnfoldValue(list[0].value);
      assert values[name := value][head := unfolded] == values[head := unfolded][name := value];
      assert values.Keys + {name} + {head} == values[head := unfolded].Keys + {name};
      OtherValue(list[1..], values[head := unfolded], name, value);
    }
  }

  /** Changing the value of one tag changes nothing else that scanning finds. */
  lemma {:induction false} OneValue(
    before: seq<Printed>, p: Printed, q: Printed, after: seq<Printed>, values: map<string, string>)
    requires AreNew(before + [p] + after, values.Keys) && q.name == p.name
    ensures AreNew(before + [q] + after, values.Keys)
    ensures ListValues(before + [q] + after, values) ==
      ListValues(before + [p] + after, values)[Lower(p.name) := UnfoldValue(q.value)]
    decreases |before|
  {
    hide Lower, UnfoldValue;
    var withP, withQ := before + [p] + after, before + [q] + after;
    var name := Lower(p.name);
    if before == [] {
      assert withP[0] == p && withP[1..] == after && withQ[0] == q && withQ[1..] == after;
      assert values[name := UnfoldValue(q.value)] == values[name := UnfoldValue(p.value)][name := UnfoldValue(q.value)];
      assert values[name := UnfoldValue(p.value)].Keys + {name} == values.Keys + {name};
      OtherValue(after, values[name := UnfoldValue(p.value)], name, UnfoldValue(q.value));
    } else {
      var head, unfolded := Lower(before[0].name), UnfoldValue(before[0].value);
      assert withP[0] == before[0] && withP[1..] == before[1..] + [p] + after;
      assert withQ[0] == before[0] && withQ[1..] == before[1..] + [q] + after;
      assert values[head := unfolded].Keys == values.Keys + {head};
      OneValue(before[1..], p, q, after, values[head := unfolded]);
    }
  }

  lemma {:induction false} SwapKeepsTagList(
    before: seq<Printed>, p: Printed, q: Printed, after: seq<Printed>, tail: string)
    requires IsTagList(before + [p] + after, tail) && IsPrintable(q) && q.lead == p.lead
    ensures IsTagList(before + [q] + after, tail)
  {
    hide IsPrintable;
    var withP, withQ := before + [p] + after, before + [q] + after;
    assert withP[|before|] == p && withQ[|before|] == q;
    assert forall i :: 0 <= i < |withQ| && i != |before| ==> withQ[i] == withP[i];
  }

  /** The tags of a list, with another value for one of them. */
  lemma {:induction false} ScanSwapped(before: seq<Printed>, p: Printed, q: Printed, after: seq<Printed>, tail: string)
    requires IsTagList(before + [p] + after, tail) && AreNew(before + [p] + after, {})
    requires IsPrintable(q) && q.lead == p.lead && q.name == p.name
    ensures var scanned := ScanTags(Print(before + [p] + after, tail));
      var swapped := ScanTags(Print(before + [q] + after, tail));
      && scanned.Ok? && swapped.Ok?
      && Values(swapped.value) == Values(scanned.value)[Lower(p.name) := UnfoldValue(q.value)]
  {
    hide ScanFrom, Lower, IsPrintable, IsTagList, AreNew, UnfoldValue, Collect, Print;
    var none: Tags := map[];
    assert none.Keys == {} && Values(none) == map[] && Values(none).Keys == {};
    SwapKeepsTagList(before, p, q, after, tail);
    OneValue(before, p, q, after, map[]);
    ScanUndoesPrint(before + [p] + after, tail, 0, none);
    ScanUndoesPrint(before + [q] + after, tail, 0, none);
    CollectedValues(before + [p] + after, 0, none);
    CollectedValues(before + [q] + after, 0, none);
  }

  /** Scanning the list with a value deleted finds the same tags, that one empty. */
  lemma {:induction false} RescanDeleted(before: seq<Printed>, p: Printed, after: seq<Printed>, tail: string)
    requires IsTagList(before + [p] + after, tail) && AreNew(before + [p] + after, {})
    ensures var raw := Print(before + [p] + after, tail);
      var deleted := DeleteTag(raw, Lower(p.name));
      && ScanTags(raw).Ok? && deleted.Ok? && ScanTags(deleted.value).Ok?
      && Values(ScanTags(deleted.value).value) == Values(ScanTags(raw).value)[Lower(p.name) := ""]
  {
    hide ScanFrom, Lower, IsTagList, AreNew, Print, DeleteTag, Values;
    DeleteFromList(before, p, after, tail);
    PartsAreTagLists(before, p, after, tail);
    ScanSwapped(before, p, Emptied(p), after, tail);
    assert UnfoldValue("") == "";
  }

  // ---- The loops

  method FindPlainEnd(rest: string) returns (valueEnd: nat)
    ensures valueEnd == PlainEnd(rest)
  {
    valueEnd := 0;
    while valueEnd < |rest| && rest[valueEnd] != ';'
      invariant 0 <= valueEnd <= |rest| && ';' !in rest[..valueEnd]
    {
      valueEnd := valueEnd + 1;
    }
    PlainEndAt(rest[..valueEnd], rest[valueEnd..]);
    assert rest[..valueEnd] + rest[valueEnd..] == rest;
  }

  method TrimValue(value: string) returns (trimmed: nat)
    ensures trimmed <= |value| && value[..trimmed] == TrimEnd(Wsp, value)
  {
    trimmed := |value|;
    assert value[..trimmed] == value;
    while trimmed > 0 && IsWsp(value[trimmed - 1])
      invariant 0 <= trimmed <= |value|
      invariant TrimEnd(Wsp, value) == TrimEnd(Wsp, value[..trimmed])
    {
      assert value[..trimmed][..trimmed - 1] == value[..trimmed - 1];
      trimmed := trimmed - 1;
    }
  }

  method ScanValue(rest: string) returns (r: Result<Value, ScanError>)
    ensures r == ReadValue(rest)
  {
    hide UnfoldValue;
    if rest != "" && rest[0] == '"' {
      var close := IndexOf(rest[1..], '"');
      if close == -1 {
        return Err(UnterminatedQuote);
      }
      r := Ok(Value(UnfoldValue(rest[1..][..close]), close + 2, close + 2));
    } else {
      var valueEnd := FindPlainEnd(rest);
      var value := rest[..valueEnd];
      var trimmed := TrimValue(value);
      r := Ok(Value(UnfoldValue(value[..trimmed]), trimmed, valueEnd));
    }
  }

  method ScanAfterEquals(name: string, rest: string, tagStart: nat, at: nat) returns (r: Result<Option<Piece>, ScanError>)
    ensures r == ReadAfterEquals(name, rest, tagStart, at)
  {
    hide ReadValue;
    var wsp := SkipWhile(Wsp, rest);
    var value := ScanValue(rest[wsp..]);
    match value
    case Err(error) => r := Err(error);
    case Ok(v) => r := Ok(Some(Piece(name, Tag(v.value, tagStart, at + wsp, at + wsp + v.end), at + wsp + v.next)));
  }

  method ScanName(rest: string, lead: nat) returns (r: Result<Option<Piece>, ScanError>)
    ensures r == ReadName(rest, lead)
  {
    hide ReadAfterEquals, Lower;
    var n := SkipWhile(TagName, rest);
    var gap := SkipWhile(Wsp, rest[n..]);
    var probe := n + gap;
    if n == 0 || probe == |rest| || rest[probe] != '=' {
      return Err(Malformed);
    }
    r := ScanAfterEquals(Lower(rest[..n]), rest[probe + 1..], lead, lead + probe + 1);
  }

  method ScanTag(rest: string) returns (r: Result<Option<Piece>, ScanError>)
    ensures r == ReadTag(rest)
  {
    hide ReadName;
    var lead := SkipWhile(Separator, rest);
    if lead == |rest| {
      return Ok(None);
    }
    r := ScanName(rest[lead..], lead);
  }

  /** `scanTagList`: the loop keeps the rest of the text and its offset. */
  method ScanTagList(raw: string) returns (r: Result<Tags, ScanError>)
    ensures r == ScanTags(raw)
  {
    hide ReadTag, Moved;
    var rest := raw;
    var i: nat := 0;
    var tags: Tags := map[];
    while true
      invariant ScanTags(raw) == ScanFrom(rest, i, tags)
      decreases |rest|
    {
      var next := ScanTag(rest);
      if next.Err? {
        return Err(next.error);
      }
      if next.value.None? {
        return Ok(tags);
      }
      var piece := next.value.value;
      if piece.name in tags {
        return Err(Repeated);
      }
      tags := tags[piece.name := Moved(piece.tag, i)];
      rest, i := rest[piece.next..], i + piece.next;
    }
  }

  method DeleteTagValue(raw: string, name: string) returns (r: Result<string, ScanError>)
    ensures r == DeleteTag(raw, name)
  {
    hide ScanFrom;
    var scanned := ScanTagList(raw);
    match scanned
    case Err(error) => r := Err(error);
    case Ok(tags) =>
      if name !in tags || tags[name].tagStart > |raw| || tags[name].end > |raw| {
        return Ok(raw);
      }
      var span := tags[name];
      var valueStart := span.tagStart + IndexOf(raw[span.tagStart..], '=') + 1;
      r := Ok(raw[..valueStart] + raw[span.end..]);
  }
}
