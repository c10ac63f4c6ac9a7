/** Picking the header fields a signature's `h=` signs (`email/dkim-headers.ts`; section 5.4.2 of RFC 6376). */
module DkimHeaders {
  import opened Wrappers
  import opened Octets
  import opened Scan
  import opened MailLines
  import opened DkimPairing

  // ---- Names

  /** `TRANSIT_ADDED_HEADER_NAMES`: what a relay adds on the way. */
  predicate IsTransitAdded(name: string) {
    name in {"received", "x-received", "return-path", "delivered-to", "authentication-results"} ||
    "resent-" <= name || "arc-" <= name
  }

  datatype Field = Field(name: string, value: string)

  /** The field of a header line, split at its first colon. */
  function FieldOf(header: string): Option<Field> {
    var colon := IndexOf(header, ':');
    if colon == -1 then None else Some(Field(header[..colon], header[colon + 1..]))
  }

  function TrimmedName(header: string): Option<string> {
    match FieldOf(header) case None => None case Some(field) => Some(Trim(Padding, field.name))
  }

  /** The name a header line is compared by. */
  function NameOf(header: string): Option<string> {
    match TrimmedName(header) case None => None case Some(name) => Some(Lower(name))
  }

  // ---- Disguised names

  function Strip(s: string): string {
    if s == "" then "" else if In(Padding, s[0]) then Strip(s[1..]) else [s[0]] + Strip(s[1..])
  }

  /** Where a lenient reader may stop: at the start of a padding run, or at the end of the name. */
  predicate IsStop(name: string, k: nat) {
    k <= |name| && (k == |name| || (In(Padding, name[k]) && (k == 0 || !In(Padding, name[k - 1]))))
  }

  /** The name read up to `k`, without padding, is one of `targets`. */
  predicate ReadsAs(name: string, k: nat, targets: set<string>) {
    IsStop(name, k) && Lower(Strip(name[..k])) in targets
  }

  ghost predicate IsDisguised(name: string, targets: set<string>) {
    exists k :: ReadsAs(name, k, targets)
  }

  ghost predicate IsFirstReading(name: string, k: nat, targets: set<string>, target: string) {
    && ReadsAs(name, k, targets) && target == Lower(Strip(name[..k]))
    && forall j :: 0 <= j < k ==> !ReadsAs(name, j, targets)
  }

  lemma {:induction false} StripAppend(a: string, b: string)
    ensures Strip(a + b) == Strip(a) + Strip(b)
  {
    if a == "" {
      assert a + b == b;
    } else {
      StripAppend(a[1..], b);
      assert (a + b)[1..] == a[1..] + b;
    }
  }

  lemma {:induction false} PlainIsStripped(name: string)
    requires forall i :: 0 <= i < |name| ==> !In(Padding, name[i])
    ensures Strip(name) == name
  {
    if name != "" {
      PlainIsStripped(name[1..]);
      assert name == [name[0]] + name[1..];
    }
  }

  lemma {:induction false} StripTo(name: string, i: nat, k: nat)
    requires i <= k <= |name|
    ensures |Strip(name[..i])| <= |Strip(name[..k])|
  {
    assert name[..k] == name[..i] + name[i..k];
    StripAppend(name[..i], name[i..k]);
  }

  lemma {:induction false} StripNext(name: string, i: nat)
    requires i < |name|
    ensures Strip(name[..i + 1]) == if In(Padding, name[i]) then Strip(name[..i]) else Strip(name[..i]) + [name[i]]
  {
    assert name[..i + 1] == name[..i] + [name[i]];
    StripAppend(name[..i], [name[i]]);
    assert [name[i]][1..] == "";
  }

  /** Once the stripped prefix is longer than every target, no later stop can read as one. */
  lemma {:induction false} TooLongToRead(name: string, i: nat, targets: set<string>, maxTargetLength: nat)
    requires i <= |name| && forall t :: t in targets ==> |t| <= maxTargetLength
    requires |Strip(name[..i])| > maxTargetLength
    ensures forall k :: i <= k ==> !ReadsAs(name, k, targets)
  {
    forall k | i <= k && IsStop(name, k)
      ensures !ReadsAs(name, k, targets)
    {
      StripTo(name, i, k);
    }
  }

  /** `looseHeaderNameMatch`: the first reading that is a target; leaving early never changes the answer. */
  method LooseHeaderNameMatch(name: string, targets: set<string>, maxTargetLength: nat) returns (r: Option<string>)
    requires forall t :: t in targets ==> |t| <= maxTargetLength
    ensures r.Some? <==> IsDisguised(name, targets)
    ensures r.Some? ==> exists k :: IsFirstReading(name, k, targets, r.value)
  {
    assert Strip(name[..0]) == "";
    hide Strip;
    var strippedSoFar := "";
    var inPaddingRun := false;
    var i := 0;
    while i < |name|
      invariant 0 <= i <= |name| && strippedSoFar == Strip(name[..i])
      invariant inPaddingRun <==> i > 0 && In(Padding, name[i - 1])
      invariant forall k :: 0 <= k < i ==> !ReadsAs(name, k, targets)
    {
      if |strippedSoFar| > maxTargetLength {
        TooLongToRead(name, i, targets, maxTargetLength);
        return None;
      }
      StripNext(name, i);
      if In(Padding, name[i]) {
        if !inPaddingRun {
          var lowered := Lower(strippedSoFar);
          if lowered in targets {
            assert IsFirstReading(name, i, targets, lowered);
            return Some(lowered);
          }
          inPaddingRun := true;
        }
      } else {
        inPaddingRun := false;
        strippedSoFar := strippedSoFar + [name[i]];
      }
      i := i + 1;
    }
    assert name[..i] == name;
    if |strippedSoFar| > maxTargetLength {
      TooLongToRead(name, i, targets, maxTargetLength);
      return None;
    }
    var lowered := Lower(strippedSoFar);
    if lowered in targets {
      assert IsFirstReading(name, i, targets, lowered);
      r := Some(lowered);
    } else {
      r := None;
    }
  }

  // ---- Selection

  /** The names of the lines. */
  function Names(headers: seq<string>): (r: seq<Option<string>>)
    ensures |r| == |headers|
  {
    if headers == [] then [] else Names(headers[..|headers| - 1]) + [NameOf(headers[|headers| - 1])]
  }

  lemma {:induction false} NamesAt(headers: seq<string>, i: nat)
    requires i < |headers|
    ensures Names(headers)[i] == NameOf(headers[i])
  {
    if i < |headers| - 1 {
      NamesAt(headers[..|headers| - 1], i);
    }
  }

  lemma {:induction false} NamesBelow(line: string, headers: seq<string>)
    ensures Names([line] + headers) == [NameOf(line)] + Names(headers)
  {
    if headers == [] {
      assert [line] + headers == [line] && [line][..0] == [];
    } else {
      var n := |headers| - 1;
      NamesBelow(line, headers[..n]);
      assert ([line] + headers)[..n + 1] == [line] + headers[..n];
      Regroup([NameOf(line)], Names(headers[..n]), [NameOf(headers[n])], []);
    }
  }

  /** A field of an asked name that no mention is left for, and that no relay adds. */
  ghost predicate HasGrown(lines: seq<Option<string>>, names: seq<string>) {
    exists name :: 0 < Count(names, name) < |Instances(lines, name)| && !IsTransitAdded(name)
  }

  /** A line that is not asked for, but that a lenient reader takes for one that is. */
  ghost predicate IsDisguisedLine(header: string, names: seq<string>) {
    && NameOf(header).Some? && NameOf(header).value !in names
    && IsDisguised(TrimmedName(header).value, AskedNames(names))
  }

  function AskedNames(names: seq<string>): set<string> {
    set name | name in names
  }

  ghost predicate HasDisguised(headers: seq<string>, names: seq<string>) {
    exists i :: 0 <= i < |headers| && IsDisguisedLine(headers[i], names)
  }

  datatype SelectError = Grown | Disguised

  /** `selectSignedHeaders`, by the indexes of the lines. */
  ghost function Select(headers: seq<string>, names: seq<string>): Result<seq<nat>, SelectError> {
    if HasGrown(Names(headers), names) then Err(Grown)
    else if HasDisguised(headers, names) then Err(Disguised)
    else Ok(Picks(Names(headers), names))
  }

  lemma {:induction false} NotGrownIsPicked(lines: seq<Option<string>>, names: seq<string>, i: nat, name: string)
    requires !HasGrown(lines, names) && i < |lines| && lines[i] == Some(name)
    requires name in names && !IsTransitAdded(name)
    ensures i in Picks(lines, names)
  {
    CountedIn(names, name);
    PickedAre(lines, names, i, name);
    InInstances(lines, name, i);
    var instances := Instances(lines, name);
    assert !(0 < Count(names, name) < |instances|);
    var p :| 0 <= p < |instances| && instances[p] == i;
    assert IsLow(p, |instances|, Count(names, name));
  }

  /** When the selection stands, every line of an asked name that no relay adds was taken. */
  lemma {:induction false} AllTaken(headers: seq<string>, names: seq<string>, i: nat, name: string)
    requires Select(headers, names).Ok?
    requires i < |headers| && NameOf(headers[i]) == Some(name) && name in names && !IsTransitAdded(name)
    ensures i in Select(headers, names).value
  {
    NamesAt(headers, i);
    NotGrownIsPicked(Names(headers), names, i, name);
  }

  // ---- A line added on top

  /** What a relay may put on top of a signed message. */
  ghost predicate IsHarmless(line: string, headers: seq<string>, names: seq<string>) {
    match NameOf(line)
    case None => true
    case Some(name) =>
      if name in names then IsTransitAdded(name) && Count(names, name) <= |Instances(Names(headers), name)|
      else !IsDisguised(TrimmedName(line).value, AskedNames(names))
  }

  lemma {:induction false} TransitKeepsGrown(line: Option<string>, lines: seq<Option<string>>, names: seq<string>)
    requires line.Some? && line.value in names ==> IsTransitAdded(line.value)
    requires !HasGrown(lines, names)
    ensures !HasGrown([line] + lines, names)
  {
    forall name | 0 < Count(names, name) < |Instances([line] + lines, name)|
      ensures IsTransitAdded(name)
    {
      InstancesBelow(line, lines, name);
      CountedIn(names, name);
    }
  }

  lemma {:induction false} DisguisedBelow(line: string, headers: seq<string>, names: seq<string>)
    ensures HasDisguised([line] + headers, names) <==> (IsDisguisedLine(line, names) || HasDisguised(headers, names))
  {
    var all := [line] + headers;
    assert all[0] == line;
    forall i | 0 <= i < |headers|
      ensures all[i + 1] == headers[i]
    {
    }
    if HasDisguised(headers, names) {
      var i :| 0 <= i < |headers| && IsDisguisedLine(headers[i], names);
      assert IsDisguisedLine(all[i + 1], names);
    }
  }

  /** A line of an asked name that no relay adds is, on top of any message, refused or signed. */
  lemma {:induction false} AddedIsRefusedOrSigned(line: string, headers: seq<string>, names: seq<string>)
    requires NameOf(line).Some? && NameOf(line).value in names && !IsTransitAdded(NameOf(line).value)
    ensures Select([line] + headers, names).Ok? ==> 0 in Select([line] + headers, names).value
  {
    assert ([line] + headers)[0] == line;
    if Select([line] + headers, names).Ok? {
      AllTaken([line] + headers, names, 0, NameOf(line).value);
    }
  }

  lemma {:induction false} HarmfulIsPicked(line: string, headers: seq<string>, names: seq<string>)
    requires !IsHarmless(line, headers, names) && NameOf(line).value in names
    ensures Select([line] + headers, names).Ok? ==> 0 in Select([line] + headers, names).value
  {
    if IsOversigned(NameOf(line), Names(headers), names) {
      NamesBelow(line, headers);
      OversignedIsPicked(NameOf(line), Names(headers), names);
    } else {
      AddedIsRefusedOrSigned(line, headers, names);
    }
  }

  lemma {:induction false} HarmlessIsUnseen(line: string, headers: seq<string>, names: seq<string>)
    requires Select(headers, names).Ok? && IsHarmless(line, headers, names)
    ensures Select([line] + headers, names) == Ok(AddOne(Picks(Names(headers), names)))
  {
    NamesBelow(line, headers);
    DisguisedBelow(line, headers, names);
    if NameOf(line).Some? {
      CountedIn(names, NameOf(line).value);
    }
    TransitKeepsGrown(NameOf(line), Names(headers), names);
    PicksBelow(NameOf(line), Names(headers), names);
  }

  /** A line put on top leaves the selection as it was exactly when it is one a relay may add. */
  lemma {:induction false} OnlyHarmlessLinesGoUnseen(line: string, headers: seq<string>, names: seq<string>)
    requires Select(headers, names).Ok?
    ensures Select([line] + headers, names) == Ok(AddOne(Select(headers, names).value)) <==>
      IsHarmless(line, headers, names)
  {
    if IsHarmless(line, headers, names) {
      HarmlessIsUnseen(line, headers, names);
    } else if NameOf(line).value in names {
      HarmfulIsPicked(line, headers, names);
      assert 0 !in AddOne(Picks(Names(headers), names));
    } else {
      DisguisedBelow(line, headers, names);
    }
  }

  // ---- The fields

  predicate AreFieldLines(headers: seq<string>, picks: seq<nat>) {
    forall k :: 0 <= k < |picks| ==> picks[k] < |headers| && FieldOf(headers[picks[k]]).Some?
  }

  function FieldsAt(headers: seq<string>, picks: seq<nat>): seq<Field>
    requires AreFieldLines(headers, picks)
  {
    seq(|picks|, k requires 0 <= k < |picks| => FieldOf(headers[picks[k]]).value)
  }

  lemma {:induction false} FieldsBelow(line: string, headers: seq<string>, picks: seq<nat>)
    requires AreFieldLines(headers, picks)
    ensures AreFieldLines([line] + headers, AddOne(picks))
    ensures FieldsAt([line] + headers, AddOne(picks)) == FieldsAt(headers, picks)
  {
    forall k | 0 <= k < |picks|
      ensures ([line] + headers)[AddOne(picks)[k]] == headers[picks[k]]
    {
    }
  }

  lemma {:induction false} PicksAreFields(headers: seq<string>, names: seq<string>)
    ensures AreFieldLines(headers, Picks(Names(headers), names))
  {
    var picks := Picks(Names(headers), names);
    forall k | 0 <= k < |picks|
      ensures picks[k] < |headers| && FieldOf(headers[picks[k]]).Some?
    {
      PickAt(Names(headers), names, k);
      NamesAt(headers, picks[k]);
    }
  }

  /** `selectSignedHeaders`: the selected fields in `h=` order, or the reason to refuse. */
  ghost function SignedFields(headers: seq<string>, names: seq<string>): (r: Result<seq<Field>, SelectError>) {
    PicksAreFields(headers, names);
    if Select(headers, names).Err? then Err(Select(headers, names).error)
    else Ok(FieldsAt(headers, Picks(Names(headers), names)))
  }

  // ---- The loops

  method FindOccurrences(headers: seq<string>) returns (occurrences: map<string, seq<nat>>)
    ensures IsOccurrences(occurrences, Names(headers))
  {
    occurrences := map[];
    for i := 0 to |headers|
      invariant IsOccurrences(occurrences, Names(headers[..i]))
    {
      assert headers[..i + 1][..i] == headers[..i] && headers[..i + 1][i] == headers[i];
      OccurrencesStep(occurrences, Names(headers[..i]), NameOf(headers[i]));
      var colon := IndexOf(headers[i], ':');
      if colon != -1 {
        var trimmed := Trimmed(Padding, headers[i][..colon]);
        var name := Lower(trimmed);
        assert NameOf(headers[i]) == Some(name);
        if name in occurrences {
          occurrences := occurrences[name := occurrences[name] + [i]];
        } else {
          occurrences := occurrences[name := [] + [i]];
        }
      }
    }
    assert headers[..|headers|] == headers;
  }

  method FindGrown(ghost lines: seq<Option<string>>, ghost names: seq<string>, occurrences: map<string, seq<nat>>,
    asked: map<string, nat>) returns (grown: bool)
    requires IsOccurrences(occurrences, lines)
    requires forall name :: Count(names, name) == if name in asked then asked[name] else 0
    ensures grown <==> HasGrown(lines, names)
  {
    var todo := occurrences.Keys;
    while todo != {}
      invariant todo <= occurrences.Keys
      invariant forall name :: name in occurrences && name !in todo ==>
        !(0 < Count(names, name) < |Instances(lines, name)|) || IsTransitAdded(name)
    {
      var name :| name in todo;
      todo := todo - {name};
      var count := if name in asked then asked[name] else 0;
      if 0 < count < |occurrences[name]| && !IsTransitAdded(name) {
        return true;
      }
    }
    grown := false;
  }

  method LongestName(names: seq<string>) returns (max: nat)
    ensures forall t :: t in AskedNames(names) ==> |t| <= max
  {
    max := 0;
    for j := 0 to |names|
      invariant forall k :: 0 <= k < j ==> |names[k]| <= max
    {
      if |names[j]| > max {
        max := |names[j]|;
      }
    }
  }

  method FindDisguised(headers: seq<string>, names: seq<string>, asked: map<string, nat>) returns (found: bool)
    requires forall name :: name in asked <==> name in names
    ensures found <==> HasDisguised(headers, names)
  {
    var max := LongestName(names);
    for i := 0 to |headers|
      invariant forall k :: 0 <= k < i ==> !IsDisguisedLine(headers[k], names)
    {
      var colon := IndexOf(headers[i], ':');
      if colon != -1 {
        var trimmed := Trimmed(Padding, headers[i][..colon]);
        if Lower(trimmed) !in asked {
          var loose := LooseHeaderNameMatch(trimmed, AskedNames(names), max);
          if loose.Some? {
            assert IsDisguisedLine(headers[i], names);
            return true;
          }
        }
      }
    }
    found := false;
  }

  method SelectSignedHeaders(headers: seq<string>, names: seq<string>) returns (r: Result<seq<Field>, SelectError>)
    ensures r == SignedFields(headers, names)
  {
    var occurrences := FindOccurrences(headers);
    var asked := CountNames(names);
    var picks := PickFields(Names(headers), names, occurrences);
    var grown := FindGrown(Names(headers), names, occurrences, asked);
    if grown {
      return Err(Grown);
    }
    forall name
      ensures name in asked <==> name in names
    {
      CountedIn(names, name);
    }
    var disguised := FindDisguised(headers, names, asked);
    if disguised {
      return Err(Disguised);
    }
    PicksAreFields(headers, names);
    r := Ok(FieldsAt(headers, picks));
  }
}
