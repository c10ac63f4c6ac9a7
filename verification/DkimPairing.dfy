/** Pairing the mentions of names with the lines that carry them, from the bottom up (`email/dkim-headers.ts`). */
module DkimPairing {
  import opened Wrappers
  import opened MailLines

  // A line is the name it carries, if it carries one.

  /** How often `name` is in `names`. */
  function Count(names: seq<string>, name: string): (n: nat) {
    if names == [] then 0
    else Count(names[..|names| - 1], name) + if names[|names| - 1] == name then 1 else 0
  }

  /** The lines that carry `name`, from top to bottom. */
  function Instances(lines: seq<Option<string>>, name: string): seq<nat> {
    if lines == [] then []
    else
      var last := |lines| - 1;
      Instances(lines[..last], name) + if lines[last] == Some(name) then [last] else []
  }

  /** What the last of `names` picks: its k-th mention the k-th instance from the bottom. */
  function PickLast(lines: seq<Option<string>>, names: seq<string>): (r: seq<nat>)
    requires names != []
  {
    var name := names[|names| - 1];
    PickFrom(Instances(lines, name), Count(names[..|names| - 1], name))
  }

  /** The instance that `earlier` mentions leave lowest. */
  function PickFrom(instances: seq<nat>, earlier: nat): seq<nat> {
    if earlier < |instances| then [instances[|instances| - 1 - earlier]] else []
  }

  function Picks(lines: seq<Option<string>>, names: seq<string>): seq<nat> {
    if names == [] then [] else Picks(lines, names[..|names| - 1]) + PickLast(lines, names)
  }

  // ---- What the pairing promises

  lemma {:induction false} InstanceAt(lines: seq<Option<string>>, name: string, p: nat)
    requires p < |Instances(lines, name)|
    ensures Instances(lines, name)[p] < |lines| && lines[Instances(lines, name)[p]] == Some(name)
  {
    var front := lines[..|lines| - 1];
    if p < |Instances(front, name)| {
      InstanceAt(front, name, p);
    }
  }

  lemma {:induction false} InInstances(lines: seq<Option<string>>, name: string, i: nat)
    requires i < |lines|
    ensures i in Instances(lines, name) <==> lines[i] == Some(name)
  {
    if i < |lines| - 1 {
      InInstances(lines[..|lines| - 1], name, i);
    } else {
      var front := Instances(lines[..i], name);
      forall p | 0 <= p < |front|
        ensures front[p] != i
      {
        InstanceAt(lines[..i], name, p);
      }
    }
  }

  lemma {:induction false} InstancesAscend(lines: seq<Option<string>>, name: string, p: nat, q: nat)
    requires p < q < |Instances(lines, name)|
    ensures Instances(lines, name)[p] < Instances(lines, name)[q]
  {
    var front := Instances(lines[..|lines| - 1], name);
    if q < |front| {
      InstancesAscend(lines[..|lines| - 1], name, p, q);
    } else {
      assert Instances(lines, name)[p] == front[p];
      InstanceAt(lines[..|lines| - 1], name, p);
    }
  }

  /** Whether `p` is one of the lowest `count` of `n`. */
  predicate IsLow(p: int, n: nat, count: nat) {
    0 <= p < n && n - count <= p
  }

  ghost predicate IsLowInstance(lines: seq<Option<string>>, name: string, count: nat, i: nat) {
    exists p :: IsLow(p, |Instances(lines, name)|, count) && Instances(lines, name)[p] == i
  }

  lemma {:induction false} LowGrows(lines: seq<Option<string>>, name: string, count: nat, i: nat)
    ensures IsLowInstance(lines, name, count + 1, i) <==>
      (IsLowInstance(lines, name, count, i) ||
       (count < |Instances(lines, name)| && Instances(lines, name)[|Instances(lines, name)| - 1 - count] == i))
  {
    var instances := Instances(lines, name);
    if IsLowInstance(lines, name, count, i) {
      var p :| IsLow(p, |instances|, count) && instances[p] == i;
      assert IsLow(p, |instances|, count + 1);
    }
    if count < |instances| {
      assert IsLow(|instances| - 1 - count, |instances|, count + 1);
    }
    if IsLowInstance(lines, name, count + 1, i) {
      var p :| IsLow(p, |instances|, count + 1) && instances[p] == i;
      if p != |instances| - 1 - count {
        assert IsLow(p, |instances|, count);
      }
    }
  }

  lemma {:induction false} PickLastIs(lines: seq<Option<string>>, names: seq<string>, i: nat, name: string)
    requires names != [] && i < |lines| && lines[i] == Some(name)
    ensures var instances, earlier := Instances(lines, name), Count(names[..|names| - 1], name);
      i in PickLast(lines, names) <==>
        (names[|names| - 1] == name && earlier < |instances| && instances[|instances| - 1 - earlier] == i)
  {
    var last := names[|names| - 1];
    if last != name {
      InInstances(lines, last, i);
      var instances := Instances(lines, last);
      assert i !in instances;
      assert i !in PickLast(lines, names);
    }
  }

  /** A line is picked exactly when it is among the lowest instances of its name, as many as there are mentions. */
  lemma {:induction false} PickedAre(lines: seq<Option<string>>, names: seq<string>, i: nat, name: string)
    requires i < |lines| && lines[i] == Some(name)
    ensures i in Picks(lines, names) <==> IsLowInstance(lines, name, Count(names, name), i)
  {
    if names != [] {
      PickedAre(lines, names[..|names| - 1], i, name);
      PickLastIs(lines, names, i, name);
      LowGrows(lines, name, Count(names[..|names| - 1], name), i);
    }
  }

  lemma {:induction false} PickIsNew(lines: seq<Option<string>>, names: seq<string>, i: nat)
    requires names != [] && i in PickLast(lines, names)
    ensures i !in Picks(lines, names[..|names| - 1])
  {
    var front, name := names[..|names| - 1], names[|names| - 1];
    var instances := Instances(lines, name);
    var k := |instances| - 1 - Count(front, name);
    assert instances[k] == i;
    InstanceAt(lines, name, k);
    PickedAre(lines, front, i, name);
    if IsLowInstance(lines, name, Count(front, name), i) {
      var p :| IsLow(p, |instances|, Count(front, name)) && instances[p] == i;
      InstancesAscend(lines, name, |instances| - 1 - Count(front, name), p);
    }
  }

  /** Every pick is a line that carries a name. */
  lemma {:induction false} PickAt(lines: seq<Option<string>>, names: seq<string>, k: nat)
    requires k < |Picks(lines, names)|
    ensures Picks(lines, names)[k] < |lines| && lines[Picks(lines, names)[k]].Some?
  {
    var front, name := names[..|names| - 1], names[|names| - 1];
    if k < |Picks(lines, front)| {
      PickAt(lines, front, k);
    } else {
      InstanceAt(lines, name, |Instances(lines, name)| - 1 - Count(front, name));
    }
  }

  /** No line is taken twice. */
  lemma {:induction false} NoneTwice(lines: seq<Option<string>>, names: seq<string>)
    ensures forall p, q :: 0 <= p < q < |Picks(lines, names)| ==> Picks(lines, names)[p] != Picks(lines, names)[q]
  {
    if names != [] {
      NoneTwice(lines, names[..|names| - 1]);
      if PickLast(lines, names) != [] {
        PickIsNew(lines, names, PickLast(lines, names)[0]);
      }
    }
  }

  lemma {:induction false} CountedIn(names: seq<string>, name: string)
    ensures Count(names, name) > 0 <==> name in names
  {
    if names != [] {
      CountedIn(names[..|names| - 1], name);
      assert names == names[..|names| - 1] + [names[|names| - 1]];
    }
  }

  // ---- A line added on top

  function AddOne(s: seq<nat>): (r: seq<nat>)
    ensures |r| == |s| && forall p :: 0 <= p < |s| ==> r[p] == s[p] + 1
  {
    seq(|s|, p requires 0 <= p < |s| => s[p] + 1)
  }

  function OnTop(line: Option<string>, name: string): seq<nat> {
    if line == Some(name) then [0] else []
  }

  lemma {:induction false} AddOneAppend(a: seq<nat>, b: seq<nat>)
    ensures AddOne(a + b) == AddOne(a) + AddOne(b)
  {
  }

  lemma {:induction false} InstancesStep(front: seq<Option<string>>, last: Option<string>, name: string)
    ensures Instances(front + [last], name) ==
      Instances(front, name) + if last == Some(name) then [|front|] else []
  {
    assert (front + [last])[..|front|] == front;
  }

  lemma {:induction false} InstancesBelow(line: Option<string>, lines: seq<Option<string>>, name: string)
    ensures Instances([line] + lines, name) == OnTop(line, name) + AddOne(Instances(lines, name))
  {
    if lines == [] {
      InstancesStep([], line, name);
      assert [line] + lines == [] + [line];
    } else {
      var n := |lines| - 1;
      var front, last := lines[..n], lines[n];
      var here := if last == Some(name) then [n] else [];
      InstancesBelow(line, front, name);
      InstancesStep([line] + front, last, name);
      assert [line] + lines == [line] + front + [last];
      AddOneAppend(Instances(front, name), here);
      Regroup(OnTop(line, name), AddOne(Instances(front, name)), AddOne(here), []);
    }
  }

  /** Whether a mention is left for the new line. */
  predicate IsOversigned(line: Option<string>, lines: seq<Option<string>>, names: seq<string>) {
    line.Some? && Count(names, line.value) > |Instances(lines, line.value)|
  }

  lemma {:induction false} CountGrows(names: seq<string>, name: string)
    requires names != []
    ensures Count(names[..|names| - 1], name) <= Count(names, name)
    ensures names[|names| - 1] == name ==> Count(names[..|names| - 1], name) < Count(names, name)
  {
  }

  lemma {:induction false} PickFromBelow(top: seq<nat>, instances: seq<nat>, earlier: nat)
    requires top == [] || earlier < |instances|
    ensures PickFrom(top + AddOne(instances), earlier) == AddOne(PickFrom(instances, earlier))
  {
  }

  lemma {:induction false} PickBelow(line: Option<string>, lines: seq<Option<string>>, names: seq<string>)
    requires names != [] && !IsOversigned(line, lines, names)
    ensures PickLast([line] + lines, names) == AddOne(PickLast(lines, names))
  {
    var name := names[|names| - 1];
    InstancesBelow(line, lines, name);
    CountGrows(names, name);
    PickFromBelow(OnTop(line, name), Instances(lines, name), Count(names[..|names| - 1], name));
  }

  /** A line that no mention is left for changes nothing that is picked. */
  lemma {:induction false} PicksBelow(line: Option<string>, lines: seq<Option<string>>, names: seq<string>)
    requires !IsOversigned(line, lines, names)
    ensures Picks([line] + lines, names) == AddOne(Picks(lines, names))
  {
    if names != [] {
      var front := names[..|names| - 1];
      if line.Some? {
        CountGrows(names, line.value);
      }
      PicksBelow(line, lines, front);
      PickBelow(line, lines, names);
      AddOneAppend(Picks(lines, front), PickLast(lines, names));
    }
  }

  /** A line that a mention is left for is picked. */
  lemma {:induction false} OversignedIsPicked(line: Option<string>, lines: seq<Option<string>>, names: seq<string>)
    requires IsOversigned(line, lines, names)
    ensures 0 in Picks([line] + lines, names)
  {
    var name := line.value;
    var all := [line] + lines;
    assert all[0] == line;
    InstancesBelow(line, lines, name);
    assert IsLow(0, |Instances(all, name)|, Count(names, name));
    PickedAre(all, names, 0, name);
  }

  // ---- Lists that lose their last index

  function Left(instances: seq<nat>, count: nat): seq<nat> {
    if count <= |instances| then instances[..|instances| - count] else []
  }

  /** The list of `name`, after as many of its mentions as `count`. */
  ghost predicate IsLeft(remaining: map<string, seq<nat>>, name: string, instances: seq<nat>, count: nat) {
    && (name in remaining <==> instances != [])
    && (name in remaining ==> remaining[name] == Left(instances, count))
  }

  /** What the mentions so far have left of each list. */
  ghost predicate IsRemaining(remaining: map<string, seq<nat>>, lines: seq<Option<string>>, names: seq<string>) {
    forall name :: IsLeft(remaining, name, Instances(lines, name), Count(names, name))
  }

  lemma {:induction false} LeftStep(instances: seq<nat>, count: nat)
    ensures var left := Left(instances, count);
      Left(instances, count + 1) == (if left == [] then [] else left[..|left| - 1]) &&
      PickFrom(instances, count) == (if left == [] then [] else [left[|left| - 1]])
  {
  }

  lemma {:induction false} CountStep(names: seq<string>, last: string, name: string)
    ensures Count(names + [last], name) == Count(names, name) + if last == name then 1 else 0
  {
    assert (names + [last])[..|names|] == names;
  }

  /** What is left once `name` is mentioned. */
  function Pop(remaining: map<string, seq<nat>>, name: string): map<string, seq<nat>> {
    if name in remaining && remaining[name] != [] then remaining[name := remaining[name][..|remaining[name]| - 1]]
    else remaining
  }

  lemma {:induction false} PopLeft(remaining: map<string, seq<nat>>, name: string, instances: seq<nat>, count: nat)
    requires IsLeft(remaining, name, instances, count)
    ensures IsLeft(Pop(remaining, name), name, instances, count + 1)
  {
    LeftStep(instances, count);
  }

  /** The list of the name just mentioned loses its last index, and no other list changes. */
  lemma {:induction false} RemainingStep(
    remaining: map<string, seq<nat>>, lines: seq<Option<string>>, names: seq<string>, name: string)
    requires IsRemaining(remaining, lines, names)
    ensures IsRemaining(Pop(remaining, name), lines, names + [name])
  {
    forall other
      ensures IsLeft(Pop(remaining, name), other, Instances(lines, other), Count(names + [name], other))
    {
      CountStep(names, name, other);
      assert IsLeft(remaining, other, Instances(lines, other), Count(names, other));
      if other == name {
        PopLeft(remaining, name, Instances(lines, name), Count(names, name));
      }
    }
  }

  /** The last index of the list is the one that the mention picks. */
  lemma {:induction false} RemainingPick(
    remaining: map<string, seq<nat>>, lines: seq<Option<string>>, names: seq<string>, name: string)
    requires IsRemaining(remaining, lines, names)
    ensures PickLast(lines, names + [name]) ==
      if name in remaining && remaining[name] != [] then [remaining[name][|remaining[name]| - 1]] else []
  {
    assert (names + [name])[..|names|] == names;
    assert IsLeft(remaining, name, Instances(lines, name), Count(names, name));
    LeftStep(Instances(lines, name), Count(names, name));
  }

  lemma {:induction false} PicksStep(lines: seq<Option<string>>, names: seq<string>, name: string)
    ensures Picks(lines, names + [name]) == Picks(lines, names) + PickLast(lines, names + [name])
  {
    assert (names + [name])[..|names|] == names;
  }

  // ---- The loops

  /** The map of every name to the lines that carry it. */
  ghost predicate IsOccurrences(occurrences: map<string, seq<nat>>, lines: seq<Option<string>>) {
    forall name :: (name in occurrences <==> Instances(lines, name) != []) &&
      (name in occurrences ==> occurrences[name] == Instances(lines, name))
  }

  lemma {:induction false} OccurrencesStep(
    occurrences: map<string, seq<nat>>, lines: seq<Option<string>>, line: Option<string>)
    requires IsOccurrences(occurrences, lines)
    ensures line.None? ==> IsOccurrences(occurrences, lines + [line])
    ensures line.Some? ==>
      var list := if line.value in occurrences then occurrences[line.value] else [];
      IsOccurrences(occurrences[line.value := list + [|lines|]], lines + [line])
  {
    forall name
      ensures Instances(lines + [line], name) == Instances(lines, name) + if line == Some(name) then [|lines|] else []
    {
      InstancesStep(lines, line, name);
    }
  }

  /** What the pairing loop keeps after the mentions `names`. */
  ghost predicate IsPaired(
    remaining: map<string, seq<nat>>, picks: seq<nat>, lines: seq<Option<string>>, names: seq<string>) {
    IsRemaining(remaining, lines, names) && picks == Picks(lines, names)
  }

  lemma {:induction false} PairedStep(
    remaining: map<string, seq<nat>>, picks: seq<nat>, lines: seq<Option<string>>, names: seq<string>, j: nat)
    requires j < |names| && IsPaired(remaining, picks, lines, names[..j])
    ensures var name := names[j];
      if name in remaining && remaining[name] != [] then
        IsPaired(Pop(remaining, name), picks + [remaining[name][|remaining[name]| - 1]], lines, names[..j + 1])
      else IsPaired(remaining, picks, lines, names[..j + 1])
  {
    RemainingStep(remaining, lines, names[..j], names[j]);
    RemainingPick(remaining, lines, names[..j], names[j]);
    PicksStep(lines, names[..j], names[j]);
    assert names[..j] + [names[j]] == names[..j + 1];
  }

  method PickFields(ghost lines: seq<Option<string>>, names: seq<string>, occurrences: map<string, seq<nat>>)
    returns (picks: seq<nat>)
    requires IsOccurrences(occurrences, lines)
    ensures picks == Picks(lines, names)
  {
    picks := [];
    var remaining := occurrences;
    for j := 0 to |names|
      invariant IsPaired(remaining, picks, lines, names[..j])
    {
      PairedStep(remaining, picks, lines, names, j);
      var name := names[j];
      if name in remaining && remaining[name] != [] {
        var list := remaining[name];
        remaining := remaining[name := list[..|list| - 1]];
        picks := picks + [list[|list| - 1]];
      }
    }
    assert names[..|names|] == names;
  }

  method CountNames(names: seq<string>) returns (asked: map<string, nat>)
    ensures forall name :: Count(names, name) == if name in asked then asked[name] else 0
    ensures forall name :: name in asked ==> asked[name] > 0
  {
    asked := map[];
    for j := 0 to |names|
      invariant forall name :: Count(names[..j], name) == if name in asked then asked[name] else 0
      invariant forall name :: name in asked ==> asked[name] > 0
    {
      assert names[..j + 1][..j] == names[..j] && names[..j + 1][j] == names[j];
      asked := asked[names[j] := (if names[j] in asked then asked[names[j]] else 0) + 1];
    }
    assert names[..|names|] == names;
  }
}
