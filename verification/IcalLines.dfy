/**
 * Comparing two iCalendar texts by their content lines (`caldav/write.ts`). Parsing and
 * `JSON.stringify` belong to libraries: a parsed component tree and an injective encoding stand
 * for them.
 */
module IcalLines {
  import opened Wrappers
  import opened JsText

  datatype Property = Property(name: string, params: seq<(string, seq<string>)>, value: string)

  datatype Component = Component(name: string, properties: seq<Property>, components: seq<Component>)

  /** A content line as comparable: where a component begins or ends, or one property. */
  datatype Line = Begin(name: string) | End(name: string) | Content(property: Property)

  /** What the library does: parse a text, and write a property as a JSON array. */
  datatype Library = Library(parse: string -> Option<Component>, json: Property -> string)

  ghost predicate IsFaithful(lib: Library) {
    && (forall p :: lib.json(p) != "" && lib.json(p)[0] == '[')
    && (forall p, q :: lib.json(p) == lib.json(q) ==> p == q)
  }

  // ---- Lines and keys

  /** `componentsOf`: every component in a tree, the root first. */
  function ComponentsOf(root: Component): seq<Component>
    decreases root, 1
  {
    [root] + AllComponents(root.components)
  }

  function AllComponents(roots: seq<Component>): seq<Component>
    decreases roots, 0
  {
    if roots == [] then [] else ComponentsOf(roots[0]) + AllComponents(roots[1..])
  }

  /** A component of a tree, at any depth. */
  predicate IsWithin(part: Component, root: Component)
    decreases root
  {
    part == root || exists k :: 0 <= k < |root.components| && IsWithin(part, root.components[k])
  }

  /** The list of a tree's components holds what is in the tree, at any depth, and nothing else. */
  lemma {:induction false} ComponentsAre(root: Component, part: Component)
    ensures part in ComponentsOf(root) <==> IsWithin(part, root)
    decreases root, 1
  {
    AllComponentsAre(root.components, part);
  }

  lemma {:induction false} AllComponentsAre(roots: seq<Component>, part: Component)
    ensures part in AllComponents(roots) <==> exists k :: 0 <= k < |roots| && IsWithin(part, roots[k])
    decreases roots, 0
  {
    hide IsWithin;
    if roots != [] {
      ComponentsAre(roots[0], part);
      AllComponentsAre(roots[1..], part);
      assert forall k :: 0 <= k < |roots| - 1 ==> roots[1..][k] == roots[k + 1];
      assert forall k :: 1 <= k < |roots| ==> roots[k] == roots[1..][k - 1];
    }
  }

  function PropertyLines(properties: seq<Property>): seq<Line> {
    if properties == [] then [] else [Content(properties[0])] + PropertyLines(properties[1..])
  }

  function LinesOf(components: seq<Component>): seq<Line> {
    if components == [] then []
    else
      [Begin(components[0].name), End(components[0].name)] + PropertyLines(components[0].properties) +
      LinesOf(components[1..])
  }

  function KeyOf(lib: Library, line: Line): string {
    match line
    case Begin(name) => "BEGIN:" + name
    case End(name) => "END:" + name
    case Content(property) => lib.json(property)
  }

  function KeysOf(lib: Library, lines: seq<Line>): (keys: seq<string>)
    ensures |keys| == |lines|
  {
    if lines == [] then [] else [KeyOf(lib, lines[0])] + KeysOf(lib, lines[1..])
  }

  // ---- `sort`, by code units

  predicate LessEq(a: string, b: string) {
    a == "" || (b != "" && (a[0] < b[0] || (a[0] == b[0] && LessEq(a[1..], b[1..]))))
  }

  function Insert(key: string, sorted: seq<string>): seq<string> {
    if sorted == [] then [key]
    else if LessEq(key, sorted[0]) then [key] + sorted
    else [sorted[0]] + Insert(key, sorted[1..])
  }

  function Sort(keys: seq<string>): seq<string> {
    if keys == [] then [] else Insert(keys[0], Sort(keys[1..]))
  }

  /** `contentKeys`: the keys of every line, sorted; `None` when the text is unreadable. */
  function ContentKeys(lib: Library, ics: string): Option<seq<string>> {
    match lib.parse(ics)
    case None => None
    case Some(root) => Some(Sort(KeysOf(lib, LinesOf(ComponentsOf(root)))))
  }

  /** `sameLines`: an unreadable text matches nothing. */
  predicate SameLines(lib: Library, a: string, b: string) {
    var left, right := ContentKeys(lib, a), ContentKeys(lib, b);
    left.Some? && right.Some? && left.value == right.value
  }

  /** The content lines of a text, with how often each occurs. */
  function LineCounts(lib: Library, ics: string): Option<multiset<Line>> {
    match lib.parse(ics)
    case None => None
    case Some(root) => Some(multiset(LinesOf(ComponentsOf(root))))
  }

  // ---- Sorting decides equality of multisets

  lemma {:induction false} LessEqTotal(a: string, b: string)
    ensures LessEq(a, b) || LessEq(b, a)
    ensures LessEq(a, b) && LessEq(b, a) ==> a == b
  {
    if a != "" && b != "" && a[0] == b[0] {
      LessEqTotal(a[1..], b[1..]);
      assert a == [a[0]] + a[1..] && b == [b[0]] + b[1..];
    }
  }

  lemma {:induction false} LessEqTransitive(a: string, b: string, c: string)
    requires LessEq(a, b) && LessEq(b, c)
    ensures LessEq(a, c)
  {
    if a != "" && a[0] == b[0] == c[0] {
      LessEqTransitive(a[1..], b[1..], c[1..]);
    }
  }

  predicate IsSorted(keys: seq<string>) {
    forall i, j :: 0 <= i < j < |keys| ==> LessEq(keys[i], keys[j])
  }

  lemma {:induction false} InsertAdds(key: string, sorted: seq<string>)
    ensures multiset(Insert(key, sorted)) == multiset(sorted) + multiset{key}
  {
    if sorted != [] && !LessEq(key, sorted[0]) {
      InsertAdds(key, sorted[1..]);
      assert sorted == [sorted[0]] + sorted[1..];
    }
  }

  lemma {:induction false} PrependSorted(key: string, sorted: seq<string>)
    requires IsSorted(sorted)
    requires forall k :: k in sorted ==> LessEq(key, k)
    ensures IsSorted([key] + sorted)
  {
  }

  lemma {:induction false} HeadIsLeast(key: string, sorted: seq<string>)
    requires IsSorted(sorted) && sorted != [] && LessEq(key, sorted[0])
    ensures forall k :: k in sorted ==> LessEq(key, k)
  {
    forall j | 0 <= j < |sorted|
      ensures LessEq(key, sorted[j])
    {
      if j > 0 {
        LessEqTransitive(key, sorted[0], sorted[j]);
      }
    }
  }

  lemma {:induction false} InsertKeeps(key: string, sorted: seq<string>)
    requires IsSorted(sorted)
    ensures IsSorted(Insert(key, sorted))
  {
    if sorted == [] {
    } else if LessEq(key, sorted[0]) {
      HeadIsLeast(key, sorted);
      PrependSorted(key, sorted);
    } else {
      LessEqTotal(key, sorted[0]);
      var rest := Insert(key, sorted[1..]);
      InsertKeeps(key, sorted[1..]);
      InsertAdds(key, sorted[1..]);
      forall k | k in rest
        ensures LessEq(sorted[0], k)
      {
        assert k in multiset(rest);
      }
      PrependSorted(sorted[0], rest);
    }
  }

  lemma {:induction false} SortSorts(keys: seq<string>)
    ensures IsSorted(Sort(keys)) && multiset(Sort(keys)) == multiset(keys)
  {
    if keys != [] {
      SortSorts(keys[1..]);
      InsertKeeps(keys[0], Sort(keys[1..]));
      InsertAdds(keys[0], Sort(keys[1..]));
      assert keys == [keys[0]] + keys[1..];
    }
  }

  lemma {:induction false} LeastIsFirst(sorted: seq<string>, key: string)
    requires IsSorted(sorted) && key in sorted
    ensures LessEq(sorted[0], key)
  {
    LessEqTotal(key, key);
  }

  lemma {:induction false} HeadsAgree(a: seq<string>, b: seq<string>)
    requires IsSorted(a) && IsSorted(b) && multiset(a) == multiset(b) && a != []
    ensures b != [] && a[0] == b[0]
  {
    assert a[0] in multiset(b);
    assert b[0] in multiset(a);
    LeastIsFirst(a, b[0]);
    LeastIsFirst(b, a[0]);
    LessEqTotal(a[0], b[0]);
  }

  lemma {:induction false} SortedIsUnique(a: seq<string>, b: seq<string>)
    requires IsSorted(a) && IsSorted(b) && multiset(a) == multiset(b)
    ensures a == b
  {
    if a == [] {
      assert |multiset(b)| == |multiset(a)| == 0;
    } else {
      HeadsAgree(a, b);
      assert a == [a[0]] + a[1..] && b == [b[0]] + b[1..];
      assert multiset(a[1..]) == multiset(a) - multiset{a[0]};
      assert multiset(b[1..]) == multiset(b) - multiset{b[0]};
      SortedIsUnique(a[1..], b[1..]);
    }
  }

  // ---- Keys tell lines apart

  lemma KeyHead(lib: Library, line: Line)
    requires IsFaithful(lib)
    ensures KeyOf(lib, line) != ""
    ensures KeyOf(lib, line)[0] == match line case Begin(_) => 'B' case End(_) => 'E' case Content(_) => '['
    ensures line.Begin? ==> KeyOf(lib, line)[6..] == line.name
    ensures line.End? ==> KeyOf(lib, line)[4..] == line.name
  {
  }

  lemma {:induction false} KeyIsInjective(lib: Library, a: Line, b: Line)
    requires IsFaithful(lib) && KeyOf(lib, a) == KeyOf(lib, b)
    ensures a == b
  {
    KeyHead(lib, a);
    KeyHead(lib, b);
  }

  lemma {:induction false} KeyCount(lib: Library, lines: seq<Line>, line: Line)
    requires IsFaithful(lib)
    ensures multiset(KeysOf(lib, lines))[KeyOf(lib, line)] == multiset(lines)[line]
  {
    if lines != [] {
      KeyCount(lib, lines[1..], line);
      assert lines == [lines[0]] + lines[1..];
      if KeyOf(lib, lines[0]) == KeyOf(lib, line) {
        KeyIsInjective(lib, lines[0], line);
      }
    }
  }

  lemma {:induction false} KeyComesFrom(lib: Library, lines: seq<Line>, key: string)
    requires key in KeysOf(lib, lines)
    ensures exists line :: line in lines && KeyOf(lib, line) == key
  {
    if key != KeyOf(lib, lines[0]) {
      KeyComesFrom(lib, lines[1..], key);
      var line :| line in lines[1..] && KeyOf(lib, line) == key;
      assert line in lines;
    } else {
      assert lines[0] in lines;
    }
  }

  lemma {:induction false} SameKeysSameLines(lib: Library, a: seq<Line>, b: seq<Line>)
    requires IsFaithful(lib)
    ensures multiset(KeysOf(lib, a)) == multiset(KeysOf(lib, b)) <==> multiset(a) == multiset(b)
  {
    var ka, kb := KeysOf(lib, a), KeysOf(lib, b);
    if multiset(ka) == multiset(kb) {
      forall line: Line
        ensures multiset(a)[line] == multiset(b)[line]
      {
        KeyCount(lib, a, line);
        KeyCount(lib, b, line);
      }
    }
    if multiset(a) == multiset(b) {
      forall key: string
        ensures multiset(ka)[key] == multiset(kb)[key]
      {
        if key in ka || key in kb {
          if key in ka {
            KeyComesFrom(lib, a, key);
          } else {
            KeyComesFrom(lib, b, key);
          }
          var line: Line :| KeyOf(lib, line) == key;
          KeyCount(lib, a, line);
          KeyCount(lib, b, line);
        }
      }
    }
  }

  /** Two texts have the same lines exactly when both are readable and hold each line equally often. */
  lemma {:induction false} SameLinesIsMultisetEquality(lib: Library, a: string, b: string)
    requires IsFaithful(lib)
    ensures SameLines(lib, a, b) <==> LineCounts(lib, a).Some? && LineCounts(lib, a) == LineCounts(lib, b)
  {
    if lib.parse(a).Some? && lib.parse(b).Some? {
      var la, lb := LinesOf(ComponentsOf(lib.parse(a).value)), LinesOf(ComponentsOf(lib.parse(b).value));
      var ka, kb := KeysOf(lib, la), KeysOf(lib, lb);
      SortSorts(ka);
      SortSorts(kb);
      if multiset(ka) == multiset(kb) {
        SortedIsUnique(Sort(ka), Sort(kb));
      }
      SameKeysSameLines(lib, la, lb);
    }
  }

  // ---- UID

  /** `getProperty`: the first property of that name, in any case. */
  function GetProperty(properties: seq<Property>, name: string): Option<string> {
    if properties == [] then None
    else if AsciiUpper(properties[0].name) == name then Some(properties[0].value)
    else GetProperty(properties[1..], name)
  }

  /** The `k`-th property is the first of that name. */
  predicate IsFirstNamed(properties: seq<Property>, name: string, k: int) {
    0 <= k < |properties| && AsciiUpper(properties[k].name) == name &&
    forall j :: 0 <= j < k ==> AsciiUpper(properties[j].name) != name
  }

  lemma {:induction false} GetPropertyIsFirst(properties: seq<Property>, name: string)
    ensures GetProperty(properties, name) == None <==>
      forall k :: 0 <= k < |properties| ==> AsciiUpper(properties[k].name) != name
    ensures forall k :: IsFirstNamed(properties, name, k) ==> GetProperty(properties, name) == Some(properties[k].value)
  {
    hide AsciiUpper;
    if properties != [] {
      var rest := properties[1..];
      GetPropertyIsFirst(rest, name);
      assert forall k :: 0 <= k < |rest| ==> rest[k] == properties[k + 1];
      forall k | IsFirstNamed(properties, name, k) && k > 0
        ensures GetProperty(properties, name) == Some(properties[k].value)
      {
        assert IsFirstNamed(rest, name, k - 1);
      }
      assert forall k :: 1 <= k < |properties| ==> properties[k] == rest[k - 1];
    }
  }

  function FirstUid(components: seq<Component>): Option<string> {
    if components == [] then None
    else
      match GetProperty(components[0].properties, "UID")
      case Some(value) => Some(Trim(value))
      case None => FirstUid(components[1..])
  }

  /** The `k`-th component is the first with a UID, which is its first one. */
  predicate IsFirstWithUid(components: seq<Component>, k: int, j: int) {
    && 0 <= k < |components| && IsFirstNamed(components[k].properties, "UID", j)
    && forall i :: 0 <= i < k ==> GetProperty(components[i].properties, "UID").None?
  }

  lemma {:induction false} FirstUidIs(components: seq<Component>)
    ensures FirstUid(components) == None <==>
      forall i :: 0 <= i < |components| ==> GetProperty(components[i].properties, "UID").None?
    ensures forall k, j :: IsFirstWithUid(components, k, j) ==>
      FirstUid(components) == Some(Trim(components[k].properties[j].value))
  {
    hide GetProperty, AsciiUpper, Trim;
    if components != [] {
      var rest := components[1..];
      FirstUidIs(rest);
      GetPropertyIsFirst(components[0].properties, "UID");
      assert forall i :: 0 <= i < |rest| ==> rest[i] == components[i + 1];
      assert forall i :: 1 <= i < |components| ==> components[i] == rest[i - 1];
      forall k, j | IsFirstWithUid(components, k, j) && k > 0
        ensures FirstUid(components) == Some(Trim(components[k].properties[j].value))
      {
        assert IsFirstWithUid(rest, k - 1, j);
      }
    }
  }

  /** `uidOf`: the first UID of a text, or `None` when it has none or is unreadable. */
  function UidOf(lib: Library, ics: string): Option<string> {
    match lib.parse(ics)
    case None => None
    case Some(root) => FirstUid(ComponentsOf(root))
  }
}
