/** Forward scans over text: `indexOf`, and "while the character is ..." loops, as functions. */
module Scan {

  /** `s.indexOf(c)`: the first index of `c`, or -1. */
  function IndexOf(s: string, c: char): (at: int)
    ensures -1 <= at < |s|
    ensures at >= 0 ==> s[at] == c
  {
    if s == "" then -1
    else if s[0] == c then 0
    else
      var rest := IndexOf(s[1..], c);
      if rest == -1 then -1 else rest + 1
  }

  lemma {:induction false} IndexOfIsFirst(s: string, c: char)
    ensures IndexOf(s, c) == -1 <==> c !in s
    ensures IndexOf(s, c) >= 0 ==> c !in s[..IndexOf(s, c)]
  {
    if s != "" && s[0] != c {
      IndexOfIsFirst(s[1..], c);
      var rest := IndexOf(s[1..], c);
      assert s == [s[0]] + s[1..];
      if rest != -1 {
        assert s[..rest + 1] == [s[0]] + s[1..][..rest];
      }
    }
  }

  /** `s.indexOf(marker)`: the first index at which `marker` stands, or -1. */
  function Find(s: string, marker: string): (at: int)
    ensures -1 <= at && (at >= 0 ==> at + |marker| <= |s|)
    decreases |s|
  {
    if marker <= s then 0
    else if s == "" then -1
    else
      var rest := Find(s[1..], marker);
      if rest == -1 then -1 else rest + 1
  }

  lemma {:induction false} FindAt(s: string, marker: string, n: nat)
    requires n <= |s| && marker <= s[n..]
    requires forall i :: 0 <= i < n ==> !(marker <= s[i..])
    ensures Find(s, marker) == n
  {
    if n == 0 {
      assert s[0..] == s;
    } else {
      assert s[0..] == s;
      assert s[1..][n - 1..] == s[n..];
      forall i | 0 <= i < n - 1
        ensures !(marker <= s[1..][i..])
      {
        assert s[1..][i..] == s[i + 1..];
      }
      FindAt(s[1..], marker, n - 1);
    }
  }

  /** The first `c` of `a + b`, where `a` has none and `b` starts with it. */
  lemma IndexOfAppend(a: string, b: string, c: char)
    requires c !in a && b != "" && b[0] == c
    ensures IndexOf(a + b, c) == |a|
  {
    var s := a + b;
    IndexOfIsFirst(s, c);
    assert s[|a|] == c;
    assert s[..|a|] == a;
    assert forall i :: 0 <= i < |a| ==> s[i] == a[i];
    assert forall i :: |a| < i <= |s| ==> s[|a|] in s[..i];
  }

  /** `s.indexOf(c, from)`. */
  function IndexFrom(s: string, c: char, from: nat): (at: int)
    requires from <= |s|
    ensures at == -1 || (from <= at < |s| && s[at] == c)
  {
    var at := IndexOf(s[from..], c);
    if at == -1 then -1 else from + at
  }

  /** `s.lastIndexOf(c)`. */
  function LastIndexOf(s: string, c: char): (at: int)
    ensures -1 <= at < |s| && (at >= 0 ==> s[at] == c)
  {
    if s == "" then -1 else if s[|s| - 1] == c then |s| - 1 else LastIndexOf(s[..|s| - 1], c)
  }

  lemma {:induction false} LastIndexOfIs(before: string, after: string, c: char)
    requires c !in after
    ensures LastIndexOf(before + ([c] + after), c) == |before|
  {
    var s := before + ([c] + after);
    if after == "" {
      assert s == before + [c];
    } else {
      LastIndexOfIs(before, after[..|after| - 1], c);
      assert s[..|s| - 1] == before + ([c] + after[..|after| - 1]);
    }
  }

  /** `s.split(separator)`. */
  function SplitOn(s: string, separator: char): (parts: seq<string>)
    ensures parts != []
    decreases |s|
  {
    var at := IndexOf(s, separator);
    if at == -1 then [s] else [s[..at]] + SplitOn(s[at + 1..], separator)
  }

  /** The parts with a separator between them. */
  function JoinWith(parts: seq<string>, separator: char): string
    requires parts != []
  {
    if |parts| == 1 then parts[0] else parts[0] + ([separator] + JoinWith(parts[1..], separator))
  }

  lemma {:induction false} SplitFirst(first: string, rest: string, separator: char)
    requires separator !in first
    ensures SplitOn(first + ([separator] + rest), separator) == [first] + SplitOn(rest, separator)
  {
    var text := first + ([separator] + rest);
    IndexOfAppend(first, [separator] + rest, separator);
    assert text[..|first|] == first && text[|first| + 1..] == rest;
  }

  lemma {:induction false} SplitUndoesJoinWith(parts: seq<string>, separator: char)
    requires parts != [] && forall i :: 0 <= i < |parts| ==> separator !in parts[i]
    ensures SplitOn(JoinWith(parts, separator), separator) == parts
  {
    if |parts| == 1 {
      IndexOfIsFirst(parts[0], separator);
    } else {
      hide SplitOn;
      SplitUndoesJoinWith(parts[1..], separator);
      SplitFirst(parts[0], JoinWith(parts[1..], separator), separator);
      assert parts == [parts[0]] + parts[1..];
    }
  }
}
