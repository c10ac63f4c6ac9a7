/** Octets held one to a character, the classes the DKIM modules scan by, and trimming. */
module Octets {
  datatype Class = Wsp | Fws | Separator | TagName | Padding

  /**
   * `Wsp` is SP and HTAB; `Fws` adds CR and LF, and `Separator` ";" too; `TagName` is a letter, a digit or "-";
   * `Padding` is every octet that no header name may hold, outside 0x21-0x7E.
   */
  predicate In(class_: Class, c: char) {
    match class_
    case Wsp => c == ' ' || c == '\t'
    case Fws => c == ' ' || c == '\t' || c == '\r' || c == '\n'
    case Separator => c == ' ' || c == '\t' || c == '\r' || c == '\n' || c == ';'
    case TagName => 'a' <= c <= 'z' || 'A' <= c <= 'Z' || '0' <= c <= '9' || c == '-'
    case Padding => c < '!' || c > '~'
  }

  predicate IsWsp(c: char) {
    In(Wsp, c)
  }

  predicate All(class_: Class, s: string) {
    forall i :: 0 <= i < |s| ==> In(class_, s[i])
  }

  /** How many characters of `class_` begin `s`. */
  function Skip(class_: Class, s: string): (n: nat)
    ensures n <= |s|
  {
    if s == "" || !In(class_, s[0]) then 0 else 1 + Skip(class_, s[1..])
  }

  /** The characters of a class before anything else are counted exactly. */
  lemma {:induction false} SkipOver(class_: Class, run: string, rest: string)
    requires All(class_, run) && (rest == "" || !In(class_, rest[0]))
    ensures Skip(class_, run + rest) == |run| && (run + rest)[|run|..] == rest
  {
    if run == "" {
      assert run + rest == rest;
    } else {
      SkipOver(class_, run[1..], rest);
      assert (run + rest)[1..] == run[1..] + rest;
    }
  }

  /** One of the loops that move `i` over a class. */
  method SkipWhile(class_: Class, text: string) returns (i: nat)
    ensures i == Skip(class_, text)
  {
    i := 0;
    while i < |text| && In(class_, text[i])
      invariant 0 <= i <= |text| && All(class_, text[..i])
    {
      i := i + 1;
    }
    SkipOver(class_, text[..i], text[i..]);
    assert text[..i] + text[i..] == text;
  }

  function TrimStart(class_: Class, s: string): string {
    if s == "" || !In(class_, s[0]) then s else TrimStart(class_, s[1..])
  }

  function TrimEnd(class_: Class, s: string): string {
    if s == "" || !In(class_, s[|s| - 1]) then s else TrimEnd(class_, s[..|s| - 1])
  }

  /** `s` without the characters of `class_` at its ends. */
  function Trim(class_: Class, s: string): string {
    TrimEnd(class_, TrimStart(class_, s))
  }

  predicate IsTrim(class_: Class, s: string) {
    s == "" || (!In(class_, s[0]) && !In(class_, s[|s| - 1]))
  }

  lemma {:induction false} TrimEndShows(class_: Class, s: string)
    ensures var t := TrimEnd(class_, s); t <= s && (t == "" || !In(class_, t[|t| - 1]))
    ensures All(class_, s[|TrimEnd(class_, s)|..])
  {
    if s != "" && In(class_, s[|s| - 1]) {
      var front := s[..|s| - 1];
      TrimEndShows(class_, front);
      var kept := |TrimEnd(class_, s)|;
      assert s[kept..] == front[kept..] + [s[|s| - 1]];
      assert s[..kept] == front[..kept];
    }
  }

  /** A text between runs of `class_` is what trimming leaves. */
  lemma {:induction false} TrimBetween(class_: Class, left: string, s: string, right: string)
    requires All(class_, left) && All(class_, right) && IsTrim(class_, s)
    ensures Trim(class_, left + s + right) == s
    decreases |left| + |right|
  {
    var text := left + s + right;
    if left != "" {
      TrimBetween(class_, left[1..], s, right);
      assert text[1..] == left[1..] + s + right;
    } else if s == "" {
      AllTrimmed(class_, text);
    } else if right != "" {
      TrimBetween(class_, left, s, right[..|right| - 1]);
      assert text[..|text| - 1] == left + s + right[..|right| - 1];
    } else {
      assert text == s;
    }
  }

  lemma {:induction false} AllTrimmed(class_: Class, s: string)
    requires All(class_, s)
    ensures TrimStart(class_, s) == ""
  {
    if s != "" {
      AllTrimmed(class_, s[1..]);
    }
  }

  /** The two loops that move `start` and `end` towards each other. */
  method Trimmed(class_: Class, value: string) returns (r: string)
    ensures r == Trim(class_, value)
  {
    var start, end := 0, |value|;
    while start < end && In(class_, value[start])
      invariant 0 <= start <= end == |value|
      invariant All(class_, value[..start])
    {
      start := start + 1;
    }
    while end > start && In(class_, value[end - 1])
      invariant start <= end <= |value|
      invariant All(class_, value[..start]) && All(class_, value[end..])
      invariant start < |value| && start < end ==> !In(class_, value[start])
    {
      end := end - 1;
    }
    r := value[start..end];
    assert value == value[..start] + r + value[end..];
    TrimBetween(class_, value[..start], r, value[end..]);
  }

  // ---- `toLowerCase` on octets

  /** ASCII letters, and the Latin-1 letters that an octet above 0x7F reads as. */
  function LowerChar(c: char): char {
    if 'A' <= c <= 'Z' || ('\U{C0}' <= c <= '\U{DE}' && c != '\U{D7}') then (c as int + 32) as char else c
  }

  function Lower(s: string): string {
    seq(|s|, i requires 0 <= i < |s| => LowerChar(s[i]))
  }
}
