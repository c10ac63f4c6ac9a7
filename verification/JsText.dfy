/** The ECMAScript string functions the modules share: white space, trimming and ASCII case. */
module JsText {

  /** What `trim` strips: ECMAScript white space and line terminators. */
  predicate IsJsSpace(c: char) {
    var u := c as int;
    0x9 <= u <= 0xD || u == 0x20 || u == 0xA0 || u == 0x1680 || 0x2000 <= u <= 0x200A ||
    u == 0x2028 || u == 0x2029 || u == 0x202F || u == 0x205F || u == 0x3000 || u == 0xFEFF
  }

  function TrimEnd(s: string): string {
    if s == "" || !IsJsSpace(s[|s| - 1]) then s else TrimEnd(s[..|s| - 1])
  }

  function TrimStart(s: string): string {
    if s == "" || !IsJsSpace(s[0]) then s else TrimStart(s[1..])
  }

  function Trim(s: string): string {
    TrimEnd(TrimStart(s))
  }

  /** `trim` changes nothing exactly when neither end is white space. */
  lemma {:induction false} TrimKeeps(s: string)
    ensures Trim(s) == s <==> s == "" || (!IsJsSpace(s[0]) && !IsJsSpace(s[|s| - 1]))
  {
    if s != "" {
      TrimStartShrinks(s[1..]);
      TrimEndShrinks(s[..|s| - 1]);
      TrimStartShrinks(s);
      TrimEndShrinks(TrimStart(s));
    }
  }

  lemma {:induction false} TrimStartShrinks(s: string)
    ensures |TrimStart(s)| <= |s|
  {
    if s != "" {
      TrimStartShrinks(s[1..]);
    }
  }

  lemma {:induction false} TrimEndShrinks(s: string)
    ensures |TrimEnd(s)| <= |s|
  {
    if s != "" {
      TrimEndShrinks(s[..|s| - 1]);
    }
  }

  function UpperChar(c: char): char {
    if 'a' <= c <= 'z' then (c as int - 32) as char else c
  }

  /** `toUpperCase` of an ASCII name. */
  function AsciiUpper(s: string): string {
    seq(|s|, i requires 0 <= i < |s| => UpperChar(s[i]))
  }

  predicate IsSmallLetterOf(small: char, capital: char) {
    'a' <= small <= 'z' && small as int == capital as int + 32
  }

  /** Two names are the same in capitals exactly when they differ in the case of ASCII letters alone. */
  lemma {:induction false} SameInCapitals(a: string, b: string)
    ensures AsciiUpper(a) == AsciiUpper(b) <==>
      (|a| == |b| && forall i :: 0 <= i < |a| ==>
         a[i] == b[i] || IsSmallLetterOf(a[i], b[i]) || IsSmallLetterOf(b[i], a[i]))
  {
    assert forall i :: 0 <= i < |a| ==> AsciiUpper(a)[i] == UpperChar(a[i]);
    assert forall i :: 0 <= i < |b| ==> AsciiUpper(b)[i] == UpperChar(b[i]);
  }
}
