/** Header and body canonicalization (`email/dkim-canonicalize.ts`; section 3.4 of RFC 6376). */
module DkimCanonicalize {
  import opened MailLines
  import opened Octets

  datatype Canonicalization = Simple | Relaxed

  // ---- Words

  /** The maximal runs of octets that are not white space. */
  function Words(s: string): (words: seq<string>)
    ensures s != "" && !IsWsp(s[0]) ==> words != []
  {
    if s == "" then []
    else if IsWsp(s[0]) then Words(s[1..])
    else if |s| == 1 || IsWsp(s[1]) then [[s[0]]] + Words(s[1..])
    else Glue(s[0], Words(s[1..]))
  }

  /** The words with one SP between them. */
  function JoinWords(words: seq<string>): string {
    if words == [] then ""
    else if |words| == 1 then words[0]
    else words[0] + (" " + JoinWords(words[1..]))
  }

  predicate IsWord(w: string) {
    w != "" && forall i :: 0 <= i < |w| ==> !IsWsp(w[i])
  }

  lemma {:induction false} WordFirst(w: string, rest: string)
    requires IsWord(w) && (rest == "" || IsWsp(rest[0]))
    ensures Words(w + rest) == [w] + Words(rest)
  {
    var text := w + rest;
    assert text[0] == w[0];
    if |w| == 1 {
      assert text[1..] == rest && w == [w[0]];
    } else {
      WordFirst(w[1..], rest);
      assert text[1..] == w[1..] + rest && text[1] == w[1];
      GlueLine(w, Words(rest));
    }
  }

  lemma {:induction false} SpaceFirst(s: string)
    ensures Words(" " + s) == Words(s)
  {
    assert (" " + s)[1..] == s;
  }

  lemma {:induction false} WordsAreWords(s: string)
    ensures forall i :: 0 <= i < |Words(s)| ==> IsWord(Words(s)[i])
  {
    if s != "" {
      WordsAreWords(s[1..]);
    }
  }

  /** Joined words split into the same words. */
  lemma {:induction false} WordsOfJoin(words: seq<string>)
    requires forall i :: 0 <= i < |words| ==> IsWord(words[i])
    ensures Words(JoinWords(words)) == words
    ensures words != [] ==> JoinWords(words) != "" && !IsWsp(JoinWords(words)[0])
  {
    if |words| == 1 {
      WordFirst(words[0], "");
      assert words[0] + "" == words[0];
    } else if words != [] {
      WordsOfJoin(words[1..]);
      WordFirst(words[0], " " + JoinWords(words[1..]));
      SpaceFirst(JoinWords(words[1..]));
      HeadAndRest(words);
    }
  }

  // ---- One body line (section 3.4.4)

  /** The rest of a line after white space (`pending`) or not: SP before each word that white space precedes. */
  function RelaxFrom(s: string, pending: bool): string {
    if Words(s) == [] then ""
    else if pending || IsWsp(s[0]) then " " + JoinWords(Words(s))
    else JoinWords(Words(s))
  }

  /** The words of the line, one SP between them, and one in front when white space begins the line. */
  function RelaxLine(line: string): string {
    RelaxFrom(line, false)
  }

  predicate BeginsWithWsp(s: string) {
    s != "" && IsWsp(s[0])
  }

  lemma {:induction false} RelaxedWords(line: string)
    ensures Words(RelaxLine(line)) == Words(line)
    ensures Words(line) != [] ==> BeginsWithWsp(RelaxLine(line)) == BeginsWithWsp(line)
  {
    WordsAreWords(line);
    WordsOfJoin(Words(line));
    SpaceFirst(JoinWords(Words(line)));
  }

  lemma {:induction false} RelaxLineIdempotent(line: string)
    ensures RelaxLine(RelaxLine(line)) == RelaxLine(line)
  {
    RelaxedWords(line);
  }

  /** Lines become alike exactly when their words agree and white space begins both or neither. */
  lemma {:induction false} RelaxedAlike(a: string, b: string)
    ensures RelaxLine(a) == RelaxLine(b) <==>
      (Words(a) == Words(b) && (Words(a) == [] || BeginsWithWsp(a) == BeginsWithWsp(b)))
  {
    RelaxedWords(a);
    RelaxedWords(b);
  }

  lemma {:induction false} RelaxKeepsLf(line: string)
    requires '\n' !in line
    ensures '\n' !in RelaxLine(line)
  {
    WordsWithoutLf(line);
    JoinWithoutLf(Words(line));
  }

  lemma {:induction false} WordsWithoutLf(s: string)
    requires '\n' !in s
    ensures forall i :: 0 <= i < |Words(s)| ==> '\n' !in Words(s)[i]
  {
    if s != "" {
      WordsWithoutLf(s[1..]);
    }
  }

  lemma {:induction false} JoinWithoutLf(words: seq<string>)
    requires forall i :: 0 <= i < |words| ==> '\n' !in words[i]
    ensures '\n' !in JoinWords(words)
  {
    if |words| > 1 {
      JoinWithoutLf(words[1..]);
    }
  }

  // ---- The body (sections 3.4.3 and 3.4.4)

  function RelaxLines(lines: seq<string>): (r: seq<string>)
    ensures |r| == |lines|
  {
    if lines == [] then [] else [RelaxLine(lines[0])] + RelaxLines(lines[1..])
  }

  /** The lines without the empty ones at the end. */
  function DropEmptyEnd(lines: seq<string>): (r: seq<string>)
    ensures r <= lines
  {
    if lines == [] || lines[|lines| - 1] != "" then lines else DropEmptyEnd(lines[..|lines| - 1])
  }

  function CanonicalLines(body: string, algorithm: Canonicalization): seq<string> {
    DropEmptyEnd(if algorithm.Relaxed? then RelaxLines(SplitLines(body)) else SplitLines(body))
  }

  function CanonicalBody(body: string, algorithm: Canonicalization): string {
    var lines := CanonicalLines(body, algorithm);
    if lines != [] then JoinLines(lines, CRLF) + CRLF
    else if algorithm.Relaxed? then "" else CRLF
  }

  lemma {:induction false} DropShows(lines: seq<string>)
    ensures var r := DropEmptyEnd(lines);
      (r == [] || r[|r| - 1] != "") && DropEmptyEnd(r) == r && forall i :: |r| <= i < |lines| ==> lines[i] == ""
  {
    if lines != [] && lines[|lines| - 1] == "" {
      DropShows(lines[..|lines| - 1]);
    }
  }

  /** An empty line at the end makes no difference. */
  lemma {:induction false} DropOneMore(lines: seq<string>)
    ensures DropEmptyEnd(lines + [""]) == DropEmptyEnd(lines)
  {
    assert (lines + [""])[..|lines|] == lines;
  }

  lemma {:induction false} RelaxAt(lines: seq<string>, i: nat)
    requires i < |lines|
    ensures RelaxLines(lines)[i] == RelaxLine(lines[i])
  {
    if i > 0 {
      RelaxAt(lines[1..], i - 1);
    }
  }

  lemma {:induction false} RelaxAppend(a: seq<string>, b: string)
    ensures RelaxLines(a + [b]) == RelaxLines(a) + [RelaxLine(b)]
  {
    if a != [] {
      RelaxAppend(a[1..], b);
      assert (a + [b])[1..] == a[1..] + [b];
      Regroup([RelaxLine(a[0])], RelaxLines(a[1..]), [RelaxLine(b)], []);
    } else {
      assert a + [b] == [b];
    }
  }

  /** Dropping empty lines before relaxing loses nothing. */
  lemma {:induction false} DropThenRelax(lines: seq<string>)
    ensures DropEmptyEnd(RelaxLines(DropEmptyEnd(lines))) == DropEmptyEnd(RelaxLines(lines))
  {
    if lines != [] && lines[|lines| - 1] == "" {
      var front := lines[..|lines| - 1];
      DropThenRelax(front);
      RelaxAppend(front, "");
      assert lines == front + [""];
      DropOneMore(RelaxLines(front));
    }
  }

  lemma {:induction false} RelaxTwice(lines: seq<string>)
    ensures RelaxLines(RelaxLines(lines)) == RelaxLines(lines)
  {
    if lines != [] {
      RelaxLineIdempotent(lines[0]);
      RelaxTwice(lines[1..]);
    }
  }

  lemma {:induction false} CanonicalIsLfFree(body: string, algorithm: Canonicalization)
    ensures AreLfFree(CanonicalLines(body, algorithm))
  {
    SplitIsLfFree(body);
    var lines := SplitLines(body);
    forall i | 0 <= i < |lines|
      ensures '\n' !in RelaxLines(lines)[i]
    {
      RelaxAt(lines, i);
      RelaxKeepsLf(lines[i]);
    }
  }

  /** The lines of a canonical body are its lines, with one empty line after the last ending. */
  lemma {:induction false} SplitCanonical(lines: seq<string>)
    requires lines != [] && AreLfFree(lines)
    ensures SplitLines(JoinLines(lines, CRLF) + CRLF) == lines + [""]
  {
    EndIsJoin(lines, CRLF);
    SplitUndoesEnd(lines, CRLF, "");
    assert EndLines(lines, CRLF) + "" == EndLines(lines, CRLF);
  }

  lemma {:induction false} SplitEmptyBodies()
    ensures SplitLines("") == [""] && SplitLines(CRLF) == ["", ""]
    ensures DropEmptyEnd([""]) == [] && DropEmptyEnd(["", ""]) == []
    ensures RelaxLines([""]) == [""] && RelaxLines(["", ""]) == ["", ""]
  {
    EndingOf(CRLF, "");
    assert CRLF + "" == CRLF;
    assert ["", ""][1..] == [""] && [""][1..] == [];
    assert DropEmptyEnd([""]) == DropEmptyEnd([""][..0]);
    assert ["", ""][..1] == [""];
  }

  /** Every canonical body has the lines it was made from, up to empty lines at the end. */
  lemma {:induction false} LinesOfCanonical(body: string, algorithm: Canonicalization)
    ensures DropEmptyEnd(SplitLines(CanonicalBody(body, algorithm))) == CanonicalLines(body, algorithm)
  {
    var lines := CanonicalLines(body, algorithm);
    DropShows(if algorithm.Relaxed? then RelaxLines(SplitLines(body)) else SplitLines(body));
    if lines == [] {
      SplitEmptyBodies();
    } else {
      CanonicalIsLfFree(body, algorithm);
      SplitCanonical(lines);
      DropOneMore(lines);
    }
  }

  lemma {:induction false} SimpleIdempotent(body: string)
    ensures CanonicalBody(CanonicalBody(body, Simple), Simple) == CanonicalBody(body, Simple)
  {
    LinesOfCanonical(body, Simple);
  }

  lemma {:induction false} RelaxedAfterSimple(body: string)
    ensures CanonicalBody(CanonicalBody(body, Simple), Relaxed) == CanonicalBody(body, Relaxed)
  {
    LinesOfCanonical(body, Simple);
    DropThenRelax(SplitLines(CanonicalBody(body, Simple)));
    DropThenRelax(SplitLines(body));
  }

  lemma {:induction false} RelaxedIdempotent(body: string)
    ensures CanonicalBody(CanonicalBody(body, Relaxed), Relaxed) == CanonicalBody(body, Relaxed)
  {
    LinesOfCanonical(body, Relaxed);
    DropThenRelax(SplitLines(CanonicalBody(body, Relaxed)));
    DropThenRelax(RelaxLines(SplitLines(body)));
    RelaxTwice(SplitLines(body));
  }

  /** A body reads the same whether storage kept CRLF or rewrote every ending to LF. */
  lemma {:induction false} BodyStorage(lines: seq<string>, algorithm: Canonicalization)
    requires lines != [] && AreLines(lines, LF)
    ensures CanonicalBody(JoinLines(lines, LF), algorithm) == CanonicalBody(JoinLines(lines, CRLF), algorithm)
  {
    SplitUndoesJoin(lines, LF);
    SplitUndoesJoin(lines, CRLF);
  }

  // ---- A header field (sections 3.4.1 and 3.4.2)

  /** `replace(/\r?\n/g, "")`. */
  function Unfold(value: string): string {
    if value == "" then ""
    else if EndingLen(value) > 0 then Unfold(value[EndingLen(value)..])
    else [value[0]] + Unfold(value[1..])
  }

  /** `replace(/[ \t]+/g, " ")`. */
  function Collapse(value: string): string {
    if value == "" then ""
    else if IsWsp(value[0]) then
      if |value| > 1 && IsWsp(value[1]) then Collapse(value[1..]) else " " + Collapse(value[1..])
    else [value[0]] + Collapse(value[1..])
  }

  function CanonicalHeader(name: string, value: string, algorithm: Canonicalization): string {
    if algorithm.Simple? then name + ":" + value + CRLF
    else Lower(Trim(Wsp, name)) + ":" + Trim(Wsp, Collapse(Unfold(value))) + CRLF
  }

  /** A fold becomes nothing: the lines of the value one after the other. */
  lemma {:induction false} UnfoldJoins(value: string)
    ensures Unfold(value) == Concat(SplitLines(value))
    decreases |value|
  {
    if value != "" {
      if EndingLen(value) > 0 {
        UnfoldJoins(value[EndingLen(value)..]);
        assert ([""] + SplitLines(value[EndingLen(value)..]))[1..] == SplitLines(value[EndingLen(value)..]);
      } else {
        UnfoldJoins(value[1..]);
        ConcatGlue(value[0], SplitLines(value[1..]));
      }
    }
  }

  function Concat(lines: seq<string>): string {
    if lines == [] then "" else lines[0] + Concat(lines[1..])
  }

  lemma {:induction false} ConcatGlue(c: char, lines: seq<string>)
    requires lines != []
    ensures Concat(Glue(c, lines)) == [c] + Concat(lines)
  {
    assert Glue(c, lines)[1..] == lines[1..];
    Regroup([c], lines[0], Concat(lines[1..]), "");
  }

  function Edge(wsp: bool): string {
    if wsp then " " else ""
  }

  predicate EndsWithWsp(s: string) {
    s != "" && IsWsp(s[|s| - 1])
  }

  lemma {:induction false} EndsAlike(c: char, rest: string)
    requires !IsWsp(c) && rest != ""
    ensures !BeginsWithWsp([c] + rest) && EndsWithWsp([c] + rest) == EndsWithWsp(rest)
  {
    assert ([c] + rest)[|rest|] == rest[|rest| - 1];
  }

  lemma {:induction false} WordsStep(c: char, rest: string)
    requires !IsWsp(c) && rest != ""
    ensures IsWsp(rest[0]) ==> Words([c] + rest) == [[c]] + Words(rest)
    ensures !IsWsp(rest[0]) ==> Words(rest) != [] && Words([c] + rest) == Glue(c, Words(rest))
  {
    var v := [c] + rest;
    assert v[1..] == rest && v[1] == rest[0];
  }

  function Spelled(begins: bool, words: seq<string>, ends: bool): string {
    Edge(begins) + JoinWords(words) + Edge(ends)
  }

  lemma {:induction false} SpelledGlue(c: char, words: seq<string>, ends: bool)
    requires words != []
    ensures [c] + Spelled(false, words, ends) == Spelled(false, Glue(c, words), ends)
  {
    GlueJoin(c, words);
    Regroup([c], JoinWords(words), Edge(ends), "");
    assert "" + JoinWords(words) == JoinWords(words);
    assert "" + ([c] + JoinWords(words)) == [c] + JoinWords(words);
  }

  lemma {:induction false} SpelledCons(c: char, words: seq<string>, ends: bool)
    requires words != []
    ensures [c] + Spelled(true, words, ends) == Spelled(false, [[c]] + words, ends)
  {
    assert ([[c]] + words)[1..] == words;
    var tail := " " + JoinWords(words);
    assert "" + ([c] + tail) == [c] + tail;
    Regroup([c], tail, Edge(ends), "");
  }

  /** A letter before the collapsed rest. */
  lemma {:induction false} CollapseStep(c: char, rest: string)
    requires !IsWsp(c)
    ensures [c] + Spread(rest) == Spread([c] + rest)
  {
    if rest == "" {
      assert [c] + "" == [c];
      assert Words([c]) == [[c]];
    } else {
      EndsAlike(c, rest);
      WordsStep(c, rest);
      if !IsWsp(rest[0]) {
        SpelledGlue(c, Words(rest), EndsWithWsp(rest));
      } else if Words(rest) == [] {
        AllWspEnds(rest);
      } else {
        SpelledCons(c, Words(rest), EndsWithWsp(rest));
      }
    }
  }

  lemma {:induction false} GlueJoin(c: char, words: seq<string>)
    requires words != []
    ensures JoinWords(Glue(c, words)) == [c] + JoinWords(words)
  {
    assert Glue(c, words)[1..] == words[1..];
    if |words| > 1 {
      Regroup([c], words[0], " " + JoinWords(words[1..]), "");
    }
  }

  lemma {:induction false} AllWspEnds(s: string)
    requires s != "" && Words(s) == []
    ensures IsWsp(s[0]) && IsWsp(s[|s| - 1])
  {
    if |s| > 1 {
      AllWspEnds(s[1..]);
    }
  }

  /** The words with one SP between them, and one at each end where white space stands. */
  function Spread(v: string): string {
    if Words(v) == [] then Edge(v != "")
    else Spelled(BeginsWithWsp(v), Words(v), EndsWithWsp(v))
  }

  lemma {:induction false} CollapseSpreads(v: string)
    ensures Collapse(v) == Spread(v)
  {
    if v != "" {
      var rest := v[1..];
      CollapseSpreads(rest);
      if !IsWsp(v[0]) {
        CollapseStep(v[0], rest);
        assert v == [v[0]] + rest;
      } else if rest != "" && !IsWsp(v[1]) {
        Regroup(" ", JoinWords(Words(rest)), Edge(EndsWithWsp(rest)), "");
      }
    }
  }

  lemma {:induction false} JoinedIsTrim(words: seq<string>)
    requires forall i :: 0 <= i < |words| ==> IsWord(words[i])
    ensures IsTrim(Wsp, JoinWords(words))
    ensures words != [] ==> JoinWords(words) != ""
  {
    if |words| > 1 {
      JoinedIsTrim(words[1..]);
      var tail := JoinWords(words[1..]);
      var all := words[0] + (" " + tail);
      assert all[0] == words[0][0] && all[|all| - 1] == tail[|tail| - 1];
    }
  }

  /** Relaxing a header value leaves its words, unfolded, one SP between them. */
  lemma {:induction false} RelaxedValue(value: string)
    ensures Trim(Wsp, Collapse(Unfold(value))) == JoinWords(Words(Unfold(value)))
  {
    var v := Unfold(value);
    CollapseSpreads(v);
    WordsAreWords(v);
    JoinedIsTrim(Words(v));
    if Words(v) == [] {
      TrimBetween(Wsp, Edge(v != ""), "", "");
      assert Edge(v != "") + "" + "" == Edge(v != "");
    } else {
      TrimBetween(Wsp, Edge(BeginsWithWsp(v)), JoinWords(Words(v)), Edge(EndsWithWsp(v)));
    }
  }

  lemma {:induction false} UnfoldKeeps(value: string)
    requires '\n' !in value
    ensures Unfold(value) == value
  {
    if value != "" {
      UnfoldKeeps(value[1..]);
    }
  }

  lemma {:induction false} UnfoldedIsLfFree(value: string)
    ensures '\n' !in Unfold(value)
    decreases |value|
  {
    if value != "" {
      if EndingLen(value) > 0 {
        UnfoldedIsLfFree(value[EndingLen(value)..]);
      } else {
        UnfoldedIsLfFree(value[1..]);
      }
    }
  }

  /** A relaxed header value relaxes to itself. */
  lemma {:induction false} RelaxedValueIdempotent(value: string)
    ensures var r := Trim(Wsp, Collapse(Unfold(value)));
      Trim(Wsp, Collapse(Unfold(r))) == r
  {
    var v := Unfold(value);
    var r := JoinWords(Words(v));
    RelaxedValue(value);
    RelaxedValue(r);
    UnfoldedIsLfFree(value);
    WordsWithoutLf(v);
    JoinWithoutLf(Words(v));
    UnfoldKeeps(r);
    WordsAreWords(v);
    WordsOfJoin(Words(v));
  }

  // ---- The loops

  /** The line read so far, before the lines of the rest. */
  function Before(line: string, lines: seq<string>): (r: seq<string>)
    requires lines != []
  {
    [line + lines[0]] + lines[1..]
  }

  /** What the split loop keeps: the lines pushed, and the line begun at `start`. */
  ghost predicate SplitSoFar(body: string, lines: seq<string>, line: string, rest: string) {
    SplitLines(body) == lines + Before(line, SplitLines(rest))
  }

  lemma {:induction false} BeforeNothing(lines: seq<string>)
    requires lines != []
    ensures Before("", lines) == lines
  {
    HeadAndRest(lines);
    assert "" + lines[0] == lines[0];
  }

  lemma {:induction false} SplitEnded(body: string, lines: seq<string>, line: string, rest: string)
    requires SplitSoFar(body, lines, line, rest) && EndingLen(rest) > 0
    ensures SplitSoFar(body, lines + [line], "", rest[EndingLen(rest)..])
  {
    var after := SplitLines(rest[EndingLen(rest)..]);
    assert ([""] + after)[1..] == after;
    assert line + "" == line;
    BeforeNothing(after);
    Regroup(lines, [line], after, []);
  }

  lemma {:induction false} SplitWithin(body: string, lines: seq<string>, line: string, rest: string)
    requires SplitSoFar(body, lines, line, rest) && rest != "" && EndingLen(rest) == 0
    ensures SplitSoFar(body, lines, line + [rest[0]], rest[1..])
  {
    var after := SplitLines(rest[1..]);
    assert Glue(rest[0], after)[1..] == after[1..];
    Regroup(line, [rest[0]], after[0], "");
  }

  /** The same, by the offsets the loop keeps. */
  ghost predicate SplitAt(body: string, lines: seq<string>, start: nat, i: nat) {
    start <= i <= |body| && SplitSoFar(body, lines, body[start..i], body[i..])
  }

  lemma {:induction false} SplitAtStart(body: string)
    ensures SplitAt(body, [], 0, 0)
  {
    assert body[0..0] == "" && body[0..] == body;
    BeforeNothing(SplitLines(body));
    assert [] + SplitLines(body) == SplitLines(body);
  }

  lemma {:induction false} SplitAtEnding(body: string, lines: seq<string>, start: nat, i: nat)
    requires SplitAt(body, lines, start, i) && EndingLen(body[i..]) > 0
    ensures var next := i + EndingLen(body[i..]); SplitAt(body, lines + [body[start..i]], next, next)
  {
    SplitEnded(body, lines, body[start..i], body[i..]);
    var next := i + EndingLen(body[i..]);
    assert body[i..][next - i..] == body[next..];
    assert body[next..next] == "";
  }

  lemma {:induction false} SplitAtOther(body: string, lines: seq<string>, start: nat, i: nat)
    requires SplitAt(body, lines, start, i) && i < |body| && EndingLen(body[i..]) == 0
    ensures SplitAt(body, lines, start, i + 1)
  {
    SplitWithin(body, lines, body[start..i], body[i..]);
    assert body[i..][1..] == body[i + 1..];
    assert body[start..i + 1] == body[start..i] + [body[i..][0]];
  }

  lemma {:induction false} SplitAtEnd(body: string, lines: seq<string>, start: nat)
    requires SplitAt(body, lines, start, |body|)
    ensures SplitLines(body) == lines + [body[start..]]
  {
    assert body[|body|..] == "" && body[start..|body|] + "" == body[start..];
    assert Before(body[start..|body|], [""]) == [body[start..]];
  }

  method SplitBodyLines(body: string) returns (lines: seq<string>)
    ensures lines == SplitLines(body)
  {
    lines := [];
    var start, i := 0, 0;
    SplitAtStart(body);
    while i < |body|
      invariant SplitAt(body, lines, start, i)
    {
      var n := EndingLen(body[i..]);
      if n > 0 {
        SplitAtEnding(body, lines, start, i);
        lines := lines + [body[start..i]];
        i := i + n;
        start := i;
      } else {
        SplitAtOther(body, lines, start, i);
        i := i + 1;
      }
    }
    SplitAtEnd(body, lines, start);
    lines := lines + [body[start..]];
  }

  lemma {:induction false} RelaxWord(w: string, rest: string, pending: bool)
    requires IsWord(w) && (rest == "" || IsWsp(rest[0]))
    ensures RelaxFrom(w + rest, pending) == (if pending then " " else "") + w + RelaxFrom(rest, false)
  {
    WordFirst(w, rest);
    assert (w + rest)[0] == w[0];
    assert ([w] + Words(rest))[1..] == Words(rest);
    var ws := JoinWords(Words(rest));
    Regroup(" ", w, " " + ws, "");
    Regroup("", w, " " + ws, "");
    if Words(rest) == [] {
      assert " " + w + "" == " " + w && "" + w + "" == w;
    }
  }

  /** The end of the word that begins at `start`. */
  method WordEnd(line: string, start: nat) returns (end: nat)
    requires start < |line| && !IsWsp(line[start])
    ensures start < end <= |line| && IsWord(line[start..end]) && (end == |line| || IsWsp(line[end]))
  {
    end := start + 1;
    while end < |line| && !IsWsp(line[end])
      invariant start < end <= |line|
      invariant forall k :: start <= k < end ==> !IsWsp(line[k])
    {
      end := end + 1;
    }
  }

  lemma {:induction false} RelaxWordAt(line: string, at: nat, end: nat, pending: bool, out: string)
    requires at < end <= |line| && IsWord(line[at..end]) && (end == |line| || IsWsp(line[end]))
    ensures out + RelaxFrom(line[at..], pending) == out + Edge(pending) + line[at..end] + RelaxFrom(line[end..], false)
  {
    var word, rest := line[at..end], line[end..];
    assert line[at..] == word + rest;
    RelaxWord(word, rest, pending);
    Regroup(out, Edge(pending), word, RelaxFrom(rest, false));
    Regroup(Edge(pending), word, RelaxFrom(rest, false), "");
  }

  lemma {:induction false} RelaxSpaceAt(line: string, at: nat, pending: bool)
    requires at < |line| && IsWsp(line[at])
    ensures RelaxFrom(line[at..], pending) == RelaxFrom(line[at + 1..], true)
  {
    assert line[at..][1..] == line[at + 1..];
  }

  method RelaxBodyLine(line: string) returns (out: string)
    ensures out == RelaxLine(line)
  {
    out := "";
    var at := 0;
    var pendingSpace := false;
    assert line[0..] == line;
    while at < |line|
      invariant 0 <= at <= |line|
      invariant RelaxLine(line) == out + RelaxFrom(line[at..], pendingSpace)
    {
      if IsWsp(line[at]) {
        RelaxSpaceAt(line, at, pendingSpace);
        pendingSpace := true;
        at := at + 1;
      } else {
        var start := at;
        at := WordEnd(line, start);
        RelaxWordAt(line, start, at, pendingSpace, out);
        out := out + (if pendingSpace then " " else "") + line[start..at];
        pendingSpace := false;
      }
    }
    assert line[at..] == "";
  }

  /** `lines.map(relaxBodyLine)`. */
  method RelaxAll(lines: seq<string>) returns (r: seq<string>)
    ensures r == RelaxLines(lines)
  {
    r := [];
    for i := 0 to |lines|
      invariant r == RelaxLines(lines[..i])
    {
      var line := RelaxBodyLine(lines[i]);
      RelaxAppend(lines[..i], lines[i]);
      assert lines[..i] + [lines[i]] == lines[..i + 1];
      r := r + [line];
    }
    assert lines[..|lines|] == lines;
  }

  /** The loop that moves `end` back over the empty lines. */
  method EndOfContent(lines: seq<string>) returns (end: nat)
    ensures end <= |lines| && lines[..end] == DropEmptyEnd(lines)
  {
    end := |lines|;
    assert lines[..end] == lines;
    while end > 0 && lines[end - 1] == ""
      invariant 0 <= end <= |lines|
      invariant DropEmptyEnd(lines) == DropEmptyEnd(lines[..end])
    {
      assert lines[..end][..end - 1] == lines[..end - 1];
      end := end - 1;
    }
  }

  method CanonicalizeBody(body: string, algorithm: Canonicalization) returns (r: string)
    ensures r == CanonicalBody(body, algorithm)
  {
    var canonical := SplitBodyLines(body);
    if algorithm.Relaxed? {
      canonical := RelaxAll(canonical);
    }
    var end := EndOfContent(canonical);
    if end == 0 {
      r := if algorithm.Relaxed? then "" else CRLF;
    } else {
      r := JoinLines(canonical[..end], CRLF) + CRLF;
    }
  }

  method CanonicalizeHeader(name: string, value: string, algorithm: Canonicalization) returns (r: string)
    ensures r == CanonicalHeader(name, value, algorithm)
  {
    if algorithm.Simple? {
      return name + ":" + value + CRLF;
    }
    var collapsed := Trimmed(Wsp, Collapse(Unfold(value)));
    var trimmed := Trimmed(Wsp, name);
    r := Lower(trimmed) + ":" + collapsed + CRLF;
  }
}
