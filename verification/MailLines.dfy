/**
 * Line endings of a raw message held one octet to a character. CRLF and a bare LF end a line; a CR
 * that no LF follows is an ordinary octet.
 */
module MailLines {
  const CRLF := "\r\n"
  const LF := "\n"

  /** How many characters of a line ending `text` begins with, 0 for none. */
  function EndingLen(text: string): (n: nat)
    ensures n <= |text|
  {
    if |text| >= 2 && text[0] == '\r' && text[1] == '\n' then 2
    else if text != "" && text[0] == '\n' then 1
    else 0
  }

  /** The first line of `text` and what follows its line ending, if it has one. */
  function SplitLines(text: string): (lines: seq<string>)
    ensures lines != []
    decreases |text|
  {
    if text == "" then [""]
    else if EndingLen(text) > 0 then [""] + SplitLines(text[EndingLen(text)..])
    else Glue(text[0], SplitLines(text[1..]))
  }

  /** `c` in front of the first line. */
  function Glue(c: char, lines: seq<string>): (r: seq<string>)
    requires lines != []
    ensures |r| == |lines|
  {
    [[c] + lines[0]] + lines[1..]
  }

  /** The lines with an ending after each but the last. */
  function JoinLines(lines: seq<string>, eol: string): string
    requires lines != []
  {
    if |lines| == 1 then lines[0] else lines[0] + eol + JoinLines(lines[1..], eol)
  }

  /** The lines with an ending after each. */
  function EndLines(lines: seq<string>, eol: string): string {
    if lines == [] then "" else lines[0] + eol + EndLines(lines[1..], eol)
  }

  /** A line that `eol` ends where it should: no LF in it, and no CR before a bare LF. */
  predicate IsLine(line: string, eol: string) {
    '\n' !in line && (eol == LF && line != "" ==> line[|line| - 1] != '\r')
  }

  predicate AreLines(lines: seq<string>, eol: string) {
    forall i :: 0 <= i < |lines| ==> IsLine(lines[i], eol)
  }

  /** No LF at all in any line. */
  predicate AreLfFree(lines: seq<string>) {
    forall i :: 0 <= i < |lines| ==> '\n' !in lines[i]
  }

  lemma {:induction false} EndingOf(eol: string, rest: string)
    requires eol == CRLF || eol == LF
    ensures EndingLen(eol + rest) == |eol| && (eol + rest)[|eol|..] == rest
  {
  }

  lemma {:induction false} NoEnding(c: char, line: string, eol: string, rest: string)
    requires eol == CRLF || eol == LF
    requires c != '\n' && '\n' !in line && (line == "" && eol == LF ==> c != '\r')
    ensures EndingLen([c] + (line + (eol + rest))) == 0
  {
    var text := [c] + (line + (eol + rest));
    assert text[1] == if line == "" then eol[0] else line[0];
  }

  lemma {:induction false} SplitStep(c: char, rest: string)
    requires EndingLen([c] + rest) == 0
    ensures SplitLines([c] + rest) == Glue(c, SplitLines(rest))
  {
    assert ([c] + rest)[1..] == rest;
  }

  lemma {:induction false} GlueLine(line: string, lines: seq<string>)
    requires line != ""
    ensures Glue(line[0], [line[1..]] + lines) == [line] + lines
  {
    assert [line[0]] + line[1..] == line;
  }

  /** A line and its ending come off the front of a text. */
  lemma {:induction false} SplitOne(line: string, eol: string, rest: string)
    requires (eol == CRLF || eol == LF) && IsLine(line, eol)
    ensures SplitLines(line + (eol + rest)) == [line] + SplitLines(rest)
    decreases |line|
  {
    if line == "" {
      EndingOf(eol, rest);
      assert line + (eol + rest) == eol + rest;
    } else {
      var tail := line[1..];
      SplitOne(tail, eol, rest);
      NoEnding(line[0], tail, eol, rest);
      SplitStep(line[0], tail + (eol + rest));
      GlueLine(line, SplitLines(rest));
      HeadAndRest(line);
      Regroup([line[0]], tail, eol + rest, "");
    }
  }

  lemma {:induction false} SplitLast(line: string)
    requires '\n' !in line
    ensures SplitLines(line) == [line]
    decreases |line|
  {
    if line != "" {
      SplitLast(line[1..]);
      assert line == [line[0]] + line[1..];
    }
  }

  /** Splitting undoes joining, for either ending. */
  lemma {:induction false} SplitUndoesJoin(lines: seq<string>, eol: string)
    requires lines != [] && (eol == CRLF || eol == LF) && AreLines(lines, eol)
    ensures SplitLines(JoinLines(lines, eol)) == lines
    decreases |lines|
  {
    if |lines| == 1 {
      SplitLast(lines[0]);
    } else {
      var rest := JoinLines(lines[1..], eol);
      SplitUndoesJoin(lines[1..], eol);
      SplitOne(lines[0], eol, rest);
      Regroup(lines[0], eol, rest, "");
      HeadAndRest(lines);
    }
  }

  lemma {:induction false} Regroup<T>(a: seq<T>, b: seq<T>, c: seq<T>, d: seq<T>)
    ensures (a + b + c) + d == a + (b + (c + d))
    ensures (a + b) + c == a + (b + c)
  {
  }

  lemma {:induction false} HeadAndRest<T>(s: seq<T>)
    requires s != []
    ensures [s[0]] + s[1..] == s
  {
  }

  /** A text of ended lines splits into them and one empty line. */
  lemma {:induction false} SplitUndoesEnd(lines: seq<string>, eol: string, rest: string)
    requires (eol == CRLF || eol == LF) && AreLines(lines, eol)
    ensures SplitLines(EndLines(lines, eol) + rest) == lines + SplitLines(rest)
    decreases |lines|
  {
    if lines == [] {
      assert EndLines(lines, eol) + rest == rest;
    } else {
      var tail := EndLines(lines[1..], eol) + rest;
      SplitUndoesEnd(lines[1..], eol, rest);
      SplitOne(lines[0], eol, tail);
      Regroup(lines[0], eol, EndLines(lines[1..], eol), rest);
      Regroup([lines[0]], lines[1..], SplitLines(rest), []);
      HeadAndRest(lines);
    }
  }

  lemma {:induction false} EndIsJoin(lines: seq<string>, eol: string)
    requires lines != []
    ensures JoinLines(lines, eol) + eol == EndLines(lines, eol)
    decreases |lines|
  {
    if |lines| == 1 {
      assert EndLines(lines, eol) == lines[0] + eol + "";
    } else {
      EndIsJoin(lines[1..], eol);
      Regroup(lines[0], eol, JoinLines(lines[1..], eol), eol);
      Regroup(lines[0], eol, EndLines(lines[1..], eol), "");
    }
  }

  /** No split line holds an LF. */
  lemma {:induction false} SplitIsLfFree(text: string)
    ensures AreLfFree(SplitLines(text))
    decreases |text|
  {
    if text != "" {
      if EndingLen(text) > 0 {
        SplitIsLfFree(text[EndingLen(text)..]);
      } else {
        SplitIsLfFree(text[1..]);
      }
    }
  }
}
