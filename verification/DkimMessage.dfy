/** Splitting a raw message into header fields and body (`email/dkim-message.ts`). */
module DkimMessage {
  import opened Wrappers
  import opened MailLines
  import opened Octets

  /** Where the header section ends, and how long the two line endings there are together. */
  datatype HeaderEnd = HeaderEnd(at: nat, sepLen: nat)

  function Shift(end: Option<HeaderEnd>, n: nat): Option<HeaderEnd> {
    match end
    case None => None
    case Some(e) => Some(HeaderEnd(e.at + n, e.sepLen))
  }

  /** The length of the two line endings that `text` begins with, 0 when it does not begin with two. */
  function EmptyLineLen(text: string): (n: nat)
    ensures n <= |text|
  {
    var first := EndingLen(text);
    var second := EndingLen(text[first..]);
    if first > 0 && second > 0 then first + second else 0
  }

  /** `locateHeaderEnd`: the first line ending that a second one follows at once. */
  function Locate(raw: string): (end: Option<HeaderEnd>)
    ensures end.Some? ==> end.value.at + end.value.sepLen <= |raw| && end.value.sepLen > 0
  {
    if raw == "" then None
    else if EmptyLineLen(raw) > 0 then Some(HeaderEnd(0, EmptyLineLen(raw)))
    else Shift(Locate(raw[1..]), 1)
  }

  /** `parseHeaders`, after the split: a line that begins with white space goes on the field above it. */
  function Fields(lines: seq<string>, fields: seq<string>): seq<string> {
    if lines == [] then fields else Fields(lines[1..], AddLine(fields, lines[0]))
  }

  predicate Continues(line: string) {
    line != "" && IsWsp(line[0])
  }

  function AddLine(fields: seq<string>, line: string): seq<string> {
    if Continues(line) && fields != [] then
      fields[..|fields| - 1] + [fields[|fields| - 1] + (CRLF + line)]
    else fields + [line]
  }

  datatype Message = Message(headers: seq<string>, body: string)

  /** `splitMessage`. */
  function Split(raw: string): Message {
    match Locate(raw)
    case None => Message(Fields(SplitLines(raw), []), "")
    case Some(end) => Message(Fields(SplitLines(raw[..end.at]), []), raw[end.at + end.sepLen..])
  }

  // ---- What storage does to a message

  /** Header lines, an empty line, and a body of lines, under one kind of line ending. */
  function Stored(head: seq<string>, body: seq<string>, eol: string): string
    requires body != []
  {
    EndLines(head, eol) + (eol + JoinLines(body, eol))
  }

  /** Lines of a header section: none is empty, none holds a line ending of either kind. */
  predicate AreHeaderLines(lines: seq<string>) {
    lines != [] && AreLines(lines, LF) && forall i :: 0 <= i < |lines| ==> lines[i] != ""
  }

  lemma {:induction false} LocateStep(c: char, rest: string)
    requires EmptyLineLen([c] + rest) == 0
    ensures Locate([c] + rest) == Shift(Locate(rest), 1)
  {
    assert ([c] + rest)[1..] == rest;
  }

  lemma {:induction false} LocateLine(line: string, eol: string, rest: string)
    requires (eol == CRLF || eol == LF) && IsLine(line, eol)
    ensures Locate(line + (eol + rest)) == Shift(Locate(eol + rest), |line|)
  {
    if line == "" {
      assert line + (eol + rest) == eol + rest;
    } else {
      LocateLine(line[1..], eol, rest);
      NoEnding(line[0], line[1..], eol, rest);
      LocateStep(line[0], line[1..] + (eol + rest));
      HeadAndRest(line);
      Regroup([line[0]], line[1..], eol + rest, "");
    }
  }

  /** One line ending on its own ends nothing. */
  lemma {:induction false} LocateEnding(eol: string, rest: string)
    requires (eol == CRLF || eol == LF) && EndingLen(rest) == 0
    ensures Locate(eol + rest) == Shift(Locate(rest), |eol|)
  {
    EndingOf(LF, rest);
    LocateStep('\n', rest);
    if eol == CRLF {
      EndingOf(CRLF, rest);
      LocateStep('\r', LF + rest);
      Regroup("\r", LF, rest, "");
    }
  }

  lemma {:induction false} LocateEmptyLine(eol: string, rest: string)
    requires eol == CRLF || eol == LF
    ensures Locate(eol + (eol + rest)) == Some(HeaderEnd(0, 2 * |eol|))
  {
    EndingOf(eol, eol + rest);
    EndingOf(eol, rest);
  }

  lemma {:induction false} LineIsNoEnding(line: string, eol: string, rest: string)
    requires (eol == CRLF || eol == LF) && IsLine(line, eol) && line != ""
    ensures EndingLen(line + (eol + rest)) == 0
  {
    NoEnding(line[0], line[1..], eol, rest);
    HeadAndRest(line);
    Regroup([line[0]], line[1..], eol + rest, "");
  }

  /** The header section of a stored message ends after its last header line. */
  lemma {:induction false} LocateStored(head: seq<string>, eol: string, rest: string)
    requires (eol == CRLF || eol == LF) && AreHeaderLines(head)
    ensures Locate(EndLines(head, eol) + (eol + rest)) == Some(HeaderEnd(|JoinLines(head, eol)|, 2 * |eol|))
    decreases |head|
  {
    var tail := EndLines(head[1..], eol) + (eol + rest);
    Regroup(head[0], eol, EndLines(head[1..], eol), eol + rest);
    LocateLine(head[0], eol, tail);
    if |head| == 1 {
      assert tail == eol + rest;
      LocateEmptyLine(eol, rest);
    } else {
      LocateStored(head[1..], eol, rest);
      Regroup(head[1], eol, EndLines(head[2..], eol), eol + rest);
      assert head[1..][1..] == head[2..];
      LineIsNoEnding(head[1], eol, EndLines(head[2..], eol) + (eol + rest));
      LocateEnding(eol, tail);
    }
  }

  lemma {:induction false} CutAt(a: string, b: string, c: string)
    ensures (a + b + c)[..|a|] == a && (a + b + c)[|a| + |b|..] == c
  {
  }

  /** A stored message splits into its fields and its body, whichever line ending storage uses. */
  lemma {:induction false} SplitUndoesStore(head: seq<string>, body: seq<string>, eol: string)
    requires (eol == CRLF || eol == LF) && AreHeaderLines(head) && body != []
    ensures Split(Stored(head, body, eol)) == Message(Fields(head, []), JoinLines(body, eol))
  {
    var text := JoinLines(body, eol);
    LocateStored(head, eol, text);
    EndIsJoin(head, eol);
    Regroup(JoinLines(head, eol), eol, eol, text);
    Regroup(JoinLines(head, eol), eol, eol + text, "");
    Regroup(eol, eol, text, "");
    Regroup(JoinLines(head, eol), eol + eol, text, "");
    CutAt(JoinLines(head, eol), eol + eol, text);
    SplitUndoesJoin(head, eol);
  }

  // ---- The loops

  lemma {:induction false} LocateOnward(raw: string, i: nat)
    requires i < |raw|
    ensures EmptyLineLen(raw[i..]) == 0 ==> Locate(raw[i..]) == Shift(Locate(raw[i + 1..]), 1)
    ensures EmptyLineLen(raw[i..]) > 0 ==> Locate(raw[i..]) == Some(HeaderEnd(0, EmptyLineLen(raw[i..])))
  {
    assert raw[i..][1..] == raw[i + 1..];
  }

  lemma {:induction false} LocateShort(rest: string)
    requires |rest| <= 1
    ensures Locate(rest) == None
  {
    if |rest| == 1 {
      assert rest[1..] == "";
    }
  }

  method LocateHeaderEnd(raw: string) returns (end: Option<HeaderEnd>)
    ensures end == Locate(raw)
  {
    var i := 0;
    assert raw[0..] == raw;
    while i + 1 < |raw|
      invariant 0 <= i <= |raw|
      invariant Locate(raw) == Shift(Locate(raw[i..]), i)
    {
      LocateOnward(raw, i);
      var sepLen := EmptyLineLen(raw[i..]);
      if sepLen > 0 {
        return Some(HeaderEnd(i, sepLen));
      }
      i := i + 1;
    }
    LocateShort(raw[i..]);
    end := None;
  }

  lemma {:induction false} FieldsStep(lines: seq<string>, i: nat, fields: seq<string>)
    requires i < |lines|
    ensures Fields(lines[i..], fields) == Fields(lines[i + 1..], AddLine(fields, lines[i]))
  {
    assert lines[i..][1..] == lines[i + 1..];
  }

  method ParseHeaders(block: string) returns (fields: seq<string>)
    ensures fields == Fields(SplitLines(block), [])
  {
    var lines := SplitLines(block);
    fields := [];
    assert lines[0..] == lines;
    for i := 0 to |lines|
      invariant Fields(lines, []) == Fields(lines[i..], fields)
    {
      FieldsStep(lines, i, fields);
      var line := lines[i];
      if line != "" && IsWsp(line[0]) && fields != [] {
        var last := |fields| - 1;
        assert fields[last := fields[last] + (CRLF + line)] == AddLine(fields, line);
        fields := fields[last := fields[last] + (CRLF + line)];
      } else {
        fields := fields + [line];
      }
    }
  }

  method SplitMessage(raw: string) returns (message: Message)
    ensures message == Split(raw)
  {
    var end := LocateHeaderEnd(raw);
    match end
    case None =>
      var headers := ParseHeaders(raw);
      message := Message(headers, "");
    case Some(e) =>
      var headers := ParseHeaders(raw[..e.at]);
      message := Message(headers, raw[e.at + e.sepLen..]);
  }
}
