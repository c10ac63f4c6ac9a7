/**
 * Header sections under either line ending: an octet sequence is refused for one line alone, never
 * across an ending (`email/dkim-message.ts`).
 */
module DkimStorage {
  import opened Wrappers
  import opened MailLines
  import opened DkimMessage
  import opened DkimForbidden

  // ---- Forbidden octets do not reach over a line ending

  /** Octets that no hidden line break contains and that are not refused alone. */
  ghost predicate IsBoundary(raw: set<nat>, code: nat) {
    code < 0x80 && code !in raw
  }

  lemma {:induction false} DecodedIsHigh(bytes: seq<nat>, k: nat)
    requires Decode(bytes).Some? && k < |bytes|
    ensures bytes[k] >= 0x80
  {
    if k > 0 {
      assert bytes[k] == bytes[1..][k - 1];
    }
  }

  lemma {:induction false} ForbiddenLeft(listed: seq<nat>, raw: set<nat>, x: seq<nat>, y: seq<nat>, i: nat)
    requires IsForbiddenAt(listed, raw, x, i)
    ensures IsForbiddenAt(listed, raw, x + y, i)
  {
    hide Decode;
    if x[i] !in raw {
      var bytes :| Hides(listed, x, i, bytes);
      assert (x + y)[i..i + |bytes|] == x[i..i + |bytes|];
      assert Hides(listed, x + y, i, bytes);
    }
  }

  lemma {:induction false} ForbiddenRight(listed: seq<nat>, raw: set<nat>, x: seq<nat>, y: seq<nat>, i: nat)
    requires IsForbiddenAt(listed, raw, y, i)
    ensures IsForbiddenAt(listed, raw, x + y, |x| + i)
  {
    hide Decode;
    if y[i] !in raw {
      var bytes :| Hides(listed, y, i, bytes);
      assert (x + y)[|x| + i..|x| + i + |bytes|] == y[i..i + |bytes|];
      assert Hides(listed, x + y, |x| + i, bytes);
    }
  }

  lemma {:induction false} HiddenStaysLeft(
    listed: seq<nat>, x: seq<nat>, sep: nat, y: seq<nat>, i: nat, bytes: seq<nat>)
    requires sep < 0x80 && i < |x| && Hides(listed, x + ([sep] + y), i, bytes)
    ensures Hides(listed, x, i, bytes)
  {
    var all := x + ([sep] + y);
    if i + |bytes| > |x| {
      var k := |x| - i;
      assert all[i..i + |bytes|][k] == all[|x|] == sep;
      DecodedIsHigh(bytes, k);
      assert false;
    }
    assert all[i..i + |bytes|] == x[i..i + |bytes|];
  }

  lemma {:induction false} HiddenStaysRight(
    listed: seq<nat>, x: seq<nat>, sep: nat, y: seq<nat>, i: nat, bytes: seq<nat>)
    requires i > |x| && Hides(listed, x + ([sep] + y), i, bytes)
    ensures Hides(listed, y, i - |x| - 1, bytes)
  {
    hide Decode;
    var all, j := x + ([sep] + y), i - |x| - 1;
    assert all[i..i + |bytes|] == y[j..j + |bytes|];
  }

  lemma {:induction false} BoundaryIsAllowed(
    listed: seq<nat>, raw: set<nat>, x: seq<nat>, sep: nat, y: seq<nat>)
    requires IsBoundary(raw, sep)
    ensures !IsForbiddenAt(listed, raw, x + ([sep] + y), |x|)
  {
    var all := x + ([sep] + y);
    assert all[|x|] == sep;
    forall bytes | Hides(listed, all, |x|, bytes)
      ensures false
    {
      assert all[|x|..|x| + |bytes|][0] == sep;
      DecodedIsHigh(bytes, 0);
    }
  }

  lemma {:induction false} ForbiddenIsOneSide(
    listed: seq<nat>, raw: set<nat>, x: seq<nat>, sep: nat, y: seq<nat>, i: nat)
    requires IsBoundary(raw, sep) && IsForbiddenAt(listed, raw, x + ([sep] + y), i)
    ensures IsForbiddenAt(listed, raw, x, i) || (i > |x| && IsForbiddenAt(listed, raw, y, i - |x| - 1))
  {
    hide Hides;
    var all := x + ([sep] + y);
    BoundaryIsAllowed(listed, raw, x, sep, y);
    assert i < |x| ==> all[i] == x[i];
    assert i > |x| ==> all[i] == y[i - |x| - 1];
    if all[i] !in raw {
      var bytes :| Hides(listed, all, i, bytes);
      if i < |x| {
        HiddenStaysLeft(listed, x, sep, y, i, bytes);
      } else {
        HiddenStaysRight(listed, x, sep, y, i, bytes);
      }
    }
  }

  /** A boundary octet separates: what is forbidden is forbidden on one of its sides. */
  lemma {:induction false} ForbiddenSplits(listed: seq<nat>, raw: set<nat>, x: seq<nat>, sep: nat, y: seq<nat>)
    requires IsBoundary(raw, sep)
    ensures HasForbidden(listed, raw, x + ([sep] + y)) <==>
      (HasForbidden(listed, raw, x) || HasForbidden(listed, raw, y))
  {
    hide IsForbiddenAt;
    var all := x + ([sep] + y);
    if HasForbidden(listed, raw, all) {
      var i: nat :| IsForbiddenAt(listed, raw, all, i);
      ForbiddenIsOneSide(listed, raw, x, sep, y, i);
    }
    if HasForbidden(listed, raw, x) {
      var i: nat :| IsForbiddenAt(listed, raw, x, i);
      ForbiddenLeft(listed, raw, x, [sep] + y, i);
    }
    if HasForbidden(listed, raw, y) {
      var i: nat :| IsForbiddenAt(listed, raw, y, i);
      ForbiddenRight(listed, raw, [sep], y, i);
      ForbiddenRight(listed, raw, x, [sep] + y, 1 + i);
    }
  }

  lemma {:induction false} NothingForbidden(listed: seq<nat>, raw: set<nat>)
    ensures !HasForbidden(listed, raw, [])
  {
  }

  lemma {:induction false} CodesAppend(a: string, b: string)
    ensures Codes(a + b) == Codes(a) + Codes(b)
  {
  }

  ghost predicate HasForbiddenLine(listed: seq<nat>, raw: set<nat>, lines: seq<string>) {
    exists i :: 0 <= i < |lines| && HasForbidden(listed, raw, Codes(lines[i]))
  }

  /** An ending is made of boundary octets. */
  lemma {:induction false} ForbiddenOverEnding(listed: seq<nat>, raw: set<nat>, a: string, eol: string, b: string)
    requires (eol == CRLF || eol == LF) && IsBoundary(raw, 0x0A) && IsBoundary(raw, 0x0D)
    ensures HasForbidden(listed, raw, Codes(a + (eol + b))) <==>
      (HasForbidden(listed, raw, Codes(a)) || HasForbidden(listed, raw, Codes(b)))
  {
    hide HasForbidden;
    CodesAppend(a, eol + b);
    CodesAppend(eol, b);
    if eol == LF {
      assert Codes(LF) == [0x0A];
      ForbiddenSplits(listed, raw, Codes(a), 0x0A, Codes(b));
    } else {
      assert Codes(CRLF) == [0x0D] + [0x0A];
      Regroup([0x0D], [0x0A], Codes(b), []);
      ForbiddenSplits(listed, raw, Codes(a), 0x0D, [0x0A] + Codes(b));
      ForbiddenSplits(listed, raw, [], 0x0A, Codes(b));
      assert [] + ([0x0A] + Codes(b)) == [0x0A] + Codes(b);
      NothingForbidden(listed, raw);
    }
  }

  /** A block of lines is forbidden exactly when one of its lines is, under either ending. */
  lemma {:induction false} ForbiddenLines(listed: seq<nat>, raw: set<nat>, lines: seq<string>, eol: string)
    requires (eol == CRLF || eol == LF) && IsBoundary(raw, 0x0A) && IsBoundary(raw, 0x0D)
    ensures HasForbidden(listed, raw, Codes(EndLines(lines, eol))) <==> HasForbiddenLine(listed, raw, lines)
  {
    hide HasForbidden;
    if lines == [] {
      assert Codes("") == [];
      NothingForbidden(listed, raw);
    } else {
      var rest := lines[1..];
      ForbiddenLines(listed, raw, rest, eol);
      Regroup(lines[0], eol, EndLines(rest, eol), "");
      ForbiddenOverEnding(listed, raw, lines[0], eol, EndLines(rest, eol));
      if HasForbiddenLine(listed, raw, rest) {
        var i :| 0 <= i < |rest| && HasForbidden(listed, raw, Codes(rest[i]));
        assert lines[i + 1] == rest[i];
      }
      if HasForbiddenLine(listed, raw, lines) && !HasForbidden(listed, raw, Codes(lines[0])) {
        var i :| 0 <= i < |lines| && HasForbidden(listed, raw, Codes(lines[i]));
        assert rest[i - 1] == lines[i];
      }
    }
  }

  // ---- Line endings of a stored block

  /** A line without CR and without LF. */
  predicate IsPlainLine(line: string) {
    '\r' !in line && '\n' !in line
  }

  predicate ArePlain(lines: seq<string>) {
    forall i :: 0 <= i < |lines| ==> IsPlainLine(lines[i])
  }

  /** Every CR has its LF and every LF its CR, or there is no CR at all. */
  ghost predicate IsUniform(block: string, eol: string) {
    if eol == LF then '\r' !in block
    else
      && (forall i :: 0 <= i < |block| && block[i] == '\r' ==> IsCrLfAt(block, i))
      && (forall i :: 0 <= i < |block| && block[i] == '\n' ==> i > 0 && block[i - 1] == '\r')
  }

  lemma {:induction false} UniformStep(line: string, eol: string, rest: string)
    requires (eol == CRLF || eol == LF) && IsPlainLine(line) && IsUniform(rest, eol)
    ensures IsUniform(line + (eol + rest), eol)
  {
    var block := line + (eol + rest);
    var n := |line| + |eol|;
    assert forall i :: 0 <= i < |line| ==> block[i] == line[i];
    assert forall i :: n <= i < |block| ==> block[i] == rest[i - n];
    if eol == CRLF {
      assert block[|line|] == '\r' && block[|line| + 1] == '\n';
    } else {
      assert block[|line|] == '\n';
    }
  }

  lemma {:induction false} StoredIsUniform(lines: seq<string>, eol: string)
    requires (eol == CRLF || eol == LF) && ArePlain(lines)
    ensures IsUniform(EndLines(lines, eol), eol)
  {
    if lines != [] {
      StoredIsUniform(lines[1..], eol);
      UniformStep(lines[0], eol, EndLines(lines[1..], eol));
      Regroup(lines[0], eol, EndLines(lines[1..], eol), "");
    }
  }

  lemma {:induction false} UniformIsAccepted(block: string, eol: string)
    requires (eol == CRLF || eol == LF) && IsUniform(block, eol)
    ensures !HasLoneCr(block) && !(HasCrLf(block) && HasBareLf(block))
  {
    if eol == LF {
      assert forall i :: 0 <= i < |block| ==> !IsCrLfAt(block, i);
    } else {
      assert forall i :: 0 <= i < |block| ==> !IsBareLfAt(block, i);
    }
  }

  lemma {:induction false} EndsAreBoundaries()
    ensures IsBoundary(RAW_LINE_BREAKS, 0x0A) && IsBoundary(RAW_LINE_BREAKS, 0x0D)
  {
  }

  /** Header lines that storage can end either way. */
  predicate ArePlainHeaders(lines: seq<string>) {
    lines != [] && ArePlain(lines) && forall i :: 0 <= i < |lines| ==> lines[i] != ""
  }

  lemma {:induction false} PlainAreHeaderLines(lines: seq<string>)
    requires ArePlainHeaders(lines)
    ensures AreHeaderLines(lines)
  {
    forall i | 0 <= i < |lines|
      ensures IsLine(lines[i], LF)
    {
      assert IsPlainLine(lines[i]);
    }
  }

  lemma {:induction false} BlockOfStored(head: seq<string>, body: seq<string>, eol: string)
    requires (eol == CRLF || eol == LF) && ArePlainHeaders(head) && body != []
    ensures Block(Stored(head, body, eol)) == EndLines(head + [""], eol)
  {
    var rest := JoinLines(body, eol);
    PlainAreHeaderLines(head);
    LocateStored(head, eol, rest);
    EndIsJoin(head, eol);
    EndAppend(head, "", eol);
    Regroup(JoinLines(head, eol), eol, eol, rest);
    Regroup(JoinLines(head, eol) + eol, eol, rest, "");
    assert (EndLines(head, eol) + eol + rest)[..|EndLines(head, eol) + eol|] == EndLines(head, eol) + eol;
  }

  lemma {:induction false} EndAppend(lines: seq<string>, last: string, eol: string)
    ensures EndLines(lines + [last], eol) == EndLines(lines, eol) + (last + eol)
  {
    if lines == [] {
      assert [] + [last] == [last] && [last][1..] == [];
      assert last + eol + "" == "" + (last + eol);
    } else {
      EndAppend(lines[1..], last, eol);
      assert (lines + [last])[1..] == lines[1..] + [last];
      Regroup(lines[0] + eol, EndLines(lines[1..], eol), last + eol, "");
    }
  }

  /** A stored header section is refused only for an octet sequence in one of its lines. */
  lemma {:induction false} RefusalOfStored(head: seq<string>, body: seq<string>, eol: string)
    requires (eol == CRLF || eol == LF) && ArePlainHeaders(head) && body != []
    ensures RefusalOf(Block(Stored(head, body, eol))) ==
      if HasForbiddenLine(LINE_BREAKS, RAW_LINE_BREAKS, head + [""]) then Some(HiddenLineBreak) else None
  {
    hide HasForbidden, Stored, Block;
    BlockOfStored(head, body, eol);
    assert ArePlain(head + [""]);
    StoredIsUniform(head + [""], eol);
    UniformIsAccepted(EndLines(head + [""], eol), eol);
    EndsAreBoundaries();
    ForbiddenLines(LINE_BREAKS, RAW_LINE_BREAKS, head + [""], eol);
  }
}
