/** Parsing undoes printing, exactly when, and printing what was parsed changes nothing (`email/address.ts`). */
module MailboxRoundTrip {
  import opened Wrappers
  import opened JsText
  import opened Scan
  import opened Mailbox

  // ---- Escapes

  lemma {:induction false} EscapeStep(c: char, rest: string)
    ensures Escape([c] + rest) == (if c == '\\' || c == '"' then ['\\', c] else [c]) + Escape(rest)
  {
    assert ([c] + rest)[1..] == rest;
    if c == '\\' || c == '"' {
      assert "\\" + [c] == ['\\', c];
    } else {
      assert "" + [c] == [c];
    }
  }

  lemma {:induction false} UnescapeUndoesEscape(name: string)
    ensures Unescape(Escape(name)) == name && !HasBareQuote(Escape(name))
  {
    if name != "" {
      var c, rest := name[0], Escape(name[1..]);
      UnescapeUndoesEscape(name[1..]);
      assert name == [c] + name[1..];
      EscapeStep(c, name[1..]);
      if c == '\\' || c == '"' {
        assert (['\\', c] + rest)[2..] == rest;
      } else {
        assert ([c] + rest)[1..] == rest;
      }
    }
  }

  lemma {:induction false} ClosingStep(c: char, text: string)
    ensures c != '\\' && c != '"' ==> ClosingQuote([c] + text) == Shifted(ClosingQuote(text), 1)
    ensures ClosingQuote(['\\', c] + text) == Shifted(ClosingQuote(text), 2)
  {
    assert ([c] + text)[1..] == text && (['\\', c] + text)[2..] == text;
  }

  lemma {:induction false} ClosesAtOnce(rest: string)
    ensures ClosingQuote(Escape("") + ("\"" + rest)) == Some(0)
  {
    assert Escape("") + ("\"" + rest) == "\"" + rest;
  }

  lemma {:induction false} EscapeText(name: string, tail: string)
    requires name != ""
    ensures var c, rest := name[0], Escape(name[1..]) + tail;
      Escape(name) + tail == if c == '\\' || c == '"' then ['\\', c] + rest else [c] + rest
  {
    hide Escape;
    assert name == [name[0]] + name[1..];
    EscapeStep(name[0], name[1..]);
  }

  /** The quote that closes an escaped name is the one after it. */
  lemma {:induction false} EscapedCloses(name: string, rest: string)
    ensures ClosingQuote(Escape(name) + ("\"" + rest)) == Some(|Escape(name)|)
  {
    hide ClosingQuote, Escape;
    if name == "" {
      ClosesAtOnce(rest);
      assert |Escape("")| == 0 by {
        EmptyEscape();
      }
    } else {
      EscapedCloses(name[1..], rest);
      EscapeText(name, "\"" + rest);
      EscapeText(name, "");
      ClosingStep(name[0], Escape(name[1..]) + ("\"" + rest));
    }
  }

  lemma {:induction false} EmptyEscape()
    ensures Escape("") == ""
  {
  }

  lemma {:induction false} EscapeKeeps(name: string, c: char)
    requires c in name
    ensures c in Escape(name)
  {
    assert name == [name[0]] + name[1..];
    EscapeStep(name[0], name[1..]);
    if c != name[0] {
      EscapeKeeps(name[1..], c);
    }
  }

  lemma {:induction false} EscapeAdds(name: string, c: char)
    requires c in Escape(name)
    ensures c in name || c == '\\'
  {
    if name != "" {
      assert name == [name[0]] + name[1..];
      EscapeStep(name[0], name[1..]);
      if c in Escape(name[1..]) {
        EscapeAdds(name[1..], c);
      }
    }
  }

  // ---- Finding the brackets

  lemma {:induction false} LastIndexOfEnd(s: string, c: char)
    ensures LastIndexOf(s + [c], c) == |s|
  {
  }

  lemma {:induction false} LastIndexOfNone(s: string, c: char)
    requires c !in s
    ensures LastIndexOf(s, c) == -1
  {
    if s != "" {
      LastIndexOfNone(s[..|s| - 1], c);
    }
  }

  lemma {:induction false} BracketedParts(name: string, address: string)
    ensures var text := Bracketed(name, address);
      && |text| == |name| + |address| + 3 && text[..|name| + 1] == name + " " && text[|name|..] == " <" + (address + ">")
      && text[|name| + 2..|text| - 1] == address && text == name + " <" + address + [">"[0]]
  {
  }

  lemma {:induction false} OpensAfter(name: string, address: string, from: nat)
    requires from <= |name| && '<' !in name[from..]
    ensures IndexFrom(Bracketed(name, address), '<', from) == |name| + 1
  {
    var text := Bracketed(name, address);
    var head := name[from..] + " ";
    IndexOfAppend(head, "<" + (address + ">"), '<');
    assert text[from..] == head + ("<" + (address + ">"));
  }

  lemma {:induction false} ClosesAtEnd(name: string, address: string)
    ensures LastIndexOf(Bracketed(name, address), '>') == |name| + |address| + 2
  {
    BracketedParts(name, address);
    LastIndexOfEnd(name + " <" + address, '>');
  }

  lemma {:induction false} TrimSpace(s: string)
    requires Trim(s) == s && s != ""
    ensures Trim(s + " ") == s
  {
    TrimKeeps(s);
    var t := s + " ";
    assert t[..|s|] == s;
    assert TrimEnd(t) == TrimEnd(s);
    StartsThere(t);
    StartsThere(s);
  }

  lemma {:induction false} StartsThere(s: string)
    requires s != "" && !IsJsSpace(s[0])
    ensures TrimStart(s) == s
  {
  }

  lemma {:induction false} BracketedIsTrim(name: string, address: string)
    requires name != "" && !IsJsSpace(name[0])
    ensures Trim(Bracketed(name, address)) == Bracketed(name, address)
  {
    BracketedParts(name, address);
    TrimKeeps(Bracketed(name, address));
  }

  lemma {:induction false} AddressIsTrim(address: string)
    requires IsAddress(address)
    ensures Trim(address) == address
  {
    hide IsAddress;
    AddressIsPlain(address);
    TrimKeeps(address);
  }

  /** A bracketed mailbox comes apart at its brackets. */
  lemma {:induction false} ParseBracketed(name: string, address: string)
    requires name != "" && Trim(name) == name && IsAddress(address)
    requires QuotedPrefixEnd(Bracketed(name, address)) <= |name|
    requires '<' !in name[QuotedPrefixEnd(Bracketed(name, address))..]
    ensures ParseTrimmed(Bracketed(name, address)) == ParseNamed(name, address)
  {
    hide Bracketed, QuotedPrefixEnd, IsAddress, ParseNamed, Trim;
    OpensAfter(name, address, QuotedPrefixEnd(Bracketed(name, address)));
    ClosesAtEnd(name, address);
    BracketedParts(name, address);
    TrimSpace(name);
    AddressIsTrim(address);
  }

  // ---- Cleanliness

  lemma {:induction false} CleanJoins(a: string, b: string)
    ensures IsClean(a + b) <==> IsClean(a) && IsClean(b)
  {
    var s := a + b;
    assert forall i :: 0 <= i < |a| ==> s[i] == a[i];
    assert forall i :: 0 <= i < |b| ==> s[|a| + i] == b[i];
  }

  lemma {:induction false} CleanIfFrom(s: string, t: string)
    requires IsClean(t) && forall i :: 0 <= i < |s| ==> s[i] in t
    ensures IsClean(s)
  {
    forall i | 0 <= i < |s|
      ensures !IsControl(s[i]) && !IsLineBreak(s[i])
    {
      var k :| 0 <= k < |t| && t[k] == s[i];
    }
  }

  lemma {:induction false} AddressIsClean(address: string)
    requires IsAddress(address)
    ensures IsClean(address)
  {
    hide IsAddress;
    AddressIsPlain(address);
  }

  lemma {:induction false} PiecesAreClean()
    ensures IsClean(" <") && IsClean(">") && IsClean("\"")
  {
  }

  lemma {:induction false} BracketedClean(name: string, address: string)
    requires IsAddress(address)
    ensures IsClean(Bracketed(name, address)) <==> IsClean(name)
  {
    hide IsClean, IsAddress;
    AddressIsClean(address);
    PiecesAreClean();
    CleanJoins(name, " <" + (address + ">"));
    CleanJoins(" <", address + ">");
    CleanJoins(address, ">");
  }

  lemma {:induction false} EscapeClean(name: string)
    ensures IsClean(Escape(name)) <==> IsClean(name)
  {
    if IsClean(name) {
      forall i | 0 <= i < |Escape(name)|
        ensures Escape(name)[i] in name + "\\"
      {
        EscapeAdds(name, Escape(name)[i]);
      }
      assert IsClean("\\");
      CleanJoins(name, "\\");
      CleanIfFrom(Escape(name), name + "\\");
    }
    if IsClean(Escape(name)) {
      forall i | 0 <= i < |name|
        ensures name[i] in Escape(name)
      {
        EscapeKeeps(name, name[i]);
      }
      CleanIfFrom(name, Escape(name));
    }
  }

  function Quoted(name: string): string {
    "\"" + (Escape(name) + "\"")
  }

  lemma {:induction false} QuotedClean(name: string)
    ensures IsClean(Quoted(name)) <==> IsClean(name)
  {
    hide IsClean, Escape;
    PiecesAreClean();
    EscapeClean(name);
    CleanJoins("\"", Escape(name) + "\"");
    CleanJoins(Escape(name), "\"");
  }

  // ---- The two printed forms

  lemma {:induction false} QuotedParts(name: string)
    ensures var q := Quoted(name);
      |q| == |Escape(name)| + 2 && q[0] == '"' && q[|q| - 1] == '"' && q[1..|q| - 1] == Escape(name) && Trim(q) == q
  {
    hide Escape;
    TrimKeeps(Quoted(name));
  }

  lemma {:induction false} UnquoteQuoted(name: string)
    ensures UnquoteDisplayName(Quoted(name)) == Ok(name)
  {
    hide Escape, Unescape, HasBareQuote, Quoted, Trim;
    QuotedParts(name);
    UnescapeUndoesEscape(name);
  }

  lemma {:induction false} QuotedPrefix(name: string, address: string)
    ensures QuotedPrefixEnd(Bracketed(Quoted(name), address)) == |Quoted(name)|
  {
    hide Escape;
    var text, rest := Bracketed(Quoted(name), address), " <" + (address + ">");
    EscapedCloses(name, rest);
    assert text[1..] == Escape(name) + ("\"" + rest);
  }

  lemma {:induction false} ParseQuoted(name: string, address: string)
    requires name != "" && IsAddress(address) && |address| <= MAX_ADDR_SPEC_LENGTH
    ensures ParseTrimmed(Bracketed(Quoted(name), address)) == Ok(EmailAddress(address, Some(name)))
  {
    hide Bracketed, QuotedPrefixEnd, IsAddress, Trim, ParseTrimmed, Quoted, UnquoteDisplayName, Escape;
    QuotedParts(name);
    QuotedPrefix(name, address);
    ParseBracketed(Quoted(name), address);
    UnquoteQuoted(name);
  }

  lemma {:induction false} UnspecialName(name: string)
    requires !HasSpecial(name)
    ensures '"' !in name && '<' !in name
  {
  }

  lemma {:induction false} NoPrefix(name: string, address: string)
    requires name != "" && name[0] != '"'
    ensures QuotedPrefixEnd(Bracketed(name, address)) == 0
  {
  }

  lemma {:induction false} ParseUnquoted(name: string, address: string)
    requires name != "" && !NeedsQuoting(name) && IsAddress(address) && |address| <= MAX_ADDR_SPEC_LENGTH
    ensures ParseTrimmed(Bracketed(name, address)) == Ok(EmailAddress(address, Some(name)))
  {
    hide Bracketed, QuotedPrefixEnd, IsAddress, Trim, ParseTrimmed, HasControl, HasSpecial;
    UnspecialName(name);
    NoPrefix(name, address);
    ParseBracketed(name, address);
  }

  lemma {:induction false} ParseBare(address: string)
    requires IsAddress(address) && |address| <= MAX_ADDR_SPEC_LENGTH
    ensures ParseAddress(address) == Ok(EmailAddress(address, None))
  {
    hide IsAddress, Trim;
    AddressIsPlain(address);
    AddressIsTrim(address);
    AddressIsClean(address);
    assert '<' !in address && '>' !in address;
    IndexOfIsFirst(address, '<');
    assert address[0..] == address;
    LastIndexOfNone(address, '>');
  }

  /** The text of a mailbox with a name is read only when the name is clean. */
  lemma {:induction false} ReadOnlyClean(text: string, name: string, a: EmailAddress)
    requires Trim(text) == text && text != "" && (IsClean(text) <==> IsClean(name)) && ParseTrimmed(text) == Ok(a)
    ensures (ParseAddress(text) == Ok(a)) <==> IsClean(name)
  {
    hide Trim, ParseTrimmed, HasControl, HasLineBreak;
  }

  /** Parsing undoes printing exactly for a missing name and for a clean name that is not empty. */
  lemma {:induction false} RoundTrip(a: EmailAddress)
    requires IsAddress(a.address) && |a.address| <= MAX_ADDR_SPEC_LENGTH
    ensures (ParseAddress(FormatAddress(a)) == Ok(a)) <==> (a.name.None? || (a.name.value != "" && IsClean(a.name.value)))
  {
    hide IsAddress, Trim, ParseTrimmed, ParseAddress, NeedsQuoting, Bracketed, IsClean, Quoted, Escape;
    if a.name.None? || a.name.value == "" {
      ParseBare(a.address);
    } else {
      var name := a.name.value;
      var shown := if NeedsQuoting(name) then Quoted(name) else name;
      if NeedsQuoting(name) {
        ParseQuoted(name, a.address);
        QuotedClean(name);
        QuotedParts(name);
      } else {
        ParseUnquoted(name, a.address);
        TrimKeeps(name);
        KeptTrim(name);
      }
      TrimmedStart(shown);
      BracketedClean(shown, a.address);
      BracketedIsTrim(shown, a.address);
      BracketedParts(shown, a.address);
      SameFormat(a);
      ReadOnlyClean(Bracketed(shown, a.address), name, a);
    }
  }

  lemma {:induction false} SameFormat(a: EmailAddress)
    requires a.name.Some? && a.name.value != ""
    ensures FormatAddress(a) ==
      Bracketed(if NeedsQuoting(a.name.value) then Quoted(a.name.value) else a.name.value, a.address)
  {
  }

  lemma {:induction false} KeptTrim(name: string)
    requires !NeedsQuoting(name)
    ensures Trim(name) == name
  {
  }

  lemma {:induction false} TrimmedStart(s: string)
    requires Trim(s) == s && s != ""
    ensures !IsJsSpace(s[0])
  {
    TrimKeeps(s);
  }

  // ---- What parsing promises

  lemma {:induction false} TrimPart(s: string)
    ensures forall i :: 0 <= i < |Trim(s)| ==> Trim(s)[i] in s
  {
    TrimStartPart(s);
    TrimEndPart(TrimStart(s));
  }

  lemma {:induction false} TrimStartPart(s: string)
    ensures forall i :: 0 <= i < |TrimStart(s)| ==> TrimStart(s)[i] in s
  {
    if s != "" {
      TrimStartPart(s[1..]);
    }
  }

  lemma {:induction false} TrimEndPart(s: string)
    ensures forall i :: 0 <= i < |TrimEnd(s)| ==> TrimEnd(s)[i] in s
  {
    if s != "" {
      TrimEndPart(s[..|s| - 1]);
    }
  }

  lemma {:induction false} UnescapePart(inner: string)
    ensures forall i :: 0 <= i < |Unescape(inner)| ==> Unescape(inner)[i] in inner
  {
    if inner != "" {
      if inner[0] == '\\' && |inner| > 1 {
        UnescapePart(inner[2..]);
      } else {
        UnescapePart(inner[1..]);
      }
    }
  }

  lemma {:induction false} UnquotedIsClean(rawName: string)
    requires IsClean(rawName) && UnquoteDisplayName(rawName).Ok?
    ensures IsClean(UnquoteDisplayName(rawName).value)
  {
    hide IsClean, HasBareQuote;
    if StartsQuoted(rawName) {
      var inner := rawName[1..|rawName| - 1];
      UnescapePart(inner);
      CleanIfFrom(Unescape(inner), rawName);
    }
  }

  /** A parsed mailbox has a valid addr-spec that fits, and a name that is clean and not empty, if any. */
  lemma {:induction false} ParsedIsGood(value: string)
    requires ParseAddress(value).Ok?
    ensures var a := ParseAddress(value).value;
      && IsAddress(a.address) && |a.address| <= MAX_ADDR_SPEC_LENGTH
      && (a.name.Some? ==> a.name.value != "" && IsClean(a.name.value))
  {
    hide IsAddress, IsClean, Trim, UnquoteDisplayName;
    var trimmed := Trim(value);
    TrimPart(value);
    assert IsClean(value) by {
      CleanValue(value);
    }
    CleanIfFrom(trimmed, value);
    var open := IndexFrom(trimmed, '<', QuotedPrefixEnd(trimmed));
    if open != -1 {
      var rawName := Trim(trimmed[..open]);
      TrimPart(trimmed[..open]);
      CleanIfFrom(rawName, trimmed);
      if UnquoteDisplayName(rawName).Ok? {
        UnquotedIsClean(rawName);
      }
    }
  }

  lemma {:induction false} CleanValue(value: string)
    requires ParseAddress(value).Ok?
    ensures IsClean(value)
  {
    hide ParseTrimmed, HasControl, HasLineBreak, Trim;
  }

  /** Printing what was parsed and parsing it again changes nothing. */
  lemma {:induction false} PrintedParsesAgain(value: string)
    requires ParseAddress(value).Ok?
    ensures ParseAddress(FormatAddress(ParseAddress(value).value)) == ParseAddress(value)
  {
    hide ParseAddress, FormatAddress, IsAddress, IsClean;
    ParsedIsGood(value);
    RoundTrip(ParseAddress(value).value);
  }
}
