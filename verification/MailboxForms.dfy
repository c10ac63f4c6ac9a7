/** The forms of a mailbox that a person may write, each read as its parts (`email/address.ts`). */
module MailboxForms {
  import opened Wrappers
  import opened JsText
  import opened Scan
  import opened MailLines
  import opened Mailbox
  import opened MailboxRoundTrip

  /** What stands before the brackets: nothing, a phrase without quotes, or the inside of a quoted string. */
  datatype Phrase = NoPhrase | Plain(words: string) | Quotation(inner: string)

  /** A mailbox as written, with the white space between its parts; without brackets it is only an address. */
  datatype Written =
    | Bare(lead: string, address: string, tail: string)
    | Named(lead: string, phrase: Phrase, gap: string, inside: string, address: string, after: string, tail: string)

  predicate IsBlank(s: string) {
    IsClean(s) && forall i :: 0 <= i < |s| ==> IsJsSpace(s[i])
  }

  /** Every quote in it is escaped, and no escape is cut off. */
  predicate IsQuotation(inner: string) {
    inner == "" || (
      if inner[0] == '\\' then |inner| > 1 && IsQuotation(inner[2..])
      else inner[0] != '"' && IsQuotation(inner[1..]))
  }

  predicate IsPhrase(phrase: Phrase) {
    match phrase
    case NoPhrase => true
    case Plain(words) => words != "" && Trim(words) == words && '"' !in words && '<' !in words && IsClean(words)
    case Quotation(inner) => IsQuotation(inner) && IsClean(inner)
  }

  predicate IsWritten(w: Written) {
    && IsAddress(w.address) && |w.address| <= MAX_ADDR_SPEC_LENGTH && IsBlank(w.lead) && IsBlank(w.tail)
    && (w.Named? ==> IsPhrase(w.phrase) && IsBlank(w.gap) && IsBlank(w.inside) && IsBlank(w.after))
  }

  function PhraseText(phrase: Phrase): string {
    match phrase
    case NoPhrase => ""
    case Plain(words) => words
    case Quotation(inner) => "\"" + (inner + "\"")
  }

  /** Brackets around an address, after what names it. */
  function Brackets(raw: string, inner: string): string {
    raw + ("<" + (inner + ">"))
  }

  function CoreOf(w: Written): string {
    match w
    case Bare(_, address, _) => address
    case Named(_, phrase, gap, inside, address, after, _) =>
      Brackets(if phrase.NoPhrase? then "" else PhraseText(phrase) + gap, inside + address + after)
  }

  function TextOf(w: Written): string {
    w.lead + CoreOf(w) + w.tail
  }

  /** The display name: a phrase as it is, a quoted string without its escapes, none when empty. */
  function NameOf(w: Written): Option<string> {
    if w.Bare? || w.phrase.NoPhrase? then None
    else
      var name := if w.phrase.Plain? then w.phrase.words else Unescape(w.phrase.inner);
      if name == "" then None else Some(name)
  }

  // ---- White space

  lemma {:induction false} BlankStart(blank: string, s: string)
    requires (forall i :: 0 <= i < |blank| ==> IsJsSpace(blank[i])) && (s == "" || !IsJsSpace(s[0]))
    ensures TrimStart(blank + s) == s
  {
    if blank == "" {
      assert blank + s == s;
    } else {
      BlankStart(blank[1..], s);
      assert (blank + s)[1..] == blank[1..] + s;
    }
  }

  lemma {:induction false} BlankEnd(s: string, blank: string)
    requires (forall i :: 0 <= i < |blank| ==> IsJsSpace(blank[i])) && (s == "" || !IsJsSpace(s[|s| - 1]))
    ensures TrimEnd(s + blank) == s
  {
    if blank == "" {
      assert s + blank == s;
    } else {
      BlankEnd(s, blank[..|blank| - 1]);
      assert (s + blank)[..|s| + |blank| - 1] == s + blank[..|blank| - 1];
    }
  }

  /** Blanks around a text that begins and ends without white space are trimmed. */
  lemma {:induction false} TrimAround(lead: string, s: string, tail: string)
    requires forall i :: 0 <= i < |lead| ==> IsJsSpace(lead[i])
    requires forall i :: 0 <= i < |tail| ==> IsJsSpace(tail[i])
    requires s != "" && !IsJsSpace(s[0]) && !IsJsSpace(s[|s| - 1])
    ensures Trim(lead + s + tail) == s
  {
    BlankStart(lead, s + tail);
    BlankEnd(s, tail);
    assert lead + s + tail == lead + (s + tail);
  }

  // ---- Brackets

  lemma {:induction false} BracketsParts(raw: string, inner: string)
    ensures var text := Brackets(raw, inner);
      && |text| == |raw| + |inner| + 2 && text[..|raw|] == raw && text[|raw| + 1..|text| - 1] == inner
      && text == (raw + "<" + inner) + [">"[0]] && text[|text| - 1] == '>'
  {
  }

  lemma {:induction false} OpensThere(raw: string, inner: string, from: nat)
    requires from <= |raw| && '<' !in raw[from..]
    ensures IndexFrom(Brackets(raw, inner), '<', from) == |raw|
  {
    IndexOfAppend(raw[from..], "<" + (inner + ">"), '<');
    assert Brackets(raw, inner)[from..] == raw[from..] + ("<" + (inner + ">"));
  }

  /** A bracketed mailbox comes apart at its brackets. */
  lemma {:induction false} BracketsComeApart(raw: string, inner: string)
    requires QuotedPrefixEnd(Brackets(raw, inner)) <= |raw|
    requires '<' !in raw[QuotedPrefixEnd(Brackets(raw, inner))..]
    ensures ParseTrimmed(Brackets(raw, inner)) == ParseNamed(Trim(raw), Trim(inner))
  {
    hide QuotedPrefixEnd, ParseNamed, Trim, Brackets;
    OpensThere(raw, inner, QuotedPrefixEnd(Brackets(raw, inner)));
    BracketsParts(raw, inner);
    LastIndexOfEnd(raw + "<" + inner, '>');
  }

  // ---- Phrases

  lemma {:induction false} QuotationCloses(inner: string, rest: string)
    requires IsQuotation(inner)
    ensures ClosingQuote(inner + ("\"" + rest)) == Some(|inner|) && !HasBareQuote(inner)
    decreases |inner|
  {
    var text := inner + ("\"" + rest);
    if inner == "" {
      assert text == "\"" + rest;
    } else if inner[0] == '\\' {
      QuotationCloses(inner[2..], rest);
      assert text[2..] == inner[2..] + ("\"" + rest);
    } else {
      QuotationCloses(inner[1..], rest);
      assert text[1..] == inner[1..] + ("\"" + rest);
    }
  }

  lemma {:induction false} QuotationParts(inner: string)
    ensures var q := PhraseText(Quotation(inner));
      && |q| == |inner| + 2 && q[0] == '"' && q[|q| - 1] == '"' && q[1..|q| - 1] == inner
      && q[1..] == inner + "\""
  {
  }

  lemma {:induction false} UnquoteQuotation(inner: string)
    requires IsQuotation(inner)
    ensures UnquoteDisplayName(PhraseText(Quotation(inner))) == Ok(Unescape(inner))
  {
    hide Unescape, HasBareQuote, IsQuotation, PhraseText;
    QuotationCloses(inner, "");
    QuotationParts(inner);
  }

  lemma {:induction false} QuotedHead(inner: string, gap: string, rest: string)
    ensures Brackets(PhraseText(Quotation(inner)) + gap, rest) == "\"" + (inner + ("\"" + (gap + ("<" + (rest + ">")))))
  {
    var more := "<" + (rest + ">");
    Regroup("\"" + (inner + "\""), gap, more, "");
    Regroup("\"", inner + "\"", gap + more, "");
    Regroup(inner, "\"", gap + more, "");
  }

  lemma {:induction false} PrefixOfQuoted(inner: string, more: string)
    requires ClosingQuote(inner + ("\"" + more)) == Some(|inner|)
    ensures QuotedPrefixEnd("\"" + (inner + ("\"" + more))) == |inner| + 2
  {
    hide ClosingQuote;
    var after := inner + ("\"" + more);
    assert ("\"" + after)[1..] == after && ("\"" + after)[0] == '"';
  }

  lemma {:induction false} QuotationPrefix(inner: string, gap: string, rest: string)
    requires IsQuotation(inner)
    ensures QuotedPrefixEnd(Brackets(PhraseText(Quotation(inner)) + gap, rest)) == |inner| + 2
  {
    hide IsQuotation, Brackets, PhraseText, QuotedPrefixEnd, ClosingQuote;
    var more := gap + ("<" + (rest + ">"));
    QuotationCloses(inner, more);
    QuotedHead(inner, gap, rest);
    PrefixOfQuoted(inner, more);
  }

  lemma {:induction false} BlankHasNoBracket(gap: string)
    requires IsBlank(gap)
    ensures '<' !in gap
  {
  }

  /** The words before the brackets, and what is made of them. */
  lemma {:induction false} ReadsPhrase(phrase: Phrase, gap: string, inner: string, address: string)
    requires IsPhrase(phrase) && IsBlank(gap) && Trim(inner) == address
    requires IsAddress(address) && |address| <= MAX_ADDR_SPEC_LENGTH && !phrase.NoPhrase?
    ensures ParseTrimmed(Brackets(PhraseText(phrase) + gap, inner)) ==
      var name := if phrase.Plain? then phrase.words else Unescape(phrase.inner);
      Ok(EmailAddress(address, if name == "" then None else Some(name)))
  {
    hide IsAddress, ParseTrimmed, Brackets, IsQuotation, Unescape, UnquoteDisplayName, Trim, QuotedPrefixEnd;
    var raw := PhraseText(phrase) + gap;
    BlankHasNoBracket(gap);
    PhraseEnds(phrase);
    TrimAround("", PhraseText(phrase), gap);
    assert "" + PhraseText(phrase) + gap == raw;
    match phrase {
      case Plain(words) =>
        PlainPrefix(words, gap, inner);
        assert raw[0..] == raw;
        BracketsComeApart(raw, inner);
        UnquotePlain(words);
      case Quotation(q) =>
        QuotationPrefix(q, gap, inner);
        QuotationParts(q);
        assert raw[|q| + 2..] == gap;
        BracketsComeApart(raw, inner);
        UnquoteQuotation(q);
    }
  }

  lemma {:induction false} PhraseEnds(phrase: Phrase)
    requires IsPhrase(phrase) && !phrase.NoPhrase?
    ensures var text := PhraseText(phrase); text != "" && !IsJsSpace(text[0]) && !IsJsSpace(text[|text| - 1])
  {
    if phrase.Plain? {
      TrimKeeps(phrase.words);
    } else {
      QuotationParts(phrase.inner);
    }
  }

  lemma {:induction false} PlainPrefix(words: string, gap: string, inner: string)
    requires words != "" && '"' !in words
    ensures QuotedPrefixEnd(Brackets(words + gap, inner)) == 0
  {
    assert Brackets(words + gap, inner)[0] == words[0];
  }

  lemma {:induction false} UnquotePlain(words: string)
    requires words != "" && '"' !in words
    ensures UnquoteDisplayName(words) == Ok(words) && !StartsQuoted(words)
  {
  }

  lemma {:induction false} ReadsNoPhrase(inner: string, address: string)
    requires Trim(inner) == address && IsAddress(address) && |address| <= MAX_ADDR_SPEC_LENGTH
    ensures ParseTrimmed(Brackets("", inner)) == Ok(EmailAddress(address, None))
  {
    hide IsAddress, ParseTrimmed;
    assert Brackets("", inner)[0] == '<';
    BracketsComeApart("", inner);
    assert Trim("") == "";
  }

  // ---- Every form

  lemma {:induction false} AddressEnds(address: string)
    requires IsAddress(address)
    ensures address != "" && !IsJsSpace(address[0]) && !IsJsSpace(address[|address| - 1]) && IsClean(address)
  {
    hide IsAddress;
    AddressIsPlain(address);
    AddressIsClean(address);
  }

  lemma {:induction false} CoreIsRead(w: Written)
    requires IsWritten(w)
    ensures w.Named? ==> ParseTrimmed(CoreOf(w)) == Ok(EmailAddress(w.address, NameOf(w)))
    ensures CoreOf(w) != "" && !IsJsSpace(CoreOf(w)[0]) && !IsJsSpace(CoreOf(w)[|CoreOf(w)| - 1])
  {
    hide IsAddress, ParseTrimmed, IsQuotation, Unescape, Trim, IsBlank, Brackets;
    AddressEnds(w.address);
    if w.Named? {
      var raw, inner := if w.phrase.NoPhrase? then "" else PhraseText(w.phrase) + w.gap, w.inside + w.address + w.after;
      BlankIsSpace(w.inside);
      BlankIsSpace(w.after);
      TrimAround(w.inside, w.address, w.after);
      BracketsParts(raw, inner);
      if w.phrase.NoPhrase? {
        ReadsNoPhrase(inner, w.address);
        StartsWithBracket(inner);
      } else {
        ReadsPhrase(w.phrase, w.gap, inner, w.address);
        PhraseEnds(w.phrase);
        assert CoreOf(w)[..|raw|] == raw && raw[0] == PhraseText(w.phrase)[0];
      }
    }
  }

  lemma {:induction false} StartsWithBracket(inner: string)
    ensures Brackets("", inner)[0] == '<'
  {
  }

  lemma {:induction false} BlankIsSpace(s: string)
    requires IsBlank(s)
    ensures IsClean(s) && forall i :: 0 <= i < |s| ==> IsJsSpace(s[i])
  {
  }

  lemma {:induction false} CoreIsClean(w: Written)
    requires IsWritten(w)
    ensures IsClean(TextOf(w))
  {
    hide IsAddress, IsClean, IsQuotation, Trim;
    AddressEnds(w.address);
    PiecesClean();
    CleanJoins(w.lead + CoreOf(w), w.tail);
    CleanJoins(w.lead, CoreOf(w));
    if w.Named? {
      var raw, inner := if w.phrase.NoPhrase? then "" else PhraseText(w.phrase) + w.gap, w.inside + w.address + w.after;
      CleanJoins(raw, "<" + (inner + ">"));
      CleanJoins("<", inner + ">");
      CleanJoins(inner, ">");
      CleanJoins(w.inside + w.address, w.after);
      CleanJoins(w.inside, w.address);
      CleanJoins(PhraseText(w.phrase), w.gap);
      if w.phrase.Quotation? {
        CleanJoins("\"", w.phrase.inner + "\"");
        CleanJoins(w.phrase.inner, "\"");
      }
    }
  }

  lemma {:induction false} PiecesClean()
    ensures IsClean("") && IsClean("<") && IsClean(">") && IsClean("\"")
  {
  }

  /**
   * Every way to write a mailbox is read as its parts: an address alone or in brackets, after nothing, a
   * phrase without quotes or a quoted string, with any white space between.
   */
  lemma {:induction false} WrittenIsRead(w: Written)
    requires IsWritten(w)
    ensures ParseAddress(TextOf(w)) == Ok(EmailAddress(w.address, NameOf(w)))
  {
    hide IsAddress, ParseTrimmed, IsQuotation, Unescape, CoreOf, IsPhrase, HasControl, HasLineBreak, IsClean;
    CoreIsRead(w);
    CoreIsClean(w);
    BlankIsSpace(w.lead);
    BlankIsSpace(w.tail);
    TrimAround(w.lead, CoreOf(w), w.tail);
    CleanIs(TextOf(w));
    if w.Bare? {
      BareCore(w);
      ParseBare(w.address);
      AddressIsTrim(w.address);
      hide Trim;
      AddressEnds(w.address);
    }
  }

  lemma {:induction false} BareCore(w: Written)
    requires w.Bare?
    ensures CoreOf(w) == w.address && NameOf(w) == None
  {
  }

  lemma {:induction false} CleanIs(s: string)
    ensures IsClean(s) <==> !HasControl(s) && !HasLineBreak(s)
  {
  }

  /** A name is printed in quotes exactly when it needs them, and otherwise as it is. */
  lemma {:induction false} QuotedOnlyWhenNeeded(a: EmailAddress)
    requires IsAddress(a.address) && a.name.Some? && a.name.value != ""
    ensures '"' in FormatAddress(a) <==> NeedsQuoting(a.name.value)
    ensures !NeedsQuoting(a.name.value) ==> FormatAddress(a) == a.name.value + " <" + a.address + ">"
  {
    hide IsAddress, Escape, HasControl, Trim, HasSpecial;
    AddressIsPlain(a.address);
    if NeedsQuoting(a.name.value) {
      assert FormatAddress(a)[0] == '"';
    } else {
      UnspecialName(a.name.value);
    }
  }
}
