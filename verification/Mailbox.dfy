/** Mailboxes, parsed and printed (`email/address.ts`; sections 3.2.4 and 3.4 of RFC 5322). */
module Mailbox {
  import opened Wrappers
  import opened JsText
  import opened Scan

  /** A mailbox: the addr-spec, and the display name in front of it. */
  datatype EmailAddress = EmailAddress(address: string, name: Option<string>)

  datatype ParseError =
    | NoMailbox | ControlCharacter | LineSeparator | MalformedMailbox | AddressTooLong | InvalidAddress
    | MalformedName | UnbalancedQuote | UnescapedQuote | NoRecipient

  type Parsed<+T> = Result<T, ParseError>

  // ---- Characters

  predicate IsControl(c: char) {
    c <= '\U{1F}' || c == '\U{7F}'
  }

  predicate IsLineBreak(c: char) {
    '\U{80}' <= c <= '\U{9F}' || c == '\U{2028}' || c == '\U{2029}'
  }

  predicate HasControl(s: string) {
    exists i :: 0 <= i < |s| && IsControl(s[i])
  }

  predicate HasLineBreak(s: string) {
    exists i :: 0 <= i < |s| && IsLineBreak(s[i])
  }

  /** No character that a header, a log line or a JSON consumer takes for a line break. */
  predicate IsClean(s: string) {
    !HasControl(s) && !HasLineBreak(s)
  }

  // ---- The addr-spec

  predicate IsAlphanumeric(c: char) {
    'a' <= c <= 'z' || 'A' <= c <= 'Z' || '0' <= c <= '9'
  }

  predicate IsAtomChar(c: char) {
    IsAlphanumeric(c) || c in "!#$%&'*+/=?^_`{|}~-"
  }

  predicate IsAtom(s: string) {
    s != "" && forall i :: 0 <= i < |s| ==> IsAtomChar(s[i])
  }

  predicate IsLabel(s: string) {
    && s != "" && IsAlphanumeric(s[0]) && IsAlphanumeric(s[|s| - 1])
    && forall i :: 0 <= i < |s| ==> IsAlphanumeric(s[i]) || s[i] == '-'
  }

  predicate AreAtoms(parts: seq<string>) {
    forall i :: 0 <= i < |parts| ==> IsAtom(parts[i])
  }

  predicate AreLabels(parts: seq<string>) {
    forall i :: 0 <= i < |parts| ==> IsLabel(parts[i])
  }

  /** `ADDRESS_PATTERN`: a dot-atom, and a domain of at least two labels. */
  predicate IsAddress(s: string) {
    var at := IndexOf(s, '@');
    && at != -1 && AreAtoms(SplitOn(s[..at], '.'))
    && |SplitOn(s[at + 1..], '.')| >= 2 && AreLabels(SplitOn(s[at + 1..], '.'))
  }

  const MAX_ADDR_SPEC_LENGTH := 254

  /** `assertAddrSpec`. */
  function CheckAddrSpec(address: string): Parsed<string> {
    if |address| > MAX_ADDR_SPEC_LENGTH then Err(AddressTooLong)
    else if !IsAddress(address) then Err(InvalidAddress)
    else Ok(address)
  }

  // ---- Quoted names

  /** An index in the rest of a text, counted from `n` characters before. */
  function Shifted(at: Option<nat>, n: nat): (r: Option<nat>) {
    match at case None => None case Some(i) => Some(i + n)
  }

  /** The index of the first quote that no backslash escapes. */
  function ClosingQuote(s: string): (at: Option<nat>)
    ensures at.Some? ==> at.value < |s| && s[at.value] == '"'
  {
    if s == "" then None
    else if s[0] == '"' then Some(0)
    else
      var step := if s[0] == '\\' then 2 else 1;
      if |s| < step then None
      else
        Shifted(ClosingQuote(s[step..]), step)
  }

  /** `quotedPrefixEnd`: just past the closing quote of a text that opens with a quoted string, else 0. */
  function QuotedPrefixEnd(value: string): (end: nat)
    ensures end <= |value|
  {
    if value == "" || value[0] != '"' then 0
    else match ClosingQuote(value[1..]) case None => 0 case Some(at) => at + 2
  }

  /** A quote inside the quotes that no backslash escapes. */
  predicate HasBareQuote(inner: string) {
    inner != "" && (
      if inner[0] == '\\' then |inner| > 1 && HasBareQuote(inner[2..])
      else inner[0] == '"' || HasBareQuote(inner[1..]))
  }

  /** `replace(/\\(.)/g, "$1")`. */
  function Unescape(inner: string): string {
    if inner == "" then ""
    else if inner[0] == '\\' && |inner| > 1 then [inner[1]] + Unescape(inner[2..])
    else [inner[0]] + Unescape(inner[1..])
  }

  predicate StartsQuoted(s: string) {
    s != "" && s[0] == '"'
  }

  predicate EndsQuoted(s: string) {
    s != "" && s[|s| - 1] == '"'
  }

  /** `unquoteDisplayName`. */
  function UnquoteDisplayName(rawName: string): Parsed<string> {
    if !StartsQuoted(rawName) && !EndsQuoted(rawName) then
      if '"' in rawName then Err(UnbalancedQuote) else Ok(rawName)
    else if !StartsQuoted(rawName) || !EndsQuoted(rawName) || |rawName| < 2 then Err(UnbalancedQuote)
    else if HasBareQuote(rawName[1..|rawName| - 1]) then Err(UnescapedQuote)
    else Ok(Unescape(rawName[1..|rawName| - 1]))
  }

  // ---- Parsing

  /** `parseAddress`. */
  function ParseAddress(value: string): Parsed<EmailAddress> {
    if Trim(value) == "" then Err(NoMailbox)
    else if HasControl(value) then Err(ControlCharacter)
    else if HasLineBreak(value) then Err(LineSeparator)
    else ParseTrimmed(Trim(value))
  }

  function ParseTrimmed(trimmed: string): Parsed<EmailAddress> {
    var open := IndexFrom(trimmed, '<', QuotedPrefixEnd(trimmed));
    var close := LastIndexOf(trimmed, '>');
    if open == -1 && close == -1 then
      var address :- CheckAddrSpec(trimmed);
      Ok(EmailAddress(address, None))
    else if open == -1 || close == -1 || close < open || close != |trimmed| - 1 then Err(MalformedMailbox)
    else ParseNamed(Trim(trimmed[..open]), Trim(trimmed[open + 1..close]))
  }

  function ParseNamed(rawName: string, addrSpec: string): Parsed<EmailAddress> {
    var address :- CheckAddrSpec(addrSpec);
    if rawName == "" then Ok(EmailAddress(address, None))
    else if !StartsQuoted(rawName) && '<' in rawName then Err(MalformedName)
    else
      var name :- UnquoteDisplayName(rawName);
      Ok(EmailAddress(address, if name == "" then None else Some(name)))
  }

  // ---- Printing

  function Escape(name: string): string {
    if name == "" then ""
    else (if name[0] == '\\' || name[0] == '"' then "\\" else "") + [name[0]] + Escape(name[1..])
  }

  predicate IsSpecial(c: char) {
    c in "()<>@,;:\\\"[]"
  }

  predicate HasSpecial(name: string) {
    exists i :: 0 <= i < |name| && IsSpecial(name[i])
  }

  predicate NeedsQuoting(name: string) {
    HasSpecial(name) || name != Trim(name) || HasControl(name)
  }

  function Bracketed(name: string, address: string): string {
    name + (" <" + (address + ">"))
  }

  /** `formatAddress`. */
  function FormatAddress(a: EmailAddress): string {
    if a.name.None? || a.name.value == "" then a.address
    else if !NeedsQuoting(a.name.value) then Bracketed(a.name.value, a.address)
    else Bracketed("\"" + (Escape(a.name.value) + "\""), a.address)
  }

  // ---- What an addr-spec is made of

  /** A printing ASCII character that means nothing to a mailbox. */
  predicate IsAddressChar(c: char) {
    '!' <= c <= '~' && c != '<' && c != '>' && c != '"'
  }

  predicate AreAddressChars(s: string) {
    forall i :: 0 <= i < |s| ==> IsAddressChar(s[i])
  }

  lemma {:induction false} PartsAreAddressChars(s: string, separator: char)
    requires IsAddressChar(separator)
    requires forall i :: 0 <= i < |SplitOn(s, separator)| ==> AreAddressChars(SplitOn(s, separator)[i])
    ensures AreAddressChars(s)
    decreases |s|
  {
    var at := IndexOf(s, separator);
    var parts := SplitOn(s, separator);
    if at != -1 {
      var rest := s[at + 1..];
      assert parts[1..] == SplitOn(rest, separator);
      PartsAreAddressChars(rest, separator);
      assert AreAddressChars(parts[0]);
      assert s == s[..at] + [separator] + rest;
    } else {
      assert AreAddressChars(parts[0]);
    }
  }

  lemma {:induction false} AtomIsAddressChars(s: string)
    requires IsAtom(s) || IsLabel(s)
    ensures AreAddressChars(s)
  {
  }

  lemma {:induction false} AddressIsPlain(s: string)
    requires IsAddress(s)
    ensures s != "" && AreAddressChars(s)
  {
    hide IsAtom, IsLabel, AreAddressChars;
    var at := IndexOf(s, '@');
    var local, domain := SplitOn(s[..at], '.'), SplitOn(s[at + 1..], '.');
    forall i | 0 <= i < |local|
      ensures AreAddressChars(local[i])
    {
      AtomIsAddressChars(local[i]);
    }
    forall i | 0 <= i < |domain|
      ensures AreAddressChars(domain[i])
    {
      AtomIsAddressChars(domain[i]);
    }
    PartsAreAddressChars(s[..at], '.');
    PartsAreAddressChars(s[at + 1..], '.');
    AddressJoined(s, at);
  }

  lemma {:induction false} AddressJoined(s: string, at: nat)
    requires at < |s| && s[at] == '@' && AreAddressChars(s[..at]) && AreAddressChars(s[at + 1..])
    ensures AreAddressChars(s)
  {
    assert s == s[..at] + [s[at]] + s[at + 1..];
  }
}
