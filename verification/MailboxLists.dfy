/** The loops of the mailbox parser, and recipient lists without repeats (`email/address.ts`). */
module MailboxLists {
  import opened Wrappers
  import opened JsText
  import opened Scan
  import opened Mailbox

  // ---- Loops of `parseAddress`

  lemma {:induction false} ClosingAt(value: string, at: nat)
    requires at < |value|
    ensures value[at] == '"' ==> ClosingQuote(value[at..]) == Some(0)
    ensures value[at] != '"' && value[at] != '\\' ==> ClosingQuote(value[at..]) == Shifted(ClosingQuote(value[at + 1..]), 1)
    ensures value[at] == '\\' ==>
      ClosingQuote(value[at..]) == if at + 2 <= |value| then Shifted(ClosingQuote(value[at + 2..]), 2) else None
  {
    var s := value[at..];
    assert s[1..] == value[at + 1..];
    assert at + 2 <= |value| ==> s[2..] == value[at + 2..];
  }

  method FindQuotedPrefixEnd(value: string) returns (end: nat)
    ensures end == QuotedPrefixEnd(value)
  {
    hide ClosingQuote;
    if value == "" || value[0] != '"' {
      return 0;
    }
    var at := 1;
    while at < |value|
      invariant 1 <= at <= |value| + 1
      invariant ClosingQuote(value[1..]) == if at <= |value| then Shifted(ClosingQuote(value[at..]), at - 1) else None
    {
      ClosingAt(value, at);
      if value[at] == '\\' {
        at := at + 1;
      } else if value[at] == '"' {
        return at + 1;
      }
      at := at + 1;
    }
    if at == |value| {
      NothingCloses(value[at..]);
    }
    end := 0;
  }

  lemma {:induction false} NothingCloses(s: string)
    requires s == ""
    ensures ClosingQuote(s) == None
  {
  }

  /** The rest of the scan, after a backslash (`escaped`) or not. */
  predicate BareFrom(rest: string, escaped: bool) {
    if escaped then rest != "" && HasBareQuote(rest[1..]) else HasBareQuote(rest)
  }

  lemma {:induction false} BareStep(rest: string, escaped: bool)
    requires rest != ""
    ensures escaped ==> BareFrom(rest, escaped) == BareFrom(rest[1..], false)
    ensures !escaped && rest[0] == '\\' ==> BareFrom(rest, escaped) == BareFrom(rest[1..], true)
    ensures !escaped && rest[0] != '\\' && rest[0] != '"' ==> BareFrom(rest, escaped) == BareFrom(rest[1..], false)
    ensures !escaped && rest[0] == '"' ==> BareFrom(rest, escaped)
  {
    assert |rest| > 1 ==> rest[1..][1..] == rest[2..];
  }

  /** The escape scan of `unquoteDisplayName`. */
  method FindBareQuote(inner: string) returns (found: bool)
    ensures found == HasBareQuote(inner)
  {
    hide HasBareQuote, BareFrom;
    var escaped := false;
    StartBare(inner);
    for i := 0 to |inner|
      invariant HasBareQuote(inner) == BareFrom(inner[i..], escaped)
    {
      BareStep(inner[i..], escaped);
      assert inner[i..][1..] == inner[i + 1..] && inner[i..][0] == inner[i];
      if escaped {
        escaped := false;
      } else if inner[i] == '\\' {
        escaped := true;
      } else if inner[i] == '"' {
        return true;
      }
    }
    EndBare(inner[|inner|..], escaped);
    found := false;
  }

  lemma {:induction false} StartBare(inner: string)
    ensures HasBareQuote(inner) == BareFrom(inner[0..], false)
  {
    assert inner[0..] == inner;
  }

  lemma {:induction false} EndBare(rest: string, escaped: bool)
    requires rest == ""
    ensures !BareFrom(rest, escaped)
  {
  }

  // ---- Recipient lists

  /** What recipients are compared by. */
  function KeyOf(a: EmailAddress): string {
    AsciiLower(a.address)
  }

  function LowerOf(c: char): char {
    if 'A' <= c <= 'Z' then (c as int + 32) as char else c
  }

  function AsciiLower(s: string): string {
    seq(|s|, i requires 0 <= i < |s| => LowerOf(s[i]))
  }

  /** Two recipients are the same exactly when their addresses differ in the case of letters alone. */
  lemma {:induction false} SameKeyIsSameAddress(a: EmailAddress, b: EmailAddress)
    ensures KeyOf(a) == KeyOf(b) <==>
      (|a.address| == |b.address| && forall i :: 0 <= i < |a.address| ==>
         a.address[i] == b.address[i] || IsCapitalOf(a.address[i], b.address[i]) || IsCapitalOf(b.address[i], a.address[i]))
  {
    var x, y := a.address, b.address;
    assert forall i :: 0 <= i < |x| ==> AsciiLower(x)[i] == LowerOf(x[i]);
    assert forall i :: 0 <= i < |y| ==> AsciiLower(y)[i] == LowerOf(y[i]);
    if |x| == |y| && forall i :: 0 <= i < |x| ==> LowerOf(x[i]) == LowerOf(y[i]) {
      assert AsciiLower(x) == AsciiLower(y);
    }
  }

  predicate IsCapitalOf(capital: char, small: char) {
    'A' <= capital <= 'Z' && small as int == capital as int + 32
  }

  /** Every entry parsed; the first that does not parse fails the list. */
  function ParseAll(values: seq<string>): Parsed<seq<EmailAddress>> {
    if values == [] then Ok([])
    else
      var front :- ParseAll(values[..|values| - 1]);
      var last :- ParseAddress(values[|values| - 1]);
      Ok(front + [last])
  }

  function Keys(list: seq<EmailAddress>): set<string> {
    set a | a in list :: KeyOf(a)
  }

  /** The recipients that are the first of their key. */
  function Kept(list: seq<EmailAddress>): seq<EmailAddress> {
    if list == [] then []
    else
      var front, last := list[..|list| - 1], list[|list| - 1];
      Kept(front) + if KeyOf(last) in Keys(front) then [] else [last]
  }

  /** The addresses of the others. */
  function Dropped(list: seq<EmailAddress>): seq<string> {
    if list == [] then []
    else
      var front, last := list[..|list| - 1], list[|list| - 1];
      Dropped(front) + if KeyOf(last) in Keys(front) then [last.address] else []
  }

  lemma {:induction false} KeysGrow(front: seq<EmailAddress>, last: EmailAddress)
    ensures Keys(front + [last]) == Keys(front) + {KeyOf(last)}
  {
    hide KeyOf;
    assert forall a :: a in front + [last] <==> a in front || a == last;
  }

  /** Every key has one recipient, and no other key has any. */
  lemma {:induction false} KeptKeys(list: seq<EmailAddress>)
    ensures Keys(Kept(list)) == Keys(list)
    ensures forall i, j :: 0 <= i < j < |Kept(list)| ==> KeyOf(Kept(list)[i]) != KeyOf(Kept(list)[j])
  {
    hide KeyOf;
    if list != [] {
      var front, last := list[..|list| - 1], list[|list| - 1];
      KeptKeys(front);
      assert list == front + [last];
      KeysGrow(front, last);
      if KeyOf(last) in Keys(front) {
        assert Kept(list) == Kept(front);
      } else {
        KeysGrow(Kept(front), last);
        forall i | 0 <= i < |Kept(front)|
          ensures KeyOf(Kept(front)[i]) in Keys(Kept(front))
        {
        }
      }
    }
  }

  /** The `i`-th recipient is the first of its key. */
  ghost predicate IsFirstOfKey(list: seq<EmailAddress>, i: int) {
    0 <= i < |list| && forall j :: 0 <= j < i ==> KeyOf(list[j]) != KeyOf(list[i])
  }

  lemma {:induction false} FirstOfKeyStep(front: seq<EmailAddress>, last: EmailAddress, i: int)
    ensures 0 <= i < |front| ==> (IsFirstOfKey(front + [last], i) <==> IsFirstOfKey(front, i))
    ensures IsFirstOfKey(front + [last], |front|) <==> KeyOf(last) !in Keys(front)
  {
    hide KeyOf;
    var list := front + [last];
    assert list[|front|] == last && forall j :: 0 <= j < |front| ==> list[j] == front[j];
    if KeyOf(last) !in Keys(front) {
      assert forall j :: 0 <= j < |front| ==> front[j] in front;
    }
  }

  /** A recipient is kept exactly when it is the first of its key. */
  lemma {:induction false} KeptAreFirst(list: seq<EmailAddress>, a: EmailAddress)
    ensures a in Kept(list) <==> exists i :: IsFirstOfKey(list, i) && list[i] == a
  {
    if list != [] {
      var n := |list| - 1;
      var front, last := list[..n], list[n];
      assert list == front + [last];
      KeptAreFirst(front, a);
      FirstOfKeyStep(front, last, n);
      if a in Kept(front) {
        var i :| IsFirstOfKey(front, i) && front[i] == a;
        FirstOfKeyStep(front, last, i);
        assert list[i] == a;
      } else if a in Kept(list) {
        assert IsFirstOfKey(list, n) && list[n] == a;
      }
      if i :| IsFirstOfKey(list, i) && list[i] == a {
        FirstOfKeyStep(front, last, i);
        if i < n {
          assert front[i] == a;
        }
      }
    }
  }

  /** A list that parses is its entries' mailboxes, in order. */
  lemma {:induction false} ParsedInOrder(values: seq<string>)
    requires ParseAll(values).Ok?
    ensures var list := ParseAll(values).value;
      |list| == |values| && forall i :: 0 <= i < |values| ==> ParseAddress(values[i]) == Ok(list[i])
  {
    hide ParseAddress;
    if values != [] {
      ParsedInOrder(values[..|values| - 1]);
    }
  }

  function Addresses(list: seq<EmailAddress>): seq<string> {
    if list == [] then [] else Addresses(list[..|list| - 1]) + [list[|list| - 1].address]
  }

  /** Nobody is lost and nobody is added: every entry is kept or recorded as a repeat. */
  lemma {:induction false} NobodyLost(list: seq<EmailAddress>)
    ensures multiset(Addresses(Kept(list))) + multiset(Dropped(list)) == multiset(Addresses(list))
  {
    hide KeyOf, Keys;
    if list != [] {
      var front, last := list[..|list| - 1], list[|list| - 1];
      NobodyLost(front);
      if KeyOf(last) in Keys(front) {
        assert Kept(list) == Kept(front);
      } else {
        assert (Kept(front) + [last])[..|Kept(front)|] == Kept(front);
      }
    }
  }

  lemma {:induction false} ParseAllStep(values: seq<string>, i: nat)
    requires i < |values| && ParseAll(values[..i]).Ok?
    ensures var parsed := ParseAddress(values[i]);
      ParseAll(values[..i + 1]) ==
        if parsed.Err? then Err(parsed.error) else Ok(ParseAll(values[..i]).value + [parsed.value])
  {
    hide ParseAddress;
    assert values[..i + 1][..i] == values[..i] && values[..i + 1][i] == values[i];
  }

  lemma {:induction false} ParseAllFails(values: seq<string>, i: nat)
    requires i <= |values| && ParseAll(values[..i]).Err?
    ensures ParseAll(values) == ParseAll(values[..i])
    decreases |values| - i
  {
    hide ParseAddress;
    if i < |values| {
      assert values[..i + 1][..i] == values[..i];
      ParseAllFails(values, i + 1);
    } else {
      assert values[..i] == values;
    }
  }

  /** The loop's state after the entries `list`. */
  ghost predicate IsDeduplicated(
    list: seq<EmailAddress>, addresses: seq<EmailAddress>, duplicates: seq<string>, seen: set<string>) {
    addresses == Kept(list) && duplicates == Dropped(list) && seen == Keys(list)
  }

  lemma {:induction false} DeduplicatedStep(
    list: seq<EmailAddress>, addresses: seq<EmailAddress>, duplicates: seq<string>, seen: set<string>,
    parsed: EmailAddress)
    requires IsDeduplicated(list, addresses, duplicates, seen)
    ensures if KeyOf(parsed) in seen then
        IsDeduplicated(list + [parsed], addresses, duplicates + [parsed.address], seen)
      else IsDeduplicated(list + [parsed], addresses + [parsed], duplicates, seen + {KeyOf(parsed)})
  {
    hide KeyOf;
    KeysGrow(list, parsed);
    assert (list + [parsed])[..|list|] == list;
    assert KeyOf(parsed) in seen ==> seen + {KeyOf(parsed)} == seen;
  }

  /** `parseAddresses`: the first recipient of each key, and the repeats; one bad entry fails the list. */
  method ParseAddresses(values: seq<string>) returns (r: Parsed<(seq<EmailAddress>, seq<string>)>)
    ensures r == if values == [] then Err(NoRecipient)
      else if ParseAll(values).Err? then Err(ParseAll(values).error)
      else Ok((Kept(ParseAll(values).value), Dropped(ParseAll(values).value)))
  {
    hide ParseAddress, KeyOf, IsDeduplicated;
    if values == [] {
      return Err(NoRecipient);
    }
    var addresses: seq<EmailAddress>, duplicates: seq<string>, seen: set<string> := [], [], {};
    ghost var list: seq<EmailAddress> := [];
    NothingYet();
    for i := 0 to |values|
      invariant ParseAll(values[..i]) == Ok(list)
      invariant IsDeduplicated(list, addresses, duplicates, seen)
    {
      ParseAllStep(values, i);
      var parsed := ParseAddress(values[i]);
      if parsed.Err? {
        ParseAllFails(values, i + 1);
        return Err(parsed.error);
      }
      DeduplicatedStep(list, addresses, duplicates, seen, parsed.value);
      list := list + [parsed.value];
      var key := KeyOf(parsed.value);
      if key in seen {
        duplicates := duplicates + [parsed.value.address];
      } else {
        seen := seen + {key};
        addresses := addresses + [parsed.value];
      }
    }
    assert values[..|values|] == values;
    Unfold(list, addresses, duplicates, seen);
    r := Ok((addresses, duplicates));
  }

  lemma {:induction false} NothingYet()
    ensures IsDeduplicated([], [], [], {})
  {
  }

  lemma {:induction false} Unfold(
    list: seq<EmailAddress>, addresses: seq<EmailAddress>, duplicates: seq<string>, seen: set<string>)
    requires IsDeduplicated(list, addresses, duplicates, seen)
    ensures addresses == Kept(list) && duplicates == Dropped(list)
  {
  }
}
