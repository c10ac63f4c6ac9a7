/** Joining the rates of several sources (`integrations/exchange-rates.ts`). */
module RateFallback {
  import opened Wrappers

  datatype Rate = Rate(base: string, quote: string, rate: string, source: string)

  datatype RatesError = RatesError(source: string, code: string)

  /** What a source answers for the quotes it is asked for: any rates at all, or a failure. */
  type Source = seq<string> -> Result<seq<Rate>, RatesError>

  datatype Rates = Rates(rates: seq<Rate>, missing: seq<string>, failures: seq<RatesError>)

  /** `otherSide`. */
  function OtherSide(rate: Rate, base: string): Option<string> {
    if rate.base == base then Some(rate.quote) else if rate.quote == base then Some(rate.base) else None
  }

  /** `quotes` without one of them. */
  function Remove(quotes: seq<string>, quote: string): seq<string> {
    if quotes == [] then []
    else (if quotes[0] == quote then [] else [quotes[0]]) + Remove(quotes[1..], quote)
  }

  /** The quotes that no rate prices, in the order asked. */
  function Uncovered(quotes: seq<string>, rates: seq<Rate>, base: string): seq<string> {
    if rates == [] then quotes
    else
      var front := Uncovered(quotes, rates[..|rates| - 1], base);
      match OtherSide(rates[|rates| - 1], base) case None => front case Some(quote) => Remove(front, quote)
  }

  predicate IsSubsequence(a: seq<string>, b: seq<string>) {
    a == [] || (b != [] && (if a[0] == b[0] then IsSubsequence(a[1..], b[1..]) else IsSubsequence(a, b[1..])))
  }

  /** The rate of a quote, among distinct ones. */
  ghost predicate Prices(rate: Rate, base: string, quote: string) {
    (rate.base == base && rate.quote == quote) || (rate.base != base && rate.quote == base && rate.base == quote)
  }

  /** The other side of a rate is the quote it prices. */
  lemma {:induction false} PricesItsOtherSide(rate: Rate, base: string)
    ensures forall quote :: Prices(rate, base, quote) <==> OtherSide(rate, base) == Some(quote)
  {
  }

  /** Every asked quote has one rate or is missing, and nothing else has a rate. */
  ghost predicate IsPartition(asked: seq<string>, base: string, rates: seq<Rate>, missing: seq<string>) {
    && (forall i :: 0 <= i < |rates| ==> OtherSide(rates[i], base).Some? && OtherSide(rates[i], base).value in asked)
    && (forall i, j :: 0 <= i < j < |rates| ==> OtherSide(rates[i], base) != OtherSide(rates[j], base))
    && (forall quote :: quote in missing <==> quote in asked && !IsPriced(rates, base, quote))
    && missing == Uncovered(asked, rates, base)
  }

  ghost predicate IsPriced(rates: seq<Rate>, base: string, quote: string) {
    exists i :: 0 <= i < |rates| && Prices(rates[i], base, quote)
  }

  lemma {:induction false} RemoveRemoves(quotes: seq<string>, quote: string)
    ensures forall other :: other in Remove(quotes, quote) <==> other in quotes && other != quote
  {
    if quotes != [] {
      RemoveRemoves(quotes[1..], quote);
      assert quotes == [quotes[0]] + quotes[1..];
    }
  }

  lemma {:induction false} SubsequenceDrops(a: seq<string>, b: seq<string>)
    requires a != [] && IsSubsequence(a, b)
    ensures IsSubsequence(a[1..], b)
    decreases |b|, 0
  {
    if a[0] == b[0] {
      SubsequenceGrows(a[1..], b[1..], b[0]);
      assert [b[0]] + b[1..] == b;
    } else {
      SubsequenceDrops(a, b[1..]);
      SubsequenceGrows(a[1..], b[1..], b[0]);
      assert [b[0]] + b[1..] == b;
    }
  }

  lemma {:induction false} SubsequenceGrows(a: seq<string>, b: seq<string>, c: string)
    requires IsSubsequence(a, b)
    ensures IsSubsequence(a, [c] + b)
    decreases |b|, 1
  {
    assert ([c] + b)[1..] == b;
    if a != [] && a[0] == c {
      SubsequenceDrops(a, b);
    }
  }

  lemma {:induction false} RemoveIsSubsequence(quotes: seq<string>, quote: string)
    ensures IsSubsequence(Remove(quotes, quote), quotes)
  {
    if quotes != [] {
      RemoveIsSubsequence(quotes[1..], quote);
      if quotes[0] == quote {
        assert Remove(quotes, quote) == Remove(quotes[1..], quote);
        SubsequenceGrows(Remove(quotes[1..], quote), quotes[1..], quotes[0]);
        assert [quotes[0]] + quotes[1..] == quotes;
      } else {
        assert Remove(quotes, quote)[1..] == Remove(quotes[1..], quote);
      }
    }
  }

  lemma {:induction false} SubsequenceTransitive(a: seq<string>, b: seq<string>, c: seq<string>)
    requires IsSubsequence(a, b) && IsSubsequence(b, c)
    ensures IsSubsequence(a, c)
    decreases |a| + |b| + |c|
  {
    if a != [] && c != [] && b != [] {
      if b[0] == c[0] {
        if a[0] == b[0] {
          SubsequenceTransitive(a[1..], b[1..], c[1..]);
        } else {
          SubsequenceTransitive(a, b[1..], c[1..]);
        }
      } else {
        SubsequenceTransitive(a, b, c[1..]);
        SubsequenceGrows(a, c[1..], c[0]);
        assert [c[0]] + c[1..] == c;
      }
    }
  }

  lemma {:induction false} SubsequenceOfItself(a: seq<string>)
    ensures IsSubsequence(a, a)
  {
    if a != [] {
      SubsequenceOfItself(a[1..]);
    }
  }

  /** The missing quotes keep the order they were asked in. */
  lemma {:induction false} MissingKeepsOrder(quotes: seq<string>, rates: seq<Rate>, base: string)
    ensures IsSubsequence(Uncovered(quotes, rates, base), quotes)
  {
    if rates == [] {
      SubsequenceOfItself(quotes);
    } else {
      var front := Uncovered(quotes, rates[..|rates| - 1], base);
      MissingKeepsOrder(quotes, rates[..|rates| - 1], base);
      var other := OtherSide(rates[|rates| - 1], base);
      if other.Some? {
        RemoveIsSubsequence(front, other.value);
        SubsequenceTransitive(Remove(front, other.value), front, quotes);
      }
    }
  }

  /** One more rate, of a quote that was pending. */
  lemma {:induction false} PartitionStep(
    asked: seq<string>, base: string, rates: seq<Rate>, pending: seq<string>, rate: Rate, quote: string)
    requires IsPartition(asked, base, rates, pending) && OtherSide(rate, base) == Some(quote) && quote in pending
    ensures IsPartition(asked, base, rates + [rate], Remove(pending, quote))
  {
    var next := rates + [rate];
    assert next[..|rates|] == rates;
    RemoveRemoves(pending, quote);
    assert forall i :: 0 <= i < |rates| ==> next[i] == rates[i];
    forall other
      ensures IsPriced(next, base, other) <==> IsPriced(rates, base, other) || other == quote
    {
      if IsPriced(rates, base, other) {
        var i :| 0 <= i < |rates| && Prices(rates[i], base, other);
        assert Prices(next[i], base, other);
      }
      assert Prices(next[|rates|], base, other) <==> other == quote;
    }
    assert !IsPriced(rates, base, quote);
    forall i | 0 <= i < |rates|
      ensures OtherSide(rates[i], base) != Some(quote)
    {
      assert !Prices(rates[i], base, quote);
    }
  }

  lemma {:induction false} NothingPriced(asked: seq<string>, base: string)
    ensures IsPartition(asked, base, [], asked)
  {
  }

  // ---- What the sources offer

  /** The first of the offered rates that prices the quote. */
  ghost predicate IsFirstOffer(rate: Rate, all: seq<Rate>, base: string, quote: string) {
    exists k :: 0 <= k < |all| && all[k] == rate && Prices(rate, base, quote)
      && forall j :: 0 <= j < k ==> !Prices(all[j], base, quote)
  }

  /** Each asked quote has the first rate that was offered for it, and is missing only when none was. */
  ghost predicate AreFirstOffers(asked: seq<string>, base: string, rates: seq<Rate>, all: seq<Rate>) {
    && (forall quote :: quote in asked ==> (IsPriced(rates, base, quote) <==> IsPriced(all, base, quote)))
    && (forall i, quote :: 0 <= i < |rates| && Prices(rates[i], base, quote) ==>
         IsFirstOffer(rates[i], all, base, quote))
  }

  /**
   * What the first `n` sources offer, each asked for the quotes that nothing offered before prices; a
   * source is not asked when there are none.
   */
  function Offered(sources: seq<Source>, asked: seq<string>, base: string, n: nat): seq<Rate>
    requires n <= |sources|
  {
    if n == 0 then []
    else
      var before := Offered(sources, asked, base, n - 1);
      var left := Uncovered(asked, before, base);
      if left == [] then before
      else match sources[n - 1](left) case Ok(rates) => before + rates case Err(_) => before
  }

  /** The failures of the first `n` sources, in order. */
  function FailuresOf(sources: seq<Source>, asked: seq<string>, base: string, n: nat): seq<RatesError>
    requires n <= |sources|
  {
    if n == 0 then []
    else
      var before := FailuresOf(sources, asked, base, n - 1);
      var left := Uncovered(asked, Offered(sources, asked, base, n - 1), base);
      if left == [] then before
      else match sources[n - 1](left) case Ok(_) => before case Err(error) => before + [error]
  }

  /** The quotes of a list for which some rates have none. */
  function Without(quotes: seq<string>, priced: iset<string>): seq<string> {
    if quotes == [] then []
    else (if quotes[0] in priced then [] else [quotes[0]]) + Without(quotes[1..], priced)
  }

  lemma {:induction false} RemoveWithout(quotes: seq<string>, priced: iset<string>, quote: string)
    ensures Remove(Without(quotes, priced), quote) == Without(quotes, priced + iset{quote})
  {
    if quotes != [] {
      RemoveWithout(quotes[1..], priced, quote);
      var rest := Without(quotes[1..], priced);
      if quotes[0] !in priced {
        assert ([quotes[0]] + rest)[1..] == rest;
      } else {
        assert [] + rest == rest;
      }
    }
  }

  ghost function Priced(rates: seq<Rate>, base: string): iset<string> {
    iset quote | IsPriced(rates, base, quote)
  }

  lemma {:induction false} PricedGrows(front: seq<Rate>, last: Rate, base: string)
    ensures Priced(front + [last], base) ==
      Priced(front, base) + match OtherSide(last, base) case None => iset{} case Some(quote) => iset{quote}
  {
    hide OtherSide;
    PricesItsOtherSide(last, base);
    var all := front + [last];
    assert all[|front|] == last && forall i :: 0 <= i < |front| ==> all[i] == front[i];
    forall quote
      ensures IsPriced(all, base, quote) <==> IsPriced(front, base, quote) || OtherSide(last, base) == Some(quote)
    {
      if IsPriced(front, base, quote) {
        var i :| 0 <= i < |front| && Prices(front[i], base, quote);
        assert Prices(all[i], base, quote);
      }
      assert Prices(all[|front|], base, quote) <==> OtherSide(last, base) == Some(quote);
    }
  }

  lemma {:induction false} WithoutNothing(quotes: seq<string>)
    ensures Without(quotes, iset{}) == quotes
  {
    if quotes != [] {
      WithoutNothing(quotes[1..]);
    }
  }

  /** What is left depends only on which quotes have a rate. */
  lemma {:induction false} UncoveredIs(quotes: seq<string>, rates: seq<Rate>, base: string)
    ensures Uncovered(quotes, rates, base) == Without(quotes, Priced(rates, base))
  {
    hide OtherSide, Priced;
    if rates == [] {
      NothingIsPriced(base);
      WithoutNothing(quotes);
    } else {
      var front, last := rates[..|rates| - 1], rates[|rates| - 1];
      UncoveredIs(quotes, front, base);
      PricedGrows(front, last, base);
      assert rates == front + [last];
      var quote := OtherSide(last, base);
      if quote.Some? {
        RemoveWithout(quotes, Priced(front, base), quote.value);
      } else {
        assert Priced(front, base) + iset{} == Priced(front, base);
      }
    }
  }

  lemma {:induction false} NothingIsPriced(base: string)
    ensures Priced([], base) == iset{}
  {
  }

  lemma {:induction false} SameWithout(quotes: seq<string>, a: iset<string>, b: iset<string>)
    requires forall quote :: quote in quotes ==> (quote in a <==> quote in b)
    ensures Without(quotes, a) == Without(quotes, b)
  {
    if quotes != [] {
      SameWithout(quotes[1..], a, b);
      assert quotes == [quotes[0]] + quotes[1..];
    }
  }

  /** The rates taken and the rates offered leave the same quotes. */
  lemma {:induction false} SameLeft(asked: seq<string>, base: string, rates: seq<Rate>, all: seq<Rate>)
    requires AreFirstOffers(asked, base, rates, all)
    ensures Uncovered(asked, rates, base) == Uncovered(asked, all, base)
  {
    UncoveredIs(asked, rates, base);
    UncoveredIs(asked, all, base);
    SameWithout(asked, Priced(rates, base), Priced(all, base));
  }

  lemma {:induction false} PricedByOneMore(front: seq<Rate>, last: Rate, base: string, quote: string)
    ensures IsPriced(front + [last], base, quote) <==> IsPriced(front, base, quote) || Prices(last, base, quote)
  {
    hide OtherSide;
    PricesItsOtherSide(last, base);
    PricedGrows(front, last, base);
    assert quote in Priced(front + [last], base) <==> IsPriced(front + [last], base, quote);
    assert quote in Priced(front, base) <==> IsPriced(front, base, quote);
  }

  lemma {:induction false} StillFirst(rate: Rate, all: seq<Rate>, more: Rate, base: string, quote: string)
    requires IsFirstOffer(rate, all, base, quote)
    ensures IsFirstOffer(rate, all + [more], base, quote)
  {
    var k :| 0 <= k < |all| && all[k] == rate && Prices(rate, base, quote)
      && forall j :: 0 <= j < k ==> !Prices(all[j], base, quote);
    assert (all + [more])[k] == rate && forall j :: 0 <= j < k ==> (all + [more])[j] == all[j];
  }

  /** One more offered rate: taken when its quote is asked for and has none yet. */
  lemma {:induction false} OneMoreOffer(
    asked: seq<string>, base: string, rates: seq<Rate>, pending: seq<string>, all: seq<Rate>, offer: Rate)
    requires IsPartition(asked, base, rates, pending) && AreFirstOffers(asked, base, rates, all)
    ensures var quote := OtherSide(offer, base);
      if quote.Some? && quote.value in pending then AreFirstOffers(asked, base, rates + [offer], all + [offer])
      else AreFirstOffers(asked, base, rates, all + [offer])
  {
    hide OtherSide, IsFirstOffer, IsPriced;
    PricesItsOtherSide(offer, base);
    var quote := OtherSide(offer, base);
    forall q | q in asked
      ensures IsPriced(all + [offer], base, q) <==> IsPriced(all, base, q) || Prices(offer, base, q)
      ensures IsPriced(rates + [offer], base, q) <==> IsPriced(rates, base, q) || Prices(offer, base, q)
    {
      PricedByOneMore(all, offer, base, q);
      PricedByOneMore(rates, offer, base, q);
    }
    forall i, q | 0 <= i < |rates| && Prices(rates[i], base, q)
      ensures IsFirstOffer(rates[i], all + [offer], base, q)
    {
      StillFirst(rates[i], all, offer, base, q);
    }
    if quote.Some? && quote.value in pending {
      NewIsFirst(all, offer, base, quote.value);
      var next := rates + [offer];
      assert next[|rates|] == offer && forall i :: 0 <= i < |rates| ==> next[i] == rates[i];
    }
  }

  lemma {:induction false} NewIsFirst(all: seq<Rate>, offer: Rate, base: string, quote: string)
    requires !IsPriced(all, base, quote) && Prices(offer, base, quote)
    ensures IsFirstOffer(offer, all + [offer], base, quote)
  {
    var next := all + [offer];
    assert next[|all|] == offer && forall j :: 0 <= j < |all| ==> next[j] == all[j];
    assert forall j :: 0 <= j < |all| ==> !Prices(all[j], base, quote);
  }

  lemma {:induction false} NothingOffered(asked: seq<string>, base: string)
    ensures AreFirstOffers(asked, base, [], [])
  {
  }

  method TakeRates(
    ghost asked: seq<string>, base: string, rates: seq<Rate>, pending: seq<string>, offered: seq<Rate>,
    ghost all: seq<Rate>)
    returns (r: seq<Rate>, left: seq<string>)
    requires IsPartition(asked, base, rates, pending) && AreFirstOffers(asked, base, rates, all)
    ensures IsPartition(asked, base, r, left) && AreFirstOffers(asked, base, r, all + offered)
  {
    hide IsPartition, OtherSide, AreFirstOffers;
    r, left := rates, pending;
    assert all + offered[..0] == all;
    for i := 0 to |offered|
      invariant IsPartition(asked, base, r, left) && AreFirstOffers(asked, base, r, all + offered[..i])
    {
      var quote := OtherSide(offered[i], base);
      OneMoreOffer(asked, base, r, left, all + offered[..i], offered[i]);
      assert all + offered[..i + 1] == (all + offered[..i]) + [offered[i]];
      if quote.Some? && quote.value in left {
        PartitionStep(asked, base, r, left, offered[i], quote.value);
        r := r + [offered[i]];
        left := Remove(left, quote.value);
      }
    }
    assert offered[..|offered|] == offered;
  }

  /**
   * `withFallback`: each source is asked for the quotes still missing, and a quote gets the first rate
   * that is offered for it. The call fails exactly when a quote was asked for and every source fails
   * on the whole request, with the first failure.
   */
  method Daily(sources: seq<Source>, base: string, asked: seq<string>) returns (r: Result<Rates, RatesError>)
    ensures r.Ok? ==> IsPartition(asked, base, r.value.rates, r.value.missing)
    ensures r.Ok? ==> AreFirstOffers(asked, base, r.value.rates, Offered(sources, asked, base, |sources|))
    ensures r.Ok? ==> r.value.failures == FailuresOf(sources, asked, base, |sources|)
    ensures r.Err? <==> asked != [] && sources != [] && forall i :: 0 <= i < |sources| ==> sources[i](asked).Err?
    ensures r.Err? ==> sources[0](asked) == Err(r.error)
  {
    hide IsPartition, AreFirstOffers, Uncovered, Offered, FailuresOf;
    var pending, rates := asked, [];
    var failures: seq<RatesError> := [];
    var answered := false;
    NothingPriced(asked, base);
    NothingOffered(asked, base);
    NothingAsked(sources, asked, base);
    var i := 0;
    while i < |sources| && pending != []
      invariant 0 <= i <= |sources| && IsPartition(asked, base, rates, pending)
      invariant AreFirstOffers(asked, base, rates, Offered(sources, asked, base, i))
      invariant failures == FailuresOf(sources, asked, base, i)
      invariant !answered ==> pending == asked && |failures| == i && forall k :: 0 <= k < i ==> sources[k](asked).Err?
      invariant !answered && i > 0 ==> sources[0](asked) == Err(failures[0])
      invariant answered ==> exists k :: 0 <= k < i && sources[k](asked).Ok?
      invariant asked == [] ==> i == 0
    {
      ghost var all := Offered(sources, asked, base, i);
      PendingIs(asked, base, rates, pending, all);
      OfferedStep(sources, asked, base, i);
      var result := sources[i](pending);
      if result.Err? {
        failures := failures + [result.error];
        assert all + [] == all;
      } else {
        answered := true;
        rates, pending := TakeRates(asked, base, rates, pending, result.value, all);
        assert failures + [] == failures;
      }
      i := i + 1;
    }
    if pending == [] {
      PendingIs(asked, base, rates, pending, Offered(sources, asked, base, i));
      NobodyElseAsked(sources, asked, base, i, |sources|);
    }
    if !answered && failures != [] {
      return Err(failures[0]);
    }
    r := Ok(Rates(rates, pending, failures));
  }

  lemma {:induction false} NothingAsked(sources: seq<Source>, asked: seq<string>, base: string)
    ensures Offered(sources, asked, base, 0) == [] && FailuresOf(sources, asked, base, 0) == []
  {
  }

  lemma {:induction false} PendingIs(
    asked: seq<string>, base: string, rates: seq<Rate>, pending: seq<string>, all: seq<Rate>)
    requires IsPartition(asked, base, rates, pending) && AreFirstOffers(asked, base, rates, all)
    ensures pending == Uncovered(asked, all, base)
  {
    SameLeft(asked, base, rates, all);
  }

  lemma {:induction false} OfferedStep(sources: seq<Source>, asked: seq<string>, base: string, i: nat)
    requires i < |sources|
    ensures var left := Uncovered(asked, Offered(sources, asked, base, i), base);
      left != [] ==>
        && Offered(sources, asked, base, i + 1) == Offered(sources, asked, base, i) +
             (match sources[i](left) case Ok(rates) => rates case Err(_) => [])
        && FailuresOf(sources, asked, base, i + 1) == FailuresOf(sources, asked, base, i) +
             (match sources[i](left) case Ok(_) => [] case Err(error) => [error])
  {
    hide Uncovered;
  }

  /** Once every quote has a rate no source is asked. */
  lemma {:induction false} NobodyElseAsked(sources: seq<Source>, asked: seq<string>, base: string, i: nat, n: nat)
    requires i <= n <= |sources| && Uncovered(asked, Offered(sources, asked, base, i), base) == []
    ensures Offered(sources, asked, base, n) == Offered(sources, asked, base, i)
    ensures FailuresOf(sources, asked, base, n) == FailuresOf(sources, asked, base, i)
  {
    hide Uncovered;
    if i < n {
      NobodyElseAsked(sources, asked, base, i, n - 1);
    }
  }
}
