/** Writing a number's exponent text as a plain decimal, exactly (`integrations/exchange-rates.ts`). */
module RateText {
  import opened Wrappers
  import opened Scan
  import opened MailLines

  predicate IsDigit(c: char) {
    '0' <= c <= '9'
  }

  predicate AreDigits(s: string) {
    forall i :: 0 <= i < |s| ==> IsDigit(s[i])
  }

  /** The number that digits spell. */
  function Digits(s: string): nat
    requires AreDigits(s)
  {
    if s == "" then 0 else 10 * Digits(s[..|s| - 1]) + (s[|s| - 1] as int - '0' as int)
  }

  /** The text of a number in exponent notation: its significant digits, the first before the point. */
  datatype Exponent = Exponent(digits: string, exponent: int)

  function Signed(text: string): Option<int> {
    if |text| < 2 || (text[0] != '+' && text[0] != '-') || !AreDigits(text[1..]) then None
    else
      var n: int := Digits(text[1..]);
      Some(if text[0] == '-' then -n else n)
  }

  /** `/^(\d)(?:\.(\d+))?e([+-]\d+)$/`. */
  function MatchExponent(text: string): (m: Option<Exponent>)
    ensures m.Some? ==> m.value.digits != "" && AreDigits(m.value.digits)
  {
    var e := IndexOf(text, 'e');
    if e < 1 || !IsDigit(text[0]) || Signed(text[e + 1..]).None? then None
    else if e == 1 then Some(Exponent([text[0]], Signed(text[e + 1..]).value))
    else if e < 3 || text[1] != '.' || !AreDigits(text[2..e]) then None
    else Some(Exponent([text[0]] + text[2..e], Signed(text[e + 1..]).value))
  }

  function Zeros(n: nat): (s: string)
    ensures |s| == n && AreDigits(s)
  {
    if n == 0 then "" else Zeros(n - 1) + "0"
  }

  /** The digits moved around the point. */
  function Expand(x: Exponent): string
    requires AreDigits(x.digits)
  {
    var point := 1 + x.exponent;
    if point <= 0 then "0" + ("." + (Zeros(-point) + x.digits))
    else if point >= |x.digits| then x.digits + Zeros(point - |x.digits|)
    else x.digits[..point] + ("." + x.digits[point..])
  }

  /** `plainDecimal`, of the shortest text of a finite number above zero. */
  function PlainDecimal(text: string): string {
    match MatchExponent(text) case None => text case Some(x) => Expand(x)
  }

  // ---- Values, as a whole number times a power of ten

  datatype Value = Value(mantissa: nat, power: int)

  function Pow10(k: nat): nat {
    if k == 0 then 1 else 10 * Pow10(k - 1)
  }

  predicate SameValue(a: Value, b: Value) {
    if a.power <= b.power then a.mantissa == b.mantissa * Pow10(b.power - a.power)
    else b.mantissa == a.mantissa * Pow10(a.power - b.power)
  }

  /** What a plain decimal text is worth; `None` for any other text, such as one with an exponent. */
  function PlainValue(text: string): Option<Value> {
    var point := IndexOf(text, '.');
    if point == -1 then
      if text != "" && AreDigits(text) then Some(Value(Digits(text), 0)) else None
    else
      var whole, fraction := text[..point], text[point + 1..];
      if whole != "" && fraction != "" && AreDigits(whole) && AreDigits(fraction) then
        Some(Value(DigitsOf(whole, fraction), -|fraction|))
      else None
  }

  function DigitsOf(whole: string, fraction: string): nat
    requires AreDigits(whole) && AreDigits(fraction)
  {
    Digits(whole + fraction)
  }

  function ExponentValue(x: Exponent): Value
    requires AreDigits(x.digits)
  {
    Value(Digits(x.digits), x.exponent + 1 - |x.digits|)
  }

  lemma {:induction false} LeadingZeros(n: nat, s: string)
    requires AreDigits(s)
    ensures Digits(Zeros(n) + s) == Digits(s)
    decreases |s|, n
  {
    if s == "" {
      assert Zeros(n) + s == Zeros(n);
      if n > 0 {
        LeadingZeros(n - 1, "");
        assert Zeros(n)[..n - 1] == Zeros(n - 1) && Zeros(n - 1) + "" == Zeros(n - 1);
      }
    } else {
      var front := s[..|s| - 1];
      LeadingZeros(n, front);
      var all := Zeros(n) + s;
      assert all[..|all| - 1] == Zeros(n) + front && all[|all| - 1] == s[|s| - 1];
    }
  }

  lemma {:induction false} LastDigit(s: string, c: char)
    requires AreDigits(s) && IsDigit(c)
    ensures AreDigits(s + [c]) && Digits(s + [c]) == 10 * Digits(s) + (c as int - '0' as int)
  {
    assert (s + [c])[..|s|] == s;
  }

  lemma {:induction false} TimesTen(a: nat, p: nat)
    ensures 10 * (a * p) == a * (10 * p)
  {
  }

  lemma {:induction false} TrailingZeros(s: string, n: nat)
    requires AreDigits(s)
    ensures Digits(s + Zeros(n)) == Digits(s) * Pow10(n)
  {
    hide Digits;
    if n == 0 {
      assert s + Zeros(0) == s;
    } else {
      TrailingZeros(s, n - 1);
      LastDigit(s + Zeros(n - 1), '0');
      Regroup(s, Zeros(n - 1), "0", "");
      TimesTen(Digits(s), Pow10(n - 1));
    }
  }

  /** A text with one point. */
  lemma {:induction false} PointedValue(whole: string, fraction: string)
    requires whole != "" && fraction != "" && AreDigits(whole) && AreDigits(fraction)
    ensures PlainValue(whole + ("." + fraction)) == Some(Value(Digits(whole + fraction), -|fraction|))
  {
    var text := whole + ("." + fraction);
    assert '.' !in whole;
    IndexOfAppend(whole, "." + fraction, '.');
    assert text[..|whole|] == whole && text[|whole| + 1..] == fraction;
  }

  lemma {:induction false} WholeValue(text: string)
    requires text != "" && AreDigits(text)
    ensures PlainValue(text) == Some(Value(Digits(text), 0))
  {
    IndexOfIsFirst(text, '.');
  }

  lemma {:induction false} BelowOne(digits: string, zeros: nat)
    requires digits != "" && AreDigits(digits)
    ensures PlainValue("0" + ("." + (Zeros(zeros) + digits))) == Some(Value(Digits(digits), -(zeros + |digits|)))
  {
    hide Digits, PlainValue;
    var fraction := Zeros(zeros) + digits;
    PointedValue("0", fraction);
    LeadingZeros(1, fraction);
    assert Zeros(1) == "0" by {
      assert Zeros(0) == "";
    }
    LeadingZeros(zeros, digits);
  }

  lemma {:induction false} WholeNumber(digits: string, zeros: nat)
    requires digits != "" && AreDigits(digits)
    ensures PlainValue(digits + Zeros(zeros)) == Some(Value(Digits(digits) * Pow10(zeros), 0))
  {
    hide Digits, PlainValue, Pow10;
    TrailingZeros(digits, zeros);
    WholeValue(digits + Zeros(zeros));
  }

  lemma {:induction false} Between(digits: string, point: nat)
    requires 0 < point < |digits| && AreDigits(digits)
    ensures PlainValue(digits[..point] + ("." + digits[point..])) == Some(Value(Digits(digits), point - |digits|))
  {
    hide Digits, PlainValue;
    PointedValue(digits[..point], digits[point..]);
    assert digits[..point] + digits[point..] == digits;
  }

  /** Moving the digits around the point changes the text and not the value. */
  lemma {:induction false} ExpandIsExact(x: Exponent)
    requires x.digits != "" && AreDigits(x.digits)
    ensures PlainValue(Expand(x)).Some? && SameValue(PlainValue(Expand(x)).value, ExponentValue(x))
  {
    hide Digits, PlainValue, Zeros;
    var point, n := 1 + x.exponent, |x.digits|;
    if point <= 0 {
      BelowOne(x.digits, -point);
    } else if point >= n {
      WholeNumber(x.digits, point - n);
    } else {
      Between(x.digits, point);
    }
  }

  // ---- Texts in exponent notation

  /** The parts of a text such as `1.25e-7`; `fraction` is empty when there is no point. */
  datatype Written = Written(first: char, fraction: string, sign: char, power: string)

  predicate IsWritten(w: Written) {
    && IsDigit(w.first) && AreDigits(w.fraction) && (w.sign == '+' || w.sign == '-')
    && w.power != "" && AreDigits(w.power)
  }

  function HeadOf(w: Written): string {
    if w.fraction == "" then [w.first] else [w.first, '.'] + w.fraction
  }

  function TextOf(w: Written): string {
    HeadOf(w) + (['e', w.sign] + w.power)
  }

  function PowerOf(w: Written): int
    requires IsWritten(w)
  {
    (if w.sign == '-' then -1 else 1) * Digits(w.power)
  }

  /** The number that is written: its digits as a whole number, times a power of ten. */
  function WorthOf(w: Written): Value
    requires IsWritten(w)
  {
    Value(Digits([w.first] + w.fraction), PowerOf(w) - |w.fraction|)
  }

  lemma {:induction false} MatchesWritten(w: Written)
    requires IsWritten(w)
    ensures MatchExponent(TextOf(w)) == Some(Exponent([w.first] + w.fraction, PowerOf(w)))
  {
    hide Digits;
    var text, head := TextOf(w), HeadOf(w);
    assert 'e' !in head;
    IndexOfAppend(head, ['e', w.sign] + w.power, 'e');
    assert text[|head| + 1..] == [w.sign] + w.power && ([w.sign] + w.power)[1..] == w.power;
    if w.fraction == "" {
      assert [w.first] + w.fraction == [w.first];
    } else {
      assert text[2..|head|] == w.fraction;
    }
  }

  /** A text that is matched is one in exponent notation. */
  lemma {:induction false} MatchedIsWritten(text: string)
    requires MatchExponent(text).Some?
    ensures exists w :: IsWritten(w) && TextOf(w) == text
  {
    var e := IndexOf(text, 'e');
    var w := Written(text[0], if e == 1 then "" else text[2..e], text[e + 1], text[e + 2..]);
    assert text[e + 1..][1..] == text[e + 2..];
    assert IsWritten(w);
    assert HeadOf(w) == text[..e];
    assert TextOf(w) == text;
  }

  /**
   * A text in exponent notation becomes a plain decimal of exactly the number it writes; any other
   * text stays as it is.
   */
  lemma {:induction false} PlainDecimalIsExact(text: string)
    ensures forall w :: IsWritten(w) && TextOf(w) == text ==>
      PlainValue(PlainDecimal(text)).Some? && SameValue(PlainValue(PlainDecimal(text)).value, WorthOf(w))
    ensures (forall w :: IsWritten(w) ==> TextOf(w) != text) ==> PlainDecimal(text) == text
  {
    hide PlainValue, Expand, MatchExponent, Digits, TextOf;
    forall w | IsWritten(w) && TextOf(w) == text
      ensures PlainValue(PlainDecimal(text)).Some? && SameValue(PlainValue(PlainDecimal(text)).value, WorthOf(w))
    {
      MatchesWritten(w);
      ExpandIsExact(MatchExponent(text).value);
    }
    if MatchExponent(text).Some? {
      MatchedIsWritten(text);
    }
  }
}
