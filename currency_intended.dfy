/** The conversion both currency handlers evidently intend: round toward zero at
    every step and carry whole units out of the nanos field at 10^9 nanos per
    unit. Against this definition the converted amount is within one nano of
    the exact product, and rate 1 gives every amount back unchanged. */
module CurrencyIntended {
  import opened Wrappers
  import opened CurrencyRates
  import CurrencyPy

  const NanosPerUnit: int := 1_000_000_000

  /** Division rounding toward zero. */
  function TruncDiv(n: int, d: int): (q: int)
    requires d > 0
    ensures n >= 0 ==> q * d <= n < q * d + d
    ensures n <= 0 ==> q * d - d < n <= q * d
  {
    if n >= 0 then n / d else -((-n) / d)
  }

  /** The remainder that goes with `TruncDiv`: it carries the sign of `n`. */
  function TruncRem(n: int, d: int): (r: int)
    requires d > 0
    ensures TruncDiv(n, d) * d + r == n
    ensures n >= 0 ==> 0 <= r < d
    ensures n <= 0 ==> -d < r <= 0
  {
    n - TruncDiv(n, d) * d
  }

  /** The conversion with truncation everywhere and a carry at 10^9. */
  function ApplyRate(units: int, nanos: int, rate: real): (r: (int, int))
    ensures -NanosPerUnit < r.1 < NanosPerUnit
  {
    Carry(NewUnits(units, rate), NewNanos(units, nanos, rate))
  }

  /** The units times the rate, truncated. */
  function NewUnits(units: int, rate: real): int
  {
    Trunc(units as real * rate)
  }

  /** The nanos times the rate plus the fractional units, in nanos,
      truncated. */
  function NewNanos(units: int, nanos: int, rate: real): int
  {
    Trunc(nanos as real * rate + (units as real * rate - NewUnits(units, rate) as real) * 1_000_000_000.0)
  }

  /** Whole units carried out of a nanos count, the sign kept on both parts. */
  function Carry(newUnits: int, newNanos: int): (r: (int, int))
    ensures -NanosPerUnit < r.1 < NanosPerUnit
    ensures r.0 * NanosPerUnit + r.1 == newUnits * NanosPerUnit + newNanos
    ensures newNanos >= 0 ==> r.1 >= 0
    ensures newNanos <= 0 ==> r.1 <= 0
  {
    (newUnits + TruncDiv(newNanos, NanosPerUnit), TruncRem(newNanos, NanosPerUnit))
  }

  /** Read as a count of nanos, the converted amount is within one nano of
      (amount * rate). */
  lemma ApplyRateWithinOneNano(units: int, nanos: int, rate: real)
    ensures var r := ApplyRate(units, nanos, rate);
            var exact := (units * NanosPerUnit + nanos) as real * rate;
            exact - 1.0 < (r.0 * NanosPerUnit + r.1) as real < exact + 1.0
  {
    var rawUnits := units as real * rate;
    var x := nanos as real * rate + (rawUnits - NewUnits(units, rate) as real) * 1_000_000_000.0;
    WithinOneNano(units, nanos, rate, NewUnits(units, rate), x, NewNanos(units, nanos, rate));
  }

  lemma WithinOneNano(units: int, nanos: int, rate: real, nu: int, x: real, nn: int)
    requires x == nanos as real * rate + (units as real * rate - nu as real) * 1_000_000_000.0
    requires x - 1.0 < nn as real < x + 1.0
    ensures var exact := (units * NanosPerUnit + nanos) as real * rate;
            exact - 1.0 < (nu * NanosPerUnit + nn) as real < exact + 1.0
  {
    var raw := units as real * rate;
    assert (units * NanosPerUnit + nanos) as real * rate == raw * 1_000_000_000.0 + nanos as real * rate;
    assert (nu * NanosPerUnit + nn) as real == nu as real * 1_000_000_000.0 + nn as real;
  }

  /** With rate 1 every amount whose nanos are below 10^9 in magnitude comes
      back unchanged, negative ones included. */
  lemma IdentityAtRateOne(units: int, nanos: int)
    requires -NanosPerUnit < nanos < NanosPerUnit
    ensures ApplyRate(units, nanos, 1.0) == (units, nanos)
  {
    assert units as real * 1.0 == units as real;
    assert NewUnits(units, 1.0) == units;
    assert NewNanos(units, nanos, 1.0) == nanos;
  }

  /** Negating both fields negates the result. */
  lemma ApplyRateOdd(units: int, nanos: int, rate: real)
    ensures ApplyRate(-units, -nanos, rate) == (-ApplyRate(units, nanos, rate).0, -ApplyRate(units, nanos, rate).1)
  {
    NewNanosOdd(units, nanos, rate);
    CarryOdd(NewUnits(units, rate), NewNanos(units, nanos, rate));
  }

  lemma NewUnitsOdd(units: int, rate: real)
    ensures NewUnits(-units, rate) == -NewUnits(units, rate)
  {
    NegScale(units, rate);
    TruncOdd(units as real * rate);
  }

  lemma NewNanosOdd(units: int, nanos: int, rate: real)
    ensures NewUnits(-units, rate) == -NewUnits(units, rate)
    ensures NewNanos(-units, -nanos, rate) == -NewNanos(units, nanos, rate)
  {
    NewUnitsOdd(units, rate);
    NegScale(units, rate);
    NegScale(nanos, rate);
    FractionOdd(nanos as real * rate, units as real * rate, NewUnits(units, rate),
                (-nanos) as real * rate, (-units) as real * rate, NewUnits(-units, rate));
  }

  lemma NegScale(n: int, rate: real)
    ensures (-n) as real * rate == -(n as real * rate)
  {
  }

  lemma FractionOdd(nr: real, raw: real, nu: int, nr': real, raw': real, nu': int)
    requires nr' == -nr && raw' == -raw && nu' == -nu
    ensures Trunc(nr' + (raw' - nu' as real) * 1_000_000_000.0)
            == -Trunc(nr + (raw - nu as real) * 1_000_000_000.0)
  {
    var x := nr + (raw - nu as real) * 1_000_000_000.0;
    assert nr' + (raw' - nu' as real) * 1_000_000_000.0 == -x;
    TruncOdd(x);
  }

  lemma CarryOdd(newUnits: int, newNanos: int)
    ensures Carry(-newUnits, -newNanos) == (-Carry(newUnits, newNanos).0, -Carry(newUnits, newNanos).1)
  {
    assert TruncDiv(-newNanos, NanosPerUnit) == -TruncDiv(newNanos, NanosPerUnit);
  }

  lemma TruncOdd(x: real)
    ensures Trunc(-x) == -Trunc(x)
  {
  }

  /** Converting at a rate and back at its reciprocal returns the amount,
      counted in nanos, within 1 + back nanos: the second conversion is within
      one nano of the first result times back, and the first result is within
      one nano of the amount times the rate, an error that back scales. */
  lemma RoundTripWithin(units: int, nanos: int, rate: real, back: real)
    requires back > 0.0 && rate * back == 1.0
    ensures var r := ApplyRate(units, nanos, rate);
            var s := ApplyRate(r.0, r.1, back);
            var a := (units * NanosPerUnit + nanos) as real;
            a - 1.0 - back < (s.0 * NanosPerUnit + s.1) as real < a + 1.0 + back
  {
    ApplyRateWithinOneNano(units, nanos, rate);
    SecondStepWithin((units * NanosPerUnit + nanos) as real, ApplyRate(units, nanos, rate), rate, back);
  }

  /** The conversion back of any amount within one nano of a times the rate. */
  lemma SecondStepWithin(a: real, r: (int, int), rate: real, back: real)
    requires back > 0.0 && rate * back == 1.0
    requires a * rate - 1.0 < (r.0 * NanosPerUnit + r.1) as real < a * rate + 1.0
    ensures var s := ApplyRate(r.0, r.1, back);
            a - 1.0 - back < (s.0 * NanosPerUnit + s.1) as real < a + 1.0 + back
  {
    var s := ApplyRate(r.0, r.1, back);
    ApplyRateWithinOneNano(r.0, r.1, back);
    TwoStepBound(a, (r.0 * NanosPerUnit + r.1) as real, (s.0 * NanosPerUnit + s.1) as real, rate, back);
  }

  /** Two steps, each within one of the exact product, at reciprocal rates. */
  lemma TwoStepBound(a: real, m: real, s: real, rate: real, back: real)
    requires back > 0.0 && rate * back == 1.0
    requires a * rate - 1.0 < m < a * rate + 1.0
    requires m * back - 1.0 < s < m * back + 1.0
    ensures a - 1.0 - back < s < a + 1.0 + back
  {
    ScaleError(a, m, rate, back);
  }

  /** An error below one in the first step is scaled by the rate back. */
  lemma ScaleError(a: real, m: real, rate: real, back: real)
    requires back > 0.0 && rate * back == 1.0
    requires a * rate - 1.0 < m < a * rate + 1.0
    ensures a - back < m * back < a + back
  {
    var d := m - a * rate;
    assert m * back == (a * rate) * back + d * back;
    assert (a * rate) * back == a * (rate * back) == a;
    assert -back < d * back < back by {
      assert (1.0 - d) * back > 0.0;
      assert (1.0 + d) * back > 0.0;
    }
  }

  /** The same bound for the handler: converting from one known currency to
      another and back is off by less than 1 + rate(to, from) nanos. */
  lemma HandlerRoundTripWithin(units: int, nanos: int, a: string, b: string)
    requires a in EurRates && b in EurRates
    ensures Handler(CurrencyPy.Event(units, nanos, a, b)).Ok?
    ensures var there := Handler(CurrencyPy.Event(units, nanos, a, b)).value;
            var back := Handler(CurrencyPy.Event(there.units, there.nanos, b, a));
            var amount := (units * NanosPerUnit + nanos) as real;
            var bound := 1.0 + CurrencyPy.GetRate(b, a).value;
            back.Ok? && back.value.currencyCode == a &&
            amount - bound < (back.value.units * NanosPerUnit + back.value.nanos) as real < amount + bound
  {
    CurrencyPy.RateSelfAndInverse(a, b);
    RoundTripWithin(units, nanos, CurrencyPy.GetRate(a, b).value, CurrencyPy.GetRate(b, a).value);
  }

  /** The round trip is not within one nano: 1000 nanos of KRW convert to
      0 EUR (1000 / 1332.6 truncates to 0), and 0 EUR converts back to 0 KRW,
      so all 1000 nanos are lost. */
  lemma RoundTripLosesNanos()
    ensures Handler(CurrencyPy.Event(0, 1000, "KRW", "EUR")) == Ok(CurrencyPy.Money(0, 0, "EUR"))
    ensures Handler(CurrencyPy.Event(0, 0, "EUR", "KRW")) == Ok(CurrencyPy.Money(0, 0, "KRW"))
  {
    var rate := CurrencyPy.GetRate("KRW", "EUR").value;
    assert rate == 1.0 / 1332.6;
    assert NewUnits(0, rate) == 0;
    assert NewNanos(0, 1000, rate) == Trunc(1000.0 / 1332.6);
    assert NewNanos(0, 0, CurrencyPy.GetRate("EUR", "KRW").value) == 0;
  }

  /** The handler over the corrected conversion; rate lookup and its KeyError
      are those of the Python handler. */
  function Handler(event: CurrencyPy.Event): (r: Result<CurrencyPy.Money, CurrencyPy.KeyError>)
    ensures r.Ok? <==> event.currencyCode in EurRates && event.toCode in EurRates
    ensures r.Err? ==> r.error == CurrencyPy.GetRate(event.currencyCode, event.toCode).error
    ensures r.Ok? ==> r.value.currencyCode == event.toCode
    ensures r.Ok? ==> (r.value.units, r.value.nanos)
                      == ApplyRate(event.units, event.nanos, CurrencyPy.GetRate(event.currencyCode, event.toCode).value)
  {
    match CurrencyPy.GetRate(event.currencyCode, event.toCode)
    case Err(e) => Err(e)
    case Ok(rate) =>
      var (u, n) := ApplyRate(event.units, event.nanos, rate);
      Ok(CurrencyPy.Money(u, n, event.toCode))
  }

  /** Converting a known currency to itself returns the amount unchanged. */
  lemma HandlerSelfConversion(units: int, nanos: int, code: string)
    requires code in EurRates
    requires -NanosPerUnit < nanos < NanosPerUnit
    ensures Handler(CurrencyPy.Event(units, nanos, code, code)) == Ok(CurrencyPy.Money(units, nanos, code))
  {
    CurrencyPy.RateSelfAndInverse(code, code);
    IdentityAtRateOne(units, nanos);
  }
}
