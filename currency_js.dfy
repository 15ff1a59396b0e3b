/** The JavaScript currency handler: rate lookup that yields NaN for an
    unknown code (no error is raised), rounding toward zero, and a carry step
    whose remainder follows the sign of the dividend. Numbers are modelled as
    exact reals plus NaN. */
module CurrencyJs {
  import opened CurrencyRates

  /** A JavaScript number: an exact real, or NaN. */
  datatype JsNum = Num(v: real) | NaN

  datatype Event = Event(units: int, nanos: int, currencyCode: string, toCode: string)

  datatype Money = Money(units: JsNum, nanos: JsNum, currencyCode: string)

  const CarryDivisor: int := 999_999_999

  /** `EUR_RATES[to] / EUR_RATES[from]`: a missing entry is `undefined`, and
      dividing with `undefined` on either side gives NaN. */
  function GetRate(from: string, to: string): (r: JsNum)
    ensures r.NaN? <==> from !in EurRates || to !in EurRates
    ensures r.Num? ==> r.v > 0.0 && r.v * EurRates[from] == EurRates[to]
  {
    RatesPositive();
    if from in EurRates && to in EurRates then Num(EurRates[to] / EurRates[from]) else NaN
  }

  /** A known code converts to itself at exactly 1; an unknown one gives NaN. */
  lemma RateSelf(c: string)
    ensures c in EurRates ==> GetRate(c, c) == Num(1.0)
    ensures c !in EurRates ==> GetRate(c, c) == NaN && GetRate("EUR", c) == NaN && GetRate(c, "EUR") == NaN
  {
    RatesPositive();
  }

  /** `Math.floor` for positive amounts, `Math.ceil` for zero and negative ones:
      rounding toward zero. */
  function SymmetricFloor(amount: real): (r: int)
    ensures amount >= 0.0 ==> r as real <= amount < r as real + 1.0
    ensures amount <= 0.0 ==> r as real - 1.0 < amount <= r as real
  {
    if amount > 0.0 then amount.Floor else Ceil(amount)
  }

  lemma SymmetricFloorOdd(x: real)
    ensures SymmetricFloor(-x) == -SymmetricFloor(x)
  {
  }

  /** JavaScript `a % d` for a positive divisor: the remainder takes the sign of
      the dividend. */
  function Rem(a: int, d: int): (r: int)
    requires d > 0
    ensures -d < r < d
    ensures a >= 0 ==> r >= 0
    ensures a <= 0 ==> r <= 0
  {
    if a >= 0 then a % d else -((-a) % d)
  }

  /** The whole-unit part of `units * rate`. */
  function NewUnits(units: int, rate: real): int
  {
    SymmetricFloor(units as real * rate)
  }

  /** `newNanos`: the converted nanos plus the fraction lost from the units. */
  function NewNanos(units: int, nanos: int, rate: real): int
  {
    var rawUnits := units as real * rate;
    var addedNanos := (rawUnits - NewUnits(units, rate) as real) * 1_000_000_000.0;
    SymmetricFloor(nanos as real * rate + addedNanos)
  }

  /** `applyRate(units, nanos, rate)`. The final nanos stay below the divisor in
      magnitude and carry the sign of `newNanos`; the carry is exact in units of
      999 999 999, so each carried unit adds one nano to the amount. */
  function ApplyRate(units: int, nanos: int, rate: real): (r: (int, int))
    ensures -CarryDivisor < r.1 < CarryDivisor
    ensures NewNanos(units, nanos, rate) >= 0 ==> r.1 >= 0
    ensures NewNanos(units, nanos, rate) <= 0 ==> r.1 <= 0
    ensures r.0 * CarryDivisor + r.1 == NewUnits(units, rate) * CarryDivisor + NewNanos(units, nanos, rate)
    ensures r.0 * 1_000_000_000 + r.1
            == NewUnits(units, rate) * 1_000_000_000 + NewNanos(units, nanos, rate) + (r.0 - NewUnits(units, rate))
  {
    var newUnits := NewUnits(units, rate);
    var newNanos := NewNanos(units, nanos, rate);
    var addedUnits := SymmetricFloor(newNanos as real / CarryDivisor as real);
    var finalNanos := SymmetricFloor(Rem(newNanos, CarryDivisor) as real);
    CarryExact(newNanos);
    (newUnits + addedUnits, finalNanos)
  }

  /** Truncated division and the sign-following remainder recombine exactly. */
  lemma CarryExact(n: int)
    ensures SymmetricFloor(n as real / CarryDivisor as real) * CarryDivisor + Rem(n, CarryDivisor) == n
  {
    var q := SymmetricFloor(n as real / CarryDivisor as real);
    var d := CarryDivisor;
    if n >= 0 {
      assert q == n / d by {
        var k := n / d;
        assert k * d <= n < (k + 1) * d;
        assert k as real * d as real <= n as real < (k + 1) as real * d as real;
        assert k as real <= n as real / d as real < (k + 1) as real;
      }
    } else {
      assert q == -((-n) / d) by {
        var k := (-n) / d;
        assert k * d <= -n < (k + 1) * d;
        assert k as real * d as real <= -n as real < (k + 1) as real * d as real;
        assert -(k + 1) as real < n as real / d as real <= -k as real;
      }
    }
  }

  /** The handler: the result carries the target code; an unknown code yields
      NaN units and nanos rather than an error. */
  function Handler(event: Event): (r: Money)
    ensures r.currencyCode == event.toCode
    ensures r.units.NaN? <==> event.currencyCode !in EurRates || event.toCode !in EurRates
    ensures r.nanos.NaN? <==> r.units.NaN?
    ensures r.units.Num? ==>
              var (u, n) := ApplyRate(event.units, event.nanos, GetRate(event.currencyCode, event.toCode).v);
              r.units == Num(u as real) && r.nanos == Num(n as real)
  {
    match GetRate(event.currencyCode, event.toCode)
    case NaN => Money(NaN, NaN, event.toCode)
    case Num(rate) =>
      var (u, n) := ApplyRate(event.units, event.nanos, rate);
      Money(Num(u as real), Num(n as real), event.toCode)
  }

  lemma NewUnitsOdd(units: int, rate: real)
    ensures NewUnits(-units, rate) == -NewUnits(units, rate)
  {
    assert (-units) as real * rate == -(units as real * rate);
    SymmetricFloorOdd(units as real * rate);
  }

  lemma NewNanosOdd(units: int, nanos: int, rate: real)
    ensures NewNanos(-units, -nanos, rate) == -NewNanos(units, nanos, rate)
  {
    var raw := units as real * rate;
    var nr := nanos as real * rate;
    NewUnitsOdd(units, rate);
    assert (-units) as real * rate == -raw;
    assert (-nanos) as real * rate == -nr;
    FractionCarryOdd(nr, raw, NewUnits(units, rate));
  }

  lemma FractionCarryOdd(nr: real, raw: real, nu: int)
    ensures SymmetricFloor(-nr + ((-raw) - (-nu) as real) * 1_000_000_000.0)
            == -SymmetricFloor(nr + (raw - nu as real) * 1_000_000_000.0)
  {
    var x := nr + (raw - nu as real) * 1_000_000_000.0;
    assert -nr + ((-raw) - (-nu) as real) * 1_000_000_000.0 == -x;
    SymmetricFloorOdd(x);
  }

  lemma CarryOdd(n: int)
    ensures SymmetricFloor((-n) as real / CarryDivisor as real) == -SymmetricFloor(n as real / CarryDivisor as real)
    ensures SymmetricFloor(Rem(-n, CarryDivisor) as real) == -SymmetricFloor(Rem(n, CarryDivisor) as real)
  {
    assert (-n) as real / CarryDivisor as real == -(n as real / CarryDivisor as real);
    SymmetricFloorOdd(n as real / CarryDivisor as real);
    assert Rem(-n, CarryDivisor) == -Rem(n, CarryDivisor);
    SymmetricFloorOdd(Rem(n, CarryDivisor) as real);
  }

  /** Sign symmetry: negating both fields negates the result exactly. */
  lemma ApplyRateOdd(units: int, nanos: int, rate: real)
    ensures ApplyRate(-units, -nanos, rate) == (-ApplyRate(units, nanos, rate).0, -ApplyRate(units, nanos, rate).1)
  {
    NewUnitsOdd(units, rate);
    NewNanosOdd(units, nanos, rate);
    CarryOdd(NewNanos(units, nanos, rate));
  }

  /** With rate 1 and nanos below the divisor in magnitude, the amount comes
      back unchanged whatever the sign of the units. */
  lemma IdentityAtRateOne(units: int, nanos: int)
    requires -CarryDivisor < nanos < CarryDivisor
    ensures ApplyRate(units, nanos, 1.0) == (units, nanos)
  {
    assert units as real * 1.0 == units as real;
    assert NewUnits(units, 1.0) == units;
    assert NewNanos(units, nanos, 1.0) == nanos;
    assert -1.0 < nanos as real / CarryDivisor as real < 1.0;
  }

  /** A nanos field of 999 999 999 is carried into a whole unit at rate 1:
      (0, 999 999 999) becomes (1, 0), one nano more than the input. */
  lemma CarryDivisorCounterexample()
    ensures ApplyRate(0, 999_999_999, 1.0) == (1, 0)
  {
    assert NewUnits(0, 1.0) == 0;
    assert NewNanos(0, 999_999_999, 1.0) == 999_999_999;
  }
}
