/** The Python currency handler: rate lookup that raises KeyError on an
    unknown code, and the two-field fixed-point conversion whose rounding
    helper floors negative values (and steps a negative whole number down
    by one). Floats are modelled as exact reals. */
module CurrencyPy {
  import opened Wrappers
  import opened CurrencyRates

  /** The KeyError a dict lookup raises, carrying the missing key. */
  datatype KeyError = KeyError(key: string)

  /** The handler's event: `from` money fields and the target code. */
  datatype Event = Event(units: int, nanos: int, currencyCode: string, toCode: string)

  datatype Money = Money(units: int, nanos: int, currencyCode: string)

  /** Units and nanos divisor the carry step uses. */
  const CarryDivisor: int := 999_999_999

  /** `EUR_RATES[to] / EUR_RATES[from]`; the target is looked up first. */
  function GetRate(fromCurr: string, toCurr: string): (r: Result<real, KeyError>)
    ensures r.Ok? <==> fromCurr in EurRates && toCurr in EurRates
    ensures toCurr !in EurRates ==> r == Err(KeyError(toCurr))
    ensures toCurr in EurRates && fromCurr !in EurRates ==> r == Err(KeyError(fromCurr))
    ensures r.Ok? ==> r.value > 0.0 && r.value * EurRates[fromCurr] == EurRates[toCurr]
  {
    RatesPositive();
    if toCurr !in EurRates then Err(KeyError(toCurr))
    else if fromCurr !in EurRates then Err(KeyError(fromCurr))
    else Ok(EurRates[toCurr] / EurRates[fromCurr])
  }

  /** A known code converts to itself at exactly 1, and the rate from b to a is
      the reciprocal of the rate from a to b. */
  lemma RateSelfAndInverse(a: string, b: string)
    requires a in EurRates && b in EurRates
    ensures GetRate(a, a) == Ok(1.0)
    ensures GetRate(a, b).value * GetRate(b, a).value == 1.0
  {
    RatesPositive();
  }

  /** `int(value) if value >= 0 else int(value) - 1`: truncation for
      non-negative values, the floor for negative non-integers, and v - 1 for a
      negative whole number v. */
  function SymmetricFloor(v: real): (r: int)
    ensures v >= 0.0 ==> r == v.Floor
    ensures v < 0.0 && v != v.Floor as real ==> r == v.Floor
    ensures v < 0.0 && v == v.Floor as real ==> r == v.Floor - 1
  {
    if v >= 0.0 then Trunc(v) else Trunc(v) - 1
  }

  /** `apply_rate(units, nanos, rate)`, step by step as the source writes it. */
  function ApplyRate(units: int, nanos: int, rate: real): (r: (int, int))
    ensures 0 <= r.1 < CarryDivisor
  {
    var rawUnits := units as real * rate;
    var newUnits := SymmetricFloor(rawUnits);
    var addedNanos := (rawUnits - newUnits as real) * 1_000_000_000.0;
    var newNanos := SymmetricFloor(nanos as real * rate + addedNanos);
    var addedUnits := SymmetricFloor(newNanos as real / CarryDivisor as real);
    var finalUnits := newUnits + addedUnits;
    var finalNanos := SymmetricFloor((newNanos % CarryDivisor) as real);
    (finalUnits, finalNanos)
  }

  /** The handler: look the rate up (a KeyError aborts), convert, and label the
      result with the target code. */
  function Handler(event: Event): (r: Result<Money, KeyError>)
    ensures r.Ok? <==> event.currencyCode in EurRates && event.toCode in EurRates
    ensures r.Ok? ==> r.value.currencyCode == event.toCode
    ensures r.Ok? ==> (r.value.units, r.value.nanos)
                      == ApplyRate(event.units, event.nanos, GetRate(event.currencyCode, event.toCode).value)
    ensures r.Err? ==> r.error == GetRate(event.currencyCode, event.toCode).error
  {
    match GetRate(event.currencyCode, event.toCode)
    case Err(e) => Err(e)
    case Ok(rate) =>
      var (u, n) := ApplyRate(event.units, event.nanos, rate);
      Ok(Money(u, n, event.toCode))
  }

  /** With rate 1, a non-negative amount whose nanos stay below the carry
      divisor comes back unchanged. */
  lemma IdentityForNonNegative(units: int, nanos: int)
    requires units >= 0 && 0 <= nanos < CarryDivisor
    ensures ApplyRate(units, nanos, 1.0) == (units, nanos)
  {
    var rawUnits := units as real * 1.0;
    assert rawUnits == units as real;
    assert SymmetricFloor(rawUnits) == units;
    var added := (rawUnits - units as real) * 1_000_000_000.0;
    assert added == 0.0;
    assert SymmetricFloor(nanos as real * 1.0 + added) == nanos;
    assert 0.0 <= nanos as real / CarryDivisor as real < 1.0;
    assert nanos % CarryDivisor == nanos;
  }

  /** As written, too, 1000 nanos of KRW convert to 0 EUR, which converts back
      to 0 KRW. */
  lemma RoundTripLosesNanos()
    ensures Handler(Event(0, 1000, "KRW", "EUR")) == Ok(Money(0, 0, "EUR"))
    ensures Handler(Event(0, 0, "EUR", "KRW")) == Ok(Money(0, 0, "KRW"))
  {
    var rate := GetRate("KRW", "EUR").value;
    assert rate == 1.0 / 1332.6;
    assert SymmetricFloor(0 as real * rate) == 0;
    assert SymmetricFloor(1000 as real * rate + 0.0) == 0;
    var back := GetRate("EUR", "KRW").value;
    assert SymmetricFloor(0 as real * back) == 0;
  }

  /** The worked example: 10.5 EUR in USD at 1.0798 gives 11 units and
      337 900 001 nanos, because the carry divides by 999 999 999. */
  lemma EurToUsdExample()
    ensures GetRate("EUR", "USD") == Ok(1.0798)
    ensures ApplyRate(10, 500000000, 1.0798) == (11, 337900001)
    ensures Handler(Event(10, 500000000, "EUR", "USD")) == Ok(Money(11, 337900001, "USD"))
  {
    RatesPositive();
    var rawUnits := 10 as real * 1.0798;
    assert rawUnits == 10.798;
    assert SymmetricFloor(rawUnits) == 10;
    var added := (rawUnits - 10 as real) * 1_000_000_000.0;
    assert added == 798000000.0;
    var sum := 500000000 as real * 1.0798 + added;
    assert sum == 1337900000.0;
    assert SymmetricFloor(sum) == 1337900000;
    assert 1.0 <= 1337900000 as real / CarryDivisor as real < 2.0;
    assert SymmetricFloor(1337900000 as real / CarryDivisor as real) == 1;
    assert 1337900000 % CarryDivisor == 337900001;
  }

  /** Converting -1 EUR to EUR: -1.0 is a whole number, so the rounding helper
      gives -2 and the lost unit comes back through the nanos as 1 000 000 000,
      of which the carry keeps one nano. Self-conversion is not the identity. */
  lemma NegativeSelfConversionCounterexample()
    ensures ApplyRate(-1, 0, 1.0) == (-1, 1)
    ensures Handler(Event(-1, 0, "EUR", "EUR")) == Ok(Money(-1, 1, "EUR"))
  {
    RatesPositive();
    var rawUnits := -1 as real * 1.0;
    assert SymmetricFloor(rawUnits) == -2;
    var added := (rawUnits - (-2) as real) * 1_000_000_000.0;
    assert added == 1000000000.0;
    assert SymmetricFloor(0 as real * 1.0 + added) == 1000000000;
    assert 1.0 <= 1000000000 as real / CarryDivisor as real < 2.0;
    assert SymmetricFloor(1000000000 as real / CarryDivisor as real) == 1;
    assert 1000000000 % CarryDivisor == 1;
  }

  /** A nanos field of 999 999 999 is carried into a whole unit at rate 1:
      (0, 999 999 999) becomes (1, 0), one nano more than the input. */
  lemma CarryDivisorCounterexample()
    ensures ApplyRate(0, 999_999_999, 1.0) == (1, 0)
  {
    assert SymmetricFloor(0 as real * 1.0) == 0;
    assert SymmetricFloor(999_999_999 as real * 1.0 + 0.0) == 999_999_999;
    assert SymmetricFloor(999_999_999 as real / CarryDivisor as real) == 1;
  }
}
