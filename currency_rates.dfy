/** The fixed euro-based rate table shared by the Python and the JavaScript
    currency handlers: how many units of a currency one euro buys. */
module CurrencyRates {

  const EurRates: map<string, real> := map[
    "EUR" := 1.0,
    "CAD" := 1.5231,
    "HKD" := 8.3693,
    "ISK" := 157.5,
    "PHP" := 54.778,
    "DKK" := 7.4576,
    "HUF" := 354.7,
    "CZK" := 27.589,
    "AUD" := 1.6805,
    "RON" := 4.84,
    "SEK" := 10.6695,
    "IDR" := 16127.82,
    "INR" := 81.9885,
    "BRL" := 6.3172,
    "RUB" := 79.6208,
    "HRK" := 7.5693,
    "JPY" := 115.53,
    "THB" := 34.656,
    "CHF" := 1.0513,
    "SGD" := 1.5397,
    "PLN" := 4.565,
    "BGN" := 1.9558,
    "TRY" := 7.4689,
    "CNY" := 7.6759,
    "NOK" := 11.0568,
    "NZD" := 1.8145,
    "ZAR" := 20.0761,
    "USD" := 1.0798,
    "MXN" := 25.8966,
    "ILS" := 3.8178,
    "GBP" := 0.88738,
    "KRW" := 1332.6,
    "MYR" := 4.6982
  ]

  /** Every rate in the table is positive, and the euro's own entry is 1. */
  lemma {:induction false} RatesPositive()
    ensures forall c :: c in EurRates ==> EurRates[c] > 0.0
    ensures "EUR" in EurRates && EurRates["EUR"] == 1.0
    ensures "USD" in EurRates && EurRates["USD"] == 1.0798
  {
  }

  /** Python `int(x)` on a float, and C-style truncation: round toward zero. */
  function Trunc(x: real): (r: int)
    ensures x >= 0.0 ==> r as real <= x < r as real + 1.0
    ensures x <= 0.0 ==> r as real - 1.0 < x <= r as real
  {
    if x >= 0.0 then x.Floor else -((-x).Floor)
  }

  /** `Math.ceil` */
  function Ceil(x: real): (r: int)
    ensures r as real - 1.0 < x <= r as real
  {
    -((-x).Floor)
  }
}
