/** The single-currency exchange-rate provider: it can only "convert" an
    amount to its own currency, or an amount of zero. */
module ExchangeRates {
  import opened Common

  /** `SingleCurrencyExchangeRates.getRate`: 1.0 when no conversion is needed,
      an UnsupportedException otherwise. */
  function GetRate(amount: Amount, to: Currency, time: Instant): (r: Result<real>)
    ensures r.Ok? <==> amount.currency == to || amount.value == 0.0
    ensures r.Ok? ==> r.value == 1.0
    ensures r.Err? ==> r.error == Unsupported
  {
    if amount.currency == to || amount.value == 0.0 then Ok(1.0) else Err(Unsupported)
  }

  /** The rate never depends on the time, and applying a rate that was
      returned leaves the amount's value as it is. */
  lemma RateIsTimeless(amount: Amount, to: Currency, t1: Instant, t2: Instant)
    ensures GetRate(amount, to, t1) == GetRate(amount, to, t2)
    ensures GetRate(amount, to, t1).Ok? ==> amount.value * GetRate(amount, to, t1).value == amount.value
  {
  }
}
