/**
 * The currency calculator: a crypto amount field, a fiat amount field and
 * two currency selections over one snapshot of rates fetched on mount.
 * Editing the crypto field sets the crypto amount, editing the fiat field
 * sets the crypto amount to the fiat amount divided by the rate, and a
 * conversion effect keeps the fiat amount equal to the crypto amount times
 * the rate whenever the amount, a selection or the snapshot changes.
 */
module CurrencyCalculator {
  import opened Wrappers
  import opened PriceService
  import opened AmountInput

  /** Forward conversion: a crypto amount priced in fiat at `rate`. At a
      nonzero rate the crypto amount is recovered from the fiat amount. */
  function Convert(amount: real, rate: real): (fiat: real)
    ensures rate != 0.0 ==> fiat / rate == amount
  {
    amount * rate
  }

  /** Inverse conversion: the crypto amount a fiat amount buys at `rate`.
      Priced forward at the same rate it is the fiat amount again. */
  function ConvertBack(fiat: real, rate: real): (amount: real)
    requires rate > 0.0
    ensures Convert(amount, rate) == fiat
  {
    fiat / rate
  }

  class Calculator {
    /** The rate snapshot, absent until the fetch on mount succeeds. */
    var cryptoPrices: Option<MultiQuote>
    var loading: bool
    var error: Option<string>
    var inputCurrency: Crypto
    var outputCurrency: Fiat
    /** The crypto amount. */
    var inputAmount: real
    /** The fiat amount. */
    var convertedAmount: real

    /** The rate between the two selected currencies. */
    function CurrentRate(): (rate: real)
      reads this
      requires cryptoPrices.Some?
      ensures rate == cryptoPrices.value.Of(inputCurrency).In(outputCurrency)
      ensures cryptoPrices.value.PositiveRates() ==> rate > 0.0
    {
      cryptoPrices.value.Rate(inputCurrency, outputCurrency)
    }

    /** Amounts are never negative (the fiat amount included); before prices are loaded the fiat
        amount is still its initial 0; once they are, it is always the
        crypto amount converted at the selected rate. */
    ghost predicate Valid()
      reads this
    {
      && inputAmount >= 0.0
      && convertedAmount >= 0.0
      && (cryptoPrices.None? ==> convertedAmount == 0.0)
      && (cryptoPrices.Some? ==>
            cryptoPrices.value.PositiveRates() && convertedAmount == Convert(inputAmount, CurrentRate()))
    }

    /** The state on mount: BTC to USD, both amounts 0, prices loading. */
    constructor ()
      ensures Valid()
      ensures cryptoPrices == None && loading && error == None
      ensures inputCurrency == BTC && outputCurrency == USD
      ensures inputAmount == 0.0 && convertedAmount == 0.0
    {
      cryptoPrices := None;
      loading := true;
      error := None;
      inputCurrency := BTC;
      outputCurrency := USD;
      inputAmount := 0.0;
      convertedAmount := 0.0;
    }

    /** The conversion effect: with prices loaded, the fiat amount becomes
        the crypto amount times the selected rate; otherwise nothing. */
    method SyncConvertedAmount()
      modifies this`convertedAmount
      ensures cryptoPrices.Some? ==> convertedAmount == Convert(inputAmount, CurrentRate())
      ensures cryptoPrices.None? ==> convertedAmount == old(convertedAmount)
    {
      if cryptoPrices.Some? {
        var rate := CurrentRate();
        convertedAmount := Convert(inputAmount, rate);
      }
    }

    /** The end of the fetch on mount: the snapshot on success, the
        service's error message on failure; loading is over either way. */
    method PricesFetched(result: FetchResult<MultiQuote>)
      requires Valid()
      requires result.Received? ==> result.value.PositiveRates()
      modifies this
      ensures Valid()
      ensures !loading
      ensures result.Received? ==> cryptoPrices == Some(result.value) && error == old(error)
      ensures result.Failed? ==>
        cryptoPrices == old(cryptoPrices) && error == Some(MultiFetchErrorMessage)
        && convertedAmount == old(convertedAmount)
      ensures inputCurrency == old(inputCurrency) && outputCurrency == old(outputCurrency)
      ensures inputAmount == old(inputAmount)
      ensures cryptoPrices.Some? ==> convertedAmount == Convert(inputAmount, CurrentRate())
    {
      match result {
        case Received(prices) =>
          cryptoPrices := Some(prices);
        case Failed =>
          error := Some(MultiFetchErrorMessage);
      }
      loading := false;
      SyncConvertedAmount();
    }

    /** An edit of the crypto field. A value the pattern rejects changes
        nothing; an accepted one becomes the crypto amount (0 when it holds
        no number), and the fiat amount follows. */
    method HandleInputAmountChange(amount: string)
      requires Valid()
      modifies this
      ensures Valid()
      ensures !AcceptsAmount(amount) ==> unchanged(this)
      ensures AcceptsAmount(amount) ==> inputAmount == AmountOrZero(amount)
      ensures cryptoPrices == old(cryptoPrices) && loading == old(loading) && error == old(error)
      ensures inputCurrency == old(inputCurrency) && outputCurrency == old(outputCurrency)
      ensures cryptoPrices.Some? ==> convertedAmount == Convert(inputAmount, CurrentRate())
      ensures cryptoPrices.None? ==> convertedAmount == old(convertedAmount)
    {
      if AcceptsAmount(amount) {
        inputAmount := AmountOrZero(amount);
        SyncConvertedAmount();
      }
    }

    /** An edit of the fiat field. Nothing changes when prices are not
        loaded or the pattern rejects the value; otherwise the crypto amount
        becomes the fiat amount divided by the rate (0 when the value holds
        no number), and the fiat amount recomputed from it is the one typed. */
    method HandleOutputAmountChange(amount: string)
      requires Valid()
      modifies this
      ensures Valid()
      ensures !AcceptsAmount(amount) || cryptoPrices.None? ==> unchanged(this)
      ensures AcceptsAmount(amount) && cryptoPrices.Some? ==>
        && inputAmount == ConvertBack(AmountOrZero(amount), CurrentRate())
        && convertedAmount == AmountOrZero(amount)
      ensures cryptoPrices == old(cryptoPrices) && loading == old(loading) && error == old(error)
      ensures inputCurrency == old(inputCurrency) && outputCurrency == old(outputCurrency)
    {
      if AcceptsAmount(amount) && cryptoPrices.Some? {
        var rate := CurrentRate();
        inputAmount := match ParseAmount(amount)
          case None => 0.0
          case Some(fiat) => ConvertBack(fiat, rate);
        SyncConvertedAmount();
      }
    }

    /** A new crypto selection: only the selection changes, and the fiat
        amount is recomputed at the new rate from the unchanged crypto amount. */
    method HandleCurrencyChange(c: Crypto)
      requires Valid()
      modifies this
      ensures Valid()
      ensures inputCurrency == c
      ensures outputCurrency == old(outputCurrency) && inputAmount == old(inputAmount)
      ensures cryptoPrices == old(cryptoPrices) && loading == old(loading) && error == old(error)
      ensures cryptoPrices.Some? ==> convertedAmount == Convert(inputAmount, CurrentRate())
      ensures cryptoPrices.None? ==> convertedAmount == old(convertedAmount)
    {
      inputCurrency := c;
      SyncConvertedAmount();
    }

    /** A new fiat selection, handled like a new crypto selection. */
    method HandleOutputCurrencyChange(f: Fiat)
      requires Valid()
      modifies this
      ensures Valid()
      ensures outputCurrency == f
      ensures inputCurrency == old(inputCurrency) && inputAmount == old(inputAmount)
      ensures cryptoPrices == old(cryptoPrices) && loading == old(loading) && error == old(error)
      ensures cryptoPrices.Some? ==> convertedAmount == Convert(inputAmount, CurrentRate())
      ensures cryptoPrices.None? ==> convertedAmount == old(convertedAmount)
    {
      outputCurrency := f;
      SyncConvertedAmount();
    }
  }

  /** A session with the upstream answering BTC at 65000 USD / 60000 EUR
      and ETH at 3200 USD / 2950 EUR: typing 1 in the crypto field shows
      65000 in the fiat field, and typing 65000 in the fiat field shows 1
      in the crypto field. */
  method ConvertOneBitcoin() returns (fiat: real, crypto: real)
    ensures fiat == 65000.0 && crypto == 1.0
  {
    var calculator := new Calculator();
    calculator.PricesFetched(Received(MultiQuote(Quote(65000.0, 60000.0), Quote(3200.0, 2950.0))));
    WholeAmountRoundTrip(1);
    assert NatDigits(1) == "1";
    calculator.HandleInputAmountChange("1");
    fiat := calculator.convertedAmount;
    WholeAmountRoundTrip(65000);
    assert NatDigits(65000) == "65000";
    calculator.HandleOutputAmountChange("65000");
    crypto := calculator.inputAmount;
  }
}
