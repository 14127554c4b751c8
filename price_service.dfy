/**
 * The shapes of the upstream price API's answers, as the views receive them.
 * The HTTP calls themselves are not modelled: a fetch is represented only by
 * its outcome, a response or a failure (the service turns every transport
 * error into a thrown error with a fixed message).
 */
module PriceService {

  /** The crypto assets the dashboard tracks. */
  datatype Crypto = BTC | ETH

  /** The fiat currencies every quote is priced in. */
  datatype Fiat = USD | EUR

  /** The single-asset price response: one price per fiat currency. */
  datatype Quote = Quote(usd: real, eur: real) {
    function In(f: Fiat): real {
      match f
      case USD => usd
      case EUR => eur
    }
  }

  /** The multi-asset price response: one quote per tracked asset. */
  datatype MultiQuote = MultiQuote(btc: Quote, eth: Quote) {
    function Of(c: Crypto): Quote {
      match c
      case BTC => btc
      case ETH => eth
    }

    /** The price of one unit of `c` in `f`. */
    function Rate(c: Crypto, f: Fiat): real {
      Of(c).In(f)
    }

    /** Every rate is positive, so that it can be divided by. */
    predicate PositiveRates() {
      btc.usd > 0.0 && btc.eur > 0.0 && eth.usd > 0.0 && eth.eur > 0.0
    }
  }

  /** The outcome of one awaited fetch. */
  datatype FetchResult<T> = Received(value: T) | Failed

  /** The message of the error thrown when the multi-asset fetch fails. */
  const MultiFetchErrorMessage: string := "Error fetching multi crypto prices"
}
