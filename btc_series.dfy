/**
 * `fetch_btc_data` of the two Bitcoin chart scripts: the CoinGecko market-chart
 * response turned into a list of (timestamp, price) samples.
 */
module BtcSeries {
  import opened Wrappers
  import opened Failures

  /** One price point; the time is in milliseconds since the epoch, as CoinGecko sends it. */
  datatype Sample = Sample(time: int, price: real)

  /** The move reported in a post: first and last price, their difference and the percent change. */
  datatype Change = Change(earliest: real, latest: real, diff: real, pct: real)

  /** What the HTTP request gave back: a transport failure, or a JSON body whose "prices" may be absent. */
  datatype Response = TransportError | Body(prices: Option<seq<Sample>>)

  /**
   * The fetch: a failed request and a missing or empty "prices" entry raise;
   * otherwise every point becomes one sample, in the order received.
   */
  function FetchSeries(response: Response): (r: Result<seq<Sample>, Error>)
    ensures r.Failure? <==> response.TransportError? || response.prices == None || response.prices == Some([])
    ensures response.TransportError? ==> r == Failure(FetchFailed)
    ensures r.Success? ==> |r.value| > 0 && r.value == response.prices.value
  {
    match response
    case TransportError => Failure(FetchFailed)
    case Body(None) => Failure(PricesMissing)
    case Body(Some(points)) =>
      if points == [] then Failure(PricesMissing) else Success(points)
  }
}
