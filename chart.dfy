/**
 * The arithmetic of `generate_chart_image`: the plotted prices and the y-axis
 * range, the lowest and highest price padded by 5% of their spread.
 */
module Chart {
  import opened Wrappers
  import opened Failures
  import opened BtcSeries

  /** The y-axis range sent to the chart service. */
  datatype Axis = Axis(yMin: real, yMax: real)

  /** What the chart service is asked to draw: the prices in order, and the axis range. */
  datatype ChartRequest = ChartRequest(prices: seq<real>, axis: Axis)

  /**
   * How the Bitcoin scripts turn numbers into what they send: `money` is the
   * `:,.2f` formatting of the post text, `round` is `round(price, 2)` applied to
   * every plotted price.
   */
  datatype Formatting = Formatting(money: real -> string, round: real -> real)

  /** The price column of the samples, in order, each rounded. */
  function Prices(samples: seq<Sample>, round: real -> real): (ps: seq<real>)
    ensures |ps| == |samples|
    ensures forall i :: 0 <= i < |samples| ==> ps[i] == round(samples[i].price)
  {
    seq(|samples|, i requires 0 <= i < |samples| => round(samples[i].price))
  }

  /** Python's `min` over a non-empty list. */
  function Min(s: seq<real>): (m: real)
    requires |s| > 0
    ensures m in s
    ensures forall x :: x in s ==> m <= x
  {
    if |s| == 1 then s[0]
    else
      var rest := Min(s[1..]);
      assert forall x :: x in s ==> x == s[0] || x in s[1..];
      if s[0] <= rest then s[0] else rest
  }

  /** Python's `max` over a non-empty list. */
  function Max(s: seq<real>): (m: real)
    requires |s| > 0
    ensures m in s
    ensures forall x :: x in s ==> x <= m
  {
    if |s| == 1 then s[0]
    else
      var rest := Max(s[1..]);
      assert forall x :: x in s ==> x == s[0] || x in s[1..];
      if s[0] >= rest then s[0] else rest
  }

  /**
   * The padded y-axis range: empty input raises ValueError; otherwise the range
   * encloses every price, pads both sides equally by 5% of the spread, and
   * collapses to a point exactly when all prices are equal.
   */
  function YBounds(prices: seq<real>): (r: Result<Axis, Error>)
    ensures r.Failure? <==> prices == []
    ensures r.Failure? ==> r.error == NoChartData
    ensures r.Success? ==> forall p :: p in prices ==> r.value.yMin <= p <= r.value.yMax
    ensures r.Success? ==> Min(prices) - r.value.yMin == r.value.yMax - Max(prices)
    ensures r.Success? ==> 20.0 * (Min(prices) - r.value.yMin) == Max(prices) - Min(prices)
    ensures r.Success? ==> (r.value.yMin == r.value.yMax <==> forall p, q :: p in prices && q in prices ==> p == q)
  {
    if prices == [] then Failure(NoChartData)
    else
      var lowest := Min(prices);
      var highest := Max(prices);
      var spread := highest - lowest;
      Success(Axis(lowest - spread * 0.05, highest + spread * 0.05))
  }

  /**
   * `generate_chart_image` without the HTTP request and the file write: the
   * axis is computed from the rounded prices, so it encloses each of them.
   */
  function Render(samples: seq<Sample>, round: real -> real): (r: Result<ChartRequest, Error>)
    ensures r.Failure? <==> samples == []
    ensures r.Failure? ==> r.error == NoChartData
    ensures r.Success? ==> r.value.prices == Prices(samples, round)
    ensures r.Success? ==> YBounds(r.value.prices) == Success(r.value.axis)
    ensures r.Success? ==> forall s :: s in samples ==> r.value.axis.yMin <= round(s.price) <= r.value.axis.yMax
  {
    var prices := Prices(samples, round);
    assert forall s :: s in samples ==> round(s.price) in prices by {
      forall s | s in samples ensures round(s.price) in prices {
        var i :| 0 <= i < |samples| && samples[i] == s;
        assert prices[i] == round(s.price);
      }
    }
    var axis :- YBounds(prices);
    Success(ChartRequest(prices, axis))
  }
}
