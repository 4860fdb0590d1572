/**
 * `main` of the weekly Bitcoin chart: keep every fifth point of the 7-day
 * series, report the move between the first and last kept points, and always
 * post the chart and the message (there is no threshold).
 */
module BtcWeekly {
  import opened Wrappers
  import opened Failures
  import opened Seqs
  import opened Movement
  import opened BtcSeries
  import opened Chart
  import opened Publish

  /** The slice `series[::5]`: the points at indices 0, 5, 10, ... */
  function EveryFifth(series: seq<Sample>): (r: seq<Sample>)
    ensures |r| == (|series| + 4) / 5
    ensures forall i :: 0 <= i < |r| ==> r[i] == series[5 * i]
    decreases |series|
  {
    if series == [] then []
    else if |series| <= 5 then [series[0]]
    else [series[0]] + EveryFifth(series[5..])
  }

  /**
   * The ends of the downsampled series: the first raw point is always kept;
   * the last kept one is the raw point at the largest multiple of 5, so the
   * last raw point is kept exactly when its index is a multiple of 5.
   */
  lemma DownsampledEnds(series: seq<Sample>)
    requires |series| > 0
    ensures var r := EveryFifth(series);
      && |r| > 0
      && r[0] == series[0]
      && r[|r| - 1] == series[5 * ((|series| - 1) / 5)]
      && (5 * (|r| - 1) == |series| - 1 <==> (|series| - 1) % 5 == 0)
  {
  }

  /** A seven-point series reports its sixth point as the latest price, not its seventh. */
  lemma LastPointDropped(series: seq<Sample>)
    requires |series| == 7
    ensures EveryFifth(series) == [series[0], series[5]]
  {
    var r := EveryFifth(series);
    assert |r| == 2 && r[0] == series[0] && r[1] == series[5];
  }

  /** `price_diff / earliest_price * 100 if earliest_price else 0`: a zero first price gives 0, not an error. */
  function WeeklyChange(earliest: real, latest: real): (c: Change)
    ensures c.earliest == earliest && c.latest == latest && c.diff == latest - earliest
    ensures earliest == 0.0 ==> c.pct == 0.0
    ensures earliest != 0.0 ==> c.pct * earliest == 100.0 * c.diff
  {
    var diff := latest - earliest;
    Change(earliest, latest, diff, if earliest != 0.0 then diff / earliest * 100.0 else 0.0)
  }

  /** The post text; `money` is the `:,.2f` formatting of a number. */
  function Compose(c: Change, money: real -> string): (text: string)
    ensures |text| > 17 && text[..17] == "BITCOIN IS NOW: $"
  {
    "BITCOIN IS NOW: $" + money(c.latest) + " " + Glyph(Classify(c.pct)) + "\n\n"
    + "7D CHANGE: " + "\n" + "$" + money(c.diff) + " " + "\n" + "(" + money(c.pct) + "%)" + "\n\n"
    + "$BTC #Bitcoin #Crypto"
  }

  /**
   * The message line by line: the price with the marker of the change, the
   * dollar change and the percent change, the tags, with blank lines between
   * the parts.
   */
  lemma ComposeLines(c: Change, money: real -> string)
    requires '\n' !in money(c.latest) && '\n' !in money(c.diff) && '\n' !in money(c.pct)
    ensures Split(Compose(c, money), '\n') == [
      "BITCOIN IS NOW: $" + money(c.latest) + " " + Glyph(Classify(c.pct)), "",
      "7D CHANGE: ", "$" + money(c.diff) + " ", "(" + money(c.pct) + "%)", "",
      "$BTC #Bitcoin #Crypto"]
  {
    var glyph := Glyph(Classify(c.pct));
    PriceLine(money(c.latest), glyph);
    var price := "BITCOIN IS NOW: $" + money(c.latest) + " " + glyph;
    ChangeLines(price + "\n\n", [price, ""], money(c.diff), money(c.pct));
  }

  lemma PriceLine(latest: string, glyph: string)
    requires '\n' !in latest && '\n' !in glyph
    ensures Split("BITCOIN IS NOW: $" + latest + " " + glyph + "\n\n", '\n')
            == ["BITCOIN IS NOW: $" + latest + " " + glyph, "", ""]
  {
    var t := "BITCOIN IS NOW: $" + latest;
    SplitNone(t, '\n');
    assert Split(t, '\n') == [] + [t];
    SpaceWordBlank(t, [], t, glyph);
  }

  lemma ChangeLines(t: string, done: seq<string>, diff: string, pct: string)
    requires Split(t, '\n') == done + [""]
    requires '\n' !in diff && '\n' !in pct
    ensures Split(t + "7D CHANGE: " + "\n" + "$" + diff + " " + "\n" + "(" + pct + "%)" + "\n\n"
                  + "$BTC #Bitcoin #Crypto", '\n')
            == done + ["7D CHANGE: ", "$" + diff + " ", "(" + pct + "%)", "", "$BTC #Bitcoin #Crypto"]
  {
    assert '\n' !in "7D CHANGE: ";
    WholeLine(t, done, "7D CHANGE: ");
    var u := t + "7D CHANGE: " + "\n";
    var done' := done + ["7D CHANGE: "];
    assert Split(u, '\n') == done' + [""];
    DiffLine(u, done', diff);
    assert '\n' !in "$BTC #Bitcoin #Crypto";
    PercentLines(u + "$" + diff + " " + "\n", done' + ["$" + diff + " "], pct, "$BTC #Bitcoin #Crypto");
  }

  lemma DiffLine(t: string, done: seq<string>, diff: string)
    requires Split(t, '\n') == done + [""]
    requires '\n' !in diff
    ensures Split(t + "$" + diff + " " + "\n", '\n') == done + ["$" + diff + " ", ""]
  {
    LineStart(t, done, "$");
    ExtendLine(t + "$", diff, '\n', done, "$");
    ExtendLine(t + "$" + diff, " ", '\n', done, "$" + diff);
    LineBreak(t + "$" + diff + " ", done, "$" + diff + " ");
  }

  /**
   * `main` of the weekly script, up to the network calls. There is no gate: a
   * run fails only on the fetch or on a missing credential, and otherwise posts.
   */
  function WeeklyMain(response: Response, env: map<string, string>, fmt: Formatting): (run: Run)
    ensures run.Posted? || run.reason.Failed?
    ensures run.Posted? <==> FetchSeries(response).Success? && CredentialsSet(env)
  {
    match FetchSeries(response)
    case Failure(e) => NoPost(Failed(e))
    case Success(series) =>
      var sampled := EveryFifth(series);
      var c := WeeklyChange(sampled[0].price, sampled[|sampled| - 1].price);
      match Render(sampled, fmt.round)
      case Failure(e) => NoPost(Failed(e))
      case Success(chart) =>
        match Post(Compose(c, fmt.money), Some(chart), env)
        case Failure(e) => NoPost(Failed(e))
        case Success(tweet) => Posted(tweet)
  }

  /**
   * What a weekly post carries: the chart of the downsampled series, whose axis
   * encloses every plotted price, and the change between the first raw point
   * and the last kept one.
   */
  lemma WeeklyPost(response: Response, env: map<string, string>, fmt: Formatting)
    requires WeeklyMain(response, env, fmt).Posted?
    ensures var run := WeeklyMain(response, env, fmt);
      var series := response.prices.value;
      var sampled := EveryFifth(series);
      && |series| > 0
      && run.tweet.text == Compose(WeeklyChange(series[0].price, series[5 * ((|series| - 1) / 5)].price), fmt.money)
      && run.tweet.chart.Some?
      && run.tweet.chart.value.prices == Prices(sampled, fmt.round)
      && YBounds(run.tweet.chart.value.prices) == Success(run.tweet.chart.value.axis)
      && forall s :: s in sampled ==> run.tweet.chart.value.axis.yMin <= fmt.round(s.price) <= run.tweet.chart.value.axis.yMax
  {
    var series := response.prices.value;
    DownsampledEnds(series);
  }
}
