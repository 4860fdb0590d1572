/**
 * `main` of the hourly Bitcoin alert: keep the last hour of the 24-hour series,
 * sort it by time, compute the move from the first to the last price, and post
 * a chart and a message only when the move is at least 10% either way.
 */
module BtcHourly {
  import opened Wrappers
  import opened Failures
  import opened Seqs
  import opened Movement
  import opened BtcSeries
  import opened Chart
  import opened Publish

  /** One hour, in the milliseconds the sample times are measured in. */
  const OneHourMs: int := 3_600_000

  /** The size of move, in percent, below which nothing is posted. */
  const Threshold: real := 10.0

  /** The list comprehension keeping the points strictly newer than one hour before `nowMs`. */
  function Window(series: seq<Sample>, nowMs: int): (w: seq<Sample>)
    ensures forall s :: s in w <==> s in series && s.time > nowMs - OneHourMs
    ensures forall s :: multiset(w)[s] == if s.time > nowMs - OneHourMs then multiset(series)[s] else 0
    ensures Subsequence(w, series)
  {
    Filter(series, (s: Sample) => s.time > nowMs - OneHourMs)
  }

  predicate SortedByTime(s: seq<Sample>)
  {
    forall k, l :: 0 <= k < l < |s| ==> s[k].time <= s[l].time
  }

  /** `list.sort(key=time)` in place: an insertion sort by adjacent swaps. */
  method SortByTime(a: array<Sample>)
    modifies a
    ensures SortedByTime(a[..])
    ensures multiset(a[..]) == multiset(old(a[..]))
  {
    var i := 0;
    while i < a.Length
      invariant 0 <= i <= a.Length
      invariant SortedByTime(a[..i])
      invariant multiset(a[..]) == multiset(old(a[..]))
    {
      Insert(a, i);
      i := i + 1;
    }
    assert a[..a.Length] == a[..];
  }

  /** Moves `a[i]` left past every earlier sample with a later time; `a[..i]` is sorted before and `a[..i+1]` after. */
  method Insert(a: array<Sample>, i: nat)
    requires i < a.Length
    requires SortedByTime(a[..i])
    modifies a
    ensures SortedByTime(a[..i + 1])
    ensures multiset(a[..]) == multiset(old(a[..]))
  {
    var j := i;
    while j > 0 && a[j - 1].time > a[j].time
      invariant 0 <= j <= i
      invariant forall k, l :: 0 <= k < l <= i && k != j && l != j ==> a[k].time <= a[l].time
      invariant forall l :: j < l <= i ==> a[j].time < a[l].time
      invariant multiset(a[..]) == multiset(old(a[..]))
    {
      Swap(a, j - 1, j);
      j := j - 1;
    }
  }

  method Swap(a: array<Sample>, i: nat, j: nat)
    requires i < j < a.Length
    modifies a
    ensures a[..] == old(a[..])[i := old(a[j])][j := old(a[i])]
    ensures multiset(a[..]) == multiset(old(a[..]))
  {
    a[i], a[j] := a[j], a[i];
  }

  /** `price_diff / earliest_price * 100`: a zero earliest price raises ZeroDivisionError. */
  function PercentChange(earliest: real, latest: real): (r: Result<Change, Error>)
    ensures r.Failure? <==> earliest == 0.0
    ensures r.Failure? ==> r.error == DivisionByZero
    ensures r.Success? ==> r.value.earliest == earliest && r.value.latest == latest
    ensures r.Success? ==> r.value.diff == latest - earliest && r.value.pct * earliest == 100.0 * r.value.diff
  {
    if earliest == 0.0 then Failure(DivisionByZero)
    else
      var diff := latest - earliest;
      Success(Change(earliest, latest, diff, diff / earliest * 100.0))
  }

  function Abs(x: real): real { if x < 0.0 then -x else x }

  /** The post text; `money` is the `:,.2f` formatting of a number. */
  function Compose(c: Change, money: real -> string): (text: string)
    ensures |text| > 22 && text[..22] == "BITCOIN MAKING MOVES\n\n"
  {
    "BITCOIN MAKING MOVES" + "\n\n"
    + "BTC IS NOW: $" + money(c.latest) + " " + Glyph(Classify(c.pct)) + "\n\n"
    + "1H CHANGE: " + "\n" + money(c.diff) + " USD " + "\n" + "(" + money(c.pct) + "%)" + "\n\n"
    + "#Bitcoin #BTC #Crypto"
  }

  /**
   * The message line by line: the heading, the price with the marker of the
   * change, the dollar change and the percent change, the hashtags, with blank
   * lines between the parts.
   */
  lemma ComposeLines(c: Change, money: real -> string)
    requires '\n' !in money(c.latest) && '\n' !in money(c.diff) && '\n' !in money(c.pct)
    ensures Split(Compose(c, money), '\n') == [
      "BITCOIN MAKING MOVES", "",
      "BTC IS NOW: $" + money(c.latest) + " " + Glyph(Classify(c.pct)), "",
      "1H CHANGE: ", money(c.diff) + " USD ", "(" + money(c.pct) + "%)", "",
      "#Bitcoin #BTC #Crypto"]
  {
    var heading := "BITCOIN MAKING MOVES";
    SplitNone(heading, '\n');
    assert Split(heading, '\n') == [] + [heading];
    BlankLine(heading, [], heading);
    var t := heading + "\n\n";
    var price := "BTC IS NOW: $" + money(c.latest) + " " + Glyph(Classify(c.pct));
    PriceLine(t, [heading, ""], money(c.latest), Glyph(Classify(c.pct)));
    t := t + "BTC IS NOW: $" + money(c.latest) + " " + Glyph(Classify(c.pct)) + "\n\n";
    ChangeLines(t, [heading, "", price, ""], money(c.diff), money(c.pct));
  }

  lemma PriceLine(t: string, done: seq<string>, latest: string, glyph: string)
    requires Split(t, '\n') == done + [""]
    requires '\n' !in latest && '\n' !in glyph
    ensures Split(t + "BTC IS NOW: $" + latest + " " + glyph + "\n\n", '\n')
            == done + ["BTC IS NOW: $" + latest + " " + glyph, "", ""]
  {
    LineStart(t, done, "BTC IS NOW: $");
    ExtendLine(t + "BTC IS NOW: $", latest, '\n', done, "BTC IS NOW: $");
    SpaceWordBlank(t + "BTC IS NOW: $" + latest, done, "BTC IS NOW: $" + latest, glyph);
  }

  lemma ChangeLines(t: string, done: seq<string>, diff: string, pct: string)
    requires Split(t, '\n') == done + [""]
    requires '\n' !in diff && '\n' !in pct
    ensures Split(t + "1H CHANGE: " + "\n" + diff + " USD " + "\n" + "(" + pct + "%)" + "\n\n"
                  + "#Bitcoin #BTC #Crypto", '\n')
            == done + ["1H CHANGE: ", diff + " USD ", "(" + pct + "%)", "", "#Bitcoin #BTC #Crypto"]
  {
    assert '\n' !in "1H CHANGE: ";
    WholeLine(t, done, "1H CHANGE: ");
    var u := t + "1H CHANGE: " + "\n";
    var done' := done + ["1H CHANGE: "];
    assert Split(u, '\n') == done' + [""];
    FigureLines(u, done', diff, pct);
  }

  lemma FigureLines(t: string, done: seq<string>, diff: string, pct: string)
    requires Split(t, '\n') == done + [""]
    requires '\n' !in diff && '\n' !in pct
    ensures Split(t + diff + " USD " + "\n" + "(" + pct + "%)" + "\n\n" + "#Bitcoin #BTC #Crypto", '\n')
            == done + [diff + " USD ", "(" + pct + "%)", "", "#Bitcoin #BTC #Crypto"]
  {
    DiffLine(t, done, diff);
    assert '\n' !in "#Bitcoin #BTC #Crypto";
    PercentLines(t + diff + " USD " + "\n", done + [diff + " USD "], pct, "#Bitcoin #BTC #Crypto");
  }

  lemma DiffLine(t: string, done: seq<string>, diff: string)
    requires Split(t, '\n') == done + [""]
    requires '\n' !in diff
    ensures Split(t + diff + " USD " + "\n", '\n') == done + [diff + " USD ", ""]
  {
    LineStart(t, done, diff);
    ExtendLine(t + diff, " USD ", '\n', done, diff);
    LineBreak(t + diff + " USD ", done, diff + " USD ");
  }

  /**
   * Everything after the sort, given the window in time order: the change and
   * the 10% gate, then `Announce`.
   */
  function Evaluate(sorted: seq<Sample>, env: map<string, string>, fmt: Formatting): (run: Run)
    requires |sorted| >= 2
    ensures run.Posted? || run.reason.BelowThreshold? || run.reason.Failed?
    ensures run == NoPost(Failed(DivisionByZero)) <==> sorted[0].price == 0.0
    ensures run.NoPost? && run.reason.BelowThreshold? ==> -Threshold < run.reason.pct < Threshold
    ensures run.Posted? ==> CredentialsSet(env)
  {
    match PercentChange(sorted[0].price, sorted[|sorted| - 1].price)
    case Failure(e) => NoPost(Failed(e))
    case Success(c) =>
      if Abs(c.pct) < Threshold then NoPost(BelowThreshold(c.pct))
      else Announce(c, sorted, env, fmt)
  }

  /**
   * The steps after the gate: the chart, the classifier, the text and the
   * credential check. The run posts exactly when every credential is set, and
   * the post carries the composed text and the chart of the rounded prices, on
   * the padded axis of `YBounds`, which encloses every one of them.
   */
  function Announce(c: Change, sorted: seq<Sample>, env: map<string, string>, fmt: Formatting): (run: Run)
    requires |sorted| > 0
    ensures run.Posted? || run.reason.Failed?
    ensures run.Posted? <==> CredentialsSet(env)
    ensures run.Posted? ==> run.tweet.text == Compose(c, fmt.money) && run.tweet.chart.Some?
    ensures run.Posted? ==> run.tweet.chart.value.prices == Prices(sorted, fmt.round)
    ensures run.Posted? ==> YBounds(run.tweet.chart.value.prices) == Success(run.tweet.chart.value.axis)
    ensures run.Posted? ==> forall s :: s in sorted ==>
              run.tweet.chart.value.axis.yMin <= fmt.round(s.price) <= run.tweet.chart.value.axis.yMax
  {
    match Render(sorted, fmt.round)
    case Failure(e) => NoPost(Failed(e))
    case Success(chart) =>
      match Post(Compose(c, fmt.money), Some(chart), env)
      case Failure(e) => NoPost(Failed(e))
      case Success(tweet) => Posted(tweet)
  }

  /** The whole run: fetch, window, and `Evaluate` on some time-sorted arrangement of the window. */
  ghost predicate HourlyRun(response: Response, nowMs: int, env: map<string, string>, fmt: Formatting, run: Run)
  {
    match FetchSeries(response)
    case Failure(e) => run == NoPost(Failed(e))
    case Success(series) =>
      var w := Window(series, nowMs);
      if |w| < 2 then run == NoPost(InsufficientData)
      else exists sorted :: SortedByTime(sorted) && multiset(sorted) == multiset(w) && run == Evaluate(sorted, env, fmt)
  }

  /** `main` of the hourly script, up to the network calls: the one member here that sorts in place. */
  method HourlyMain(response: Response, nowMs: int, env: map<string, string>, fmt: Formatting) returns (run: Run)
    ensures HourlyRun(response, nowMs, env, fmt, run)
  {
    var fetched := FetchSeries(response);
    if fetched.Failure? {
      return NoPost(Failed(fetched.error));
    }
    var w := Window(fetched.value, nowMs);
    if |w| < 2 {
      return NoPost(InsufficientData);
    }
    var a := new Sample[|w|](i requires 0 <= i < |w| => w[i]);
    assert a[..] == w;
    SortByTime(a);
    var sorted := a[..];
    run := Evaluate(sorted, env, fmt);
  }

  /** Samples with the same time are the same sample (CoinGecko sends one price per timestamp). */
  predicate TimesIdentify(s: seq<Sample>)
  {
    forall x, y :: x in s && y in s && x.time == y.time ==> x == y
  }

  /** The first and last of a time-sorted arrangement are a sample with the least and one with the greatest time. */
  lemma EndpointsAreEarliestAndLatest(sorted: seq<Sample>, w: seq<Sample>)
    requires SortedByTime(sorted) && multiset(sorted) == multiset(w) && |w| > 0
    ensures sorted[0] in w && sorted[|sorted| - 1] in w
    ensures forall s :: s in w ==> sorted[0].time <= s.time <= sorted[|sorted| - 1].time
  {
    assert |sorted| == |multiset(w)| == |w|;
    assert sorted[0] in multiset(sorted) && sorted[|sorted| - 1] in multiset(sorted);
    forall s | s in w ensures sorted[0].time <= s.time <= sorted[|sorted| - 1].time {
      assert s in multiset(sorted);
      var k :| 0 <= k < |sorted| && sorted[k] == s;
    }
  }

  /** When times identify samples there is only one time-sorted arrangement of a window. */
  lemma {:induction false} SortedArrangementUnique(s: seq<Sample>, t: seq<Sample>)
    requires SortedByTime(s) && SortedByTime(t)
    requires multiset(s) == multiset(t)
    requires TimesIdentify(s)
    ensures s == t
    decreases |s|
  {
    assert |s| == |t| by {
      assert |multiset(s)| == |multiset(t)|;
    }
    if |s| > 0 {
      HeadsEqual(s, t);
      TailsAgree(s, t);
      SortedArrangementUnique(s[1..], t[1..]);
      assert s == [s[0]] + s[1..] && t == [t[0]] + t[1..];
    }
  }

  lemma HeadsEqual(s: seq<Sample>, t: seq<Sample>)
    requires SortedByTime(s) && SortedByTime(t)
    requires multiset(s) == multiset(t) && |s| > 0
    requires TimesIdentify(s)
    ensures s[0] == t[0]
  {
    EndpointsAreEarliestAndLatest(s, t);
    EndpointsAreEarliestAndLatest(t, s);
    assert s[0] in s && t[0] in s;
  }

  lemma TailsAgree(s: seq<Sample>, t: seq<Sample>)
    requires multiset(s) == multiset(t) && |s| > 0 && s[0] == t[0]
    requires TimesIdentify(s)
    ensures |t| > 0
    ensures multiset(s[1..]) == multiset(t[1..])
    ensures SortedByTime(s) ==> SortedByTime(s[1..])
    ensures SortedByTime(t) ==> SortedByTime(t[1..])
    ensures TimesIdentify(s[1..])
  {
    assert s == [s[0]] + s[1..];
    assert |t| > 0 by {
      assert s[0] in multiset(t);
    }
    assert t == [t[0]] + t[1..];
    calc {
      multiset(s[1..]);
      multiset(s) - multiset{s[0]};
      multiset(t) - multiset{t[0]};
      multiset(t[1..]);
    }
    forall x: Sample, y: Sample | x in s[1..] && y in s[1..] && x.time == y.time ensures x == y {
      assert x in s && y in s;
    }
  }

  /** Rearranging a window keeps one sample per timestamp. */
  lemma TimesIdentifyPermutation(s: seq<Sample>, w: seq<Sample>)
    requires multiset(s) == multiset(w) && TimesIdentify(w)
    ensures TimesIdentify(s)
  {
    forall x: Sample, y: Sample | x in s && y in s && x.time == y.time ensures x == y {
      assert x in multiset(w) && y in multiset(w);
    }
  }

  /** With one sample per timestamp, a run's outcome is fully determined by its inputs. */
  lemma HourlyRunDeterministic(response: Response, nowMs: int, env: map<string, string>,
                               fmt: Formatting, run1: Run, run2: Run)
    requires response.Body? && response.prices.Some? ==> TimesIdentify(response.prices.value)
    requires HourlyRun(response, nowMs, env, fmt, run1)
    requires HourlyRun(response, nowMs, env, fmt, run2)
    ensures run1 == run2
  {
    var fetched := FetchSeries(response);
    if fetched.Success? {
      var w := Window(fetched.value, nowMs);
      if |w| >= 2 {
        assert TimesIdentify(w) by {
          assert forall x :: x in w ==> x in fetched.value;
        }
        var s1 :| SortedByTime(s1) && multiset(s1) == multiset(w) && run1 == Evaluate(s1, env, fmt);
        var s2 :| SortedByTime(s2) && multiset(s2) == multiset(w) && run2 == Evaluate(s2, env, fmt);
        TimesIdentifyPermutation(s1, w);
        SortedArrangementUnique(s1, s2);
      }
    }
  }

  /**
   * The gate: with a non-zero first price, the run is skipped exactly when the
   * move is under 10% either way (so exactly +-10% proceeds), and it posts
   * exactly when the move passes the gate and every credential is set. A post
   * carries the composed text and a chart whose axis encloses every price.
   */
  lemma Gate(sorted: seq<Sample>, env: map<string, string>, fmt: Formatting)
    requires |sorted| >= 2 && sorted[0].price != 0.0
    ensures var first := sorted[0].price;
            var last := sorted[|sorted| - 1].price;
            var pct := (last - first) / first * 100.0;
            var run := Evaluate(sorted, env, fmt);
            && (run == NoPost(BelowThreshold(pct)) <==> -10.0 < pct < 10.0)
            && (run.Posted? <==> (pct <= -10.0 || 10.0 <= pct) && CredentialsSet(env))
            && (run.Posted? ==> run.tweet.text == Compose(Change(first, last, last - first, pct), fmt.money))
  {
    var first := sorted[0].price;
    var last := sorted[|sorted| - 1].price;
    var pct := (last - first) / first * 100.0;
    var c := Change(first, last, last - first, pct);
    assert PercentChange(first, last) == Success(c);
    if -10.0 < pct < 10.0 {
      assert Evaluate(sorted, env, fmt) == NoPost(BelowThreshold(pct));
    } else {
      assert Evaluate(sorted, env, fmt) == Announce(c, sorted, env, fmt);
    }
  }

  /** A window of one sample ends the run before any change is computed. */
  lemma SingleSampleSkips(t: int, p: real, nowMs: int, env: map<string, string>, fmt: Formatting, run: Run)
    requires t > nowMs - OneHourMs
    requires HourlyRun(Body(Some([Sample(t, p)])), nowMs, env, fmt, run)
    ensures run == NoPost(InsufficientData)
  {
    assert Window([Sample(t, p)], nowMs) == [Sample(t, p)];
  }

  /** A window whose samples are all recent is kept whole. */
  lemma {:induction false} WindowOfRecent(series: seq<Sample>, nowMs: int)
    requires forall i :: 0 <= i < |series| ==> series[i].time > nowMs - OneHourMs
    ensures Window(series, nowMs) == series
    decreases |series|
  {
    if series != [] {
      var init := series[..|series| - 1];
      WindowOfRecent(init, nowMs);
      assert series == init + [series[|series| - 1]];
      assert Window(series, nowMs) == Window(init, nowMs) + [series[|series| - 1]];
    }
  }

  /** A window that is already in time order, one sample per timestamp, is evaluated as it is. */
  lemma RunOnOrderedWindow(series: seq<Sample>, nowMs: int, env: map<string, string>, fmt: Formatting, run: Run)
    requires |Window(series, nowMs)| >= 2
    requires SortedByTime(Window(series, nowMs)) && TimesIdentify(Window(series, nowMs))
    requires HourlyRun(Body(Some(series)), nowMs, env, fmt, run)
    ensures run == Evaluate(Window(series, nowMs), env, fmt)
  {
    var w := Window(series, nowMs);
    assert series != [] by {
      assert w[0] in series;
    }
    var sorted :| SortedByTime(sorted) && multiset(sorted) == multiset(w) && run == Evaluate(sorted, env, fmt);
    SortedArrangementUnique(w, sorted);
  }

  /** Two samples taken within the hour, in time order, are their own window, sorted, one per timestamp. */
  lemma TwoRecent(a: Sample, b: Sample, nowMs: int)
    requires nowMs - OneHourMs < a.time < b.time
    ensures Window([a, b], nowMs) == [a, b] && SortedByTime([a, b]) && TimesIdentify([a, b])
  {
    WindowOfRecent([a, b], nowMs);
  }

  /** 100 then 112 within the hour: a 12% rise, marker Zap, posted when the credentials are set. */
  lemma TwelvePercentRise(t0: int, t1: int, nowMs: int, env: map<string, string>, fmt: Formatting)
    requires nowMs - OneHourMs < t0 < t1
    requires CredentialsSet(env)
    ensures var w := [Sample(t0, 100.0), Sample(t1, 112.0)];
      && Window(w, nowMs) == w && SortedByTime(w) && TimesIdentify(w)
      && Classify(12.0) == Zap
      && Evaluate(w, env, fmt).Posted?
      && Evaluate(w, env, fmt).tweet.text == Compose(Change(100.0, 112.0, 12.0, 12.0), fmt.money)
  {
    var w := [Sample(t0, 100.0), Sample(t1, 112.0)];
    TwoRecent(w[0], w[1], nowMs);
    var c := Change(100.0, 112.0, 12.0, 12.0);
    assert PercentChange(100.0, 112.0) == Success(c);
    assert Evaluate(w, env, fmt) == Announce(c, w, env, fmt);
  }

  /** 100 then 103 within the hour: a 3% rise, marker ArrowUp, below the gate. */
  lemma ThreePercentRise(t0: int, t1: int, nowMs: int, env: map<string, string>, fmt: Formatting)
    requires nowMs - OneHourMs < t0 < t1
    ensures var w := [Sample(t0, 100.0), Sample(t1, 103.0)];
      && Window(w, nowMs) == w && SortedByTime(w) && TimesIdentify(w)
      && Classify(3.0) == ArrowUp
      && Evaluate(w, env, fmt) == NoPost(BelowThreshold(3.0))
  {
    var w := [Sample(t0, 100.0), Sample(t1, 103.0)];
    TwoRecent(w[0], w[1], nowMs);
    Gate(w, env, fmt);
  }
}
