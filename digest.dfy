/**
 * The four performance digests (end of day for the favourites; end of week
 * for the favourites, the crypto-related stocks and the Mag 7): per-ticker
 * close-to-close changes from a price download, one line per configured
 * ticker, one post for the whole list. The four scripts differ only in the
 * data they hold, gathered here in one `Variant` value each.
 */
module Digest {
  import opened Wrappers
  import opened Seqs
  import opened Movement
  import opened Publish

  /**
   * A float quotient as numpy computes it: a finite value, or an infinity or NaN
   * where a division by a zero close gives one instead of raising.
   */
  datatype Ratio = Finite(value: real) | PosInf | NegInf | NaN

  /** `((close_now - close_prev) / close_prev) * 100` on numpy floats. */
  function PercentChange(prevClose: real, lastClose: real): (r: Ratio)
    ensures prevClose != 0.0 ==> r.Finite? && r.value * prevClose == 100.0 * (lastClose - prevClose)
    ensures prevClose == 0.0 ==> (r == PosInf <==> lastClose > 0.0)
    ensures prevClose == 0.0 ==> (r == NegInf <==> lastClose < 0.0)
    ensures prevClose == 0.0 ==> (r == NaN <==> lastClose == 0.0)
  {
    if prevClose != 0.0 then Finite((lastClose - prevClose) / prevClose * 100.0)
    else if lastClose > 0.0 then PosInf
    else if lastClose < 0.0 then NegInf
    else NaN
  }

  /** `x > c` on a float and a constant: NaN compares false, +inf is above every real, -inf below. */
  predicate Gt(x: Ratio, c: real)
  {
    match x
    case Finite(v) => v > c
    case PosInf => true
    case NegInf => false
    case NaN => false
  }

  /** `x < c` on a float and a constant. */
  predicate Lt(x: Ratio, c: real)
  {
    match x
    case Finite(v) => v < c
    case PosInf => false
    case NegInf => true
    case NaN => false
  }

  /** `x >= c` on a float and a constant. */
  predicate Ge(x: Ratio, c: real)
  {
    match x
    case Finite(v) => v >= c
    case PosInf => true
    case NegInf => false
    case NaN => false
  }

  /** The comparisons are a total order on everything but NaN, which is unordered. */
  lemma FloatOrder(x: Ratio, c: real)
    ensures x != NaN <==> (Ge(x, c) <==> !Lt(x, c))
    ensures Gt(x, c) ==> Ge(x, c)
    ensures x == NaN ==> !Gt(x, c) && !Lt(x, c) && !Ge(x, c)
  {
  }

  /** The band of each marker written with float comparisons, independently of the if/elif chain. */
  predicate RatioInBand(m: Marker, x: Ratio)
  {
    match m
    case Dove => Gt(x, 20.0)
    case Rocket => Gt(x, 15.0) && !Gt(x, 20.0)
    case Zap => Gt(x, 10.0) && !Gt(x, 15.0)
    case ChartUp => Gt(x, 5.0) && !Gt(x, 10.0)
    case ArrowUp => Gt(x, 1.0) && !Gt(x, 5.0)
    case Flat => !Gt(x, 1.0) && !Lt(x, -1.0)
    case ArrowDown => Lt(x, -1.0) && !Lt(x, -5.0)
    case ChartDown => Lt(x, -5.0) && !Lt(x, -10.0)
    case Blood => Lt(x, -10.0) && !Lt(x, -15.0)
    case Skull => Lt(x, -15.0) && !Lt(x, -20.0)
    case Hole => Lt(x, -20.0)
  }

  /**
   * `get_movement_emoji` on a numpy float: the same chain of strict comparisons.
   * The marker's band holds the value and no other band does; on a finite value
   * it is the classifier on reals.
   */
  function ClassifyRatio(x: Ratio): (m: Marker)
    ensures RatioInBand(m, x)
    ensures forall other: Marker :: RatioInBand(other, x) ==> other == m
    ensures x.Finite? ==> m == Classify(x.value)
  {
    if Gt(x, 20.0) then Dove
    else if Gt(x, 15.0) then Rocket
    else if Gt(x, 10.0) then Zap
    else if Gt(x, 5.0) then ChartUp
    else if Gt(x, 1.0) then ArrowUp
    else if Lt(x, -20.0) then Hole
    else if Lt(x, -15.0) then Skull
    else if Lt(x, -10.0) then Blood
    else if Lt(x, -5.0) then ChartDown
    else if Lt(x, -1.0) then ArrowDown
    else Flat
  }

  /** What the comparisons make of a zero previous close: +inf is the top band, -inf the bottom one, NaN flat. */
  lemma NonFiniteMarkers()
    ensures ClassifyRatio(PosInf) == Dove && ClassifyRatio(NegInf) == Hole && ClassifyRatio(NaN) == Flat
  {
    assert RatioInBand(Dove, PosInf) && RatioInBand(Hole, NegInf) && RatioInBand(Flat, NaN);
  }

  /** One ticker's performance: the latest close and the percent change from the close before it. */
  datatype Entry = Entry(close: real, pct: Ratio)

  /** The download, per ticker: the Close of each row, None where `dropna` drops the row. */
  type Frame = map<string, seq<Option<real>>>

  /** `dropna()`: the closes of the rows that survive, in order. */
  function ValidCloses(rows: seq<Option<real>>): (closes: seq<real>)
    ensures |closes| <= |rows|
    ensures forall x :: x in closes <==> Some(x) in rows
    decreases |rows|
  {
    if rows == [] then []
    else
      var init := rows[..|rows| - 1];
      var last := rows[|rows| - 1];
      assert rows == init + [last];
      ValidCloses(init) + (if last.Some? then [last.value] else [])
  }

  /** The close an entry reports is the one of the last row that is not NaN. */
  lemma {:induction false} LastValidClose(rows: seq<Option<real>>)
    requires |ValidCloses(rows)| > 0
    ensures exists k :: 0 <= k < |rows| && rows[k] == Some(Last(ValidCloses(rows)))
                     && forall j :: k < j < |rows| ==> rows[j] == None
    decreases |rows|
  {
    var init := rows[..|rows| - 1];
    var last := rows[|rows| - 1];
    var closes := ValidCloses(rows);
    if last.Some? {
      assert closes == ValidCloses(init) + [last.value];
      assert rows[|rows| - 1] == Some(Last(closes));
    } else {
      assert closes == ValidCloses(init);
      LastValidClose(init);
      var k :| 0 <= k < |init| && init[k] == Some(Last(ValidCloses(init)))
               && forall j :: k < j < |init| ==> init[j] == None;
      assert rows[k] == Some(Last(closes));
      assert forall j :: k < j < |rows| ==> rows[j] == None by {
        forall j | k < j < |rows| ensures rows[j] == None {
          if j < |init| { assert rows[j] == init[j]; }
        }
      }
    }
  }

  /**
   * Rows k1 < k2 hold the last two of the closes, in that order, and every
   * other row after k1 is dropped.
   */
  ghost predicate LastTwoAt(rows: seq<Option<real>>, k1: int, k2: int, closes: seq<real>)
    requires |closes| >= 2
  {
    && 0 <= k1 < k2 < |rows|
    && rows[k1] == Some(closes[|closes| - 2]) && rows[k2] == Some(closes[|closes| - 1])
    && forall j :: k1 < j < |rows| && j != k2 ==> rows[j] == None
  }

  /**
   * `tail(2)` after `dropna()`: the two closes an entry is computed from are
   * those of the last two rows that are not NaN, in row order, and every row
   * after the earlier of them other than the later one is dropped.
   */
  lemma {:induction false} LastTwoValidCloses(rows: seq<Option<real>>)
    requires |ValidCloses(rows)| >= 2
    ensures exists k1, k2 :: LastTwoAt(rows, k1, k2, ValidCloses(rows))
    decreases |rows|
  {
    var init, last := rows[..|rows| - 1], rows[|rows| - 1];
    assert rows == init + [last];
    var closes, before := ValidCloses(rows), ValidCloses(init);
    if last.Some? {
      assert closes == before + [last.value];
      LastValidClose(init);
      var k1 :| 0 <= k1 < |init| && init[k1] == Some(Last(before))
                && forall j :: k1 < j < |init| ==> init[j] == None;
      assert rows == init + [Some(last.value)];
      ValidRowAppended(init, k1, last.value, closes);
      assert LastTwoAt(rows, k1, |init|, closes);
    } else {
      assert closes == before;
      LastTwoValidCloses(init);
      var k1, k2 :| LastTwoAt(init, k1, k2, before);
      assert rows == init + [None];
      DroppedRowAppended(init, k1, k2, closes);
      assert LastTwoAt(rows, k1, k2, closes);
    }
  }

  lemma ValidRowAppended(init: seq<Option<real>>, k1: int, b: real, closes: seq<real>)
    requires |closes| >= 2 && closes[|closes| - 1] == b
    requires 0 <= k1 < |init| && init[k1] == Some(closes[|closes| - 2])
    requires forall j :: k1 < j < |init| ==> init[j] == None
    ensures LastTwoAt(init + [Some(b)], k1, |init|, closes)
  {
    var rows := init + [Some(b)];
    forall j | k1 < j < |rows| && j != |init| ensures rows[j] == None {
      assert rows[j] == init[j];
    }
  }

  lemma DroppedRowAppended(init: seq<Option<real>>, k1: int, k2: int, closes: seq<real>)
    requires |closes| >= 2 && LastTwoAt(init, k1, k2, closes)
    ensures LastTwoAt(init + [None], k1, k2, closes)
  {
    var rows := init + [None];
    forall j | k1 < j < |rows| && j != k2 ensures rows[j] == None {
      if j < |init| { assert rows[j] == init[j]; }
    }
  }

  function Last<T>(s: seq<T>): T
    requires |s| > 0
  {
    s[|s| - 1]
  }

  /** The ticker is in the download and has at least two rows that survive `dropna`. */
  predicate HasTwoCloses(frame: Frame, ticker: string)
  {
    ticker in frame && |ValidCloses(frame[ticker])| >= 2
  }

  /** `tail(2)`: the last valid close, and its change from the valid close before it. */
  function EntryOf(closes: seq<real>): (e: Entry)
    requires |closes| >= 2
    ensures e.close == closes[|closes| - 1]
    ensures e.pct == PercentChange(closes[|closes| - 2], e.close)
    ensures closes[|closes| - 2] != 0.0 ==>
      e.pct.Finite? && e.pct.value * closes[|closes| - 2] == 100.0 * (e.close - closes[|closes| - 2])
  {
    Entry(closes[|closes| - 1], PercentChange(closes[|closes| - 2], closes[|closes| - 1]))
  }

  /**
   * The map `fetch_*_performance` returns: an entry for each ticker with two
   * valid closes. A ticker missing from the download raises KeyError inside
   * the loop's try and is skipped, like one with too little data.
   */
  function Performance(tickers: seq<string>, frame: Frame): (perf: map<string, Entry>)
    ensures forall t :: t in perf <==> t in tickers && HasTwoCloses(frame, t)
    ensures forall t :: t in perf ==> t in frame && Some(perf[t].close) in frame[t]
  {
    map t | t in tickers && HasTwoCloses(frame, t) :: EntryOf(ValidCloses(frame[t]))
  }

  /** The loop of `fetch_eod_performance` / `fetch_weekly_performance`, filling the map ticker by ticker. */
  method FetchPerformance(tickers: seq<string>, frame: Frame) returns (perf: map<string, Entry>)
    ensures perf == Performance(tickers, frame)
    ensures forall t :: t in perf <==> t in tickers && HasTwoCloses(frame, t)
    ensures forall t :: t in perf ==> perf[t] == EntryOf(ValidCloses(frame[t]))
  {
    perf := map[];
    var i := 0;
    while i < |tickers|
      invariant 0 <= i <= |tickers|
      invariant perf == Performance(tickers[..i], frame)
    {
      var ticker := tickers[i];
      assert tickers[..i + 1] == tickers[..i] + [ticker];
      PerformanceSnoc(tickers[..i], ticker, frame);
      if ticker in frame {
        var closes := ValidCloses(frame[ticker]);
        if |closes| >= 2 {
          perf := perf[ticker := EntryOf(closes)];
        }
      }
      i := i + 1;
    }
    assert tickers[..i] == tickers;
  }

  /** One more ticker adds its entry when it has two valid closes and changes nothing otherwise. */
  lemma PerformanceSnoc(tickers: seq<string>, ticker: string, frame: Frame)
    ensures HasTwoCloses(frame, ticker) ==>
      Performance(tickers + [ticker], frame) == Performance(tickers, frame)[ticker := EntryOf(ValidCloses(frame[ticker]))]
    ensures !HasTwoCloses(frame, ticker) ==> Performance(tickers + [ticker], frame) == Performance(tickers, frame)
  {
    var before, after := Performance(tickers, frame), Performance(tickers + [ticker], frame);
    var expected := if HasTwoCloses(frame, ticker) then before[ticker := EntryOf(ValidCloses(frame[ticker]))] else before;
    assert forall t :: t in after <==> t in expected;
    assert forall t :: t in after ==> after[t] == expected[t];
  }

  /** What tells the four scripts apart. */
  datatype Variant = Variant(tickers: seq<string>, header: string, hashtags: string, dollarOnNoData: bool)

  /** post_eod_favorites_performance.py */
  const EodFavorites := Variant(["SPY", "QQQ", "AMZN", "GOOG", "NVDA", "TSLA", "HOOD", "COIN", "HIMS"],
                                "EOD PERFORMANCE\n\n", "\n\n#Stocks #Investing", false)
  /** post_eow_favorites_performance.py */
  const EowFavorites := Variant(["SPY", "QQQ", "AMZN", "GOOG", "NVDA", "TSLA", "HOOD", "COIN", "HIMS"],
                                "WEEKLY PERFORMANCE\n\n", "\n\n#TrumpTariffs #StockMarketCrash", true)
  /** post_eow_cryptostocks_performance.py */
  const EowCryptoStocks := Variant(["MSTR", "COIN", "RIOT", "MARA", "BTC-USD", "ETH-USD", "SOL-USD"],
                                   "WEEKLY PERFORMANCE (Crypto-Related)\n\n", "\n\n#STOCKS #CRYPTO", false)
  /** post_eow_mag7_performance.py */
  const EowMag7 := Variant(["MSFT", "AAPL", "GOOGL", "AMZN", "NVDA", "META", "TSLA"],
                           "WEEKLY PERFORMANCE (MAG 7)\n\n", "\n\n#TrumpTariffs #Stocks #Investing", true)

  /** The `.2f` formatting of a close and of a percent change, left abstract. */
  datatype Formats = Formats(price: real -> string, percent: Ratio -> string)

  /** No output of the formatters holds a line break. */
  ghost predicate SingleLine(fmt: Formats)
  {
    && (forall x :: '\n' !in fmt.price(x))
    && (forall x :: '\n' !in fmt.percent(x))
  }

  /**
   * One ticker's line of the post: a single line whenever the ticker and the
   * formatted numbers are, however the data came out.
   */
  function Line(v: Variant, ticker: string, perf: map<string, Entry>, fmt: Formats): (line: string)
    ensures SingleLine(fmt) && '\n' !in ticker ==> '\n' !in line
    ensures |line| > |ticker|
  {
    if ticker in perf then
      var e := perf[ticker];
      "$" + ticker + ": $" + fmt.price(e.close)
        + " (" + (if Ge(e.pct, 0.0) then "+" else "") + fmt.percent(e.pct) + "%) "
        + Glyph(ClassifyRatio(e.pct))
    else
      (if v.dollarOnNoData then "$" else "") + ticker + ": No Data"
  }

  /**
   * The shape of a line: a missing ticker reads "<ticker>: No Data" or
   * "$<ticker>: No Data"; a present one reads "$<ticker>: $<close> (<sign><pct>%) "
   * and the change's marker, the sign being "+" exactly when the change is
   * `>= 0` as a float (a finite non-negative value or +inf; not NaN).
   */
  lemma LineShape(v: Variant, ticker: string, perf: map<string, Entry>, fmt: Formats)
    ensures ticker !in perf && v.dollarOnNoData ==> Line(v, ticker, perf, fmt) == "$" + ticker + ": No Data"
    ensures ticker !in perf && !v.dollarOnNoData ==> Line(v, ticker, perf, fmt) == ticker + ": No Data"
    ensures ticker in perf && ((perf[ticker].pct.Finite? && perf[ticker].pct.value >= 0.0) || perf[ticker].pct == PosInf) ==>
      Line(v, ticker, perf, fmt) == "$" + ticker + ": $" + fmt.price(perf[ticker].close)
        + " (+" + fmt.percent(perf[ticker].pct) + "%) " + Glyph(ClassifyRatio(perf[ticker].pct))
    ensures ticker in perf && !((perf[ticker].pct.Finite? && perf[ticker].pct.value >= 0.0) || perf[ticker].pct == PosInf) ==>
      Line(v, ticker, perf, fmt) == "$" + ticker + ": $" + fmt.price(perf[ticker].close)
        + " (" + fmt.percent(perf[ticker].pct) + "%) " + Glyph(ClassifyRatio(perf[ticker].pct))
  {
    if ticker in perf {
      var e := perf[ticker];
      var head := "$" + ticker + ": $" + fmt.price(e.close);
      var tail := fmt.percent(e.pct) + "%) " + Glyph(ClassifyRatio(e.pct));
      if Ge(e.pct, 0.0) {
        assert Line(v, ticker, perf, fmt) == head + " (" + "+" + tail;
        assert " (" + "+" == " (+";
      } else {
        assert Line(v, ticker, perf, fmt) == head + " (" + "" + tail;
      }
    }
  }

  /** The lines loop of `main`: one line per configured ticker, in the configured order. */
  method BuildLines(v: Variant, perf: map<string, Entry>, fmt: Formats) returns (lines: seq<string>)
    ensures |lines| == |v.tickers|
    ensures forall i :: 0 <= i < |lines| ==> lines[i] == Line(v, v.tickers[i], perf, fmt)
  {
    lines := [];
    var i := 0;
    while i < |v.tickers|
      invariant 0 <= i <= |v.tickers|
      invariant |lines| == i
      invariant forall k :: 0 <= k < i ==> lines[k] == Line(v, v.tickers[k], perf, fmt)
    {
      lines := lines + [Line(v, v.tickers[i], perf, fmt)];
      i := i + 1;
    }
  }

  /** header + "\n".join(lines) + hashtags: the header, the lines between, the hashtags last. */
  function Text(v: Variant, lines: seq<string>): (text: string)
    ensures |v.header| + |v.hashtags| <= |text|
    ensures text[..|v.header|] == v.header
    ensures text[|text| - |v.hashtags|..] == v.hashtags
    ensures text[|v.header|..|text| - |v.hashtags|] == Join(lines, '\n')
  {
    v.header + Join(lines, '\n') + v.hashtags
  }

  /** The lines of every configured ticker, as the loop builds them. */
  function Lines(v: Variant, perf: map<string, Entry>, fmt: Formats): (lines: seq<string>)
    ensures |lines| == |v.tickers|
  {
    seq(|v.tickers|, i requires 0 <= i < |v.tickers| => Line(v, v.tickers[i], perf, fmt))
  }

  /** A digest run: nothing is posted when no ticker has data; otherwise exactly one post of the whole list. */
  function DigestRun(v: Variant, frame: Frame, env: map<string, string>, fmt: Formats): Run
  {
    var perf := Performance(v.tickers, frame);
    if perf == map[] then NoPost(NoPerformanceData)
    else
      match Post(Text(v, Lines(v, perf, fmt)), None, env)
      case Failure(e) => NoPost(Failed(e))
      case Success(tweet) => Posted(tweet)
  }

  /** `main` of a digest script, up to the network calls. */
  method DigestMain(v: Variant, frame: Frame, env: map<string, string>, fmt: Formats) returns (run: Run)
    ensures run == DigestRun(v, frame, env, fmt)
  {
    var perf := FetchPerformance(v.tickers, frame);
    if perf == map[] {
      return NoPost(NoPerformanceData);
    }
    var lines := BuildLines(v, perf, fmt);
    assert lines == Lines(v, perf, fmt);
    var posted := PostTweet(Text(v, lines), None, env);
    match posted
    case Failure(e) => run := NoPost(Failed(e));
    case Success(tweet) => run := Posted(tweet);
  }

  /** Nothing is posted exactly when no configured ticker has two valid closes. */
  lemma NoDataNoPost(v: Variant, frame: Frame, env: map<string, string>, fmt: Formats)
    ensures DigestRun(v, frame, env, fmt) == NoPost(NoPerformanceData)
        <==> forall t :: t in v.tickers ==> !HasTwoCloses(frame, t)
  {
    var perf := Performance(v.tickers, frame);
    if exists t :: t in v.tickers && HasTwoCloses(frame, t) {
      var t :| t in v.tickers && HasTwoCloses(frame, t);
      assert t in perf;
    }
  }

  /** Every ticker of the variant is free of line breaks. */
  predicate TickersSingleLine(v: Variant)
  {
    forall i :: 0 <= i < |v.tickers| ==> '\n' !in v.tickers[i]
  }

  /**
   * A post's text is the header, then exactly one line per configured ticker in
   * the configured order (cutting the body at line breaks gives them back), then
   * the hashtags.
   */
  lemma PostedText(v: Variant, frame: Frame, env: map<string, string>, fmt: Formats)
    requires SingleLine(fmt) && TickersSingleLine(v) && |v.tickers| > 0
    requires DigestRun(v, frame, env, fmt).Posted?
    ensures var text := DigestRun(v, frame, env, fmt).tweet.text;
      var perf := Performance(v.tickers, frame);
      && |v.header| + |v.hashtags| <= |text|
      && text[..|v.header|] == v.header
      && text[|text| - |v.hashtags|..] == v.hashtags
      && var body := Split(text[|v.header|..|text| - |v.hashtags|], '\n');
         && |body| == |v.tickers|
         && (forall i :: 0 <= i < |body| ==> body[i] == Line(v, v.tickers[i], perf, fmt))
         && (forall i :: 0 <= i < |body| && v.tickers[i] !in perf ==>
               body[i] == (if v.dollarOnNoData then "$" else "") + v.tickers[i] + ": No Data")
  {
    var perf := Performance(v.tickers, frame);
    var lines := Lines(v, perf, fmt);
    assert forall i :: 0 <= i < |lines| ==> '\n' !in lines[i];
    SplitJoin(lines, '\n');
    var text := Text(v, lines);
    assert text == v.header + Join(lines, '\n') + v.hashtags;
    assert text[|v.header|..|text| - |v.hashtags|] == Join(lines, '\n');
  }

  /** A ticker's entry depends on its own rows only: what happens to other tickers' data does not change it. */
  lemma OtherTickersUnaffected(tickers: seq<string>, frame1: Frame, frame2: Frame, ticker: string)
    requires ticker in frame1 <==> ticker in frame2
    requires ticker in frame1 ==> frame1[ticker] == frame2[ticker]
    ensures ticker in Performance(tickers, frame1) <==> ticker in Performance(tickers, frame2)
    ensures ticker in Performance(tickers, frame1) ==>
              Performance(tickers, frame1)[ticker] == Performance(tickers, frame2)[ticker]
  {
  }

  lemma VariantsSingleLine()
    ensures TickersSingleLine(EodFavorites) && TickersSingleLine(EowFavorites)
    ensures TickersSingleLine(EowCryptoStocks) && TickersSingleLine(EowMag7)
  {
  }

  /**
   * The end-of-day digest: "EOD PERFORMANCE", then nine lines for SPY, QQQ,
   * AMZN, GOOG, NVDA, TSLA, HOOD, COIN and HIMS in that order, a missing ticker
   * reading "<ticker>: No Data", then "#Stocks #Investing".
   */
  lemma EodFavoritesPost(frame: Frame, env: map<string, string>, fmt: Formats)
    requires SingleLine(fmt)
    requires DigestRun(EodFavorites, frame, env, fmt).Posted?
    ensures var text := DigestRun(EodFavorites, frame, env, fmt).tweet.text;
      var tickers := EodFavorites.tickers;
      var perf := Performance(tickers, frame);
      && |text| >= 17 + 20
      && text[..17] == "EOD PERFORMANCE\n\n"
      && text[|text| - 20..] == "\n\n#Stocks #Investing"
      && var body := Split(text[17..|text| - 20], '\n');
         && |body| == 9
         && (forall i :: 0 <= i < 9 ==> body[i] == Line(EodFavorites, tickers[i], perf, fmt))
         && (forall i :: 0 <= i < 9 && tickers[i] !in perf ==> body[i] == tickers[i] + ": No Data")
  {
    VariantsSingleLine();
    PostedText(EodFavorites, frame, env, fmt);
  }

  /**
   * The weekly favourites digest: "WEEKLY PERFORMANCE", nine lines in the same
   * order as the end-of-day one, a missing ticker reading "$<ticker>: No Data",
   * then "#TrumpTariffs #StockMarketCrash".
   */
  lemma EowFavoritesPost(frame: Frame, env: map<string, string>, fmt: Formats)
    requires SingleLine(fmt)
    requires DigestRun(EowFavorites, frame, env, fmt).Posted?
    ensures var text := DigestRun(EowFavorites, frame, env, fmt).tweet.text;
      var tickers := EowFavorites.tickers;
      var perf := Performance(tickers, frame);
      && |text| >= 20 + 33
      && text[..20] == "WEEKLY PERFORMANCE\n\n"
      && text[|text| - 33..] == "\n\n#TrumpTariffs #StockMarketCrash"
      && var body := Split(text[20..|text| - 33], '\n');
         && |body| == 9
         && (forall i :: 0 <= i < 9 ==> body[i] == Line(EowFavorites, tickers[i], perf, fmt))
         && (forall i :: 0 <= i < 9 && tickers[i] !in perf ==> body[i] == "$" + tickers[i] + ": No Data")
  {
    VariantsSingleLine();
    PostedText(EowFavorites, frame, env, fmt);
  }

  /**
   * The crypto-related digest: "WEEKLY PERFORMANCE (Crypto-Related)", seven
   * lines for MSTR, COIN, RIOT, MARA, BTC-USD, ETH-USD and SOL-USD, a missing
   * ticker reading "<ticker>: No Data", then "#STOCKS #CRYPTO".
   */
  lemma EowCryptoStocksPost(frame: Frame, env: map<string, string>, fmt: Formats)
    requires SingleLine(fmt)
    requires DigestRun(EowCryptoStocks, frame, env, fmt).Posted?
    ensures var text := DigestRun(EowCryptoStocks, frame, env, fmt).tweet.text;
      var tickers := EowCryptoStocks.tickers;
      var perf := Performance(tickers, frame);
      && |text| >= 37 + 17
      && text[..37] == "WEEKLY PERFORMANCE (Crypto-Related)\n\n"
      && text[|text| - 17..] == "\n\n#STOCKS #CRYPTO"
      && var body := Split(text[37..|text| - 17], '\n');
         && |body| == 7
         && (forall i :: 0 <= i < 7 ==> body[i] == Line(EowCryptoStocks, tickers[i], perf, fmt))
         && (forall i :: 0 <= i < 7 && tickers[i] !in perf ==> body[i] == tickers[i] + ": No Data")
  {
    VariantsSingleLine();
    PostedText(EowCryptoStocks, frame, env, fmt);
  }

  /**
   * The Mag 7 digest: "WEEKLY PERFORMANCE (MAG 7)", seven lines for MSFT, AAPL,
   * GOOGL, AMZN, NVDA, META and TSLA, a missing ticker reading
   * "$<ticker>: No Data", then "#TrumpTariffs #Stocks #Investing".
   */
  lemma EowMag7Post(frame: Frame, env: map<string, string>, fmt: Formats)
    requires SingleLine(fmt)
    requires DigestRun(EowMag7, frame, env, fmt).Posted?
    ensures var text := DigestRun(EowMag7, frame, env, fmt).tweet.text;
      var tickers := EowMag7.tickers;
      var perf := Performance(tickers, frame);
      && |text| >= 28 + 34
      && text[..28] == "WEEKLY PERFORMANCE (MAG 7)\n\n"
      && text[|text| - 34..] == "\n\n#TrumpTariffs #Stocks #Investing"
      && var body := Split(text[28..|text| - 34], '\n');
         && |body| == 7
         && (forall i :: 0 <= i < 7 ==> body[i] == Line(EowMag7, tickers[i], perf, fmt))
         && (forall i :: 0 <= i < 7 && tickers[i] !in perf ==> body[i] == "$" + tickers[i] + ": No Data")
  {
    VariantsSingleLine();
    PostedText(EowMag7, frame, env, fmt);
  }
}
