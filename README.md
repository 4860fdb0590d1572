# Market alert bots, modelled in Dafny

The repository is a set of small scripts. Each fetches market prices, decides
whether and what to post, and posts one message to X/Twitter. Two scripts chart
Bitcoin from CoinGecko data:

- `post_btc_chart_hourly.py` keeps the last hour of a 24-hour series. It posts
  only when the price moved at least 10% either way.
- `post_btc_chart_weekly.py` keeps every fifth point of a 7-day series and
  always posts.

Four scripts post a digest of per-ticker close-to-close changes from a
yfinance download:

- `post_eod_favorites_performance.py`
- `post_eow_favorites_performance.py`
- `post_eow_cryptostocks_performance.py`
- `post_eow_mag7_performance.py`

Every script carries the same classifier `get_movement_emoji`. Every script
also runs the same check that all four API credentials are set before it
posts.

This project models the decision logic of those scripts up to the network
calls. A run ends in one of two ways:

- `NoPost(reason)`: not enough data, a move below the gate, no ticker data, or
  a caught exception.
- `Posted(tweet)`: exactly one request, made of the text and the chart request
  when the script attaches a chart.

Modules, one per file:

- `Wrappers` holds `Option` and `Result`.
- `Failures` holds the exceptions a run can end on.
- `Seqs` holds order-preserving filtering and `"\n".join` / `split`.
- `Movement` is the classifier. It is modelled once for all six identical
  copies.
- `BtcSeries` is the CoinGecko fetch.
- `Chart` is the arithmetic of `generate_chart_image`.
- `Publish` is the credential loop of `post_tweet` / `post_tweet_with_image`,
  and the outcome of a run.
- `BtcHourly` and `BtcWeekly` are the two chart scripts.
- `Digest` models the four digest scripts. Each script is one `Variant`
  value: its ticker list, header, hashtags, and whether a "No Data" line
  starts with `$`.

The hourly script sorts its window with `list.sort`. `BtcHourly.SortByTime`
models this as an in-place insertion sort on an array. `BtcHourly.HourlyMain`
copies the window into an array, sorts it, and evaluates the sorted samples.

Some behaviours of the scripts are easy to misread; the model follows the code:

- The weekly script computes its change between the first and last points
  after downsampling, not over the full series. The last raw point is dropped
  unless its index is a multiple of 5 (`BtcWeekly.DownsampledEnds`,
  `BtcWeekly.LastPointDropped`). So "BITCOIN IS NOW" can report a price up to
  four points old.
- The weekly script turns a zero first price into a 0% change. The hourly
  script raises `ZeroDivisionError`, which `main` catches.
- The digests divide numpy floats. A zero previous close gives `inf`, `-inf`
  or `nan`, not an error (`Digest.Ratio`).
- The fetch does not sort or deduplicate the series. Only the hourly script
  sorts, and only its one-hour window.
- The classifier has eleven outcomes. The flat band `[-1, 1]` is closed on
  both sides, and every other band is closed on the side nearer zero.
- Two digests write a missing ticker as `$<ticker>: No Data` and two as
  `<ticker>: No Data`.
- The digests' sign and marker come from float comparisons. NaN compares false
  both ways, so a NaN change gets no "+" and the flat marker. `+inf` gets "+"
  and the top marker, and `-inf` the bottom one (`Digest.Gt`, `Digest.Lt`,
  `Digest.Ge`).

## Model

| member | source | states |
|---|---|---|
| Movement.Classify | post_btc_chart_hourly.py:45-75 | the marker's band contains the change, and no other marker's band does: the if/elif chain equals an independent band table |
| Movement.Glyph | post_btc_chart_hourly.py:50-75 | each marker's text is non-empty and holds no line break |
| Movement.EveryMarkerReached | post_btc_chart_hourly.py:45-75 | every one of the eleven markers is returned for some change |
| Movement.BandEdges | post_btc_chart_hourly.py:51-75 | +-1 is flat, just below -1 is a falling arrow, and +-5, +-10, +-15, +-20 fall in the band nearer zero because every comparison is strict |
| Movement.ClassifyMonotone | post_eod_favorites_performance.py:10-40 | a larger change never gets a marker of a lower band |
| Movement.ClassifySignOfMarker | post_eow_mag7_performance.py:10-40 | a rising marker exactly when the change exceeds +1%, a falling one exactly when it is below -1% |
| BtcSeries.FetchSeries | post_btc_chart_hourly.py:23-42 | a failed request, a missing "prices" entry and an empty one are errors; otherwise the series is non-empty and is the received points in order |
| Chart.Prices | post_btc_chart_hourly.py:92-93 | one plotted price per sample, in order, each the sample's price rounded |
| Chart.Min | post_btc_chart_hourly.py:95 | the result is one of the prices and no price is below it |
| Chart.Max | post_btc_chart_hourly.py:96 | the result is one of the prices and no price is above it |
| Chart.YBounds | post_btc_chart_weekly.py:94-100 | empty input is an error; otherwise the axis encloses every price, both sides are padded by the same 5% of the spread, and the axis collapses to a point exactly when all prices are equal |
| Chart.Render | post_btc_chart_hourly.py:85-101 | fails exactly on an empty series, with the no-data error (the ValueError); otherwise plots the rounded prices in order on the axis the bounds computation gives for them, which encloses each of them |
| Publish.ListMissing | post_btc_chart_hourly.py:190-198 | the loop builds exactly the list of unset or empty credential names, in the checked order |
| Publish.AbsentInOrder | post_eod_favorites_performance.py:101-109 | the missing list is API_KEY, API_KEY_SECRET, ACCESS_TOKEN, ACCESS_TOKEN_SECRET, in that order, each present exactly when unset or empty |
| Publish.AbsentExactly | post_btc_chart_weekly.py:188-198 | a name is listed exactly when it is a credential whose variable is unset or empty; the list is empty exactly when all four are set; the list keeps the checked order |
| Publish.Post | post_btc_chart_hourly.py:199-200 | posting fails exactly when a credential is missing, naming the missing ones; otherwise the request is the given text and chart unchanged |
| Publish.PostTweet | post_eod_favorites_performance.py:87-111 | the method with the loop gives the same outcome as `Post` |
| Seqs.Filter | post_btc_chart_hourly.py:235 | an element is kept exactly when it is in the input and passes the test; counts are kept for passing elements; the order is kept (a subsequence) |
| Seqs.JoinEnds | post_eod_favorites_performance.py:171 | the joined text starts with the first line and ends with the last, and holds a separator when there are two lines or more |
| Seqs.SplitJoin | post_eod_favorites_performance.py:171 | splitting lines joined by a separator that none of them contains gives the lines back |
| BtcHourly.Window | post_btc_chart_hourly.py:231-235 | a sample is in the window exactly when it is in the series and strictly newer than one hour before now; multiplicities and order are kept |
| BtcHourly.WindowOfRecent | post_btc_chart_hourly.py:234-235 | a series whose samples are all within the hour is its own window |
| BtcHourly.SortByTime | post_btc_chart_hourly.py:241-242 | the array ends sorted by time and is a permutation of what it held |
| BtcHourly.EndpointsAreEarliestAndLatest | post_btc_chart_hourly.py:242-244 | after the sort, the first sample has the least time and the last the greatest in the window |
| BtcHourly.SortedArrangementUnique | post_btc_chart_hourly.py:242 | with one sample per timestamp, a window has only one time-sorted arrangement, so sort stability does not matter |
| BtcHourly.PercentChange | post_btc_chart_hourly.py:243-247 | a zero first price raises division by zero; otherwise the difference is last minus first and the percentage times the first price is 100 times the difference |
| BtcHourly.ComposeLines | post_btc_chart_hourly.py:261-269 | the text, line by line: the heading; a blank line; "BTC IS NOW: $", the formatted latest price, a space and the marker of the change; a blank line; "1H CHANGE: "; the formatted difference and " USD "; the formatted percentage in "(...%)"; a blank line; "#Bitcoin #BTC #Crypto" |
| BtcHourly.Evaluate | post_btc_chart_hourly.py:243-258 | the run on the sorted window either posts, is skipped by the gate or fails; it fails on the division error exactly when the first price is zero; a skipped change lies strictly between -10 and 10; a post needs every credential |
| BtcHourly.Announce | post_btc_chart_hourly.py:256-273 | after the gate, the run posts exactly when every credential is set; the post carries the composed text and a chart of the rounded prices in order, on the axis the bounds computation gives, enclosing each |
| BtcHourly.HourlyMain | post_btc_chart_hourly.py:225-278 | the run is a fetch error, too few samples in the window, or the evaluation of a time-sorted permutation of the window |
| BtcHourly.HourlyRunDeterministic | post_btc_chart_hourly.py:241-247 | with one sample per timestamp, the run's outcome is determined by the response, the time and the environment |
| BtcHourly.RunOnOrderedWindow | post_btc_chart_hourly.py:241-244 | a window already in time order is evaluated as it is |
| BtcHourly.Gate | post_btc_chart_hourly.py:249-258 | skipped exactly when -10 < change < 10 (so exactly 10% proceeds); posted exactly when the move passes and all credentials are set; a post reports the first-to-last change |
| BtcHourly.SingleSampleSkips | post_btc_chart_hourly.py:237-239 | a one-sample window ends the run with nothing posted for lack of data |
| BtcHourly.TwelvePercentRise | post_btc_chart_hourly.py:249-269 | 100 then 112 within the hour: a 12% rise, the lightning marker, one post with that change |
| BtcHourly.ThreePercentRise | post_btc_chart_hourly.py:250-252 | 100 then 103 within the hour: below the gate, nothing posted |
| BtcWeekly.EveryFifth | post_btc_chart_weekly.py:229 | the slice keeps ceil(n/5) points, the i-th being raw point 5i |
| BtcWeekly.DownsampledEnds | post_btc_chart_weekly.py:229-234 | the first raw point is kept; the last kept is the one at the largest multiple of 5; the last raw point is kept exactly when its index is a multiple of 5 |
| BtcWeekly.LastPointDropped | post_btc_chart_weekly.py:229-233 | of seven points, the first and the sixth are kept, so the seventh is never reported |
| BtcWeekly.WeeklyChange | post_btc_chart_weekly.py:233-236 | the difference is last minus first; a zero first price gives 0%, otherwise percentage times first price is 100 times the difference |
| BtcWeekly.ComposeLines | post_btc_chart_weekly.py:243-250 | the text, line by line: "BITCOIN IS NOW: $", the formatted latest price, a space and the marker of the change; a blank line; "7D CHANGE: "; "$", the formatted difference and a space; the formatted percentage in "(...%)"; a blank line; "$BTC #Bitcoin #Crypto" |
| BtcWeekly.WeeklyMain | post_btc_chart_weekly.py:223-259 | there is no gate: the run posts exactly when the fetch succeeds and all credentials are set, and otherwise ends on a caught error |
| BtcWeekly.WeeklyPost | post_btc_chart_weekly.py:229-254 | a post reports the change from the first raw point to the last kept one and charts the downsampled prices on the axis the bounds computation gives, enclosing each |
| Digest.PercentChange | post_eod_favorites_performance.py:73-75 | a non-zero previous close gives a finite percentage with percentage times previous close equal to 100 times the change; a zero one gives +inf, -inf or NaN by the sign of the last close |
| Digest.FloatOrder | post_eod_favorites_performance.py:155 | the float comparisons order every value but NaN totally, and NaN compares false every way |
| Digest.ClassifyRatio | post_eod_favorites_performance.py:10-40 | under float comparisons, the marker's band holds the change and no other band does; a finite change gets the classifier's marker |
| Digest.NonFiniteMarkers | post_eod_favorites_performance.py:158 | +inf gets the top marker, -inf the bottom one, NaN falls through to flat |
| Digest.ValidCloses | post_eod_favorites_performance.py:69 | dropna keeps exactly the present closes and never adds rows |
| Digest.LastValidClose | post_eod_favorites_performance.py:69-74 | the reported close is that of the last row that survives dropna |
| Digest.LastTwoValidCloses | post_eod_favorites_performance.py:69-75 | the two closes of an entry are those of the last two rows that survive dropna, in row order, with every other row after the earlier one dropped |
| Digest.EntryOf | post_eod_favorites_performance.py:72-80 | the entry's close is the last valid close, and its change is the percent change from the valid close before it |
| Digest.Performance | post_eod_favorites_performance.py:65-84 | a ticker has an entry exactly when it is configured and has two valid closes in the download; the entry's close is one of that ticker's own rows |
| Digest.FetchPerformance | post_eod_favorites_performance.py:65-84 | a ticker has an entry exactly when it is configured, in the download and has two valid closes; the entry is the last close and its change from the one before |
| Digest.OtherTickersUnaffected | post_eow_favorites_performance.py:65-84 | a ticker's entry depends on its own rows only; one ticker's failure does not affect another |
| Digest.Line | post_eod_favorites_performance.py:150-163 | a ticker's line is a single line whenever the ticker and the formatted numbers are, and is longer than the ticker |
| Digest.LineShape | post_eod_favorites_performance.py:149-163 | a missing ticker's line is "<ticker>: No Data" or "$<ticker>: No Data"; a present one is "$<ticker>: $<close> (<sign><pct>%) <marker>", the sign being "+" exactly when the change is a finite non-negative value or +inf |
| Digest.BuildLines | post_eod_favorites_performance.py:149-163 | one line per configured ticker, in the configured order |
| Digest.Lines | post_eow_mag7_performance.py:146-158 | one line per configured ticker |
| Digest.Text | post_eod_favorites_performance.py:171 | the text is the header, the lines joined by line breaks, then the hashtags |
| Digest.DigestMain | post_eod_favorites_performance.py:140-179 | the method gives the outcome of the digest run: no post when no ticker has data, otherwise one post of the composed text |
| Digest.NoDataNoPost | post_eod_favorites_performance.py:144-146 | nothing is posted for lack of data exactly when no configured ticker has two valid closes |
| Digest.PostedText | post_eod_favorites_performance.py:165-171 | a post's text is the header, then one line per configured ticker in order (splitting the body gives them back), then the hashtags |
| Digest.EodFavoritesPost | post_eod_favorites_performance.py:149-171 | "EOD PERFORMANCE", nine ticker lines in order with "<ticker>: No Data" for a missing one, then "#Stocks #Investing" |
| Digest.EowFavoritesPost | post_eow_favorites_performance.py:149-164 | "WEEKLY PERFORMANCE", nine ticker lines in order with "$<ticker>: No Data" for a missing one, then "#TrumpTariffs #StockMarketCrash" |
| Digest.EowCryptoStocksPost | post_eow_cryptostocks_performance.py:147-162 | "WEEKLY PERFORMANCE (Crypto-Related)", seven ticker lines in order with "<ticker>: No Data" for a missing one, then "#STOCKS #CRYPTO" |
| Digest.EowMag7Post | post_eow_mag7_performance.py:146-161 | "WEEKLY PERFORMANCE (MAG 7)", seven ticker lines in order with "$<ticker>: No Data" for a missing one, then "#TrumpTariffs #Stocks #Investing" |

## Left out

- Network calls to CoinGecko, yfinance, QuickChart.io and X/Twitter are left out. A CoinGecko response is a parameter (`BtcSeries.Response`), and a yfinance download is a map from ticker to its rows' closes. A run ends at the request it would hand to the publisher. Failures of the chart service, the media upload and `create_tweet` are not modelled. All of them are caught and printed by `main`.
- Clocks and time zones are left out. "Now" is a parameter. Timestamps stay in CoinGecko's milliseconds, with one hour as 3,600,000 ms.
- Number formatting (`:,.2f`, `.2f`) and `round(price, 2)` are left out. They are opaque function parameters (`Chart.Formatting`, `Digest.Formats`), not decimal arithmetic. Python floats are modelled as exact reals.
- Chart labels (`strftime`), colours, size and the image file are not part of the model. Only the plotted prices and the y-axis range are.
- `load_dotenv` is left out. The environment is a map from variable name to value.
- Printed log lines and the process exit status are left out. The status is non-zero when `yf.download` raises, because each digest's `main` calls its fetch outside any `try` (post_eod_favorites_performance.py:142, post_eow_favorites_performance.py:142, post_eow_cryptostocks_performance.py:140, post_eow_mag7_performance.py:139). The digest model has no outcome for a failed download, since the download is a parameter.
- `post_hello_world.py` is not part of this model.
- BtcHourly.Window: compares milliseconds, so the window is always one real hour. The script compares America/New_York datetimes that share one `tzinfo`, and Python compares those by wall-clock time. When clocks fall back, the window then spans two real hours, and the sort by wall-clock time can put an earlier sample last. When clocks spring forward, it spans 30 minutes.
- Compose (BtcHourly.Compose, BtcWeekly.Compose): each function's own contract fixes only the text's first line prefix. The whole text, line by line, with the price, the change and the marker, is stated by BtcHourly.ComposeLines and BtcWeekly.ComposeLines.
- BtcHourly.ComposeLines, BtcWeekly.ComposeLines: assume that the formatted numbers hold no line break. `:,.2f` never produces one, but formatting is an opaque parameter here.
- BtcHourly.HourlyMain: the model does not prove that the sort is stable. Its contract allows any time-sorted arrangement of the window. `BtcHourly.HourlyRunDeterministic` shows that the outcome is the same either way when times are unique, and CoinGecko sends one price per timestamp.
- Digest.PercentChange: a division by zero is modelled by its sign only. `fmt.percent` renders the resulting infinity or NaN.
