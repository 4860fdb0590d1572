/** The exceptions the scripts raise; every one of them ends a run without a post. */
module Failures {

  datatype Error =
    | FetchFailed            // the price request failed (non-2xx status or transport error)
    | PricesMissing          // the response has no "prices" entry, or an empty one
    | DivisionByZero         // the earliest price of the hourly window is zero
    | NoChartData            // `generate_chart_image` was given no data points (ValueError)
    | MissingCredentials(names: seq<string>)  // ValueError listing the unset variables
}
