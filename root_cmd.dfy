/** The command's shared settings (cmd/root.go): the table of accepted cost
    metrics, the lookup of the Cost Explorer metric name, and the flag
    defaults. The global `costMetric` is a parameter here. */
module CmdRoot {
  import opened Wrappers

  /** The table of accepted metrics: each user-facing name and the API
      metric it selects; any other name has no entry. */
  function ValidMetrics(name: string): Option<string>
  {
    match name
    case "net-amortized" => Some("NetAmortizedCost")
    case "amortized" => Some("AmortizedCost")
    case "unblended" => Some("UnblendedCost")
    case "blended" => Some("BlendedCost")
    case "net-unblended" => Some("NetUnblendedCost")
    case "normalized" => Some("NormalizedUsageAmount")
    case "usage-quantity" => Some("UsageQuantity")
    case _ => None
  }

  // Flag defaults.
  const DefaultGroup := "service"
  const DefaultTopN := 10
  const DefaultFormat := "table"
  const DefaultThreshold := 0.0
  const DefaultMinCost := 0.0
  const DefaultMetric := "net-amortized"
  const DefaultSort := "diff"

  /** `getAWSMetric`: an exact, case-sensitive lookup of the user-facing name. */
  function GetAWSMetric(costMetric: string): (r: Outcome<string, string>)
    ensures r.Ok? <==> ValidMetrics(costMetric).Some?
    ensures r.Ok? ==> Some(r.value) == ValidMetrics(costMetric)
    ensures r.Err? ==> r.error == "invalid metric: " + costMetric
                                 + " (valid options: net-amortized, amortized, unblended, blended, net-unblended)"
  {
    match ValidMetrics(costMetric)
    case Some(metric) => Ok(metric)
    case None => Err("invalid metric: " + costMetric + " (valid options: net-amortized, amortized, unblended, blended, net-unblended)")
  }

  /** Each of the seven names selects its API metric (and so `GetAWSMetric`
      returns it). */
  lemma MetricTable()
    ensures ValidMetrics("net-amortized") == Some("NetAmortizedCost")
    ensures ValidMetrics("amortized") == Some("AmortizedCost")
    ensures ValidMetrics("unblended") == Some("UnblendedCost")
    ensures ValidMetrics("blended") == Some("BlendedCost")
    ensures ValidMetrics("net-unblended") == Some("NetUnblendedCost")
    ensures ValidMetrics("normalized") == Some("NormalizedUsageAmount")
    ensures ValidMetrics("usage-quantity") == Some("UsageQuantity")
  {
  }

  /** No two names select the same API metric, so the API metric names the
      user's choice back. */
  lemma MetricsDistinct(a: string, b: string)
    requires GetAWSMetric(a).Ok? && GetAWSMetric(b).Ok?
    ensures GetAWSMetric(a) == GetAWSMetric(b) <==> a == b
  {
  }

  /** The API names themselves are not accepted as names. */
  lemma ApiNamesRejected(name: string)
    requires GetAWSMetric(name).Ok?
    ensures GetAWSMetric(GetAWSMetric(name).value).Err?
  {
  }

  /** Nor are the empty name or a name in other letter case. */
  lemma OtherNamesRejected()
    ensures GetAWSMetric("").Err?
    ensures GetAWSMetric("Net-Amortized").Err?
    ensures GetAWSMetric("NET-AMORTIZED").Err?
  {
  }

  /** The default of the metric flag is accepted. */
  lemma DefaultMetricAccepted()
    ensures GetAWSMetric(DefaultMetric) == Ok("NetAmortizedCost")
  {
  }

  /** The renderers an output format selects. */
  datatype Renderer = TableRenderer | JsonRenderer | CsvRenderer

  /** The format switch shared by `outputResult`, `outputTopResult` and
      `outputWatchResult`: an exact, case-sensitive choice among three
      formats; any other format is an error naming it. */
  function SelectRenderer(format: string): (r: Outcome<Renderer, string>)
    ensures r.Ok? <==> format in {"table", "json", "csv"}
    ensures r == Ok(TableRenderer) <==> format == "table"
    ensures r == Ok(JsonRenderer) <==> format == "json"
    ensures r == Ok(CsvRenderer) <==> format == "csv"
    ensures r.Err? ==> r.error == "invalid output format: " + format + " (must be table|json|csv)"
  {
    match format
    case "table" => Ok(TableRenderer)
    case "json" => Ok(JsonRenderer)
    case "csv" => Ok(CsvRenderer)
    case _ => Err("invalid output format: " + format + " (must be table|json|csv)")
  }

  /** The default format is accepted; other letter case is not. */
  lemma DefaultFormatAccepted()
    ensures SelectRenderer(DefaultFormat) == Ok(TableRenderer)
    ensures SelectRenderer("JSON").Err? && SelectRenderer("").Err?
  {
  }
}
