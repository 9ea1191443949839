/** The time ranges the user interface offers, shared by the handlers'
    look-back table and the chart's per-range settings. */
module Ranges {
  /** The ranges the user interface offers. */
  const RangeNames: set<string> := {"1s", "10s", "30s", "1min", "1h", "4h", "1d", "1w", "1m"}

  /** The same ranges, shortest first, as the user interface lists them. */
  const RangeOrder := ["1s", "10s", "30s", "1min", "1h", "4h", "1d", "1w", "1m"]
}
