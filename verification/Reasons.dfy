/** What can be thrown or rejected with, as far as the guards' own log lines can tell. */
module Reasons {

  /**
   * The guards first turn a reason into an Error: an Error is kept, anything else goes through `String`, which
   * throws for what has no usable conversion. The Error's message and stack then go into a log line, which
   * `JSON.stringify` refuses to write when one of them is, say, a BigInt or circular.
   */
  datatype Reason = Unprintable | Printed(messageLogs: bool, stackLogs: bool)

  /** A plain Error, and what the two failing conversions throw themselves. */
  const PLAIN := Printed(true, true)

  /** A line with message and stack can be written. */
  predicate FullLine(r: Reason) {
    r.Printed? && r.messageLogs && r.stackLogs
  }

  /** A line with the message alone can be written. */
  predicate ShortLine(r: Reason) {
    r.Printed? && r.messageLogs
  }
}
