// The seconds-or-milliseconds heuristic shared by the time window
// (src/workers/logProcessor.worker.js) and the timestamp cell
// (src/components/LogTable.jsx).

module Timestamps {
  /** Timestamps below this are taken to be seconds rather than milliseconds. */
  const SecondsThreshold: int := 10_000_000_000

  /** `if (ts < 10000000000) ts *= 1000`. */
  function NormalizeTimestamp(ts: int): int {
    if ts < SecondsThreshold then ts * 1000 else ts
  }
}
