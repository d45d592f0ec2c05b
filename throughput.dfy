/** The throughput figure stored with every successful generation. */
module Throughput {

  /**
   * `tokens / duration if duration > 0 else 0`: the generation rate, and 0
   * when the measured duration is not positive, so it never divides by zero.
   */
  function TokensPerSecond(tokens: int, duration: real): (tps: real)
    ensures duration > 0.0 ==> tps * duration == tokens as real
    ensures duration <= 0.0 ==> tps == 0.0
    ensures tokens >= 0 ==> tps >= 0.0
  {
    if duration > 0.0 then tokens as real / duration else 0.0
  }
}
