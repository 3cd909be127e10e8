/** Choosing the abort signal for a request: a per-request timeout, a
    process-wide default, and Go's `time.Duration.Milliseconds`. */
module Timeout {
  import opened Wrappers

  const NanosPerMilli: int := 1_000_000

  /** Go's `time.Duration`: a signed 64-bit count of nanoseconds. */
  type Duration = d: int | -0x8000_0000_0000_0000 <= d < 0x8000_0000_0000_0000

  function Abs(x: int): nat {
    if x < 0 then -x else x
  }

  /** `d.Milliseconds()`: Go's integer division, which truncates toward zero
      (Dafny's `/` is Euclidean, so negative durations are handled separately). */
  function Milliseconds(d: Duration): (ms: int)
    ensures Abs(ms) * NanosPerMilli <= Abs(d) < (Abs(ms) + 1) * NanosPerMilli
    ensures d >= 0 ==> ms >= 0
    ensures d <= 0 ==> ms <= 0
  {
    if d >= 0 then d / NanosPerMilli else -(Abs(d) / NanosPerMilli)
  }

  /** The timeout that governs a request: its own when it has one, else the default. */
  function EffectiveTimeout(current: Option<Duration>, default: Duration): Duration {
    current.GetOr(default)
  }

  /** The milliseconds handed to `createSignal`, or `None` when the fetch
      arguments carry `undefined` as their signal. */
  function SignalFor(current: Option<Duration>, default: Duration): (signal: Option<int>)
    ensures signal.Some? <==> EffectiveTimeout(current, default) != 0
    ensures signal.Some? ==> signal.value == Milliseconds(EffectiveTimeout(current, default))
    ensures current == Some(0) ==> signal == None
    ensures current == None && default == 0 ==> signal == None
    ensures current.Some? && 0 < Abs(current.value) < NanosPerMilli ==> signal == Some(0)
  {
    if current.None? && default != 0 then Some(Milliseconds(default))
    else if current.Some? && current.value != 0 then Some(Milliseconds(current.value))
    else None
  }
}
