/**
 * Instants and the duration calculator (`getDurationMinutes`).
 *
 * An instant is a whole number of milliseconds since the epoch. How a
 * timestamp string becomes an instant (`new Date(s)`) and back
 * (`toISOString()`) is not modelled: it is the `TimeCodec` every operation
 * is given.
 */
module Duration {
  import opened Wrappers

  /** Milliseconds per minute: the divisor `1000 * 60`. */
  const MinuteMs: int := 60_000

  /** The default appointment length, `30 * 60000` milliseconds. */
  const HalfHourMs: int := 30 * MinuteMs

  /**
   * `parse(s)` is the time value of `new Date(s)`, `None` for an invalid
   * date; `format(t)` is `new Date(t).toISOString()`.
   */
  datatype TimeCodec = TimeCodec(parse: string -> Option<int>, format: int -> string)

  /** A codec whose formatted instants parse back to themselves. */
  ghost predicate RoundTrips(codec: TimeCodec) {
    forall t :: codec.parse(codec.format(t)) == Some(t)
  }

  /**
   * `Math.round(ms / 60000)`: the nearest whole number of minutes, a tie
   * going towards positive infinity.
   */
  function RoundMinutes(ms: int): (m: int)
    ensures MinuteMs * m - MinuteMs / 2 <= ms < MinuteMs * m + MinuteMs / 2
  {
    (ms + MinuteMs / 2) / MinuteMs
  }

  /** The rounding is the only whole number of minutes within half a minute, ties resolved upwards. */
  lemma RoundMinutesUnique(ms: int, m: int)
    requires MinuteMs * m - MinuteMs / 2 <= ms < MinuteMs * m + MinuteMs / 2
    ensures RoundMinutes(ms) == m
  {
  }

  /** `getDurationMinutes(startISO, endISO)`; `None` is `undefined`. */
  function DurationMinutes(parse: string -> Option<int>, startIso: string, endIso: string): (r: Option<int>)
    ensures r.None? <==> parse(startIso).None? || parse(endIso).None?
  {
    match (parse(startIso), parse(endIso))
    case (Some(start), Some(end)) => Some(RoundMinutes(end - start))
    case _ => None
  }

  /** Once both instants parse, the duration is their difference to the nearest minute, in either sign. */
  lemma DurationIsNearestMinute(parse: string -> Option<int>, startIso: string, endIso: string)
    requires parse(startIso).Some? && parse(endIso).Some?
    ensures var d := parse(endIso).value - parse(startIso).value;
      DurationMinutes(parse, startIso, endIso).Some? &&
      var m := DurationMinutes(parse, startIso, endIso).value;
      MinuteMs * m - MinuteMs / 2 <= d < MinuteMs * m + MinuteMs / 2
  {
  }

  /** A difference of exactly `k` minutes gives `k`, negative `k` included. */
  lemma DurationWholeMinutes(parse: string -> Option<int>, startIso: string, endIso: string, k: int)
    requires parse(startIso).Some? && parse(endIso).Some?
    requires parse(endIso).value - parse(startIso).value == MinuteMs * k
    ensures DurationMinutes(parse, startIso, endIso) == Some(k)
  {
    RoundMinutesUnique(MinuteMs * k, k);
  }

  /** An end more than half a minute before the start yields a negative duration: nothing is clamped. */
  lemma DurationNegativePassesThrough(parse: string -> Option<int>, startIso: string, endIso: string)
    requires parse(startIso).Some? && parse(endIso).Some?
    requires parse(endIso).value - parse(startIso).value < -(MinuteMs / 2)
    ensures DurationMinutes(parse, startIso, endIso).Some?
    ensures DurationMinutes(parse, startIso, endIso).value < 0
  {
  }
}
