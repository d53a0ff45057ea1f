/**
 * Instants on Go's time line.
 *
 * RFC 3339 parsing itself is not modelled: a parser is any function from a
 * date-time string to an optional instant. What the model keeps is the one
 * decision the backup program makes about parsing: the error is discarded,
 * so a string that does not parse stands for Go's zero `time.Time`.
 */
module Clock {
  import opened Wrappers

  /** An instant, counted in nanoseconds from Go's zero time
      (January 1, year 1, 00:00:00 UTC). `Before` on `time.Time` is `<` here. */
  type Instant = int

  /** The zero value of Go's `time.Time`. */
  const ZeroTime: Instant := 0

  /** A date-time parser (`time.Parse` with the RFC 3339 layout), left uninterpreted. */
  type Parser = string -> Option<Instant>

  /** `t, _ := time.Parse(time.RFC3339, s)`: the parsed instant, or the zero time on error. */
  function ParseOrZero(parse: Parser, s: string): (t: Instant)
    ensures parse(s).Some? ==> t == parse(s).value
    ensures parse(s).None? ==> t == ZeroTime
  {
    parse(s).GetOr(ZeroTime)
  }

  /** A string that fails to parse is never after a string that parses to an
      instant at or after the zero time (in particular, any UTC year from 1 on). */
  lemma UnparsedIsNoLaterThanParsed(parse: Parser, bad: string, good: string)
    requires parse(bad).None?
    requires parse(good).Some? && parse(good).value >= ZeroTime
    ensures ParseOrZero(parse, bad) <= ParseOrZero(parse, good)
  {
  }
}
