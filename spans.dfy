/** The duration texts the dashboard shows: "—", "42s", "3m 5s" or
    "2h 14m". A `Span` is the decomposition before it is printed. */
module Spans {
  import opened Text

  datatype Span =
    | NoValue                       // "—"
    | Secs(s: int)                  // `${s}s`
    | MinSec(m: int, s: int)        // `${m}m ${s}s`
    | HourMin(h: int, m: int)       // `${h}h ${m}m`

  function Render(sp: Span): string
  {
    match sp
    case NoValue => "\U{2014}"
    case Secs(s) => IntToString(s) + "s"
    case MinSec(m, s) => IntToString(m) + "m " + IntToString(s) + "s"
    case HourMin(h, m) => IntToString(h) + "h " + IntToString(m) + "m"
  }

  /** A well-formed span of a whole number of seconds `n`: seconds and
      minutes below 60, and the parts add up to `n` (hours and minutes drop
      the leftover seconds). */
  predicate Denotes(sp: Span, n: int)
  {
    match sp
    case NoValue => false
    case Secs(s) => s == n && n < 60
    case MinSec(m, s) => 1 <= m < 60 && 0 <= s < 60 && m * 60 + s == n
    case HourMin(h, m) => h >= 1 && 0 <= m < 60 && (h * 60 + m) * 60 <= n < (h * 60 + m) * 60 + 60
  }

  /** The decomposition of a whole number of seconds. */
  function SpanOf(n: int): (sp: Span)
    ensures Denotes(sp, n)
  {
    if n < 60 then Secs(n)
    else
      var m := n / 60;
      if m < 60 then MinSec(m, n % 60) else HourMin(m / 60, m % 60)
  }

  /** A whole number of seconds has exactly one well-formed span. */
  lemma DenotesUnique(sp: Span, n: int)
    requires Denotes(sp, n)
    ensures sp == SpanOf(n)
  {
    match sp
    case Secs(s) =>
    case MinSec(m, s) =>
      assert n / 60 == m && n % 60 == s;
    case HourMin(h, m) =>
      var k := h * 60 + m;
      assert n / 60 == k;
      assert k / 60 == h && k % 60 == m;
  }
}
