/** `trend_percent`: the change in clicks against the previous period of the
    same length, reported only when both dates are given and the previous
    period has clicks. Dates are day numbers; `new Date('YYYY-MM-DD')` is
    midnight UTC and the server's local time is taken to be UTC, so date
    arithmetic is whole days. */
module Trend {
  import opened Seqs
  import opened Store
  import opened Predicates
  import opened Rounding

  /** `Math.ceil((end - start) / 86400000)`: two midnights are a whole number
      of days apart. */
  function RangeDays(start: int, end: int): int
  {
    end - start
  }

  /** First and last day of the previous period: `start - rangeDays - 1`
      through `start - 1`. */
  function PreviousWindow(start: int, end: int): (w: (int, int))
    ensures w.1 == start - 1
    ensures w.1 - w.0 == end - start
  {
    (start - RangeDays(start, end) - 1, start - 1)
  }

  /** The previous-period query's conditions: the dates only, none of the
      gender or age filters. */
  function PreviousClauses(start: int, end: int): seq<Clause>
  {
    var w := PreviousWindow(start, end);
    [AtOrAfter(StartOfDay(w.0)), AtOrBefore(EndOfDay(w.1))]
  }

  function PreviousCount(rows: seq<ClickRow>, start: int, end: int): nat
  {
    |SelectClicks(rows, PreviousClauses(start, end))|
  }

  /** The previous period counts the joined clicks whose day lies in the
      window, whatever their user. */
  lemma PreviousClausesMeaning(start: int, end: int, r: ClickRow)
    ensures AllHoldOnClick(PreviousClauses(start, end), r)
            <==> PreviousWindow(start, end).0 <= Day(r.click.at) <= start - 1
  {
    var w := PreviousWindow(start, end);
    DayBounds(r.click.at, w.0);
    DayBounds(r.click.at, w.1);
    assert PreviousClauses(start, end)[0] in PreviousClauses(start, end);
    assert PreviousClauses(start, end)[1] in PreviousClauses(start, end);
  }

  /** `Math.round((current - previous) / previous * 100)`. */
  function Percent(current: nat, previous: nat): real
    requires previous > 0
  {
    (current - previous) as real / previous as real * 100.0
  }

  function TrendPercent(q: Query, rows: seq<ClickRow>, current: nat): (t: Option<int>)
    ensures t.Some? <==> q.startDate.Some? && q.endDate.Some?
                         && PreviousCount(rows, q.startDate.value, q.endDate.value) > 0
    ensures t.Some? ==> var p := PreviousCount(rows, q.startDate.value, q.endDate.value);
              t.value as real - 0.5 <= Percent(current, p) < t.value as real + 0.5
  {
    if q.startDate.Some? && q.endDate.Some? then
      var previous := PreviousCount(rows, q.startDate.value, q.endDate.value);
      if previous > 0 then Some(JsRound(Percent(current, previous))) else None
    else None
  }

  /** The previous window ends the day before the start and spans as many
      days as the selected range; when the end precedes the start it is
      empty, so no trend is reported. */
  lemma EmptyWindowNoTrend(q: Query, rows: seq<ClickRow>, current: nat)
    requires q.startDate.Some? && q.endDate.Some?
    requires q.endDate.value < q.startDate.value
    ensures TrendPercent(q, rows, current).None?
  {
    var start, end := q.startDate.value, q.endDate.value;
    var s := SelectClicks(rows, PreviousClauses(start, end));
    if s != [] {
      assert s[0] in s;
      PreviousClausesMeaning(start, end, s[0]);
    }
  }

  /** Equal counts give 0; no fewer clicks never gives a negative trend, and
      a positive trend means more clicks. */
  lemma TrendDirection(current: nat, previous: nat)
    requires previous > 0
    ensures current == previous ==> JsRound(Percent(current, previous)) == 0
    ensures current >= previous ==> JsRound(Percent(current, previous)) >= 0
    ensures JsRound(Percent(current, previous)) > 0 ==> current > previous
  {
    var x := Percent(current, previous);
    if current >= previous {
      assert (current - previous) as real >= 0.0;
      assert x >= 0.0;
    } else {
      assert (current - previous) as real < 0.0;
      assert x < 0.0;
    }
  }

  /** 140 clicks after 100 is a 40 percent rise. */
  lemma TrendExample()
    ensures JsRound(Percent(140, 100)) == 40
  {
    assert Percent(140, 100) == 40.0;
  }
}
