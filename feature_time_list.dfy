/** The time-spent table: one row per feature, in the order received, with
    the average and the total as duration texts. Seconds are exact reals. */
module FeatureTimeList {
  import opened Rounding
  import opened Projections
  import opened Spans

  /** `formatDuration` as written: the minutes are floored from the raw
      value and the leftover seconds are rounded afterwards, so a leftover
      of 59.5 seconds or more shows as 60. */
  function DurationSpanAsWritten(x: real): Span
  {
    if x < 60.0 then Secs(JsRound(x))
    else
      var m := (x / 60.0).Floor;
      var s := JsRound(x - (m * 60) as real);
      if m < 60 then MinSec(m, s) else HourMin(m / 60, m % 60)
  }

  /** 119.6 seconds shows as "1m 60s", 3599.6 seconds as "59m 60s" and
      59.6 seconds as "60s". */
  lemma SixtySecondsShown()
    ensures DurationSpanAsWritten(119.6) == MinSec(1, 60)
    ensures !Denotes(DurationSpanAsWritten(119.6), JsRound(119.6))
    ensures DurationSpanAsWritten(3599.6) == MinSec(59, 60)
    ensures DurationSpanAsWritten(59.6) == Secs(60) && !Denotes(Secs(60), JsRound(59.6))
  {
    assert (119.6 / 60.0).Floor == 1;
    assert (3599.6 / 60.0).Floor == 59;
  }

  /** The durations `formatDuration` gets wrong: those under a minute that
      round up to 60, and those of a minute or more whose leftover seconds
      round up to 60. */
  predicate AtTheEdge(x: real)
  {
    if x < 60.0 then 59.5 <= x
    else x - ((x / 60.0).Floor * 60) as real >= 59.5
  }

  /** The duration text with the rounding done first: the span of the
      nearest whole number of seconds. */
  function DurationSpan(x: real): (sp: Span)
    ensures Denotes(sp, JsRound(x))
    ensures x < 59.5 ==> sp == Secs(JsRound(x))
  {
    SpanOf(JsRound(x))
  }

  /** The as-written text denotes the rounded duration exactly when the
      duration is not at the edge. */
  lemma AsWrittenDenotesOffTheEdge(x: real)
    ensures Denotes(DurationSpanAsWritten(x), JsRound(x)) <==> !AtTheEdge(x)
  {
    if 60.0 <= x {
      var m := (x / 60.0).Floor;
      var s := JsRound(x - (m * 60) as real);
      assert 0 <= s <= 60;
      assert JsRound(x) == m * 60 + s;
    }
  }

  /** The two formatters agree on exactly the durations off the edge. */
  lemma CorrectedAgreesOffTheEdge(x: real)
    ensures DurationSpanAsWritten(x) == DurationSpan(x) <==> !AtTheEdge(x)
  {
    AsWrittenDenotesOffTheEdge(x);
    if !AtTheEdge(x) {
      DenotesUnique(DurationSpanAsWritten(x), JsRound(x));
    }
  }

  datatype TimeRow = TimeRow(feature: string, average: string, total: string)

  datatype TimeListView = NoTimeData | TimeTable(rows: seq<TimeRow>)

  function RowOf(t: FeatureTime): TimeRow
  {
    TimeRow(t.feature, Render(DurationSpanAsWritten(t.avgDuration)), Render(DurationSpanAsWritten(t.totalDuration as real)))
  }

  /** The empty state for no data; otherwise row `i` shows entry `i`. */
  function TimeList(data: seq<FeatureTime>): (v: TimeListView)
    ensures v.NoTimeData? <==> data == []
    ensures v.TimeTable? ==> |v.rows| == |data|
    ensures v.TimeTable? ==> forall i :: 0 <= i < |data| ==> v.rows[i] == RowOf(data[i])
  {
    if data == [] then NoTimeData
    else TimeTable(seq(|data|, i requires 0 <= i < |data| => RowOf(data[i])))
  }

  /** A whole number of seconds is never at the edge. */
  lemma WholeOffTheEdge(n: int)
    ensures !AtTheEdge(n as real)
  {
    var x := n as real;
    if 60.0 <= x {
      var m := (x / 60.0).Floor;
      assert m as real <= x / 60.0 < m as real + 1.0;
      assert (m * 60) as real <= x < (m * 60 + 60) as real;
      assert m * 60 <= n < m * 60 + 60;
      assert x - (m * 60) as real == (n - m * 60) as real;
    }
  }

  /** The total column shows the span of the total. */
  lemma TotalShownExactly(t: FeatureTime)
    ensures RowOf(t).total == Render(SpanOf(t.totalDuration))
  {
    var x := t.totalDuration as real;
    assert JsRound(x) == t.totalDuration;
    WholeOffTheEdge(t.totalDuration);
    CorrectedAgreesOffTheEdge(x);
  }

  /** Off the edge, the average column shows the span of the average
      rounded to whole seconds. */
  lemma AverageShownOffTheEdge(t: FeatureTime)
    requires !AtTheEdge(t.avgDuration)
    ensures RowOf(t).average == Render(SpanOf(JsRound(t.avgDuration)))
  {
    CorrectedAgreesOffTheEdge(t.avgDuration);
  }
}
