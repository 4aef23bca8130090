/** The activity heatmap: the last 91 days as cells coloured by their click
    count, laid out in week columns (Sunday on top) with month names above
    them. Days are day numbers and the browser's clock is taken to run on
    UTC; month names are month numbers (0 is January). */
module HeatmapView {
  import opened Seqs
  import opened Store
  import opened Aggregate
  import opened Projections

  const TotalDays: int := 91

  /** `getDay()`: 1970-01-01 was a Thursday, and Sunday is 0. */
  function Weekday(day: int): (w: int)
    ensures 0 <= w < 7
  {
    (day + 4) % 7
  }

  /** `getMonth()`: the proleptic Gregorian month of a day number. */
  function MonthOf(day: int): int
  {
    var z := day + 719468;
    var era := z / 146097;
    var doe := z - era * 146097;
    var yoe := (doe - doe / 1460 + doe / 36524 - doe / 146096) / 365;
    var doy := doe - (365 * yoe + yoe / 4 - yoe / 100);
    var mp := (5 * doy + 2) / 153;
    if mp < 10 then mp + 2 else mp - 10
  }

  /** The month of a day, step by step: `doe` is the day of its 400-year
      era, `yoe` the year of the era and `doy` the day of a year that
      starts on March 1. */
  lemma MonthSteps(day: int, era: int, doe: int, yoe: int, doy: int, mp: int)
    requires era == (day + 719468) / 146097 && doe == day + 719468 - era * 146097
    requires yoe == (doe - doe / 1460 + doe / 36524 - doe / 146096) / 365
    requires doy == doe - (365 * yoe + yoe / 4 - yoe / 100)
    requires mp == (5 * doy + 2) / 153
    ensures MonthOf(day) == if mp < 10 then mp + 2 else mp - 10
  {
  }

  /** 1970-01-01 is in January and 1970-02-01 in February; 1972-02-29 is
      in February and 1972-03-01 in March. */
  lemma MonthLandmarks()
    ensures MonthOf(0) == 0 && MonthOf(31) == 1
    ensures MonthOf(789) == 1 && MonthOf(790) == 2
  {
    MonthSteps(0, 4, 135080, 369, 306, 10);
    MonthSteps(31, 4, 135111, 369, 337, 11);
    MonthSteps(789, 4, 135869, 371, 365, 11);
    MonthSteps(790, 4, 135870, 372, 0, 0);
  }

  /** One day of the grid. */
  datatype Cell = Cell(date: int, count: int, weekday: int, month: int)

  // ---- the count lookup ----

  /** `map[d.date] = d.count` over the data in order: later entries win. */
  function LastWins(data: seq<Group<int>>): map<int, int>
  {
    if data == [] then map[]
    else LastWins(data[..|data| - 1])[data[|data| - 1].key := data[|data| - 1].rows]
  }

  method CountMap(data: seq<Group<int>>) returns (m: map<int, int>)
    ensures m == LastWins(data)
  {
    m := map[];
    var i := 0;
    while i < |data|
      invariant 0 <= i <= |data|
      invariant m == LastWins(data[..i])
    {
      assert data[..i + 1][..i] == data[..i];
      m := m[data[i].key := data[i].rows];
      i := i + 1;
    }
    assert data[..|data|] == data;
  }

  /** A day is in the map exactly when some entry names it; with one entry
      per day the map holds that entry's count. */
  lemma {:induction false} LastWinsLookup(data: seq<Group<int>>, d: int)
    ensures d in LastWins(data) <==> exists g :: g in data && g.key == d
    ensures DistinctKeys(data) ==> forall g :: g in data && g.key == d ==> LastWins(data)[d] == g.rows
  {
    if data != [] {
      var init := data[..|data| - 1];
      LastWinsLookup(init, d);
      assert forall g :: g in data <==> g in init || g == data[|data| - 1];
      if DistinctKeys(data) {
        assert DistinctKeys(init);
        forall g | g in init
          ensures g.key != data[|data| - 1].key
        {
          var i :| 0 <= i < |init| && init[i] == g;
          assert data[i] == g;
        }
      }
    }
  }

  // ---- the 91 days ----

  /** The cell of day `d`: `map[key] || 0`. */
  function CellOn(m: map<int, int>, d: int): Cell
  {
    Cell(d, if d in m then m[d] else 0, Weekday(d), MonthOf(d))
  }

  /** The days `today - 90` through `today`, oldest first. */
  method Days(m: map<int, int>, today: int) returns (days: seq<Cell>)
    ensures |days| == TotalDays
    ensures forall j :: 0 <= j < TotalDays ==> days[j] == CellOn(m, today - 90 + j)
  {
    days := [];
    var i := TotalDays - 1;
    while i >= 0
      invariant -1 <= i <= TotalDays - 1
      invariant |days| == TotalDays - 1 - i
      invariant forall j :: 0 <= j < |days| ==> days[j] == CellOn(m, today - 90 + j)
    {
      days := days + [CellOn(m, today - i)];
      i := i - 1;
    }
  }

  /** Weekdays in range, each day's weekday the next after the previous
      one's. */
  predicate WellFormed(days: seq<Cell>)
  {
    && (forall j :: 0 <= j < |days| ==> 0 <= days[j].weekday < 7)
    && (forall j :: 0 <= j < |days| - 1 ==> days[j + 1].weekday == (days[j].weekday + 1) % 7)
  }

  /** Days `first`, `first + 1`, ... are well formed. */
  lemma DaysWellFormed(days: seq<Cell>, first: int)
    requires forall j :: 0 <= j < |days| ==> days[j].weekday == Weekday(first + j)
    ensures WellFormed(days)
  {
    forall j | 0 <= j < |days| - 1
      ensures days[j + 1].weekday == (days[j].weekday + 1) % 7
    {
      assert days[j].weekday == Weekday(first + j);
      assert days[j + 1].weekday == Weekday(first + j + 1);
    }
  }

  /** In well-formed days, day `i` falls `i` weekdays after the first. */
  lemma {:induction false} WeekdayOfIndex(days: seq<Cell>, i: int)
    requires WellFormed(days) && 0 <= i < |days|
    ensures days[i].weekday == (days[0].weekday + i) % 7
  {
    if i > 0 {
      WeekdayOfIndex(days, i - 1);
    }
  }

  /** The busiest day's count, or 0. */
  method MaxCount(days: seq<Cell>) returns (max: int)
    ensures max >= 0
    ensures forall j :: 0 <= j < |days| ==> days[j].count <= max
    ensures max == 0 || exists j :: 0 <= j < |days| && days[j].count == max
  {
    max := 0;
    var i := 0;
    while i < |days|
      invariant 0 <= i <= |days|
      invariant max >= 0
      invariant forall j :: 0 <= j < i ==> days[j].count <= max
      invariant max == 0 || exists j :: 0 <= j < i && days[j].count == max
    {
      if days[i].count > max {
        max := days[i].count;
      }
      i := i + 1;
    }
  }

  // ---- week columns ----

  type Slot = Option<Cell>

  function Pad(n: int): seq<Slot>
  {
    seq(if n < 0 then 0 else n, _ => None)
  }

  function Slots(days: seq<Cell>): seq<Slot>
  {
    seq(|days|, i requires 0 <= i < |days| => Some(days[i]))
  }

  function Flatten(weeks: seq<seq<Slot>>): seq<Slot>
  {
    if weeks == [] then [] else Flatten(weeks[..|weeks| - 1]) + weeks[|weeks| - 1]
  }

  predicate EndsSaturday(w: seq<Slot>)
  {
    w != [] && w[|w| - 1].Some? && w[|w| - 1].value.weekday == 6
  }

  /** Every column but the last is a full week. */
  predicate FullWeeks(weeks: seq<seq<Slot>>)
  {
    && (forall k :: 0 <= k < |weeks| - 1 ==> |weeks[k]| == 7)
    && (forall k :: 0 <= k < |weeks| ==> |weeks[k]| <= 7)
  }

  lemma FlattenAppend(weeks: seq<seq<Slot>>, w: seq<Slot>)
    ensures Flatten(weeks + [w]) == Flatten(weeks) + w
  {
    assert (weeks + [w])[..|weeks|] == weeks;
  }

  /** The columns: the first padded with empty slots up to the first day's
      weekday, each closed after a Saturday, and a last partial one. */
  method Weeks(days: seq<Cell>) returns (weeks: seq<seq<Slot>>)
    requires |days| > 0
    ensures Flatten(weeks) == Pad(days[0].weekday) + Slots(days)
    ensures forall k :: 0 <= k < |weeks| ==> weeks[k] != []
    ensures forall k :: 0 <= k < |weeks| - 1 ==> EndsSaturday(weeks[k])
    ensures WellFormed(days) ==> FullWeeks(weeks)
  {
    var firstDay := days[0].weekday;
    weeks := [];
    var current: seq<Slot> := [];
    var p := 0;
    while p < firstDay
      invariant 0 <= p && (firstDay >= 0 ==> p <= firstDay) && (firstDay < 0 ==> p == 0)
      invariant current == Pad(p)
    {
      assert Pad(p) + [None] == Pad(p + 1);
      current := current + [None];
      p := p + 1;
    }
    assert current == Pad(firstDay);
    var i := 0;
    while i < |days|
      invariant 0 <= i <= |days|
      invariant Flatten(weeks) + current == Pad(firstDay) + Slots(days[..i])
      invariant forall k :: 0 <= k < |weeks| ==> EndsSaturday(weeks[k])
      invariant WellFormed(days) ==>
        && (forall k :: 0 <= k < |weeks| ==> |weeks[k]| == 7)
        && |weeks| * 7 + |current| == firstDay + i
        && |current| < 7
    {
      var d := days[i];
      assert Slots(days[..i + 1]) == Slots(days[..i]) + [Some(d)];
      if WellFormed(days) {
        WeekdayOfIndex(days, i);
        NextRow(|weeks|, |current|, firstDay + i);
      }
      StepFlatten(weeks, current, Some(d));
      if d.weekday == 6 {
        weeks := weeks + [current + [Some(d)]];
        current := [];
      } else {
        current := current + [Some(d)];
      }
      i := i + 1;
    }
    assert days[..|days|] == days;
    if |current| > 0 {
      FlattenAppend(weeks, current);
      weeks := weeks + [current];
    }
  }

  lemma StepFlatten(weeks: seq<seq<Slot>>, current: seq<Slot>, s: Slot)
    ensures Flatten(weeks) + (current + [s]) == Flatten(weeks) + current + [s]
    ensures Flatten(weeks + [current + [s]]) + [] == Flatten(weeks) + current + [s]
  {
    FlattenAppend(weeks, current + [s]);
  }

  lemma NextRow(columns: int, rows: int, p: int)
    requires columns * 7 + rows == p && 0 <= rows < 7
    ensures p % 7 == rows
  {
  }

  /** In full weeks, slot `p` of the flattened grid is row `p % 7` of column
      `p / 7`. */
  lemma {:induction false} FlattenIndex(weeks: seq<seq<Slot>>, p: int)
    requires FullWeeks(weeks)
    requires 0 <= p < |Flatten(weeks)|
    ensures p / 7 < |weeks| && p % 7 < |weeks[p / 7]|
    ensures weeks[p / 7][p % 7] == Flatten(weeks)[p]
  {
    var init := weeks[..|weeks| - 1];
    assert FullWeeks(init);
    FlattenLength(init);
    if p < |Flatten(init)| {
      FlattenIndex(init, p);
    } else {
      var r := p - 7 * |init|;
      assert p == 7 * |init| + r && 0 <= r < 7;
      assert p / 7 == |init| && p % 7 == r;
    }
  }

  lemma {:induction false} FlattenLength(weeks: seq<seq<Slot>>)
    requires forall k :: 0 <= k < |weeks| ==> |weeks[k]| == 7
    ensures |Flatten(weeks)| == 7 * |weeks|
  {
    if weeks != [] {
      FlattenLength(weeks[..|weeks| - 1]);
    }
  }

  /** With well-formed days, day `i` sits in column `(firstDay + i) / 7`, in
      the row of its weekday. */
  lemma DayPosition(days: seq<Cell>, weeks: seq<seq<Slot>>, i: int)
    requires WellFormed(days) && 0 <= i < |days|
    requires Flatten(weeks) == Pad(days[0].weekday) + Slots(days)
    requires FullWeeks(weeks)
    ensures var p := days[0].weekday + i;
      p / 7 < |weeks| && days[i].weekday < |weeks[p / 7]| && weeks[p / 7][days[i].weekday] == Some(days[i])
  {
    var p := days[0].weekday + i;
    assert Flatten(weeks)[p] == Some(days[i]);
    FlattenIndex(weeks, p);
    WeekdayOfIndex(days, i);
  }

  // ---- month labels ----

  datatype MonthLabel = MonthLabel(month: int, column: int)

  /** The labels after the first `n` days and the month last labelled, when
      day `i` is placed in column `(offset + i) / 7`: a label for each day
      on Sunday to Wednesday whose month differs from the last label's. */
  function LabelsAfter(days: seq<Cell>, n: nat, offset: int): (seq<MonthLabel>, int)
    requires n <= |days|
  {
    if n == 0 then ([], -1)
    else
      var prev := LabelsAfter(days, n - 1, offset);
      var d := days[n - 1];
      if d.month != prev.1 && d.weekday <= 3 then (prev.0 + [MonthLabel(d.month, (offset + n - 1) / 7)], d.month)
      else prev
  }

  /** The labels as the component places them: day `i` under column
      `i / 7`, without counting the empty slots that open the first
      column. */
  function MonthLabelsAsWritten(days: seq<Cell>): seq<MonthLabel>
  {
    LabelsAfter(days, |days|, 0).0
  }

  /** A first column opening on Wednesday with a month starting the
      following Monday: both labels land over the first column, though the
      Monday sits in the second. On 2025-11-25 the grid opens on Wednesday
      2025-08-27 and September starts on Monday 2025-09-01. */
  lemma LabelsCollide()
    ensures var days := [Cell(20327, 0, 3, 7), Cell(20328, 0, 4, 7), Cell(20329, 0, 5, 7),
                         Cell(20330, 0, 6, 7), Cell(20331, 0, 0, 7), Cell(20332, 0, 1, 8)];
      && MonthLabelsAsWritten(days) == [MonthLabel(7, 0), MonthLabel(8, 0)]
      && MonthLabels(days) == [MonthLabel(7, 0), MonthLabel(8, 1)]
      && (days[0].weekday + 5) / 7 == 1
  {
    var days := [Cell(20327, 0, 3, 7), Cell(20328, 0, 4, 7), Cell(20329, 0, 5, 7),
                 Cell(20330, 0, 6, 7), Cell(20331, 0, 0, 7), Cell(20332, 0, 1, 8)];
    assert LabelsAfter(days, 0, 0).1 == -1;
    assert LabelsAfter(days, 1, 0).0 == [MonthLabel(7, 0)] && LabelsAfter(days, 1, 0).1 == 7;
    assert LabelsAfter(days, 2, 0).0 == [MonthLabel(7, 0)] && LabelsAfter(days, 2, 0).1 == 7;
    assert LabelsAfter(days, 3, 0).0 == [MonthLabel(7, 0)] && LabelsAfter(days, 3, 0).1 == 7;
    assert LabelsAfter(days, 4, 0).0 == [MonthLabel(7, 0)] && LabelsAfter(days, 4, 0).1 == 7;
    assert LabelsAfter(days, 5, 0).0 == [MonthLabel(7, 0)] && LabelsAfter(days, 5, 0).1 == 7;
    assert LabelsAfter(days, 0, 3).1 == -1;
    assert LabelsAfter(days, 1, 3).0 == [MonthLabel(7, 0)] && LabelsAfter(days, 1, 3).1 == 7;
    assert LabelsAfter(days, 2, 3).0 == [MonthLabel(7, 0)] && LabelsAfter(days, 2, 3).1 == 7;
    assert LabelsAfter(days, 3, 3).0 == [MonthLabel(7, 0)] && LabelsAfter(days, 3, 3).1 == 7;
    assert LabelsAfter(days, 4, 3).0 == [MonthLabel(7, 0)] && LabelsAfter(days, 4, 3).1 == 7;
    assert LabelsAfter(days, 5, 3).0 == [MonthLabel(7, 0)] && LabelsAfter(days, 5, 3).1 == 7;
  }

  /** The first six cells of the grid on 2025-11-25 (day 20417) are the
      ones above: Wednesday 2025-08-27 through Monday 2025-09-01. */
  lemma GridOpeningOnNovember25(m: map<int, int>)
    requires forall d :: d in m ==> d > 20332
    ensures CellOn(m, 20417 - 90) == Cell(20327, 0, 3, 7)
    ensures CellOn(m, 20328) == Cell(20328, 0, 4, 7) && CellOn(m, 20329) == Cell(20329, 0, 5, 7)
    ensures CellOn(m, 20330) == Cell(20330, 0, 6, 7) && CellOn(m, 20331) == Cell(20331, 0, 0, 7)
    ensures CellOn(m, 20332) == Cell(20332, 0, 1, 8)
  {
    MonthSteps(20327, 5, 9310, 25, 179, 5);
    MonthSteps(20328, 5, 9311, 25, 180, 5);
    MonthSteps(20329, 5, 9312, 25, 181, 5);
    MonthSteps(20330, 5, 9313, 25, 182, 5);
    MonthSteps(20331, 5, 9314, 25, 183, 5);
    MonthSteps(20332, 5, 9315, 25, 184, 6);
  }

  /** The labels placed over the column that holds their day. */
  function MonthLabels(days: seq<Cell>): seq<MonthLabel>
  {
    if days == [] then [] else LabelsAfter(days, |days|, days[0].weekday).0
  }

  /** Consecutive labels name different months, and each label names the
      month of a day on Sunday to Wednesday placed in its column. */
  lemma {:induction false} LabelsMeaning(days: seq<Cell>, n: nat, offset: int)
    requires n <= |days|
    ensures var r := LabelsAfter(days, n, offset); var labels := r.0;
      && (forall k :: 0 <= k < |labels| - 1 ==> labels[k].month != labels[k + 1].month)
      && (forall k :: 0 <= k < |labels| ==> exists i :: (0 <= i < n && days[i].weekday <= 3
            && days[i].month == labels[k].month && labels[k].column == (offset + i) / 7))
      && (if labels == [] then r.1 == -1 else r.1 == labels[|labels| - 1].month)
  {
    if n > 0 {
      LabelsMeaning(days, n - 1, offset);
    }
  }

  /** The as-written and the corrected placements give the same months in
      the same order; each as-written column is the corrected one or the
      one before it, so a label is never more than one column off. */
  lemma {:induction false} LabelsShiftByPadding(days: seq<Cell>, n: nat, offset: int)
    requires n <= |days| && 0 <= offset < 7
    ensures var w := LabelsAfter(days, n, 0); var c := LabelsAfter(days, n, offset);
      && |w.0| == |c.0| && w.1 == c.1
      && forall k :: 0 <= k < |w.0| ==>
           w.0[k].month == c.0[k].month && w.0[k].column <= c.0[k].column <= w.0[k].column + 1
  {
    if n > 0 {
      LabelsShiftByPadding(days, n - 1, offset);
    }
  }

  /** The month-label loop as the component writes it: each label is placed
      over column `i / 7`, the index of its day divided by seven. */
  method MonthLabelLoop(days: seq<Cell>) returns (labels: seq<MonthLabel>)
    ensures labels == MonthLabelsAsWritten(days)
  {
    labels := [];
    var lastMonth := -1;
    var i := 0;
    while i < |days|
      invariant 0 <= i <= |days|
      invariant (labels, lastMonth) == LabelsAfter(days, i, 0)
    {
      var d := days[i];
      if d.month != lastMonth && d.weekday <= 3 {
        labels := labels + [MonthLabel(d.month, i / 7)];
        lastMonth := d.month;
      }
      i := i + 1;
    }
  }

  /** The month-label loop corrected, placing each label over the column
      that holds its day. */
  method BuildMonthLabels(days: seq<Cell>) returns (labels: seq<MonthLabel>)
    ensures labels == MonthLabels(days)
  {
    labels := [];
    if days == [] {
      return;
    }
    var firstDay := days[0].weekday;
    var lastMonth := -1;
    var i := 0;
    while i < |days|
      invariant 0 <= i <= |days|
      invariant (labels, lastMonth) == LabelsAfter(days, i, firstDay)
    {
      var d := days[i];
      if d.month != lastMonth && d.weekday <= 3 {
        labels := labels + [MonthLabel(d.month, (firstDay + i) / 7)];
        lastMonth := d.month;
      }
      i := i + 1;
    }
  }

  // ---- colours ----

  /** `getColor` as a band: 0 for no clicks, then quarters of the busiest
      day's count. */
  function Band(count: int, max: int): (b: int)
    ensures 0 <= b <= 4
    ensures b == 0 <==> count == 0
  {
    if count == 0 then 0
    else
      var ratio := if max > 0 then count as real / max as real else 0.0;
      if ratio < 0.25 then 1 else if ratio < 0.5 then 2 else if ratio < 0.75 then 3 else 4
  }

  /** The colour of each band. */
  function BandColor(b: int): string
  {
    if b == 0 then "var(--heatmap-empty, rgba(148, 163, 184, 0.08))"
    else if b == 1 then "rgba(99, 102, 241, 0.25)"
    else if b == 2 then "rgba(99, 102, 241, 0.45)"
    else if b == 3 then "rgba(99, 102, 241, 0.7)"
    else "rgba(99, 102, 241, 1)"
  }

  /** `getColor` as the component writes it: the colour string of a count
      against the busiest day's count. */
  function GetColor(count: int, maxCount: int): string
  {
    if count == 0 then "var(--heatmap-empty, rgba(148, 163, 184, 0.08))"
    else
      var ratio := if maxCount > 0 then count as real / maxCount as real else 0.0;
      if ratio < 0.25 then "rgba(99, 102, 241, 0.25)"
      else if ratio < 0.5 then "rgba(99, 102, 241, 0.45)"
      else if ratio < 0.75 then "rgba(99, 102, 241, 0.7)"
      else "rgba(99, 102, 241, 1)"
  }

  /** Every count gets the colour of its band, and two counts get the same
      colour exactly when they fall in the same band. */
  lemma ColorOfBand(c1: int, c2: int, max: int)
    ensures GetColor(c1, max) == BandColor(Band(c1, max))
    ensures GetColor(c1, max) == GetColor(c2, max) <==> Band(c1, max) == Band(c2, max)
  {
    var b1, b2 := Band(c1, max), Band(c2, max);
    if b1 != b2 {
      BandColorsDiffer(b1, b2);
    }
  }

  lemma BandColorsDiffer(b1: int, b2: int)
    requires 0 <= b1 <= 4 && 0 <= b2 <= 4 && b1 != b2
    ensures BandColor(b1) != BandColor(b2)
  {
    var c1, c2 := BandColor(b1), BandColor(b2);
    if |c1| == |c2| {
      assert c1[|c1| - 3] != c2[|c2| - 3] || c1[|c1| - 2] != c2[|c2| - 2];
    }
  }

  /** More clicks never give a lighter colour, and the busiest day gets the
      darkest. */
  lemma BandMonotone(c1: int, c2: int, max: int)
    requires 0 < c1 <= c2 && max > 0
    ensures Band(c1, max) <= Band(c2, max)
    ensures Band(max, max) == 4
  {
    RatioMonotone(c1 as real, c2 as real, max as real);
    assert max as real / max as real == 1.0;
  }

  lemma RatioMonotone(a: real, b: real, m: real)
    requires a <= b && m > 0.0
    ensures a / m <= b / m
  {
    var k := 1.0 / m;
    assert a / m == a * k && b / m == b * k;
    assert (b - a) * k >= 0.0;
  }

  // ---- the whole component ----

  /** The heatmap component over the response's `heatmap` list: 91 cells
      ending today, each with that day's count (0 when absent), laid out
      so that every day sits in the row of its weekday and the columns
      hold nothing but the padding and the days, with `max` the largest
      count, every non-empty cell coloured and the busiest day in the darkest band; the
      month labels are placed as the component places them, by day index. */
  method Build(data: seq<Group<int>>, today: int)
      returns (days: seq<Cell>, weeks: seq<seq<Slot>>, max: int, labels: seq<MonthLabel>)
    ensures |days| == TotalDays && days[TotalDays - 1].date == today
    ensures forall j :: 0 <= j < TotalDays ==> days[j] == CellOn(LastWins(data), today - 90 + j)
    ensures WellFormed(days)
    ensures forall i :: 0 <= i < |days| ==>
      var p := days[0].weekday + i;
      p / 7 < |weeks| && days[i].weekday < |weeks[p / 7]| && weeks[p / 7][days[i].weekday] == Some(days[i])
    ensures forall k :: 0 <= k < |weeks| - 1 ==> |weeks[k]| == 7
    ensures Flatten(weeks) == Pad(days[0].weekday) + Slots(days)
    ensures forall k :: 0 <= k < |weeks| ==> weeks[k] != []
    ensures forall k :: 0 <= k < |weeks| - 1 ==> EndsSaturday(weeks[k])
    ensures max >= 0 && forall j :: 0 <= j < |days| ==> days[j].count <= max
    ensures max == 0 || exists j :: 0 <= j < |days| && days[j].count == max
    ensures max > 0 ==> exists j :: 0 <= j < |days| && Band(days[j].count, max) == 4
    ensures labels == MonthLabelsAsWritten(days)
  {
    var m := CountMap(data);
    days := Days(m, today);
    forall j | 0 <= j < |days|
      ensures days[j].weekday == Weekday(today - 90 + j)
    {
      assert days[j] == CellOn(m, today - 90 + j);
    }
    DaysWellFormed(days, today - 90);
    max := MaxCount(days);
    weeks := Weeks(days);
    forall i | 0 <= i < |days|
      ensures var p := days[0].weekday + i;
        p / 7 < |weeks| && days[i].weekday < |weeks[p / 7]| && weeks[p / 7][days[i].weekday] == Some(days[i])
    {
      DayPosition(days, weeks, i);
    }
    if max > 0 {
      var j :| 0 <= j < |days| && days[j].count == max;
      BandMonotone(max, max, max);
    }
    labels := MonthLabelLoop(days);
  }

  /** Fed the server's heatmap, each cell of the last 91 days shows the
      number of clicks on its day. */
  lemma CellsCountClicks(clicks: seq<Click>, today: int, d: int)
    requires today - 90 <= d
    ensures CellOn(LastWins(Heatmap(clicks, today)), d).count == |RowsWith(clicks, ClickDay, d)|
  {
    var h := Heatmap(clicks, today);
    var window := ClicksSince(clicks, today - 90);
    HeatmapSpec(clicks, today);
    LastWinsLookup(h, d);
    SameDayRows(clicks, today - 90, d);
    if g :| g in h && g.key == d {
      assert DistinctKeys(h);
      assert LastWins(h)[d] == g.rows;
    } else {
      assert d !in GroupKeys(h);
      NoKeyNoRows(window, d);
    }
  }

  lemma NoKeyNoRows(window: seq<Click>, d: int)
    requires d !in KeysOf(window, ClickDay)
    ensures RowsWith(window, ClickDay, d) == []
  {
  }
}
