/** The dashboard page: its filter state and the request it sends, the
    toggled bar selection, the search over the bar chart, the average
    session text and the trend badge. Cookies, toasts, timers, tracking
    calls and rendering are not part of this model; the date inputs hold
    day numbers. */
module Dashboard {
  import opened Seqs
  import opened Text
  import opened Store
  import opened Predicates
  import opened Aggregate
  import opened Engine
  import opened Trend
  import opened Spans
  import BarChartView

  // ---- the average session card ----

  /** `formatSeconds`: "—" for a missing or zero value, otherwise the span
      of the whole number of seconds. */
  function SecondsSpan(s: Option<int>): (sp: Span)
    ensures sp == NoValue <==> s.None? || s.value == 0
    ensures sp != NoValue ==> Denotes(sp, s.value)
  {
    if s.None? || s.value == 0 then NoValue
    else if s.value < 60 then Secs(s.value)
    else
      var m := s.value / 60;
      if m < 60 then MinSec(m, s.value % 60) else HourMin(m / 60, m % 60)
  }

  function FormatSeconds(s: Option<int>): string
  {
    Render(SecondsSpan(s))
  }

  /** Any non-zero number of seconds is shown as its one well-formed span. */
  lemma SecondsSpanIsSpanOf(s: int)
    requires s != 0
    ensures SecondsSpan(Some(s)) == SpanOf(s)
  {
    DenotesUnique(SecondsSpan(Some(s)), s);
  }

  // ---- filters and the request ----

  /** The `filters` state object. */
  datatype Filters = Filters(startDate: Option<int>, endDate: Option<int>, ageGroup: string, gender: string)

  const DefaultFilters: Filters := Filters(None, None, "All", "All")

  /** One call of `handleFilterChange(key, value)`. */
  datatype FilterChange =
    | StartDate(day: Option<int>)
    | EndDate(day: Option<int>)
    | AgeGroup(name: string)
    | GenderFilter(name: string)

  /** `{ ...prev, [key]: value }`. */
  function Apply(f: Filters, c: FilterChange): Filters
  {
    match c
    case StartDate(d) => f.(startDate := d)
    case EndDate(d) => f.(endDate := d)
    case AgeGroup(a) => f.(ageGroup := a)
    case GenderFilter(g) => f.(gender := g)
  }

  /** The event `trackMap` names for a key. */
  function FilterEvent(c: FilterChange): string
  {
    match c
    case StartDate(_) => "date_filter"
    case EndDate(_) => "date_filter"
    case AgeGroup(_) => "age_filter"
    case GenderFilter(_) => "gender_filter"
  }

  /** `prev === featureName ? null : featureName`. */
  function Toggle(prev: Option<string>, name: string): (r: Option<string>)
    ensures r.None? <==> prev == Some(name)
    ensures r.Some? ==> r.value == name
  {
    if prev == Some(name) then None else Some(name)
  }

  /** The query `getAnalytics` sends: the filters plus `feature_name` for a
      selected bar. */
  function RequestFor(f: Filters, selected: Option<string>): (q: Query)
    ensures q.startDate == f.startDate && q.endDate == f.endDate
    ensures q.ageGroup == f.ageGroup && q.gender == f.gender
    ensures q.featureName == if selected.Some? then selected.value else ""
  {
    Query(f.startDate, f.endDate, f.ageGroup, f.gender, if selected.Some? then selected.value else "")
  }

  class DashboardView {
    var filters: Filters
    var selectedFeature: Option<string>
    var featureSearch: string

    constructor()
      ensures filters == DefaultFilters && selectedFeature == None && featureSearch == ""
    {
      filters := DefaultFilters;
      selectedFeature := None;
      featureSearch := "";
    }

    function Request(): Query
      reads this
    {
      RequestFor(filters, selectedFeature)
    }

    /** `handleFilterChange`: replaces one filter and reports the event to
        track. */
    method ChangeFilter(c: FilterChange) returns (event: string)
      modifies this
      ensures filters == Apply(old(filters), c)
      ensures selectedFeature == old(selectedFeature) && featureSearch == old(featureSearch)
      ensures event == FilterEvent(c)
    {
      filters := Apply(filters, c);
      event := FilterEvent(c);
    }

    /** `handleBarClick`: selects the bar, or clears the selection when the
        bar was already selected. */
    method ClickBar(name: string) returns (event: string)
      modifies this
      ensures selectedFeature == Toggle(old(selectedFeature), name)
      ensures filters == old(filters) && featureSearch == old(featureSearch)
      ensures event == "bar_chart_click"
    {
      selectedFeature := Toggle(selectedFeature, name);
      event := "bar_chart_click";
    }

    /** Typing in the feature search box, tracked as `feature_search`. */
    method ChangeSearch(text: string) returns (event: string)
      modifies this
      ensures featureSearch == text
      ensures filters == old(filters) && selectedFeature == old(selectedFeature)
      ensures event == "feature_search"
    {
      featureSearch := text;
      event := "feature_search";
    }

    /** The close button of the selected-feature tag. */
    method ClearSelection()
      modifies this
      ensures selectedFeature == None
      ensures filters == old(filters) && featureSearch == old(featureSearch)
    {
      selectedFeature := None;
    }

    /** `handleClearFilters`: back to the initial state. */
    method ClearFilters()
      modifies this
      ensures filters == DefaultFilters && selectedFeature == None && featureSearch == ""
    {
      filters := DefaultFilters;
      selectedFeature := None;
      featureSearch := "";
    }
  }

  /** Changing one filter leaves the others as they were. */
  lemma ApplyChangesOneFilter(f: Filters, c: FilterChange)
    ensures c.StartDate? ==> Apply(f, c) == Filters(c.day, f.endDate, f.ageGroup, f.gender)
    ensures c.EndDate? ==> Apply(f, c) == Filters(f.startDate, c.day, f.ageGroup, f.gender)
    ensures c.AgeGroup? ==> Apply(f, c) == Filters(f.startDate, f.endDate, c.name, f.gender)
    ensures c.GenderFilter? ==> Apply(f, c) == Filters(f.startDate, f.endDate, f.ageGroup, c.name)
  {
  }

  /** The initial (and cleared) dashboard asks for every click: no
      condition at all, for the charts or for the line. */
  lemma ClearedRequestsEverything(u: User, at: Instant)
    ensures Clauses(RequestFor(DefaultFilters, None)) == []
    ensures LineClauses(RequestFor(DefaultFilters, None)) == []
    ensures Admits(RequestFor(DefaultFilters, None), u, at)
  {
    var q := RequestFor(DefaultFilters, None);
    UnfilteredQueryHasNoClauses(q);
    ClausesMeaning(q, u, "", at);
  }

  /** Clicking a bar changes the line chart and nothing else in the
      report. */
  lemma ClickBarOnlyChangesLine(users: seq<User>, clicks: seq<Click>, durations: seq<Duration>,
                                f: Filters, selected: Option<string>, name: string, today: int)
    ensures var a := Analytics(users, clicks, durations, RequestFor(f, selected), today);
      var b := Analytics(users, clicks, durations, RequestFor(f, Toggle(selected, name)), today);
      a.(lineChart := b.lineChart) == b
  {
    var q := RequestFor(f, selected);
    var f2 := RequestFor(f, Toggle(selected, name)).featureName;
    assert RequestFor(f, Toggle(selected, name)) == q.(featureName := f2);
    FeatureNameOnlyChangesLine(users, clicks, durations, q, f2, today);
  }

  // ---- searching the bar chart ----

  /** `filteredBarData`: the bars whose name contains the search text, both
      lower-cased, in their original order. */
  function FilteredBars(bars: seq<Group<string>>, search: string): (r: seq<Group<string>>)
    ensures forall g :: g in r <==> g in bars && Contains(Lower(g.key), Lower(search))
    ensures |r| <= |bars|
  {
    if bars == [] then []
    else
      var rest := FilteredBars(bars[1..], search);
      assert forall g :: g in rest ==> g in bars[1..];
      if Contains(Lower(bars[0].key), Lower(search)) then [bars[0]] + rest else rest
  }

  /** The search keeps the bars in their original order: it filters each
      part of the chart on its own, and a single bar is kept exactly when
      its name matches. */
  lemma {:induction false} FilteredBarsKeepsOrder(a: seq<Group<string>>, b: seq<Group<string>>, search: string)
    ensures FilteredBars(a + b, search) == FilteredBars(a, search) + FilteredBars(b, search)
    ensures |a| == 1 ==> FilteredBars(a, search) == if Contains(Lower(a[0].key), Lower(search)) then a else []
  {
    if a != [] {
      assert (a + b)[1..] == a[1..] + b && (a + b)[0] == a[0];
      FilteredBarsKeepsOrder(a[1..], b, search);
      if Contains(Lower(a[0].key), Lower(search)) {
        assert FilteredBars(a + b, search) == [a[0]] + FilteredBars(a[1..] + b, search);
        assert FilteredBars(a, search) == [a[0]] + FilteredBars(a[1..], search);
      } else {
        assert FilteredBars(a + b, search) == FilteredBars(a[1..] + b, search);
        assert FilteredBars(a, search) == FilteredBars(a[1..], search);
      }
    } else {
      assert a + b == b;
    }
  }

  /** The search keeps the chart ordered by clicks. */
  lemma {:induction false} FilteredBarsSorted(bars: seq<Group<string>>, search: string)
    requires SortedDesc(bars, RowsOf)
    ensures SortedDesc(FilteredBars(bars, search), RowsOf)
  {
    if bars != [] {
      var rest := FilteredBars(bars[1..], search);
      FilteredBarsSorted(bars[1..], search);
      forall x | x in rest
        ensures RowsOf(bars[0]) >= RowsOf(x)
      {
        var k :| 0 <= k < |bars[1..]| && bars[1..][k] == x;
        assert bars[k + 1] == x;
      }
      SortedCons(bars[0], rest);
    }
  }

  lemma SortedCons(g: Group<string>, rest: seq<Group<string>>)
    requires SortedDesc(rest, RowsOf)
    requires forall x | x in rest :: RowsOf(g) >= RowsOf(x)
    ensures SortedDesc([g] + rest, RowsOf)
  {
    var r := [g] + rest;
    assert forall j :: 1 <= j < |r| ==> r[j] == rest[j - 1];
  }

  /** The search keeps the bar names distinct. */
  lemma {:induction false} FilteredBarsDistinct(bars: seq<Group<string>>, search: string)
    requires DistinctKeys(bars)
    ensures DistinctKeys(FilteredBars(bars, search))
  {
    if bars != [] {
      var rest := FilteredBars(bars[1..], search);
      FilteredBarsDistinct(bars[1..], search);
      forall x | x in rest
        ensures bars[0].key != x.key
      {
        var k :| 0 <= k < |bars[1..]| && bars[1..][k] == x;
        assert bars[k + 1] == x;
      }
      DistinctCons(bars[0], rest);
    }
  }

  lemma DistinctCons(g: Group<string>, rest: seq<Group<string>>)
    requires DistinctKeys(rest)
    requires forall x | x in rest :: g.key != x.key
    ensures DistinctKeys([g] + rest)
  {
    var r := [g] + rest;
    assert forall j :: 1 <= j < |r| ==> r[j] == rest[j - 1];
  }

  /** An empty search keeps every bar. */
  lemma {:induction false} EmptySearchKeepsAll(bars: seq<Group<string>>)
    ensures FilteredBars(bars, "") == bars
  {
    if bars != [] {
      assert OccursAt(Lower(bars[0].key), Lower(""), 0);
      EmptySearchKeepsAll(bars[1..]);
    }
  }

  /** Clicking bar `k` of the searched chart with nothing selected dims
      every other bar and leaves bar `k` in its palette colour. */
  lemma ClickedBarStandsOut(rows: seq<ClickRow>, search: string, k: nat, i: int)
    requires var bars := FilteredBars(Projections.BarChart(rows), search);
      0 <= i < |bars| && k < |bars| && bars[k].key != ""
    ensures var bars := FilteredBars(Projections.BarChart(rows), search);
      var chart := BarChartView.ChartData(bars, None);
      var selected := Toggle(None, BarChartView.OnClick(chart.labels, [k]).value);
      BarChartView.ColorAt(bars, selected, i) == BarChartView.Dim <==> i != k
  {
    var bars := FilteredBars(Projections.BarChart(rows), search);
    BarChartView.BarChartDistinct(rows);
    FilteredBarsDistinct(Projections.BarChart(rows), search);
    BarChartView.SelectionDimsOthers(bars, k, i);
  }

  // ---- the trend badge ----

  datatype Badge = Badge(up: bool, percent: nat)

  /** Shown only when `trend_percent` is present: an up arrow for a
      non-negative trend, and its magnitude. */
  function TrendBadge(t: Option<int>): (b: Option<Badge>)
    ensures b.Some? <==> t.Some?
    ensures b.Some? ==> (b.value.up <==> t.value >= 0)
    ensures b.Some? ==> b.value.percent as int == t.value || b.value.percent as int == -t.value
  {
    match t
    case None => None
    case Some(v) => Some(Badge(v >= 0, if v >= 0 then v else -v))
  }

  /** When the period has at least as many clicks as the previous one, the
      badge points up. */
  lemma BadgeUpWithoutDrop(q: Query, rows: seq<ClickRow>, current: nat)
    requires TrendPercent(q, rows, current).Some?
    requires current >= PreviousCount(rows, q.startDate.value, q.endDate.value)
    ensures TrendBadge(TrendPercent(q, rows, current)).value.up
  {
    TrendDirection(current, PreviousCount(rows, q.startDate.value, q.endDate.value));
  }
}
