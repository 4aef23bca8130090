/** `GET /analytics`: every projection computed from one parsed query over
    the three tables, assembled into the response body. `today` is the day
    number of `DATE('now')`. */
module Engine {
  import opened Seqs
  import opened Store
  import opened Predicates
  import opened Aggregate
  import opened Projections
  import opened Trend

  datatype Summary = Summary(
    totalClicks: nat,
    uniqueUsers: nat,
    uniqueFeatures: nat,
    avgSessionTime: int,
    trendPercent: Option<int>)

  datatype Report = Report(
    barChart: seq<Group<string>>,
    lineChart: seq<Group<int>>,
    genderPie: seq<Slice>,
    agePie: seq<Slice>,
    timeSpent: seq<FeatureTime>,
    recentActivity: seq<Activity>,
    heatmap: seq<Group<int>>,
    topUsers: seq<TopUser>,
    summary: Summary)

  /** The joined clicks that pass the base conditions. */
  function Matched(users: seq<User>, clicks: seq<Click>, q: Query): seq<ClickRow>
  {
    SelectClicks(JoinClicks(users, clicks), Clauses(q))
  }

  /** The joined durations that pass the base conditions read against
      `time_spent`. */
  function MatchedDurations(users: seq<User>, durations: seq<Duration>, q: Query): seq<DurationRow>
  {
    SelectDurations(JoinDurations(users, durations), Clauses(q))
  }

  function Analytics(users: seq<User>, clicks: seq<Click>, durations: seq<Duration>, q: Query, today: int): Report
  {
    var rows := Matched(users, clicks, q);
    var lineRows := SelectClicks(JoinClicks(users, clicks), LineClauses(q));
    var timed := MatchedDurations(users, durations, q);
    Report(
      BarChart(rows),
      LineChart(lineRows),
      GenderPie(rows),
      AgePie(rows),
      TimeSpent(timed),
      RecentActivity(rows),
      Heatmap(clicks, today),
      TopUsers(rows),
      Summary(
        |rows|,
        |UniqueUsers(rows)|,
        |KeysOf(rows, FeatureOf)|,
        AvgSession(timed),
        TrendPercent(q, JoinClicks(users, clicks), |rows|)))
  }

  /** A click is counted exactly when its user exists, its day lies in the
      date range and its user passes the gender and age filters. */
  lemma MatchedMeaning(users: seq<User>, clicks: seq<Click>, q: Query, r: ClickRow)
    ensures r in Matched(users, clicks, q)
            <==> r in JoinClicks(users, clicks) && Admits(q, r.user, r.click.at)
  {
    ClausesMeaning(q, r.user, r.click.feature, r.click.at);
  }

  lemma MatchedJoined(users: seq<User>, clicks: seq<Click>, q: Query)
    ensures forall r :: r in Matched(users, clicks, q) ==> JoinedClick(users, r)
  {
  }

  /** The bars add up to the total and there is one bar per distinct
      feature. */
  lemma SummaryAgreesWithBars(users: seq<User>, clicks: seq<Click>, durations: seq<Duration>, q: Query, today: int)
    ensures var a := Analytics(users, clicks, durations, q, today);
      && a.summary.totalClicks == SumOf(a.barChart, RowsOf)
      && a.summary.uniqueFeatures == |a.barChart|
  {
    var rows := Matched(users, clicks, q);
    var a := Analytics(users, clicks, durations, q, today);
    assert a.barChart == BarChart(rows);
    assert a.summary.totalClicks == |rows|;
    assert a.summary.uniqueFeatures == |KeysOf(rows, FeatureOf)|;
    BarChartSpec(rows);
  }

  /** Each pie splits the distinct users. */
  lemma SummaryAgreesWithPies(users: seq<User>, clicks: seq<Click>, durations: seq<Duration>, q: Query, today: int)
    ensures var a := Analytics(users, clicks, durations, q, today);
      && a.summary.uniqueUsers == SumOf(a.genderPie, CountOf)
      && a.summary.uniqueUsers == SumOf(a.agePie, CountOf)
  {
    var rows := Matched(users, clicks, q);
    var a := Analytics(users, clicks, durations, q, today);
    assert a.genderPie == GenderPie(rows) && a.agePie == AgePie(rows);
    assert a.summary.uniqueUsers == |UniqueUsers(rows)|;
    MatchedJoined(users, clicks, q);
    GenderPieSpec(users, rows, Male, 0);
    AgePieSpec(users, rows, "<18", 0);
  }

  /** Recent activity lists five entries, or every match when there are
      fewer. */
  lemma RecentActivityLength(users: seq<User>, clicks: seq<Click>, durations: seq<Duration>, q: Query, today: int)
    ensures var a := Analytics(users, clicks, durations, q, today);
      |a.recentActivity| == (if a.summary.totalClicks <= 5 then a.summary.totalClicks else 5)
  {
    var rows := Matched(users, clicks, q);
    var a := Analytics(users, clicks, durations, q, today);
    assert a.recentActivity == RecentActivity(rows) && a.summary.totalClicks == |rows|;
    RecentActivityOrder(rows);
  }

  /** The heatmap ignores every filter. */
  lemma HeatmapIgnoresQuery(users: seq<User>, clicks: seq<Click>, durations: seq<Duration>, q1: Query, q2: Query, today: int)
    ensures Analytics(users, clicks, durations, q1, today).heatmap
         == Analytics(users, clicks, durations, q2, today).heatmap
  {
  }

  /** `feature_name` changes the line chart and nothing else. */
  lemma FeatureNameOnlyChangesLine(users: seq<User>, clicks: seq<Click>, durations: seq<Duration>, q: Query, f: string, today: int)
    ensures var a := Analytics(users, clicks, durations, q, today);
      var b := Analytics(users, clicks, durations, q.(featureName := f), today);
      a.(lineChart := b.lineChart) == b
  {
    FeatureNameOnlyNarrowsLine(q, f);
  }

  /** Without tracked time the average session is 0, not missing. */
  lemma NoDurationsNoAverage(users: seq<User>, clicks: seq<Click>, q: Query, today: int)
    ensures Analytics(users, clicks, [], q, today).summary.avgSessionTime == 0
    ensures Analytics(users, clicks, [], q, today).timeSpent == []
  {
    var timed := MatchedDurations(users, [], q);
    assert timed == [];
    TimeSpentOrder(timed);
    assert KeysOf(timed, DurationFeature) == {};
  }

  /** With no clicks every chart is empty. */
  lemma NoClicksEmptyCharts(users: seq<User>, durations: seq<Duration>, q: Query, today: int)
    ensures var a := Analytics(users, [], durations, q, today);
      && a.barChart == [] && a.lineChart == [] && a.heatmap == [] && a.topUsers == []
  {
    var a := Analytics(users, [], durations, q, today);
    var rows := Matched(users, [], q);
    assert rows == [];
    assert SelectClicks(JoinClicks(users, []), LineClauses(q)) == [];
    assert ClicksSince([], today - 90) == [];
    assert a.barChart == Ordered(rows, FeatureOf, OneClick, RowsOf);
    assert a.lineChart == Ordered(rows, DayOf, OneClick, Earliness);
    assert a.heatmap == Ordered([], ClickDay, OneOf, Earliness);
    assert a.topUsers == TopUsers(rows);
    OrderedKeys(rows, FeatureOf, OneClick, RowsOf);
    OrderedKeys(rows, DayOf, OneClick, Earliness);
    OrderedKeys([], ClickDay, OneOf, Earliness);
    TopUsersOrder(rows);
    assert KeysOf(rows, FeatureOf) == {} && KeysOf(rows, DayOf) == {} && KeysOf(rows, UserOf) == {};
    assert KeysOf([], ClickDay) == {};
  }

  /** With no clicks the pies and the recent activity are empty, the totals
      are zero and there is no trend. */
  lemma NoClicksEmptySummary(users: seq<User>, durations: seq<Duration>, q: Query, today: int)
    ensures var a := Analytics(users, [], durations, q, today);
      && a.genderPie == [] && a.agePie == [] && a.recentActivity == []
      && a.summary.totalClicks == 0 && a.summary.uniqueUsers == 0
      && a.summary.uniqueFeatures == 0 && a.summary.trendPercent.None?
  {
    var rows := Matched(users, [], q);
    assert rows == [] && JoinClicks(users, []) == [];
    NoRowsNoTrend(q);
    NoRowsNoActivity(rows);
    EmptyPie(rows, GenderLabel, GenderLabels);
    EmptyPie(rows, AgeRange, AgeLabels);
  }

  lemma NoRowsNoTrend(q: Query)
    ensures TrendPercent(q, [], 0).None?
  {
    if q.startDate.Some? && q.endDate.Some? {
      assert SelectClicks([], PreviousClauses(q.startDate.value, q.endDate.value)) == [];
    }
  }

  lemma NoRowsNoActivity(rows: seq<ClickRow>)
    requires rows == []
    ensures RecentActivity(rows) == []
    ensures |UniqueUsers(rows)| == 0 && |KeysOf(rows, FeatureOf)| == 0
  {
    assert |SortBy(rows, AtOf)| == 0;
    assert KeysOf(rows, FeatureOf) == {};
    assert UniqueUsers(rows) == {};
  }

  lemma EmptyPie(rows: seq<ClickRow>, labelOf: User -> string, labels: seq<string>)
    requires rows == []
    ensures Pie(rows, labelOf, labels) == []
  {
  }
}
