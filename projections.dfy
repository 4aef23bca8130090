/** The aggregate queries of `GET /analytics`, each a function of the joined
    and filtered rows (or, for the heatmap, of all clicks). Grouped results
    are `Group` values: for the bar chart `key` is `feature_name` and `rows`
    is `total_clicks`; for the line chart and the heatmap `key` is the day and
    `rows` the count; for the top users `key` is the user, `rows` the click
    count and `top` the last click. Where SQL leaves the order of ties (or of
    an unordered GROUP BY) open, the model fixes one. */
module Projections {
  import opened Seqs
  import opened Store
  import opened Predicates
  import opened Aggregate
  import opened Rounding

  function FeatureOf(r: ClickRow): string { r.click.feature }
  function DayOf(r: ClickRow): int { Day(r.click.at) }
  function UserOf(r: ClickRow): User { r.user }
  function AtOf(r: ClickRow): int { r.click.at }
  function OneClick(r: ClickRow): int { 1 }

  // ---- bar chart ----

  /** `SELECT feature_name, COUNT(*) ... GROUP BY fc.feature_name ORDER BY
      total_clicks DESC`. */
  function BarChart(rows: seq<ClickRow>): seq<Group<string>>
  {
    Ordered(rows, FeatureOf, OneClick, RowsOf)
  }

  /** One bar per feature among the rows, most clicked first, each carrying
      the number of rows on that feature; the bars add up to the rows. */
  lemma BarChartSpec(rows: seq<ClickRow>)
    ensures SortedDesc(BarChart(rows), RowsOf)
    ensures GroupKeys(BarChart(rows)) == KeysOf(rows, FeatureOf)
    ensures |BarChart(rows)| == |KeysOf(rows, FeatureOf)|
    ensures forall g :: g in BarChart(rows) ==> g.rows == |RowsWith(rows, FeatureOf, g.key)| > 0
    ensures SumOf(BarChart(rows), RowsOf) == |rows|
  {
    OrderedKeys(rows, FeatureOf, OneClick, RowsOf);
    OrderedSums(rows, FeatureOf, OneClick, RowsOf);
    forall g | g in BarChart(rows) ensures g.rows == |RowsWith(rows, FeatureOf, g.key)| > 0 {
      OrderedDescribes(rows, FeatureOf, OneClick, RowsOf, g);
    }
  }

  // ---- line chart and heatmap: counts per day, oldest first ----

  /** Orders day groups oldest first when used as a largest-first key. */
  function Earliness(g: Group<int>): int
  {
    -g.key
  }

  /** `SELECT DATE(fc.timestamp) as date, COUNT(*) ... GROUP BY date ORDER BY
      date ASC`, over the rows that pass the line chart's conditions. */
  function LineChart(rows: seq<ClickRow>): seq<Group<int>>
  {
    Ordered(rows, DayOf, OneClick, Earliness)
  }

  /** Largest-first by `Earliness` with as many keys as groups means strictly
      increasing days. */
  lemma SortedDistinctStrict(r: seq<Group<int>>)
    requires SortedDesc(r, Earliness)
    requires |GroupKeys(r)| == |r|
    ensures forall i, j :: 0 <= i < j < |r| ==> r[i].key < r[j].key
  {
    if exists i, j :: 0 <= i < j < |r| && r[i].key >= r[j].key {
      var i, j :| 0 <= i < j < |r| && r[i].key >= r[j].key;
      assert r[i].key == r[j].key;
      KeysWithRepeat(r, i, j);
    }
  }

  lemma {:induction false} KeysWithRepeat<K>(r: seq<Group<K>>, i: int, j: int)
    requires 0 <= i < j < |r| && r[i].key == r[j].key
    ensures |GroupKeys(r)| < |r|
  {
    assert forall g :: g in r <==> g == r[0] || g in r[1..];
    if i == 0 {
      assert r[j] == r[1..][j - 1];
      assert GroupKeys(r) == GroupKeys(r[1..]);
      KeysAtMostLength(r[1..]);
    } else {
      KeysWithRepeat(r[1..], i - 1, j - 1);
      assert GroupKeys(r) == {r[0].key} + GroupKeys(r[1..]);
    }
  }

  lemma {:induction false} KeysAtMostLength<K>(r: seq<Group<K>>)
    ensures |GroupKeys(r)| <= |r|
  {
    if r != [] {
      KeysAtMostLength(r[1..]);
      assert forall g :: g in r <==> g == r[0] || g in r[1..];
      assert GroupKeys(r) == {r[0].key} + GroupKeys(r[1..]);
    }
  }

  /** One point per day on which some row falls, strictly oldest first, each
      counting the rows of that day; the points add up to the rows. */
  lemma LineChartSpec(rows: seq<ClickRow>)
    ensures forall i, j :: 0 <= i < j < |LineChart(rows)| ==> LineChart(rows)[i].key < LineChart(rows)[j].key
    ensures GroupKeys(LineChart(rows)) == KeysOf(rows, DayOf)
    ensures forall g :: g in LineChart(rows) ==> g.rows == |RowsWith(rows, DayOf, g.key)| > 0
    ensures SumOf(LineChart(rows), RowsOf) == |rows|
  {
    OrderedKeys(rows, DayOf, OneClick, Earliness);
    OrderedSums(rows, DayOf, OneClick, Earliness);
    SortedDistinctStrict(LineChart(rows));
    forall g | g in LineChart(rows) ensures g.rows == |RowsWith(rows, DayOf, g.key)| > 0 {
      OrderedDescribes(rows, DayOf, OneClick, Earliness, g);
    }
  }

  function ClickDay(c: Click): int { Day(c.at) }
  function OneOf(c: Click): int { 1 }

  /** The clicks at or after midnight of day `first` (`fc.timestamp >=
      DATE(...)` compares a timestamp with a bare date). */
  function ClicksSince(clicks: seq<Click>, first: int): (r: seq<Click>)
    ensures forall c :: c in r <==> c in clicks && Day(c.at) >= first
  {
    if clicks == [] then []
    else
      DayBounds(clicks[0].at, first);
      (if clicks[0].at >= StartOfDay(first) then [clicks[0]] else []) + ClicksSince(clicks[1..], first)
  }

  /** The heatmap query: every click of the last 90 days and after, of every
      user and whatever the filters, counted per day, oldest first. */
  function Heatmap(clicks: seq<Click>, today: int): seq<Group<int>>
  {
    Ordered(ClicksSince(clicks, today - 90), ClickDay, OneOf, Earliness)
  }

  lemma HeatmapSpec(clicks: seq<Click>, today: int)
    ensures var h := Heatmap(clicks, today);
      && (forall i, j :: 0 <= i < j < |h| ==> h[i].key < h[j].key)
      && (forall g :: g in h ==> g.key >= today - 90)
      && GroupKeys(h) == KeysOf(ClicksSince(clicks, today - 90), ClickDay)
      && (forall g :: g in h ==> g.rows == |RowsWith(clicks, ClickDay, g.key)| > 0)
  {
    var window := ClicksSince(clicks, today - 90);
    var h := Heatmap(clicks, today);
    OrderedKeys(window, ClickDay, OneOf, Earliness);
    SortedDistinctStrict(h);
    forall g | g in h ensures g.key >= today - 90 && g.rows == |RowsWith(clicks, ClickDay, g.key)| > 0 {
      OrderedDescribes(window, ClickDay, OneOf, Earliness, g);
      SameDayRows(clicks, today - 90, g.key);
    }
  }

  /** For a day inside the window, the window holds every click of that day. */
  lemma {:induction false} SameDayRows(clicks: seq<Click>, first: int, d: int)
    requires d >= first
    ensures RowsWith(ClicksSince(clicks, first), ClickDay, d) == RowsWith(clicks, ClickDay, d)
  {
    if clicks != [] {
      SameDayRows(clicks[1..], first, d);
      DayBounds(clicks[0].at, first);
      var s := ClicksSince(clicks, first);
      if clicks[0].at >= StartOfDay(first) {
        assert s[0] == clicks[0] && s[1..] == ClicksSince(clicks[1..], first);
      } else {
        assert s == ClicksSince(clicks[1..], first);
      }
    }
  }

  // ---- demographics ----

  datatype Slice = Slice(name: string, count: nat)

  function CountOf(s: Slice): int { s.count }

  /** `COUNT(DISTINCT u.id)` over the rows whose user carries label `l`. */
  function UsersLabelled(rows: seq<ClickRow>, labelOf: User -> string, l: string): set<int>
  {
    set r | r in rows && labelOf(r.user) == l :: r.user.id
  }

  /** `GROUP BY` a label: one slice per label that some row carries, in the
      order of `labels`. */
  function Pie(rows: seq<ClickRow>, labelOf: User -> string, labels: seq<string>): (pie: seq<Slice>)
    ensures forall s :: s in pie ==> s.name in labels && s.count == |UsersLabelled(rows, labelOf, s.name)| > 0
    ensures forall l :: l in labels && |UsersLabelled(rows, labelOf, l)| > 0 ==>
              Slice(l, |UsersLabelled(rows, labelOf, l)|) in pie
  {
    if labels == [] then []
    else
      var n := |UsersLabelled(rows, labelOf, labels[0])|;
      var rest := Pie(rows, labelOf, labels[1..]);
      assert forall l :: l in labels ==> l == labels[0] || l in labels[1..];
      (if n > 0 then [Slice(labels[0], n)] else []) + rest
  }

  /** The users behind the rows whose labelOf is one of `labels`. */
  function UsersAmong(rows: seq<ClickRow>, labelOf: User -> string, labels: seq<string>): set<int>
  {
    set r | r in rows && labelOf(r.user) in labels :: r.user.id
  }

  /** When the labels differ, the slices split the users: a user has one
      labelOf because a joined row's user is determined by its id. */
  lemma {:induction false} PieSum(users: seq<User>, rows: seq<ClickRow>, labelOf: User -> string, labels: seq<string>)
    requires forall r :: r in rows ==> JoinedClick(users, r)
    requires Distinct(labels)
    ensures SumOf(Pie(rows, labelOf, labels), CountOf) == |UsersAmong(rows, labelOf, labels)|
  {
    if labels == [] {
      assert UsersAmong(rows, labelOf, labels) == {};
    } else {
      var l := labels[0];
      var a := UsersLabelled(rows, labelOf, l);
      var b := UsersAmong(rows, labelOf, labels[1..]);
      assert Distinct(labels[1..]);
      PieSum(users, rows, labelOf, labels[1..]);
      var n := |a|;
      SumOfConcat(if n > 0 then [Slice(l, n)] else [], Pie(rows, labelOf, labels[1..]), CountOf);
      assert forall x :: x in labels <==> x == l || x in labels[1..];
      assert UsersAmong(rows, labelOf, labels) == a + b;
      forall id | id in a ensures id !in b {
        var x :| x in rows && labelOf(x.user) == l && x.user.id == id;
        if id in b {
          var y :| y in rows && labelOf(y.user) in labels[1..] && y.user.id == id;
          JoinedUserDetermined(users, x, y);
        }
      }
      assert a * b == {};
    }
  }

  /** `COUNT(DISTINCT fc.user_id)`. */
  function UniqueUsers(rows: seq<ClickRow>): set<int>
  {
    set r | r in rows :: r.click.userId
  }

  /** When every row's labelOf is among the labels, the slices add up to the
      number of distinct users. */
  lemma PieCoversUsers(users: seq<User>, rows: seq<ClickRow>, labelOf: User -> string, labels: seq<string>)
    requires forall r :: r in rows ==> JoinedClick(users, r)
    requires Distinct(labels)
    requires forall r :: r in rows ==> labelOf(r.user) in labels
    ensures SumOf(Pie(rows, labelOf, labels), CountOf) == |UniqueUsers(rows)|
  {
    PieSum(users, rows, labelOf, labels);
    assert UsersAmong(rows, labelOf, labels) == UniqueUsers(rows);
  }

  function GenderLabel(u: User): string { GenderName(u.gender) }

  /** SQLite returns the groups of `GROUP BY u.gender` in labelOf order. */
  const GenderLabels: seq<string> := ["Female", "Male", "Other"]

  function GenderPie(rows: seq<ClickRow>): seq<Slice>
  {
    Pie(rows, GenderLabel, GenderLabels)
  }

  /** One slice per gender present, counting its distinct users; together
      the slices count every distinct user once. */
  lemma GenderPieSpec(users: seq<User>, rows: seq<ClickRow>, g: Gender, n: nat)
    requires forall r :: r in rows ==> JoinedClick(users, r)
    ensures Slice(GenderName(g), n) in GenderPie(rows) <==> n == |UsersLabelled(rows, GenderLabel, GenderName(g))| > 0
    ensures SumOf(GenderPie(rows), CountOf) == |UniqueUsers(rows)|
  {
    assert GenderName(g) in GenderLabels;
    PieCoversUsers(users, rows, GenderLabel, GenderLabels);
  }

  /** `CASE WHEN u.age < 18 THEN '<18' WHEN u.age BETWEEN 18 AND 40 THEN
      '18-40' ELSE '>40' END`. */
  function AgeRange(u: User): string
  {
    if u.age < 18 then "<18" else if 18 <= u.age <= 40 then "18-40" else ">40"
  }

  const AgeLabels: seq<string> := ["18-40", "<18", ">40"]

  function AgePie(rows: seq<ClickRow>): seq<Slice>
  {
    Pie(rows, AgeRange, AgeLabels)
  }

  /** The pie's buckets are the filter's buckets: a user falls in the range
      labelled `b` exactly when the `age_group=b` filter admits them. */
  lemma AgeBucketsAgree(u: User, b: string)
    requires b in AgeLabels
    ensures AgeRange(u) == b <==> AgeAdmits(b, u.age)
  {
  }

  lemma AgePieSpec(users: seq<User>, rows: seq<ClickRow>, b: string, n: nat)
    requires forall r :: r in rows ==> JoinedClick(users, r)
    requires b in AgeLabels
    ensures Slice(b, n) in AgePie(rows) <==> n == |UsersLabelled(rows, AgeRange, b)| > 0
    ensures SumOf(AgePie(rows), CountOf) == |UniqueUsers(rows)|
  {
    PieCoversUsers(users, rows, AgeRange, AgeLabels);
  }

  // ---- time spent per feature ----

  function DurationFeature(r: DurationRow): string { r.duration.feature }
  function DurationSeconds(r: DurationRow): int { r.duration.seconds }

  /** A `time_spent` result row: `AVG` and `SUM` of `duration_seconds`. */
  datatype FeatureTime = FeatureTime(feature: string, avgDuration: real, totalDuration: int)

  function TotalDurationOf(t: FeatureTime): int { t.totalDuration }

  function Average(total: int, count: int): real
    requires count > 0
  {
    total as real / count as real
  }

  /** The result rows for the ordered groups, one per group. */
  function TimeEntries(groups: seq<Group<string>>): (t: seq<FeatureTime>)
    requires forall g :: g in groups ==> g.rows > 0
    ensures |t| == |groups|
    ensures forall i :: 0 <= i < |t| ==> t[i].feature == groups[i].key && t[i].totalDuration == groups[i].total
    ensures forall i :: 0 <= i < |t| ==> t[i].avgDuration == Average(groups[i].total, groups[i].rows)
  {
    if groups == [] then []
    else
      assert groups[0] in groups;
      assert forall g :: g in groups[1..] ==> g in groups;
      [FeatureTime(groups[0].key, Average(groups[0].total, groups[0].rows), groups[0].total)]
      + TimeEntries(groups[1..])
  }

  function TimeGroups(rows: seq<DurationRow>): seq<Group<string>>
  {
    Ordered(rows, DurationFeature, DurationSeconds, TotalOf)
  }

  /** `SELECT feature_name, AVG(duration_seconds), SUM(duration_seconds) ...
      GROUP BY feature_name ORDER BY total_duration DESC`. */
  function TimeSpent(rows: seq<DurationRow>): seq<FeatureTime>
  {
    TimeGroupsCounted(rows);
    TimeEntries(TimeGroups(rows))
  }

  lemma TimeGroupsCounted(rows: seq<DurationRow>)
    ensures forall g :: g in TimeGroups(rows) ==> g.rows > 0
  {
    forall g | g in TimeGroups(rows) ensures g.rows > 0 {
      OrderedDescribes(rows, DurationFeature, DurationSeconds, TotalOf, g);
    }
  }

  /** One entry per feature with tracked time, largest total first. */
  lemma TimeSpentOrder(rows: seq<DurationRow>)
    ensures SortedDesc(TimeSpent(rows), TotalDurationOf)
    ensures (set e | e in TimeSpent(rows) :: e.feature) == KeysOf(rows, DurationFeature)
  {
    var groups := TimeGroups(rows);
    var t := TimeSpent(rows);
    OrderedKeys(rows, DurationFeature, DurationSeconds, TotalOf);
    forall k | k in KeysOf(rows, DurationFeature) ensures k in (set e | e in t :: e.feature) {
      assert k in GroupKeys(groups);
      var g :| g in groups && g.key == k;
      var i :| 0 <= i < |groups| && groups[i] == g;
      assert t[i] in t;
    }
    forall e | e in t ensures e.feature in KeysOf(rows, DurationFeature) {
      var i :| 0 <= i < |t| && t[i] == e;
      assert groups[i] in groups;
    }
  }

  /** Each entry's total is the sum of that feature's durations and its
      average that sum over their number. */
  lemma TimeSpentEntries(rows: seq<DurationRow>, i: int)
    requires 0 <= i < |TimeSpent(rows)|
    ensures var e := TimeSpent(rows)[i];
      var mine := RowsWith(rows, DurationFeature, e.feature);
      && |mine| > 0
      && e.totalDuration == SumOf(mine, DurationSeconds)
      && e.avgDuration == Average(e.totalDuration, |mine|)
  {
    var groups := TimeGroups(rows);
    TimeGroupsCounted(rows);
    OrderedDescribes(rows, DurationFeature, DurationSeconds, TotalOf, groups[i]);
  }

  /** The totals add up to all the tracked time of the rows. */
  lemma TimeSpentTotals(rows: seq<DurationRow>)
    ensures SumOf(TimeSpent(rows), TotalDurationOf) == SumOf(rows, DurationSeconds)
  {
    OrderedSums(rows, DurationFeature, DurationSeconds, TotalOf);
    SameTotals(TimeGroups(rows), TimeSpent(rows));
  }

  lemma {:induction false} SameTotals(groups: seq<Group<string>>, t: seq<FeatureTime>)
    requires |groups| == |t|
    requires forall i :: 0 <= i < |t| ==> t[i].totalDuration == groups[i].total
    ensures SumOf(t, TotalDurationOf) == SumOf(groups, TotalOf)
  {
    if t != [] {
      SameTotals(groups[1..], t[1..]);
    }
  }

  // ---- recent activity ----

  datatype Activity = Activity(username: string, feature: string, at: Instant)

  function ActivityOf(r: ClickRow): Activity
  {
    Activity(r.user.username, r.click.feature, r.click.at)
  }

  function ActivitiesOf(rows: seq<ClickRow>): seq<Activity>
  {
    seq(|rows|, i requires 0 <= i < |rows| => ActivityOf(rows[i]))
  }

  /** `SELECT u.username, fc.feature_name, fc.timestamp ... ORDER BY
      fc.timestamp DESC LIMIT 5`. */
  function RecentActivity(rows: seq<ClickRow>): seq<Activity>
  {
    ActivitiesOf(Take(SortBy(rows, AtOf), 5))
  }

  /** The five latest rows (all of them when there are fewer), newest first,
      each entry from a different row. */
  lemma RecentActivityOrder(rows: seq<ClickRow>)
    ensures |RecentActivity(rows)| == (if |rows| <= 5 then |rows| else 5)
    ensures forall i, j :: 0 <= i < j < |RecentActivity(rows)| ==> RecentActivity(rows)[i].at >= RecentActivity(rows)[j].at
    ensures forall a :: a in RecentActivity(rows) ==> exists r :: r in rows && ActivityOf(r) == a
    ensures multiset(RecentActivity(rows)) <= multiset(ActivitiesOf(rows))
  {
    var sorted := SortBy(rows, AtOf);
    var latest := Take(sorted, 5);
    var recent := RecentActivity(rows);
    forall a | a in recent ensures exists r :: r in rows && ActivityOf(r) == a {
      var i :| 0 <= i < |recent| && recent[i] == a;
      assert recent[i] == ActivityOf(sorted[i]);
      assert sorted[i] in multiset(rows);
    }
    TakeActivities(sorted, 5);
    ActivitiesPermutation(sorted, rows);
  }

  lemma TakeActivities(s: seq<ClickRow>, n: nat)
    ensures multiset(ActivitiesOf(Take(s, n))) <= multiset(ActivitiesOf(s))
  {
    var t := Take(s, n);
    assert s == t + s[|t|..];
    ActivitiesConcat(t, s[|t|..]);
  }

  lemma ActivitiesConcat(a: seq<ClickRow>, b: seq<ClickRow>)
    ensures ActivitiesOf(a + b) == ActivitiesOf(a) + ActivitiesOf(b)
  {
  }

  /** Reordering the rows reorders their activities. */
  lemma {:induction false} ActivitiesPermutation(a: seq<ClickRow>, b: seq<ClickRow>)
    requires multiset(a) == multiset(b)
    ensures multiset(ActivitiesOf(a)) == multiset(ActivitiesOf(b))
    decreases |a|
  {
    if a == [] {
      assert |multiset(b)| == 0;
    } else {
      var x := a[0];
      assert x in multiset(b);
      var j :| 0 <= j < |b| && b[j] == x;
      var rest := b[..j] + b[j + 1..];
      assert b == b[..j] + [x] + b[j + 1..];
      assert a == [x] + a[1..];
      calc {
        multiset(a[1..]);
        multiset(a) - multiset{x};
        multiset(b) - multiset{x};
        { assert multiset(b) == multiset(b[..j]) + multiset{x} + multiset(b[j + 1..]); }
        multiset(rest);
      }
      ActivitiesPermutation(a[1..], rest);
      ActivitiesConcat([x], a[1..]);
      ActivitiesConcat(b[..j] + [x], b[j + 1..]);
      ActivitiesConcat(b[..j], [x]);
      ActivitiesConcat(b[..j], b[j + 1..]);
    }
  }

  /** Nothing newer than the last entry is left out. */
  lemma RecentActivityLatest(rows: seq<ClickRow>, r: ClickRow)
    requires r in rows
    requires r.click.at > RecentActivity(rows)[|RecentActivity(rows)| - 1].at
    ensures ActivityOf(r) in RecentActivity(rows)
  {
    var sorted := SortBy(rows, AtOf);
    var latest := Take(sorted, 5);
    var recent := RecentActivity(rows);
    assert r in multiset(sorted);
    var j :| 0 <= j < |sorted| && sorted[j] == r;
    assert recent[j] == ActivityOf(r);
  }

  // ---- top users ----

  datatype TopUser = TopUser(username: string, gender: Gender, age: int, clickCount: nat, lastActive: Instant)

  function ClickCountOf(t: TopUser): int { t.clickCount }

  function Ranked(g: Group<User>): TopUser
  {
    TopUser(g.key.username, g.key.gender, g.key.age, g.rows, g.top)
  }

  function UserGroups(rows: seq<ClickRow>): seq<Group<User>>
  {
    Ordered(rows, UserOf, AtOf, RowsOf)
  }

  /** `SELECT u.username, u.gender, u.age, COUNT(fc.id), MAX(fc.timestamp)
      ... GROUP BY u.id ORDER BY click_count DESC LIMIT 5`. In joined rows
      the user is determined by `u.id`, so grouping by the user record forms
      the same groups. */
  function TopUsers(rows: seq<ClickRow>): seq<TopUser>
  {
    var top := Take(UserGroups(rows), 5);
    seq(|top|, i requires 0 <= i < |top| => Ranked(top[i]))
  }

  /** `e` is the entry for user `u`: their details, their number of clicks and
      the time of their latest click. */
  predicate Summarises(rows: seq<ClickRow>, u: User, e: TopUser)
  {
    var mine := RowsWith(rows, UserOf, u);
    && e.username == u.username && e.gender == u.gender && e.age == u.age
    && e.clickCount == |mine| > 0
    && (exists r :: r in mine && r.click.at == e.lastActive)
    && (forall r :: r in mine ==> r.click.at <= e.lastActive)
  }

  /** At most five entries, most clicks first, one per user up to five. */
  lemma TopUsersOrder(rows: seq<ClickRow>)
    ensures |TopUsers(rows)| == (if |KeysOf(rows, UserOf)| <= 5 then |KeysOf(rows, UserOf)| else 5)
    ensures SortedDesc(TopUsers(rows), ClickCountOf)
  {
    OrderedKeys(rows, UserOf, AtOf, RowsOf);
    var t := TopUsers(rows);
    var top := Take(UserGroups(rows), 5);
    assert forall i :: 0 <= i < |t| ==> t[i].clickCount == top[i].rows;
  }

  /** Entry `i` summarises the user it names. */
  lemma TopUsersEntry(rows: seq<ClickRow>, i: int)
    requires 0 <= i < |TopUsers(rows)|
    ensures TopUsers(rows)[i].username == UserGroups(rows)[i].key.username
    ensures UserGroups(rows)[i].key in KeysOf(rows, UserOf)
    ensures Summarises(rows, UserGroups(rows)[i].key, TopUsers(rows)[i])
  {
    var sorted := UserGroups(rows);
    OrderedDescribes(rows, UserOf, AtOf, RowsOf, sorted[i]);
  }

  /** Every user with more clicks than the last entry is listed. */
  lemma TopUsersComplete(rows: seq<ClickRow>, u: User)
    requires u in KeysOf(rows, UserOf)
    requires |RowsWith(rows, UserOf, u)| > TopUsers(rows)[|TopUsers(rows)| - 1].clickCount
    ensures exists i :: 0 <= i < |TopUsers(rows)| && Summarises(rows, u, TopUsers(rows)[i])
  {
    var sorted := UserGroups(rows);
    var top := Take(sorted, 5);
    var t := TopUsers(rows);
    OrderedKeys(rows, UserOf, AtOf, RowsOf);
    assert u in GroupKeys(sorted);
    var g :| g in sorted && g.key == u;
    var j :| 0 <= j < |sorted| && sorted[j] == g;
    OrderedDescribes(rows, UserOf, AtOf, RowsOf, g);
    var last := |t| - 1;
    assert t[last].clickCount == RowsOf(sorted[last]);
    assert RowsOf(sorted[j]) > RowsOf(sorted[last]);
    assert j < |t|;
    TopUsersEntry(rows, j);
  }

  // ---- summary counts ----

  /** `ROUND(AVG(duration_seconds))`, which is NULL over no rows, then `|| 0`. */
  function AvgSession(rows: seq<DurationRow>): (avg: int)
    ensures |rows| == 0 ==> avg == 0
    ensures |rows| > 0 ==> var mean := Average(SumOf(rows, DurationSeconds), |rows|);
      (mean >= 0.0 ==> avg as real - 0.5 <= mean < avg as real + 0.5)
      && (mean < 0.0 ==> avg as real - 0.5 < mean <= avg as real + 0.5)
  {
    if |rows| == 0 then 0 else SqlRound(Average(SumOf(rows, DurationSeconds), |rows|))
  }
}
