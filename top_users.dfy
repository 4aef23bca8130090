/** The top-users panel: rank badges, "last active" texts and the click
    bars scaled against the first entry. Times are milliseconds since the
    epoch; the browser is taken to read the stored timestamp as UTC. */
module TopUsersPanel {
  import opened Seqs
  import opened Text
  import opened Store
  import opened Projections

  const MsPerMinute: int := 60000

  datatype Ago = Never | MinutesAgo(n: int) | HoursAgo(n: int) | DaysAgo(n: int)

  /** `formatTime`: whole minutes below an hour, whole hours below a day,
      whole days otherwise, every one rounded down; "—" without a time. */
  function FormatTime(lastActive: Option<int>, now: int): (a: Ago)
    ensures a.Never? <==> lastActive.None?
    ensures a.MinutesAgo? ==> var diff := now - lastActive.value;
      a.n < 60 && a.n * 60000 <= diff < (a.n + 1) * 60000
    ensures a.HoursAgo? ==> var diff := now - lastActive.value;
      1 <= a.n < 24 && a.n * 3600000 <= diff < (a.n + 1) * 3600000
    ensures a.DaysAgo? ==> var diff := now - lastActive.value;
      a.n >= 1 && a.n * 86400000 <= diff < (a.n + 1) * 86400000
  {
    match lastActive
    case None => Never
    case Some(ts) =>
      var diff := now - ts;
      var minutes := diff / MsPerMinute;
      FloorBounds(diff, MsPerMinute);
      if minutes < 60 then MinutesAgo(minutes)
      else
        var hours := minutes / 60;
        NestedFloor(diff);
        FloorBounds(diff, 3600000);
        if hours < 24 then HoursAgo(hours)
        else
          FloorBounds(diff, 86400000);
          DaysAgo(hours / 24)
  }

  lemma FloorBounds(x: int, d: int)
    requires d > 0
    ensures (x / d) * d <= x < (x / d) * d + d
  {
  }

  /** Whole hours from whole minutes are the whole hours of the
      milliseconds, and the same for days from hours. */
  lemma NestedFloor(x: int)
    ensures (x / 60000) / 60 == x / 3600000
    ensures ((x / 60000) / 60) / 24 == x / 86400000
  {
  }

  function AgoText(a: Ago): string
  {
    match a
    case Never => "\U{2014}"
    case MinutesAgo(n) => IntToString(n) + "m ago"
    case HoursAgo(n) => IntToString(n) + "h ago"
    case DaysAgo(n) => IntToString(n) + "d ago"
  }

  const Medals: seq<char> := ['\U{1F947}', '\U{1F948}', '\U{1F949}']

  /** Medals for the first three places, `#n` below them. */
  function RankLabel(i: nat): (r: string)
    ensures i < 3 ==> r == [Medals[i]]
    ensures i >= 3 ==> |r| > 1 && r[0] == '#' && r[1..] == IntToString(i + 1)
  {
    if i < 3 then [Medals[i]] else "#" + IntToString(i + 1)
  }

  /** Different places get different labels. */
  lemma RankLabelsDistinct(i: nat, j: nat)
    requires i != j
    ensures RankLabel(i) != RankLabel(j)
  {
    if i >= 3 && j >= 3 && RankLabel(i) == RankLabel(j) {
      assert RankLabel(i)[1..] == RankLabel(j)[1..];
      IntToStringInjective(i + 1, j + 1);
    }
  }

  /** `data[0]?.click_count || 1`: the scale of the click bars. */
  function MaxClicks(data: seq<TopUser>): (m: int)
    ensures m >= 1
    ensures data != [] && data[0].clickCount > 0 ==> m == data[0].clickCount
  {
    if data == [] || data[0].clickCount == 0 then 1 else data[0].clickCount
  }

  /** The bar width in percent: `click_count / maxClicks * 100`. */
  function Width(t: TopUser, max: int): real
    requires max >= 1
  {
    t.clickCount as real / max as real * 100.0
  }

  /** The entries arrive most clicked first, so no bar is wider than the
      panel and the first bar fills it. */
  lemma WidthsWithinPanel(rows: seq<ClickRow>, i: int)
    requires 0 <= i < |TopUsers(rows)|
    ensures 0.0 <= Width(TopUsers(rows)[i], MaxClicks(TopUsers(rows))) <= 100.0
    ensures TopUsers(rows)[0].clickCount > 0 ==> Width(TopUsers(rows)[0], MaxClicks(TopUsers(rows))) == 100.0
  {
    var t := TopUsers(rows);
    TopUsersOrder(rows);
    WidthBounded(t, i);
  }

  lemma WidthBounded(t: seq<TopUser>, i: int)
    requires SortedDesc(t, ClickCountOf) && 0 <= i < |t|
    ensures 0.0 <= Width(t[i], MaxClicks(t)) <= 100.0
    ensures t[0].clickCount > 0 ==> Width(t[0], MaxClicks(t)) == 100.0
  {
    var m := MaxClicks(t);
    if i > 0 {
      assert ClickCountOf(t[0]) >= ClickCountOf(t[i]);
    }
    Fraction(t[i].clickCount as real, m as real);
  }

  lemma Fraction(c: real, m: real)
    requires 0.0 <= c <= m && m > 0.0
    ensures 0.0 <= c / m * 100.0 <= 100.0
    ensures c == m ==> c / m * 100.0 == 100.0
  {
    assert c / m <= 1.0;
  }

  datatype UserRow = UserRow(rank: string, username: string, meta: (Gender, int, Ago), clicks: nat, width: real)

  datatype TopUsersView = NoUserData | UserList(rows: seq<UserRow>)

  /** The empty state for no data; otherwise row `i` shows entry `i` with
      its place, its details and its scaled bar. */
  function Panel(data: seq<TopUser>, now: int): (v: TopUsersView)
    ensures v.NoUserData? <==> data == []
    ensures v.UserList? ==> |v.rows| == |data|
    ensures v.UserList? ==> forall i :: 0 <= i < |data| ==>
      v.rows[i] == UserRow(RankLabel(i), data[i].username,
                           (data[i].gender, data[i].age, FormatTime(Some(data[i].lastActive * 1000), now)),
                           data[i].clickCount, Width(data[i], MaxClicks(data)))
  {
    if data == [] then NoUserData
    else
      var m := MaxClicks(data);
      UserList(seq(|data|, i requires 0 <= i < |data| =>
        UserRow(RankLabel(i), data[i].username,
                (data[i].gender, data[i].age, FormatTime(Some(data[i].lastActive * 1000), now)),
                data[i].clickCount, Width(data[i], m))))
  }
}
