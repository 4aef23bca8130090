/** The three tables of the analytics database (users, feature_clicks,
    time_spent) as sequences of records, and the `JOIN users u ON x.user_id =
    u.id` every filtered projection reads through. Timestamps are whole
    seconds since 1970-01-01 00:00:00 UTC; the store's 'YYYY-MM-DD HH:MM:SS'
    text orders exactly as these numbers do. */
module Store {
  import opened Seqs

  /** Seconds since 1970-01-01 00:00:00 UTC. */
  type Instant = int

  const SecondsPerDay: int := 86400

  /** `DATE(timestamp)`: the day number of an instant (day 0 is 1970-01-01). */
  function Day(t: Instant): int
  {
    t / SecondsPerDay
  }

  /** 'YYYY-MM-DD' as a lower bound on timestamps: midnight of that day. */
  function StartOfDay(day: int): Instant
  {
    day * SecondsPerDay
  }

  /** 'YYYY-MM-DD 23:59:59': the last second of that day. */
  function EndOfDay(day: int): Instant
  {
    day * SecondsPerDay + SecondsPerDay - 1
  }

  lemma DayBounds(t: Instant, day: int)
    ensures t >= StartOfDay(day) <==> Day(t) >= day
    ensures t <= EndOfDay(day) <==> Day(t) <= day
  {
    var q := t / SecondsPerDay;
    assert t == q * SecondsPerDay + t % SecondsPerDay;
    if q >= day + 1 {
      assert q * SecondsPerDay >= (day + 1) * SecondsPerDay;
    }
    if q <= day - 1 {
      assert q * SecondsPerDay <= (day - 1) * SecondsPerDay;
    }
    if q >= day {
      assert q * SecondsPerDay >= day * SecondsPerDay;
    }
    if q <= day {
      assert q * SecondsPerDay <= day * SecondsPerDay;
    }
  }

  /** The `gender` column's CHECK constraint admits exactly these three. */
  datatype Gender = Male | Female | Other

  function GenderName(g: Gender): string
  {
    match g
    case Male => "Male"
    case Female => "Female"
    case Other => "Other"
  }

  /** A row of `users`. The password hash is opaque to the model. */
  datatype User = User(id: int, username: string, passwordHash: string, age: int, gender: Gender)

  /** A row of `feature_clicks`. */
  datatype Click = Click(id: int, userId: int, feature: string, at: Instant)

  /** A row of `time_spent`. */
  datatype Duration = Duration(id: int, userId: int, feature: string, seconds: int, at: Instant)

  /** A row of `feature_clicks fc JOIN users u`. */
  datatype ClickRow = ClickRow(user: User, click: Click)

  /** A row of `time_spent ts JOIN users u`. */
  datatype DurationRow = DurationRow(user: User, duration: Duration)

  /** The user whose `id` is `id`, if any (`id` is the primary key). */
  function FindUser(users: seq<User>, id: int): (r: Option<User>)
    ensures r.Some? ==> r.value in users && r.value.id == id
    ensures r.None? ==> forall u :: u in users ==> u.id != id
  {
    if users == [] then None
    else if users[0].id == id then Some(users[0])
    else FindUser(users[1..], id)
  }

  /** A joined row pairs a click with the user its `user_id` names. */
  predicate JoinedClick(users: seq<User>, r: ClickRow)
  {
    FindUser(users, r.click.userId) == Some(r.user)
  }

  predicate JoinedDuration(users: seq<User>, r: DurationRow)
  {
    FindUser(users, r.duration.userId) == Some(r.user)
  }

  /** `feature_clicks fc JOIN users u ON fc.user_id = u.id`, in click order:
      every click whose user exists, paired with that user. */
  function JoinClicks(users: seq<User>, clicks: seq<Click>): (rows: seq<ClickRow>)
    ensures |rows| <= |clicks|
    ensures forall r :: r in rows ==> r.click in clicks && JoinedClick(users, r)
    ensures forall c :: c in clicks && FindUser(users, c.userId).Some? ==>
              ClickRow(FindUser(users, c.userId).value, c) in rows
  {
    if clicks == [] then []
    else
      var rest := JoinClicks(users, clicks[1..]);
      match FindUser(users, clicks[0].userId)
      case Some(u) => [ClickRow(u, clicks[0])] + rest
      case None => rest
  }

  /** `time_spent ts JOIN users u ON ts.user_id = u.id`, in row order. */
  function JoinDurations(users: seq<User>, durations: seq<Duration>): (rows: seq<DurationRow>)
    ensures |rows| <= |durations|
    ensures forall r :: r in rows ==> r.duration in durations && JoinedDuration(users, r)
    ensures forall d :: d in durations && FindUser(users, d.userId).Some? ==>
              DurationRow(FindUser(users, d.userId).value, d) in rows
  {
    if durations == [] then []
    else
      var rest := JoinDurations(users, durations[1..]);
      match FindUser(users, durations[0].userId)
      case Some(u) => [DurationRow(u, durations[0])] + rest
      case None => rest
  }

  /** In joined rows the user is a function of the user id: two rows with the
      same `u.id` carry the same user, hence the same gender and age. */
  lemma JoinedUserDetermined(users: seq<User>, a: ClickRow, b: ClickRow)
    requires JoinedClick(users, a) && JoinedClick(users, b)
    requires a.user.id == b.user.id
    ensures a.user == b.user
  {
    assert a.click.userId == a.user.id;
    assert b.click.userId == b.user.id;
  }
}
