/** The WHERE clause of `GET /analytics`: the ordered list of conditions built
    from the optional query parameters, the copy extended for the line chart,
    and the same list read against `time_spent` rows instead of
    `feature_clicks` rows. Conditions are typed values; each value stands for
    one pushed SQL condition together with its bound parameter. */
module Predicates {
  import opened Seqs
  import opened Store

  /** The query string. A date is a day number, `None` when the parameter is
      missing or empty; a missing text parameter is "" (both are falsy). */
  datatype Query = Query(
    startDate: Option<int>,
    endDate: Option<int>,
    ageGroup: string,
    gender: string,
    featureName: string)

  datatype Clause =
    | AtOrAfter(bound: Instant)   // timestamp >= ?
    | AtOrBefore(bound: Instant)  // timestamp <= ?
    | GenderIs(name: string)      // u.gender = ?
    | AgeUnder18                  // u.age < 18
    | AgeFrom18To40               // u.age >= 18 AND u.age <= 40
    | AgeOver40                   // u.age > 40
    | FeatureIs(name: string)     // feature_name = ?

  /** What a condition says of a joined row with user `u`, feature label
      `feature` and timestamp `at`. */
  predicate Holds(c: Clause, u: User, feature: string, at: Instant)
  {
    match c
    case AtOrAfter(b) => at >= b
    case AtOrBefore(b) => at <= b
    case GenderIs(g) => GenderName(u.gender) == g
    case AgeUnder18 => u.age < 18
    case AgeFrom18To40 => u.age >= 18 && u.age <= 40
    case AgeOver40 => u.age > 40
    case FeatureIs(f) => feature == f
  }

  /** The conditions read against `fc.` columns. */
  predicate HoldsOnClick(c: Clause, r: ClickRow)
  {
    Holds(c, r.user, r.click.feature, r.click.at)
  }

  /** The conditions after the `fc.` to `ts.` rewrite: the timestamp (and
      feature label) come from the `time_spent` row. */
  predicate HoldsOnDuration(c: Clause, r: DurationRow)
  {
    Holds(c, r.user, r.duration.feature, r.duration.at)
  }

  predicate AllHold(cs: seq<Clause>, u: User, feature: string, at: Instant)
  {
    forall c :: c in cs ==> Holds(c, u, feature, at)
  }

  predicate AllHoldOnClick(cs: seq<Clause>, r: ClickRow)
  {
    AllHold(cs, r.user, r.click.feature, r.click.at)
  }

  predicate AllHoldOnDuration(cs: seq<Clause>, r: DurationRow)
  {
    AllHold(cs, r.user, r.duration.feature, r.duration.at)
  }

  /** The condition the `age_group` switch pushes: none for an empty, `All`
      or unrecognised value. */
  function AgeClauses(ageGroup: string): seq<Clause>
  {
    if ageGroup == "" || ageGroup == "All" then []
    else if ageGroup == "<18" then [AgeUnder18]
    else if ageGroup == "18-40" then [AgeFrom18To40]
    else if ageGroup == ">40" then [AgeOver40]
    else []
  }

  /** The base `conditions` list, in push order: start date, end date,
      gender, age group. */
  function Clauses(q: Query): seq<Clause>
  {
    (if q.startDate.Some? then [AtOrAfter(StartOfDay(q.startDate.value))] else [])
    + (if q.endDate.Some? then [AtOrBefore(EndOfDay(q.endDate.value))] else [])
    + (if q.gender != "" && q.gender != "All" then [GenderIs(q.gender)] else [])
    + AgeClauses(q.ageGroup)
  }

  /** `lineConditions`: a copy of the base list, plus the feature condition
      when `feature_name` is given. */
  function LineClauses(q: Query): seq<Clause>
  {
    Clauses(q) + (if q.featureName != "" then [FeatureIs(q.featureName)] else [])
  }

  /** Builds `conditions` and `lineConditions` by successive pushes. */
  method BuildConditions(q: Query) returns (conditions: seq<Clause>, lineConditions: seq<Clause>)
    ensures conditions == Clauses(q)
    ensures lineConditions == LineClauses(q)
  {
    conditions := [];
    if q.startDate.Some? {
      conditions := conditions + [AtOrAfter(StartOfDay(q.startDate.value))];
    }
    if q.endDate.Some? {
      conditions := conditions + [AtOrBefore(EndOfDay(q.endDate.value))];
    }
    if q.gender != "" && q.gender != "All" {
      conditions := conditions + [GenderIs(q.gender)];
    }
    if q.ageGroup != "" && q.ageGroup != "All" {
      if q.ageGroup == "<18" {
        conditions := conditions + [AgeUnder18];
      } else if q.ageGroup == "18-40" {
        conditions := conditions + [AgeFrom18To40];
      } else if q.ageGroup == ">40" {
        conditions := conditions + [AgeOver40];
      }
    }
    lineConditions := conditions;
    if q.featureName != "" {
      lineConditions := lineConditions + [FeatureIs(q.featureName)];
    }
  }

  // ---- What the filter means, stated without the clause list ----

  /** Inclusive calendar-day range: on or after `start_date`, on or before
      the end of `end_date`. */
  predicate InDateRange(q: Query, at: Instant)
  {
    && (q.startDate.Some? ==> Day(at) >= q.startDate.value)
    && (q.endDate.Some? ==> Day(at) <= q.endDate.value)
  }

  /** Any gender value other than empty or `All` must match exactly. */
  predicate GenderAdmits(gender: string, g: Gender)
  {
    gender == "" || gender == "All" || gender == GenderName(g)
  }

  /** The three age buckets; every other value admits every age. */
  predicate AgeAdmits(ageGroup: string, age: int)
  {
    if ageGroup == "<18" then age < 18
    else if ageGroup == "18-40" then 18 <= age <= 40
    else if ageGroup == ">40" then age > 40
    else true
  }

  predicate Admits(q: Query, u: User, at: Instant)
  {
    InDateRange(q, at) && GenderAdmits(q.gender, u.gender) && AgeAdmits(q.ageGroup, u.age)
  }

  /** A row passes the base conditions exactly when it lies in the date range
      and its user passes the gender and age filters; the feature label plays
      no part. */
  lemma ClausesMeaning(q: Query, u: User, feature: string, at: Instant)
    ensures AllHold(Clauses(q), u, feature, at) <==> Admits(q, u, at)
  {
    if q.startDate.Some? {
      DayBounds(at, q.startDate.value);
      assert AtOrAfter(StartOfDay(q.startDate.value)) in Clauses(q);
    }
    if q.endDate.Some? {
      DayBounds(at, q.endDate.value);
      assert AtOrBefore(EndOfDay(q.endDate.value)) in Clauses(q);
    }
    if q.gender != "" && q.gender != "All" {
      assert GenderIs(q.gender) in Clauses(q);
    }
    var ages := AgeClauses(q.ageGroup);
    assert forall c :: c in ages ==> c in Clauses(q);
    if q.ageGroup == "<18" {
      assert ages == [AgeUnder18] && AgeUnder18 in ages;
      assert AllHold(ages, u, feature, at) <==> u.age < 18;
    } else if q.ageGroup == "18-40" {
      assert ages == [AgeFrom18To40] && AgeFrom18To40 in ages;
      assert AllHold(ages, u, feature, at) <==> 18 <= u.age <= 40;
    } else if q.ageGroup == ">40" {
      assert ages == [AgeOver40] && AgeOver40 in ages;
      assert AllHold(ages, u, feature, at) <==> u.age > 40;
    } else {
      assert ages == [];
    }
  }

  /** The line chart's conditions are the base ones plus, when `feature_name`
      is given, an exact match on the feature label. */
  lemma LineClausesMeaning(q: Query, u: User, feature: string, at: Instant)
    ensures AllHold(LineClauses(q), u, feature, at)
            <==> Admits(q, u, at) && (q.featureName == "" || feature == q.featureName)
  {
    ClausesMeaning(q, u, feature, at);
    if q.featureName != "" {
      assert FeatureIs(q.featureName) in LineClauses(q);
    }
  }

  /** With no parameters, or with `All` for gender and age group, there is no
      condition and every row passes. */
  lemma UnfilteredQueryHasNoClauses(q: Query)
    requires q.startDate.None? && q.endDate.None?
    requires q.gender == "" || q.gender == "All"
    requires q.ageGroup == "" || q.ageGroup == "All"
    ensures Clauses(q) == []
    ensures forall u, feature, at :: AllHold(Clauses(q), u, feature, at)
  {
  }

  /** An unrecognised age group adds no condition: it fails open. */
  lemma UnknownAgeGroupFailsOpen(q: Query)
    requires q.ageGroup !in {"<18", "18-40", ">40"}
    ensures Clauses(q) == Clauses(q.(ageGroup := "All"))
  {
  }

  /** An unrecognised gender is not treated as `All`: it becomes an exact
      match that no user satisfies. */
  lemma UnknownGenderMatchesNothing(q: Query, u: User, feature: string, at: Instant)
    requires q.gender !in {"", "All", "Male", "Female", "Other"}
    ensures !AllHold(Clauses(q), u, feature, at)
  {
    assert GenderIs(q.gender) in Clauses(q);
  }

  /** `feature_name` reaches only the line chart's conditions. */
  lemma FeatureNameOnlyNarrowsLine(q: Query, f: string)
    ensures Clauses(q.(featureName := f)) == Clauses(q)
    ensures LineClauses(q.(featureName := f)) == Clauses(q) + (if f != "" then [FeatureIs(f)] else [])
  {
  }

  // ---- Applying the WHERE clause ----

  /** The rows of `rows` that pass every condition, in their original order. */
  function SelectClicks(rows: seq<ClickRow>, cs: seq<Clause>): (r: seq<ClickRow>)
    ensures |r| <= |rows|
    ensures forall x :: x in r <==> x in rows && AllHoldOnClick(cs, x)
  {
    if rows == [] then []
    else if AllHoldOnClick(cs, rows[0]) then [rows[0]] + SelectClicks(rows[1..], cs)
    else SelectClicks(rows[1..], cs)
  }

  function SelectDurations(rows: seq<DurationRow>, cs: seq<Clause>): (r: seq<DurationRow>)
    ensures |r| <= |rows|
    ensures forall x :: x in r <==> x in rows && AllHoldOnDuration(cs, x)
  {
    if rows == [] then []
    else if AllHoldOnDuration(cs, rows[0]) then [rows[0]] + SelectDurations(rows[1..], cs)
    else SelectDurations(rows[1..], cs)
  }
}
