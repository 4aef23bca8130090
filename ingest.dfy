/** `POST /track` and `POST /track-time`: validate the body, then append one
    row to `feature_clicks` or `time_spent`. The authenticated user's id and
    the current time are inputs. */
module Ingest {
  import opened Text
  import opened Store
  import opened Http

  const FeatureRequired: string := "feature_name is required"
  const FeatureAndDurationRequired: string := "feature_name and duration are required"

  /** `/track` accepts a `feature_name` that is a string with at least one
      character that is not white space. */
  predicate TrackAccepts(featureName: Json)
  {
    Truthy(featureName) && featureName.Text? && Trim(featureName.s) != []
  }

  /** A click label as `/track` stores it: non-empty, and neither starting
      nor ending with white space. */
  predicate CleanLabel(s: string)
  {
    s != [] && !IsSpace(s[0]) && !IsSpace(s[|s| - 1])
  }

  /** Click ids are below the counter and increase along the table; every
      label is clean. */
  ghost predicate ClicksValid(clicks: seq<Click>, next: int)
  {
    && (forall i :: 0 <= i < |clicks| ==> clicks[i].id < next && CleanLabel(clicks[i].feature))
    && (forall i, j :: 0 <= i < j < |clicks| ==> clicks[i].id < clicks[j].id)
  }

  ghost predicate DurationsValid(durations: seq<Duration>, next: int)
  {
    && (forall i :: 0 <= i < |durations| ==> durations[i].id < next)
    && (forall i, j :: 0 <= i < j < |durations| ==> durations[i].id < durations[j].id)
  }

  lemma AppendClick(clicks: seq<Click>, next: int, c: Click)
    requires ClicksValid(clicks, next) && c.id == next && CleanLabel(c.feature)
    ensures ClicksValid(clicks + [c], next + 1)
  {
  }

  lemma AppendDuration(durations: seq<Duration>, next: int, d: Duration)
    requires DurationsValid(durations, next) && d.id == next
    ensures DurationsValid(durations + [d], next + 1)
  {
  }

  /** The two event tables with their AUTOINCREMENT counters. */
  class EventStore {
    var clicks: seq<Click>
    var durations: seq<Duration>
    var nextClickId: int
    var nextDurationId: int

    ghost predicate Valid()
      reads this
    {
      ClicksValid(clicks, nextClickId) && DurationsValid(durations, nextDurationId)
    }

    constructor()
      ensures Valid()
      ensures clicks == [] && durations == []
      ensures nextClickId == 1 && nextDurationId == 1
    {
      clicks := [];
      durations := [];
      nextClickId := 1;
      nextDurationId := 1;
    }

    /** `POST /track`: 400 for a missing, non-string or blank name; otherwise
        the trimmed name is stored with the next id and echoed with 201.
        The route reads the clock twice, in milliseconds since the epoch:
        `nowMs` is stored cut down to whole seconds, and `echoMs` is echoed
        as it was read. */
    method Track(userId: int, featureName: Json, nowMs: int, echoMs: int) returns (reply: Reply)
      requires Valid()
      modifies this
      ensures Valid()
      ensures durations == old(durations) && nextDurationId == old(nextDurationId)
      ensures !TrackAccepts(featureName) ==>
        reply == Reply(400, Error(FeatureRequired))
        && clicks == old(clicks) && nextClickId == old(nextClickId)
      ensures TrackAccepts(featureName) ==>
        var c := Click(old(nextClickId), userId, Trim(featureName.s), nowMs / 1000);
        && reply == Reply(201, ClickTracked("Interaction tracked", c.id, userId, c.feature, echoMs))
        && clicks == old(clicks) + [c]
        && nextClickId == old(nextClickId) + 1
        && c.at * 1000 <= nowMs < c.at * 1000 + 1000
    {
      if !TrackAccepts(featureName) {
        return Reply(400, Error(FeatureRequired));
      }
      var name := Trim(featureName.s);
      TrackedLabelIsClean(featureName);
      var c := AddClick(userId, name, nowMs / 1000);
      reply := Reply(201, ClickTracked("Interaction tracked", c.id, userId, name, echoMs));
    }

    /** The `INSERT INTO feature_clicks` of `/track`. */
    method AddClick(userId: int, name: string, now: Instant) returns (c: Click)
      requires Valid() && CleanLabel(name)
      modifies this
      ensures Valid()
      ensures c == Click(old(nextClickId), userId, name, now)
      ensures clicks == old(clicks) + [c] && nextClickId == old(nextClickId) + 1
      ensures durations == old(durations) && nextDurationId == old(nextDurationId)
    {
      c := Click(nextClickId, userId, name, now);
      AppendClick(clicks, nextClickId, c);
      clicks := clicks + [c];
      nextClickId := nextClickId + 1;
    }

    /** `POST /track-time`: 400 when the name is empty or the duration is 0;
        otherwise the name is stored as given, untrimmed. */
    method TrackTime(userId: int, featureName: string, duration: int, now: Instant) returns (reply: Reply)
      requires Valid()
      modifies this
      ensures Valid()
      ensures clicks == old(clicks) && nextClickId == old(nextClickId)
      ensures featureName == "" || duration == 0 ==>
        reply == Reply(400, Error(FeatureAndDurationRequired))
        && durations == old(durations) && nextDurationId == old(nextDurationId)
      ensures featureName != "" && duration != 0 ==>
        reply == Reply(201, Message("Time tracked"))
        && durations == old(durations) + [Duration(old(nextDurationId), userId, featureName, duration, now)]
        && nextDurationId == old(nextDurationId) + 1
    {
      if featureName == "" || duration == 0 {
        return Reply(400, Error(FeatureAndDurationRequired));
      }
      var d := Duration(nextDurationId, userId, featureName, duration, now);
      AppendDuration(durations, nextDurationId, d);
      durations := durations + [d];
      nextDurationId := nextDurationId + 1;
      reply := Reply(201, Message("Time tracked"));
    }
  }

  /** What `/track` stores is always a clean label, and a blank name is
      refused. */
  lemma TrackedLabelIsClean(featureName: Json)
    ensures TrackAccepts(featureName) ==> CleanLabel(Trim(featureName.s))
    ensures featureName.Text? && AllSpace(featureName.s) ==> !TrackAccepts(featureName)
  {
  }
}
