/** The two per-crash decisions of the tracker, as functions on the crash
    cache and the list of notifications sent so far: escalation when a crash
    group reaches a higher level, and resolution when a tracked crash group is
    no longer open. */
module Classifier {
  import opened Hockey
  import opened Notifications
  import opened Thresholds

  /** What the decisions change: the crash cache and the notifications sent. */
  datatype State = State(cache: Cache, events: seq<Event>)

  /** The count recorded for a crash group, 0 for one not tracked. */
  function CachedCount(cache: Cache, id: CrashId): int {
    if id in cache then cache[id] else 0
  }

  /** Escalation: when the level of the current count is above the level of
      the recorded count, record the current count and notify. */
  function LevelStep(t: seq<int>, s: State, crash: CrashRecord): State {
    if HighestCrossed(t, crash.count) > HighestCrossed(t, CachedCount(s.cache, crash.id))
    then State(s.cache[crash.id := crash.count], s.events + [Notify(crash)])
    else s
  }

  /** Resolution: a tracked crash group whose status is not 0 is dropped from
      the cache and announced. */
  function ResolvedStep(s: State, crash: CrashRecord): State {
    if crash.id in s.cache && crash.status != 0
    then State(s.cache - {crash.id}, s.events + [Notify(crash)])
    else s
  }

  /** One crash group of a page: ignored unless it belongs to the looked-up
      version; otherwise resolution first, and escalation only when open. */
  function ClassifyRecord(t: seq<int>, version: string, s: State, crash: CrashRecord): State {
    if crash.shortVersion != version then s
    else
      var s1 := ResolvedStep(s, crash);
      if crash.status == 0 then LevelStep(t, s1, crash) else s1
  }

  /** Every tracked crash group has crossed at least the lowest level. */
  ghost predicate Tracked(t: seq<int>, cache: Cache) {
    forall k :: k in cache ==> HighestCrossed(t, cache[k]) > 0
  }

  /** The classification only appends to the notification log. */
  ghost predicate Extends(s: State, s': State) {
    |s.events| <= |s'.events| && s'.events[..|s.events|] == s.events
  }

  /** Escalation changes something exactly when the level rises; it then
      records the current count under the crash id, keeps every other entry,
      and sends exactly one red, alerting notification about the crash. */
  lemma LevelStepEscalates(t: seq<int>, s: State, crash: CrashRecord)
    requires crash.status == 0
    ensures var s' := LevelStep(t, s, crash);
      var rise := HighestCrossed(t, crash.count) > HighestCrossed(t, CachedCount(s.cache, crash.id));
      (s' != s <==> rise) &&
      (rise ==> s'.cache == s.cache[crash.id := crash.count] &&
                |s'.events| == |s.events| + 1 && s'.events[..|s.events|] == s.events &&
                s'.events[|s.events|] == CrashNotice(crash, Red, true)) &&
      (forall k :: k != crash.id ==> (k in s'.cache <==> k in s.cache)) &&
      (forall k :: k != crash.id && k in s.cache ==> s'.cache[k] == s.cache[k])
  {
    var s' := LevelStep(t, s, crash);
    if HighestCrossed(t, crash.count) > HighestCrossed(t, CachedCount(s.cache, crash.id)) {
      assert |s'.events| == |s.events| + 1;
    }
  }

  /** Classifying the same record a second time changes nothing. */
  lemma LevelStepIdempotent(t: seq<int>, s: State, crash: CrashRecord)
    ensures LevelStep(t, LevelStep(t, s, crash), crash) == LevelStep(t, s, crash)
  {
    var s' := LevelStep(t, s, crash);
    if s' != s {
      assert CachedCount(s'.cache, crash.id) == crash.count;
    }
  }

  /** A tracked crash group whose count fell back to or below the recorded
      count is neither demoted nor removed, and nothing is sent. */
  lemma LevelStepIgnoresRegression(t: seq<int>, s: State, crash: CrashRecord)
    requires ValidThresholds(t)
    requires crash.id in s.cache && crash.count <= s.cache[crash.id]
    ensures LevelStep(t, s, crash) == s
  {
    HighestCrossedMonotone(t, crash.count, s.cache[crash.id]);
  }

  /** Escalation moves a tracked crash group's level forward only. */
  lemma LevelStepNeverDemotes(t: seq<int>, s: State, crash: CrashRecord)
    requires crash.id in s.cache
    ensures var s' := LevelStep(t, s, crash);
      crash.id in s'.cache &&
      HighestCrossed(t, s.cache[crash.id]) <= HighestCrossed(t, s'.cache[crash.id])
  {
  }

  /** Resolution removes the id and sends exactly one green, silent
      notification iff the id is tracked and the status is not 0; otherwise
      nothing changes. */
  lemma ResolvedStepRemoves(s: State, crash: CrashRecord)
    ensures var s' := ResolvedStep(s, crash);
      (crash.id in s.cache && crash.status != 0 ==>
         crash.id !in s'.cache && s'.cache == s.cache - {crash.id} &&
         s'.events == s.events + [CrashNotice(crash, Green, false)]) &&
      (crash.id !in s.cache || crash.status == 0 ==> s' == s)
  {
  }

  /** Resolving twice sends one notification only. */
  lemma ResolvedStepIdempotent(s: State, crash: CrashRecord)
    ensures ResolvedStep(ResolvedStep(s, crash), crash) == ResolvedStep(s, crash)
  {
  }

  /** A record of another version changes nothing; a resolved record of the
      looked-up version is never left in the cache (it cannot be inserted
      again); at most one notification is sent, about this record; and no
      other crash group's entry is touched. */
  lemma ClassifyRecordEffect(t: seq<int>, version: string, s: State, crash: CrashRecord)
    ensures var s' := ClassifyRecord(t, version, s, crash);
      (crash.shortVersion != version ==> s' == s) &&
      (crash.shortVersion == version && crash.status != 0 ==> crash.id !in s'.cache) &&
      Extends(s, s') && |s'.events| <= |s.events| + 1 &&
      (|s'.events| == |s.events| + 1 ==> s'.events[|s.events|] == Notify(crash)) &&
      (forall k :: k != crash.id ==> (k in s'.cache <==> k in s.cache)) &&
      (forall k :: k != crash.id && k in s.cache ==> s'.cache[k] == s.cache[k])
  {
    var s1 := ResolvedStep(s, crash);
    if crash.shortVersion == version && crash.status == 0 {
      assert s1 == s;
      LevelStepEscalates(t, s, crash);
    }
  }

  /** Classification keeps every tracked crash group above the lowest level. */
  lemma ClassifyRecordKeepsTracked(t: seq<int>, version: string, s: State, crash: CrashRecord)
    requires ValidThresholds(t) && Tracked(t, s.cache)
    ensures Tracked(t, ClassifyRecord(t, version, s, crash).cache)
  {
    var s' := ClassifyRecord(t, version, s, crash);
    if crash.shortVersion == version && crash.status == 0 && s' != s {
      HighestCrossedZero(t, CachedCount(s.cache, crash.id));
      assert s'.cache == s.cache[crash.id := crash.count];
    }
  }

  /** One crash group over four polls on the table [20, 50, 100]: first seen
      at 25 it escalates to 20, at 60 to 50, falling back to 40 sends nothing,
      and resolution empties the cache. */
  lemma EscalationScenario()
    ensures var t := [20, 50, 100];
      var a25 := CrashRecord(1, 25, 0, "2.1");
      var a60 := CrashRecord(1, 60, 0, "2.1");
      var a40 := CrashRecord(1, 40, 0, "2.1");
      var done := CrashRecord(1, 40, 2, "2.1");
      var s1 := ClassifyRecord(t, "2.1", State(map[], []), a25);
      var s2 := ClassifyRecord(t, "2.1", s1, a60);
      var s3 := ClassifyRecord(t, "2.1", s2, a40);
      var s4 := ClassifyRecord(t, "2.1", s3, done);
      s1 == State(map[1 := 25], [Notify(a25)]) &&
      s2 == State(map[1 := 60], [Notify(a25), Notify(a60)]) &&
      s3 == s2 &&
      s4 == State(map[], [Notify(a25), Notify(a60), Notify(done)])
  {
    var t := [20, 50, 100];
    assert t[..2] == [20, 50] && t[..2][..1] == [20] && t[..2][..1][..0] == [];
    assert ValidThresholds(t);
    HighestCrossedZero(t, 0);
    assert HighestCrossed(t, 25) == 20;
    assert HighestCrossed(t, 60) == 50;
    assert HighestCrossed(t, 40) == 20;
    assert map[1 := 25][1 := 60] == map[1 := 60];
    assert map[1 := 60] - {1} == map[];
  }
}
