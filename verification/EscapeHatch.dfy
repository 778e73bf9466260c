/**
  The bounded escape hatch of the migration gate. Failed migration checks are counted
  per rack in one shared map whose stale entries are swept on every failure, whoever
  it belongs to. The theorems show that the sharing and the sweeping are invisible: the
  hatch opens for a rack exactly when the rack's own history says so.

  Times are nanoseconds.
 */
module EscapeHatch {

  const MAX_FAILURES := 5
  const GRACE := 600_000_000_000
  const TTL := 3600_000_000_000

  /** A rack of one cluster incarnation; the on-demand path uses rack -1. */
  datatype Key = Key(cluster: string, rack: int)

  datatype Entry = Entry(failures: nat, firstSeen: int, lastSeen: int)

  type Entries = map<Key, Entry>

  predicate Expired(e: Entry, now: int) { now - e.lastSeen > TTL }

  ghost function Swept(m: Entries, now: int): Entries {
    map k | k in m && !Expired(m[k], now) :: m[k]
  }

  ghost function Recorded(m: Entries, k: Key, now: int): Entries {
    var kept := Swept(m, now);
    var e := if k in kept then kept[k] else Entry(0, now, now);
    kept[k := Entry(e.failures + 1, e.firstSeen, now)]
  }

  predicate HatchOpen(e: Entry) {
    e.failures >= MAX_FAILURES && e.lastSeen - e.firstSeen >= GRACE
  }

  class FailureMap {
    var entries: Entries

    constructor ()
      ensures entries == map[]
    {
      entries := map[];
    }

    method Sweep(now: int)
      modifies this
      ensures entries == Swept(old(entries), now)
    {
      var todo := entries.Keys;
      while todo != {}
        invariant todo <= old(entries).Keys
        invariant forall k :: k in entries <==> k in old(entries) && (k in todo || !Expired(old(entries)[k], now))
        invariant forall k :: k in entries ==> entries[k] == old(entries)[k]
        decreases |todo|
      {
        var k :| k in todo;
        todo := todo - {k};
        if Expired(entries[k], now) {
          entries := entries - {k};
        }
      }
    }

    method RecordFailure(k: Key, now: int) returns (failures: nat, elapsed: int, hatchOpen: bool)
      modifies this
      ensures entries == Recorded(old(entries), k, now)
      ensures failures == entries[k].failures && elapsed == entries[k].lastSeen - entries[k].firstSeen
      ensures hatchOpen <==> HatchOpen(entries[k])
    {
      Sweep(now);
      if k !in entries {
        entries := entries[k := Entry(0, now, now)];
      }
      var state := entries[k];
      entries := entries[k := state.(failures := state.failures + 1, lastSeen := now)];
      failures := entries[k].failures;
      elapsed := now - state.firstSeen;
      hatchOpen := failures >= MAX_FAILURES && elapsed >= GRACE;
    }

    method Clear(k: Key)
      modifies this
      ensures entries == old(entries) - {k}
    {
      entries := entries - {k};
    }
  }

  // ---- Histories --------------------------------------------------------------------

  datatype Event = CheckFailed(key: Key, at: int) | CheckAnswered(key: Key, at: int)

  function Last<T>(s: seq<T>): T
    requires s != []
  {
    s[|s|-1]
  }

  function Init<T>(s: seq<T>): seq<T>
    requires s != []
  {
    s[..|s|-1]
  }

  predicate InOrder(trace: seq<Event>) {
    forall i, j :: 0 <= i <= j < |trace| ==> trace[i].at <= trace[j].at
  }

  /** The shared map after the checks of a whole trace. */
  ghost function After(trace: seq<Event>): Entries {
    if trace == [] then map[]
    else
      var m := After(Init(trace));
      match Last(trace)
      case CheckFailed(k, now) => Recorded(m, k, now)
      case CheckAnswered(k, _) => m - {k}
  }

  /** A rack's own failures since its last answered check. */
  ghost function Streak(trace: seq<Event>, k: Key): seq<int> {
    if trace == [] then []
    else
      var rest := Streak(Init(trace), k);
      var e := Last(trace);
      if e.key != k then rest
      else if e.CheckAnswered? then []
      else rest + [e.at]
  }

  ghost predicate GapsWithinTTL(times: seq<int>, m: nat) {
    forall i :: m <= i < |times| - 1 ==> times[i+1] - times[i] <= TTL
  }

  /** At least five failures, none separated by more than the TTL, spanning ten minutes. */
  ghost predicate Persistent(times: seq<int>) {
    exists m: nat :: m + MAX_FAILURES <= |times| && GapsWithinTTL(times, m) && Last(times) - times[m] >= GRACE
  }

  // ---- Refinement ---------------------------------------------------------------------

  /** Where the last run of failures without an over-long gap begins. */
  ghost function RunStart(times: seq<int>): (r: nat)
    ensures times != [] ==> r < |times|
    ensures GapsWithinTTL(times, r)
    ensures r > 0 ==> r < |times| && times[r] - times[r-1] > TTL
  {
    if |times| <= 1 then 0
    else if times[|times|-1] - times[|times|-2] > TTL then |times| - 1
    else RunStart(Init(times))
  }

  ghost predicate Rising(times: seq<int>) {
    forall i, j :: 0 <= i <= j < |times| ==> times[i] <= times[j]
  }

  lemma PersistentByRun(times: seq<int>)
    requires times != [] && Rising(times)
    ensures var r := RunStart(times);
            Persistent(times) <==> |times| - r >= MAX_FAILURES && Last(times) - times[r] >= GRACE
  {
    var r := RunStart(times);
    if Persistent(times) {
      var m: nat :| m + MAX_FAILURES <= |times| && GapsWithinTTL(times, m) && Last(times) - times[m] >= GRACE;
      assert r <= m;
    }
  }

  /** What the shared map knows of a rack at time t, given the rack's own streak. */
  ghost predicate Summarises(m: Entries, k: Key, times: seq<int>, t: int) {
    && Rising(times)
    && (times != [] ==> Last(times) <= t)
    && (k in m ==> times != [] && m[k] == Entry(|times| - RunStart(times), times[RunStart(times)], Last(times)))
    && (k !in m ==> times == [] || t - Last(times) > TTL)
  }

  lemma SummaryAfterOwnFailure(m: Entries, k: Key, times: seq<int>, t: int, now: int)
    requires Summarises(m, k, times, t) && t <= now
    ensures Summarises(Recorded(m, k, now), k, times + [now], now)
    ensures k in Recorded(m, k, now)
  {
    var next := times + [now];
    assert Init(next) == times;
    if times != [] {
      assert next[|next|-2] == Last(times);
      if now - Last(times) <= TTL { assert next[RunStart(times)] == times[RunStart(times)]; }
    }
  }

  lemma SummaryAfterOtherFailure(m: Entries, k: Key, other: Key, times: seq<int>, t: int, now: int)
    requires Summarises(m, k, times, t) && t <= now && other != k
    ensures Summarises(Recorded(m, other, now), k, times, now)
  {
  }

  lemma {:induction false} MapSummarisesHistory(trace: seq<Event>, k: Key)
    requires InOrder(trace) && trace != []
    ensures Summarises(After(trace), k, Streak(trace, k), Last(trace).at)
  {
    var before, e := Init(trace), Last(trace);
    var t := if before == [] then e.at else Last(before).at;
    if before != [] { MapSummarisesHistory(before, k); }
    assert Summarises(After(before), k, Streak(before, k), t);
    match e {
      case CheckFailed(key, now) =>
        if key == k { SummaryAfterOwnFailure(After(before), k, Streak(before, k), t, now); }
        else { SummaryAfterOtherFailure(After(before), k, key, Streak(before, k), t, now); }
      case CheckAnswered(key, now) =>
    }
  }

  /** The next failed check of a rack opens the hatch exactly when its own history is persistent. */
  lemma HatchRefinesHistory(trace: seq<Event>, k: Key, now: int)
    requires InOrder(trace + [CheckFailed(k, now)])
    ensures k in Recorded(After(trace), k, now)
    ensures HatchOpen(Recorded(After(trace), k, now)[k]) <==> Persistent(Streak(trace, k) + [now])
  {
    var all := trace + [CheckFailed(k, now)];
    assert Init(all) == trace;
    MapSummarisesHistory(all, k);
    PersistentByRun(Streak(all, k));
  }

  // ---- Isolation --------------------------------------------------------------------------

  ghost function Own(trace: seq<Event>, k: Key): seq<Event> {
    if trace == [] then []
    else if Last(trace).key == k then Own(Init(trace), k) + [Last(trace)]
    else Own(Init(trace), k)
  }

  lemma {:induction false} StreakIsOwn(trace: seq<Event>, k: Key)
    ensures Streak(Own(trace, k), k) == Streak(trace, k)
  {
    if trace != [] {
      StreakIsOwn(Init(trace), k);
      if Last(trace).key == k {
        assert Init(Own(trace, k)) == Own(Init(trace), k);
        assert Last(Own(trace, k)) == Last(trace);
      }
    }
  }

  /** Whatever other racks, other clusters or the on-demand path did, the answer is the same. */
  lemma HatchIgnoresOthers(a: seq<Event>, b: seq<Event>, k: Key, now: int)
    requires InOrder(a + [CheckFailed(k, now)]) && InOrder(b + [CheckFailed(k, now)])
    requires Own(a, k) == Own(b, k)
    ensures k in Recorded(After(a), k, now) && k in Recorded(After(b), k, now)
    ensures HatchOpen(Recorded(After(a), k, now)[k]) <==> HatchOpen(Recorded(After(b), k, now)[k])
  {
    HatchRefinesHistory(a, k, now);
    HatchRefinesHistory(b, k, now);
    StreakIsOwn(a, k);
    StreakIsOwn(b, k);
  }
}
