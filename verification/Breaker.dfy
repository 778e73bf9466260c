/**
  The circuit breaker. Ten consecutive failures, or one validation error, are meant to stop a
  cluster's reconciliation until someone pauses and resumes it; both halves depend on the
  phase the cluster is in. One pass at a time, as the work queue serialises passes per cluster.
 */
module Breaker {
  import opened Text

  const MAX_FAILURES := 10
  const MAX_BACKOFF := 300
  const RETRY := 5
  const DEGRADED_RETRY := 60

  datatype Phase = Paused | Errored | BackoffActive | ConfigDegraded | Active

  /** `reached` counts the passes that got to the cluster's resources. */
  datatype Cluster = Cluster(failures: nat, phase: Phase, reached: nat)

  datatype Failure = Transient | Validation

  /** How a stage of a pass turns out. */
  datatype Stage = Passed | Requeued | Broke(failure: Failure)

  /**
    What a pass meets: the pause switch, the writes of the pause or resume handler and of the
    phase, the outcome of template resolution and of the resources, and whether the failure
    count can be written.
   */
  datatype Pass = Pass(paused: bool, handled: bool, phaseWritten: bool, template: Stage, start: Stage, resources: Stage,
                       phaseAfter: Phase, counted: bool)

  function Power(n: nat): nat { if n == 0 then 1 else 2 * Power(n - 1) }

  /** Seconds until the next attempt: doubling, capped. */
  function Backoff(failures: int): int {
    if failures <= 0 then RETRY
    else
      var seconds := Power(if failures < 9 then failures else 9);
      if seconds > MAX_BACKOFF then MAX_BACKOFF else seconds
  }

  function Failed(c: Cluster, failure: Failure, counted: bool): Cluster {
    if !counted then c else c.(failures := if failure.Validation? then MAX_FAILURES else c.failures + 1)
  }

  /** Resuming forgives the failures of a paused or errored cluster; its phase is left for the pass to set. */
  function Resumed(c: Cluster): Cluster { if c.phase in {Paused, Errored} then c.(failures := 0) else c }

  function AtResources(c: Cluster, p: Pass): Cluster {
    var at := c.(reached := c.reached + 1, phase := p.phaseAfter);
    match p.resources
    case Broke(f) => Failed(at, f, p.counted)
    case _ => if p.counted then at.(failures := 0) else at
  }

  /** A pass that is neither paused nor held back. */
  function Proceeds(c: Cluster, p: Pass): Cluster {
    if c.failures >= MAX_FAILURES then (if p.phaseWritten then c.(phase := BackoffActive) else c)
    else if c.phase.ConfigDegraded? then c
    else if p.template.Requeued? then c
    else if p.template.Broke? then Failed(c, p.template.failure, p.counted)
    else if p.start.Requeued? then c
    else if p.start.Broke? then Failed(c, p.start.failure, p.counted)
    else AtResources(c, p)
  }

  function After(c: Cluster, p: Pass): Cluster {
    if p.paused then (if p.handled then c.(phase := Paused) else c)
    else if c.phase.Paused? && !p.handled then c
    else Proceeds(if c.phase.Paused? then Resumed(c) else c, p)
  }

  predicate Resumes(c: Cluster, p: Pass) { c.phase.Paused? && !p.paused && p.handled }

  class Reconciler {
    var cluster: Cluster

    method HandleReconcileError(failure: Failure, counted: bool) returns (retry: Option<int>)
      modifies this
      ensures cluster == Failed(old(cluster), failure, counted)
      ensures retry == if counted then Some(Backoff(cluster.failures)) else None
    {
      if !counted { return None; }
      if failure.Validation? {
        cluster := cluster.(failures := MAX_FAILURES);
      } else {
        cluster := cluster.(failures := cluster.failures + 1);
      }
      return Some(Backoff(cluster.failures));
    }

    method Reconcile(p: Pass) returns (retry: Option<int>)
      modifies this
      ensures cluster == After(old(cluster), p)
      ensures !p.paused && !old(cluster).phase.Paused? && old(cluster).failures >= MAX_FAILURES ==>
                retry == Some(Backoff(old(cluster).failures))
      ensures cluster.failures > old(cluster).failures ==> retry == Some(Backoff(cluster.failures))
      ensures !p.paused && old(cluster).phase.ConfigDegraded? && old(cluster).failures < MAX_FAILURES ==>
                cluster == old(cluster) && retry == Some(DEGRADED_RETRY)
    {
      retry := None;
      var wasPaused := cluster.phase.Paused?;
      if p.paused {
        if p.handled { cluster := cluster.(phase := Paused); }
        return;
      }
      if wasPaused {
        if !p.handled { return; }
        cluster := cluster.(failures := 0);
      }
      if cluster.failures >= MAX_FAILURES {
        retry := Some(Backoff(cluster.failures));
        if p.phaseWritten { cluster := cluster.(phase := BackoffActive); }
        return;
      }
      if cluster.phase.ConfigDegraded? { return Some(DEGRADED_RETRY); }
      if p.template.Requeued? { return; }
      if p.template.Broke? {
        retry := HandleReconcileError(p.template.failure, p.counted);
        return;
      }
      if p.start.Requeued? { return; }
      if p.start.Broke? {
        retry := HandleReconcileError(p.start.failure, p.counted);
        return;
      }
      cluster := cluster.(reached := cluster.reached + 1, phase := p.phaseAfter);
      match p.resources {
        case Broke(f) => retry := HandleReconcileError(f, p.counted);
        case _ => if p.counted { cluster := cluster.(failures := 0); }
      }
    }
  }

  // ---- Whole runs ------------------------------------------------------------------------------

  ghost function Run(c: Cluster, passes: seq<Pass>): Cluster
    decreases |passes|
  {
    if passes == [] then c else Run(After(c, passes[0]), passes[1..])
  }

  ghost predicate NoResume(c: Cluster, passes: seq<Pass>)
    decreases |passes|
  {
    passes == [] || (!Resumes(c, passes[0]) && NoResume(After(c, passes[0]), passes[1..]))
  }

  /** The count never leaves 0..10. */
  lemma {:induction false} CountBounded(c: Cluster, passes: seq<Pass>)
    requires c.failures <= MAX_FAILURES
    ensures Run(c, passes).failures <= MAX_FAILURES
    decreases |passes|
  {
    if passes != [] { CountBounded(After(c, passes[0]), passes[1..]); }
  }

  /** A tripped breaker stays tripped, and no resource is touched, until a pass resumes from a pause. */
  lemma {:induction false} TrippedHolds(c: Cluster, passes: seq<Pass>)
    requires c.failures == MAX_FAILURES && NoResume(c, passes)
    ensures Run(c, passes).failures == MAX_FAILURES && Run(c, passes).reached == c.reached
    decreases |passes|
  {
    if passes != [] { TrippedHolds(After(c, passes[0]), passes[1..]); }
  }

  /** So wherever a run has left a tripped breaker behind, or reached resources, there was a resume. */
  lemma OnlyResumeReleases(c: Cluster, passes: seq<Pass>)
    requires c.failures == MAX_FAILURES
    requires (Run(c, passes).failures < MAX_FAILURES || Run(c, passes).reached > c.reached)
    ensures !NoResume(c, passes)
  {
    if NoResume(c, passes) { TrippedHolds(c, passes); }
  }

  // ---- When failures trip it, and what holds it ----------------------------------------------------

  /**
    A pass that is not paused, can write, and fails without a validation error, leaving a phase that
    lets the next pass in.
   */
  predicate Failing(p: Pass) {
    && !p.paused && p.handled && p.counted && p.phaseAfter !in {Paused, ConfigDegraded}
    && (|| p.template == Broke(Transient)
        || (p.template.Passed? && p.start == Broke(Transient))
        || (p.template.Passed? && p.start.Passed? && p.resources == Broke(Transient)))
  }

  ghost predicate AllFailing(passes: seq<Pass>) { forall i :: 0 <= i < |passes| ==> Failing(passes[i]) }

  function Capped(n: nat): nat { if n < MAX_FAILURES then n else MAX_FAILURES }

  lemma {:induction false} FailuresAddUp(c: Cluster, passes: seq<Pass>)
    requires c.failures <= MAX_FAILURES && c.phase !in {Paused, ConfigDegraded} && AllFailing(passes)
    ensures Run(c, passes).failures == Capped(c.failures + |passes|)
    decreases |passes|
  {
    if passes != [] {
      assert Failing(passes[0]);
      FailuresAddUp(After(c, passes[0]), passes[1..]);
    }
  }

  ghost predicate EveryFailureCounts(c: Cluster) {
    forall passes :: AllFailing(passes) ==> Run(c, passes).failures == Capped(c.failures + |passes|)
  }

  const TEMPLATE_FAILS := Pass(false, true, true, Broke(Transient), Passed, Passed, Active, true)

  /**
    Consecutive failures add up to a trip at ten if and only if the cluster is neither marked
    Paused nor ConfigDegraded: the one is resumed again on every pass, the other never counts.
   */
  lemma TripsExactly(c: Cluster)
    requires c.failures < MAX_FAILURES
    ensures EveryFailureCounts(c) <==> c.phase !in {Paused, ConfigDegraded}
  {
    if c.phase !in {Paused, ConfigDegraded} {
      forall passes | AllFailing(passes)
        ensures Run(c, passes).failures == Capped(c.failures + |passes|)
      {
        FailuresAddUp(c, passes);
      }
    } else {
      var one, two := [TEMPLATE_FAILS], [TEMPLATE_FAILS, TEMPLATE_FAILS];
      assert AllFailing(two) && two[1..] == one && one[1..] == [];
      var d := After(c, TEMPLATE_FAILS);
      assert Run(d, one) == After(d, TEMPLATE_FAILS);
      assert Run(c, two) == After(d, TEMPLATE_FAILS);
    }
  }

  /** A template that keeps failing after a resume resumes again on every pass, and its failures never add up. */
  lemma {:induction false} FailingTemplateNeverTrips(c: Cluster, passes: seq<Pass>)
    requires c.phase.Paused? && c.failures <= 1
    requires forall i :: 0 <= i < |passes| ==> !passes[i].paused && passes[i].template == Broke(Transient)
    ensures var e := Run(c, passes); e.failures <= 1 && e.phase.Paused? && e.reached == c.reached
    decreases |passes|
  {
    if passes != [] { FailingTemplateNeverTrips(After(c, passes[0]), passes[1..]); }
  }

  ghost predicate NobodyPauses(passes: seq<Pass>) { forall i :: 0 <= i < |passes| ==> !passes[i].paused }

  lemma {:induction false} TrippedUnpaused(c: Cluster, passes: seq<Pass>)
    requires c.failures == MAX_FAILURES && !c.phase.Paused? && NobodyPauses(passes)
    ensures Run(c, passes).failures == MAX_FAILURES && Run(c, passes).reached == c.reached
    decreases |passes|
  {
    if passes != [] { TrippedUnpaused(After(c, passes[0]), passes[1..]); }
  }

  ghost predicate HoldsByItself(c: Cluster) {
    forall passes :: NobodyPauses(passes) ==>
      Run(c, passes).failures == MAX_FAILURES && Run(c, passes).reached == c.reached
  }

  const ALL_PASSES := Pass(false, true, true, Passed, Passed, Passed, Active, true)

  /** A tripped breaker holds until someone pauses the cluster if and only if the cluster is not still marked Paused. */
  lemma HoldsExactly(c: Cluster)
    requires c.failures == MAX_FAILURES
    ensures HoldsByItself(c) <==> !c.phase.Paused?
  {
    if c.phase.Paused? {
      var one := [ALL_PASSES];
      assert NobodyPauses(one) && one[1..] == [];
      assert Run(c, one) == After(c, ALL_PASSES);
    } else {
      forall passes | NobodyPauses(passes)
        ensures Run(c, passes).failures == MAX_FAILURES && Run(c, passes).reached == c.reached
      {
        TrippedUnpaused(c, passes);
      }
    }
  }

  /**
    That case arises: a validation error right after a resume trips the breaker, and the next pass
    releases it unasked.
   */
  lemma ReleasedUnasked(c: Cluster)
    requires c.phase.Paused?
    ensures var tripped := After(c, TEMPLATE_FAILS.(template := Broke(Validation)));
            && tripped.failures == MAX_FAILURES && tripped.phase.Paused?
            && After(tripped, ALL_PASSES).failures == 0 && After(tripped, ALL_PASSES).reached == c.reached + 1
  {
  }

  // ---- The count is the current streak ----------------------------------------------------------

  datatype Ending = Fails(failure: Failure) | Succeeds | Waits

  /** How a pass that is let in ends: at the first stage that does not go through. */
  function EndingOf(p: Pass): Ending {
    if p.template.Broke? then Fails(p.template.failure)
    else if p.template.Requeued? then Waits
    else if p.start.Broke? then Fails(p.start.failure)
    else if p.start.Requeued? then Waits
    else if p.resources.Broke? then Fails(p.resources.failure)
    else Succeeds
  }

  /** Not paused, its writes stored, and leaving a phase that lets the next pass in. */
  predicate Ordinary(p: Pass) { !p.paused && p.counted && p.phaseAfter !in {Paused, ConfigDegraded} }

  ghost predicate AllOrdinary(passes: seq<Pass>) { forall i :: 0 <= i < |passes| ==> Ordinary(passes[i]) }

  /** Failures since the last success, `before` of them when there was none; a validation error weighs ten. */
  ghost function Streak(before: nat, passes: seq<Pass>): nat
    decreases |passes|
  {
    if passes == [] then before
    else
      match EndingOf(passes[|passes|-1])
      case Succeeds => 0
      case Waits => Streak(before, passes[..|passes|-1])
      case Fails(Transient) => Streak(before, passes[..|passes|-1]) + 1
      case Fails(Validation) => MAX_FAILURES
  }

  /** At some point of the run the streak was ten long. */
  ghost predicate StreakReachedTen(before: nat, passes: seq<Pass>)
    decreases |passes|
  {
    Streak(before, passes) >= MAX_FAILURES || (passes != [] && StreakReachedTen(before, passes[..|passes|-1]))
  }

  lemma {:induction false} RunLast(c: Cluster, passes: seq<Pass>)
    requires passes != []
    ensures Run(c, passes) == After(Run(c, passes[..|passes|-1]), passes[|passes|-1])
    decreases |passes|
  {
    if |passes| > 1 {
      RunLast(After(c, passes[0]), passes[1..]);
      assert passes[1..][..|passes|-2] == passes[..|passes|-1][1..];
    } else {
      assert passes[1..] == [] && passes[..0] == [];
    }
  }

  /**
    Over every run of ordinary passes from a cluster that is let in, the count is the length of the
    current streak of failures, or ten from the moment a streak first was that long.
   */
  lemma {:induction false} CountIsTheStreak(c: Cluster, passes: seq<Pass>)
    requires c.failures <= MAX_FAILURES && c.phase !in {Paused, ConfigDegraded} && AllOrdinary(passes)
    ensures Run(c, passes).failures ==
            if StreakReachedTen(c.failures, passes) then MAX_FAILURES else Streak(c.failures, passes)
    ensures Run(c, passes).phase !in {Paused, ConfigDegraded}
    decreases |passes|
  {
    if passes != [] {
      CountIsTheStreak(c, passes[..|passes|-1]);
      RunLast(c, passes);
      assert Ordinary(passes[|passes|-1]);
    }
  }

  /** So one pass that goes through, and is let in, starts the count over. */
  lemma SuccessStartsOver(c: Cluster, passes: seq<Pass>, last: Pass)
    requires c.failures <= MAX_FAILURES && c.phase !in {Paused, ConfigDegraded} && AllOrdinary(passes + [last])
    requires EndingOf(last).Succeeds?
    ensures Run(c, passes + [last]).failures == if StreakReachedTen(c.failures, passes) then MAX_FAILURES else 0
  {
    assert (passes + [last])[..|passes|] == passes;
    CountIsTheStreak(c, passes + [last]);
  }

  // ---- Backoff ----------------------------------------------------------------------------------

  lemma {:induction false} PowerGrows(a: nat, b: nat)
    requires a <= b
    ensures 1 <= Power(a) <= Power(b)
    decreases b
  {
    if b > a { PowerGrows(a, b - 1); } else if a > 0 { PowerGrows(a - 1, a - 1); }
  }

  /** From the first failure on, waits never get shorter and stay between two seconds and five minutes. */
  lemma BackoffMonotone(a: int, b: int)
    requires 1 <= a <= b
    ensures 2 <= Backoff(a) <= Backoff(b) <= MAX_BACKOFF
  {
    PowerGrows(1, if a < 9 then a else 9);
    PowerGrows(if a < 9 then a else 9, if b < 9 then b else 9);
    assert Power(1) == 2;
  }

  /** The cap is reached, and by the tripped breaker. */
  lemma TrippedWaitsLongest()
    ensures Backoff(MAX_FAILURES) == MAX_BACKOFF && Backoff(8) == 256
  {
    assert Power(4) == 16;
    assert Power(8) == 256;
  }

  /** Two seconds after the first failure, twice as long after each further one, and never beyond the cap. */
  lemma BackoffDoubles(n: int)
    requires n >= 1
    ensures Backoff(0) == RETRY && Backoff(1) == 2
    ensures Backoff(n + 1) == if 2 * Backoff(n) < MAX_BACKOFF then 2 * Backoff(n) else MAX_BACKOFF
  {
    assert Power(1) == 2;
    if n >= 8 {
      TrippedWaitsLongest();
      assert Power(9) == 2 * Power(8);
      if n > 8 { BackoffMonotone(9, n); }
    } else {
      PowerGrows(n, 7);
      assert Power(7) == 128 by { assert Power(4) == 16; }
    }
  }

  /** While it is tripped the cluster shows BackoffActive after the first pass that can write it. */
  lemma TrippedShows(c: Cluster, p: Pass)
    requires c.failures >= MAX_FAILURES && !c.phase.Paused? && !p.paused && p.phaseWritten
    ensures After(c, p) == c.(phase := BackoffActive)
  {
  }

  /** A pause that can be stored marks the cluster and changes nothing else; one that cannot changes nothing. */
  lemma PauseHolds(c: Cluster, p: Pass)
    requires p.paused
    ensures var d := After(c, p);
            && d.failures == c.failures && d.reached == c.reached
            && (d.phase.Paused? <==> p.handled || c.phase.Paused?) && (!p.handled ==> d == c)
  {
  }

  /** A resume that can be stored forgives the failures before the pass goes on; one that cannot changes nothing. */
  lemma ResumeForgives(c: Cluster, p: Pass)
    requires c.phase.Paused? && !p.paused
    ensures !p.handled ==> After(c, p) == c
    ensures p.handled ==> After(c, p) == Proceeds(c.(failures := 0), p)
  {
  }
}
