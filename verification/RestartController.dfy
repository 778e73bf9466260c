/**
  One pass of the operator over one rack, in the order the code works: scan, adopt,
  publish the pending queue, hold the batch, try the dynamic update, restart pod by
  pod. Its main contract is that a whole pass is a run of the RollingRestart machine made
  of the operator's own steps, and that it changes no slot outside its batch except to adopt
  a storage hash, so the theorems about runs bound what a pass takes down.
 */
module RestartController {
  import opened Collections
  import opened Migration
  import opened RackPods
  import opened RollingRestart
  import opened RestartPass
  import Hatch = EscapeHatch

  /** Readiness gates: disabled, or enabled with the pods whose gate is satisfied. */
  datatype Gates = Disabled | Enabled(satisfied: set<nat>)

  /** Some running pod that is not terminating has not met its gate. */
  ghost predicate GateUnsatisfied(pods: seq<Pod>, satisfied: set<nat>) {
    exists p :: p in pods && p.phase.Running? && !p.terminating && p.ordinal !in satisfied
  }

  method AnyPodGateUnsatisfied(pods: seq<Pod>, satisfied: set<nat>) returns (r: bool)
    ensures r <==> exists p :: p in pods && p.phase == Running && !p.terminating && p.ordinal !in satisfied
  {
    for i := 0 to |pods|
      invariant forall j :: 0 <= j < i ==>
                !(pods[j].phase.Running? && !pods[j].terminating && pods[j].ordinal !in satisfied)
    {
      if pods[i].phase.Running? && !pods[i].terminating && pods[i].ordinal !in satisfied {
        return true;
      }
    }
    return false;
  }

  datatype Result = Requeue | Done | AllFailed

  class Controller {
    var rack: Rack
    var pending: seq<nat>
    const failures: Hatch.FailureMap
    const key: Hatch.Key

    constructor (rack: Rack, key: Hatch.Key)
      ensures this.rack == rack && this.key == key && pending == [] && fresh(failures)
    {
      this.rack := rack;
      this.key := key;
      pending := [];
      failures := new Hatch.FailureMap();
    }

    /**
      The gate in front of every batch. The migration answer is consulted only when
      nothing is in flight and readiness gates are off; a check without an answer
      blocks until the hatch opens.
     */
    method IsBatchBlocked(pods: seq<Pod>, target: Target, gates: Gates, check: MigrationCheck, now: int)
      returns (blocked: bool)
      modifies failures
      ensures InFlight(pods, target) ==> blocked
      ensures InFlight(pods, target) || gates.Enabled? ==> failures.entries == old(failures.entries)
      ensures !InFlight(pods, target) && gates.Enabled? ==> (blocked <==> GateUnsatisfied(pods, gates.satisfied))
      ensures !InFlight(pods, target) && gates.Disabled? && check.Answer? ==>
                (blocked <==> check.migrating) && failures.entries == old(failures.entries) - {key}
      ensures !InFlight(pods, target) && gates.Disabled? && check.Unanswered? ==>
                failures.entries == Hatch.Recorded(old(failures.entries), key, now)
                && (blocked <==> !Hatch.HatchOpen(failures.entries[key]))
    {
      var inFlight := RestartInFlight(pods, target);
      if inFlight {
        return true;
      }
      if gates.Enabled? {
        blocked := AnyPodGateUnsatisfied(pods, gates.satisfied);
        return;
      }
      if check.Unanswered? {
        var _, _, hatchOpen := failures.RecordFailure(key, now);
        return !hatchOpen;
      }
      failures.Clear(key);
      return check.migrating;
    }

    /** Stamps the storage hash on pods that predate it; refused patches are retried next pass. */
    method AdoptStorageHashes(spec: Spec, adopt: seq<nat>, accepted: set<nat>, ghost from: Rack)
      requires OperatorReaches(spec, from, rack) && WellFormed(spec, rack)
      requires forall o :: o in adopt ==>
                 o < |rack.slots| && rack.slots[o].Occupied? && !Stale(rack.slots[o].pod, spec.target)
      modifies this`rack
      ensures OperatorReaches(spec, from, rack) && WellFormed(spec, rack)
      ensures rack == old(rack).(slots := AdoptAll(spec, old(rack).slots, Marks(adopt, accepted)))
    {
      ghost var s := rack;
      AdoptNone(spec, s.slots);
      assert Marks(adopt[..0], accepted) == {};
      for i := 0 to |adopt|
        invariant OperatorReaches(spec, from, rack)
        invariant rack == s.(slots := AdoptAll(spec, s.slots, Marks(adopt[..i], accepted)))
      {
        var o := adopt[i];
        assert o in adopt;
        MarksNext(adopt, i, accepted);
        AdoptKeeps(spec, s, Marks(adopt[..i], accepted));
        if o in accepted {
          AdoptOneMore(spec, s.slots, Marks(adopt[..i], accepted), o);
          OwnStep(spec, from, rack, Adopt(o));
          rack := Apply(spec, rack, Adopt(o));
        }
      }
      assert adopt[..|adopt|] == adopt;
      AdoptKeeps(spec, s, Marks(adopt, accepted));
    }

    /** The hash stamps a dynamic update leaves behind, whether or not it was rolled back. */
    method StampBatch(spec: Spec, batch: seq<Pod>, stamped: set<nat>, ghost from: Rack)
      requires OperatorReaches(spec, from, rack) && WellFormed(spec, rack)
      requires rack.operator == Restarting(batch, {}, true)
      requires forall p :: p in batch ==> p.ordinal < |rack.slots| && rack.slots[p.ordinal].Occupied?
      modifies this`rack
      ensures OperatorReaches(spec, from, rack) && WellFormed(spec, rack)
      ensures rack == old(rack).(slots := StampAll(spec, old(rack).slots, Ordinals(batch) * stamped))
    {
      ghost var s := rack;
      StampNone(spec, s.slots);
      assert Ordinals(batch[..0]) * stamped == {};
      for i := 0 to |batch|
        invariant OperatorReaches(spec, from, rack)
        invariant rack == s.(slots := StampAll(spec, s.slots, Ordinals(batch[..i]) * stamped))
      {
        var o := batch[i].ordinal;
        assert batch[i] in batch;
        StampsNext(batch, i, stamped);
        if o in stamped {
          StampOneMore(spec, s.slots, Ordinals(batch[..i]) * stamped, o);
          OwnStep(spec, from, rack, DynamicStamp(o));
          rack := Apply(spec, rack, DynamicStamp(o));
        }
      }
      assert batch[..|batch|] == batch;
      StampKeeps(spec, s, Ordinals(batch) * stamped);
    }

    method RestartFirst(spec: Spec, outcome: Outcome, ghost from: Rack) returns (ok: bool)
      requires OperatorReaches(spec, from, rack) && WellFormed(spec, rack)
      requires rack.operator.Restarting? && rack.operator.todo != [] && rack.operator.todo[0].ordinal < |rack.slots|
      modifies this`rack
      ensures OperatorReaches(spec, from, rack) && WellFormed(spec, rack)
      ensures rack == Apply(spec, old(rack), RestartNext(outcome))
      ensures ok == RestartPod(spec, old(rack).slots[old(rack).operator.todo[0].ordinal], old(rack).operator.todo[0],
                               outcome).1
    {
      var pod := rack.operator.todo[0];
      OwnStep(spec, from, rack, RestartNext(outcome));
      RestartKeepsShape(spec, rack, outcome);
      ok := RestartPod(spec, rack.slots[pod.ordinal], pod, outcome).1;
      rack := Apply(spec, rack, RestartNext(outcome));
    }

    /** Restarts the batch pod by pod, carrying on past individual failures. */
    method RestartEach(spec: Spec, batch: seq<Pod>, outcomes: nat -> Outcome, ghost from: Rack)
      returns (restarted: nat, failed: seq<nat>)
      requires OperatorReaches(spec, from, rack) && WellFormed(spec, rack)
      requires rack.operator.Restarting? && rack.operator.todo == batch && Descending(batch)
      requires forall p :: p in batch ==> p.ordinal < |rack.slots|
      modifies this`rack
      ensures OperatorReaches(spec, from, rack) && WellFormed(spec, rack)
      ensures Restarts(spec, Seen(old(rack)), Seen(rack), batch, outcomes)
      ensures WentDown(old(rack).slots, rack.slots) == TakenDown(spec, old(rack).slots, batch, outcomes)
      ensures forall p :: p in batch ==>
                StaysAs(spec, old(rack).slots[p.ordinal], rack.slots[p.ordinal], p, outcomes(p.ordinal))
      ensures Failures(spec, old(rack).slots, batch, outcomes, failed)
      ensures rack.reported == old(rack).reported + restarted
      ensures restarted + |failed| == |batch| && restarted == |Restarted(Names(batch), |batch|, failed)|
    {
      ghost var s := rack;
      restarted, failed := 0, [];
      NothingDone(spec, s, batch, outcomes);
      for i := 0 to |batch|
        invariant OperatorReaches(spec, from, rack) && WellFormed(spec, rack)
        invariant Worked(spec, s, rack, batch, i, outcomes, restarted, failed)
      {
        assert batch[i] in batch;
        restarted, failed := RestartOne(spec, batch, i, outcomes, restarted, failed, s, from);
      }
      AllDone(spec, s, rack, batch, outcomes, restarted, failed);
      RestartsExactly(spec, Seen(s), Seen(rack), batch, outcomes);
    }

    method RestartOne(
        spec: Spec, batch: seq<Pod>, i: nat, outcomes: nat -> Outcome, before: nat, failures: seq<nat>,
        ghost s: Rack, ghost from: Rack)
      returns (restarted: nat, failed: seq<nat>)
      requires OperatorReaches(spec, from, rack) && WellFormed(spec, rack)
      requires i < |batch| && Descending(batch) && batch[i].ordinal < |s.slots|
      requires Worked(spec, s, rack, batch, i, outcomes, before, failures)
      modifies this`rack
      ensures OperatorReaches(spec, from, rack) && WellFormed(spec, rack)
      ensures Worked(spec, s, rack, batch, i + 1, outcomes, restarted, failed)
    {
      OneMoreDone(spec, s, rack, batch, i, outcomes, before, failures);
      var ok := RestartFirst(spec, outcomes(batch[i].ordinal), from);
      if ok {
        restarted, failed := before + 1, failures;
      } else {
        restarted, failed := before, failures + [batch[i].ordinal];
      }
    }

    /** The dynamic update first, then the per-pod restarts it did not make unnecessary. */
    method RestartPodBatch(
        spec: Spec, batch: seq<Pod>, dynamic: DynamicUpdate, outcomes: nat -> Outcome, ghost from: Rack)
      returns (restarted: nat, failed: seq<nat>)
      requires OperatorReaches(spec, from, rack) && WellFormed(spec, rack)
      requires rack.operator.Restarting? && rack.operator.todo == batch && rack.operator.done == {} && Descending(batch)
      requires forall p :: p in batch ==> p.ordinal < |rack.slots| && rack.slots[p.ordinal].Occupied?
      modifies this`rack
      ensures OperatorReaches(spec, from, rack) && rack.operator.Idle?
      ensures BatchDone(spec, Seen(old(rack)), Seen(rack), batch, old(rack).operator.configChanged, dynamic, outcomes)
      ensures rack.reported == old(rack).reported + restarted
      ensures restarted + |failed| == |batch| && restarted == |Restarted(Names(batch), |batch|, failed)|
    {
      if rack.operator.configChanged && !dynamic.NotTried? {
        StampBatch(spec, batch, dynamic.stamped, from);
        if dynamic.AllApplied? {
          OwnStep(spec, from, rack, DynamicSuccess);
          rack := Apply(spec, rack, DynamicSuccess);
          NoFailures(Names(batch), |batch|);
          return |batch|, [];
        }
      }
      restarted, failed := RestartEach(spec, batch, outcomes, from);
      Finish(spec, from);
    }

    method Finish(spec: Spec, ghost from: Rack)
      requires OperatorReaches(spec, from, rack)
      modifies this`rack
      ensures OperatorReaches(spec, from, rack) && rack == old(rack).(operator := Idle)
    {
      OwnStep(spec, from, rack, EndPass);
      rack := Apply(spec, rack, EndPass);
    }

    /** Scan, select and adopt: what every pass does before it asks whether it may act. */
    method ScanRack(spec: Spec, maxIgnorable: nat, stuck: set<nat>, adoptable: set<nat>, ghost from: Rack)
      returns (pods: seq<Pod>, selected: seq<Pod>)
      requires OperatorReaches(spec, from, rack) && WellFormed(spec, rack) && rack.operator.Idle?
      modifies this`rack
      ensures OperatorReaches(spec, from, rack) && WellFormed(spec, rack)
      ensures rack == AfterScan(spec, old(rack), maxIgnorable, stuck, adoptable).(operator := Scanned(pods))
      ensures pods == ListPods(old(rack).slots) && selected == Selected(pods, |pods|, spec.target, maxIgnorable, stuck)
      ensures Descending(pods) && Descending(selected)
      ensures forall p :: p in pods ==> p.ordinal < |rack.slots| && rack.slots[p.ordinal].Occupied?
    {
      OwnStep(spec, from, rack, Scan);
      rack := Apply(spec, rack, Scan);
      pods := ListPods(rack.slots);
      ListDescending(rack.slots);
      SelectedDescending(pods, |pods|, spec.target, maxIgnorable, stuck);
      var configChanged, adopt;
      selected, configChanged, adopt := SelectPodsToRestart(pods, spec.target, maxIgnorable, stuck);
      AdoptFacts(spec, rack, pods, maxIgnorable, stuck, adopt, adoptable);
      AdoptKeeps(spec, rack, Marks(adopt, adoptable));
      AdoptStorageHashes(spec, adopt, adoptable, from);
    }

    method BeginBatch(spec: Spec, maxIgnorable: nat, stuck: set<nat>, pods: seq<Pod>, ghost from: Rack)
      returns (batch: seq<Pod>)
      requires OperatorReaches(spec, from, rack) && rack.operator == Scanned(pods)
      requires Descending(pods) && !InFlight(pods, spec.target)
      modifies this`rack
      ensures batch == Batch(spec, pods, maxIgnorable, stuck) && Descending(batch)
      ensures batch <= Selected(pods, |pods|, spec.target, maxIgnorable, stuck) && forall p :: p in batch ==> p in pods
      ensures rack == old(rack).(operator := Restarting(batch, {}, ConfigChanged(spec, pods, maxIgnorable, stuck)))
      ensures OperatorReaches(spec, from, rack)
    {
      BatchFacts(spec, pods, maxIgnorable, stuck);
      OwnStep(spec, from, rack, StartBatch(maxIgnorable, stuck));
      rack := Apply(spec, rack, StartBatch(maxIgnorable, stuck));
      batch := rack.operator.todo;
    }

    method WorkBatch(
        spec: Spec, maxIgnorable: nat, stuck: set<nat>, pods: seq<Pod>, dynamic: DynamicUpdate,
        outcomes: nat -> Outcome,
        ghost from: Rack)
      returns (batch: seq<Pod>, restarted: nat, failed: seq<nat>)
      requires OperatorReaches(spec, from, rack) && WellFormed(spec, rack) && rack.operator == Scanned(pods)
      requires Descending(pods) && !InFlight(pods, spec.target)
      requires forall p :: p in pods ==> p.ordinal < |rack.slots| && rack.slots[p.ordinal].Occupied?
      modifies this`rack
      ensures batch == Batch(spec, pods, maxIgnorable, stuck)
      ensures batch <= Selected(pods, |pods|, spec.target, maxIgnorable, stuck)
      ensures OperatorReaches(spec, from, rack) && rack.operator.Idle?
      ensures BatchDone(spec, Seen(old(rack)), Seen(rack), batch,
                        ConfigChanged(spec, pods, maxIgnorable, stuck), dynamic, outcomes)
      ensures rack.reported == old(rack).reported + restarted
      ensures restarted + |failed| == |batch| && restarted == |Restarted(Names(batch), |batch|, failed)|
    {
      batch := BeginBatch(spec, maxIgnorable, stuck, pods, from);
      assert Seen(rack) == Seen(old(rack));
      restarted, failed := RestartPodBatch(spec, batch, dynamic, outcomes, from);
    }

    /** Takes the restarted pods off the pending queue. */
    method UpdatePending(selected: seq<Pod>, batch: seq<Pod>, restarted: nat, failed: seq<nat>)
      requires Descending(selected) && batch <= selected && pending == Names(selected)
      requires restarted == |Restarted(Names(batch), |batch|, failed)|
      modifies this`pending
      ensures restarted > 0 ==> pending == Without(Names(selected), Restarted(Names(batch), |batch|, failed))
      ensures restarted > 0 ==> |pending| == |selected| - restarted
    {
      RemainingCount(selected, batch, failed);
      if failed != [] || restarted > 0 {
        if restarted > 0 { FilterExactly(Names(batch), failed, restarted); }
        pending := FilterUnrestarted(pending, failed, restarted, Names(batch));
      }
    }

    /** The batch itself, once nothing holds it. */
    method RestartAllowed(
        spec: Spec, maxIgnorable: nat, stuck: set<nat>, pods: seq<Pod>, selected: seq<Pod>, dynamic: DynamicUpdate,
        outcomes: nat -> Outcome, ghost from: Rack)
      returns (result: Result)
      requires OperatorReaches(spec, from, rack) && WellFormed(spec, rack) && rack.operator == Scanned(pods)
      requires Descending(pods) && Descending(selected) && !InFlight(pods, spec.target)
      requires selected == Selected(pods, |pods|, spec.target, maxIgnorable, stuck) && pending == Names(selected)
      requires forall p :: p in pods ==> p.ordinal < |rack.slots| && rack.slots[p.ordinal].Occupied?
      modifies this
      ensures OperatorReaches(spec, from, rack) && rack.operator.Idle?
      ensures BatchDone(spec, Seen(old(rack)), Seen(rack), Batch(spec, pods, maxIgnorable, stuck),
                        ConfigChanged(spec, pods, maxIgnorable, stuck), dynamic, outcomes)
      ensures result.Done? || result.AllFailed? ==> rack.reported == old(rack).reported
      ensures rack.reported > old(rack).reported ==>
                result.Requeue? && |pending| == |selected| - (rack.reported - old(rack).reported)
    {
      var batch, restarted, failed := WorkBatch(spec, maxIgnorable, stuck, pods, dynamic, outcomes, from);
      UpdatePending(selected, batch, restarted, failed);
      if failed != [] && restarted == 0 {
        return AllFailed;
      }
      return if restarted > 0 then Requeue else Done;
    }

    /**
      A whole pass. It is a run of the operator's own steps. Either it only adopts storage
      hashes, or nothing is in flight, the gate lets it and its batch is worked on as the
      outcomes say; either way it is confined to its batch. It reports exactly the restarts
      it counted, and the pods left pending are the selected ones minus those.
     */
    method ReconcileRollingRestart(
        spec: Spec, maxIgnorable: nat, stuck: set<nat>, adoptable: set<nat>,
        gates: Gates, check: MigrationCheck, now: int, dynamic: DynamicUpdate, outcomes: nat -> Outcome)
      returns (result: Result)
      requires rack.operator.Idle? && (spec.target.hashes.config != "" ==> WellFormed(spec, rack))
      modifies this, failures
      ensures OperatorReaches(spec, old(rack), rack) && rack.operator.Idle?
      ensures spec.target.hashes.config == "" ==> rack == old(rack)
      ensures spec.target.hashes.config != "" ==>
                var pods := ListPods(old(rack).slots);
                var scanned := AfterScan(spec, old(rack), maxIgnorable, stuck, adoptable);
                var batch := Batch(spec, pods, maxIgnorable, stuck);
                && Confined(spec, old(rack), rack, batch)
                && (|| rack == scanned
                    || (&& !InFlight(pods, spec.target) && GateOpen(pods, gates, check, failures.entries, key)
                        && BatchDone(spec, Seen(scanned), Seen(rack), batch,
                                     ConfigChanged(spec, pods, maxIgnorable, stuck), dynamic, outcomes)
                        && WentDown(old(rack).slots, rack.slots) ==
                           (if ConfigChanged(spec, pods, maxIgnorable, stuck) && dynamic.AllApplied? then {}
                            else TakenDown(spec, old(rack).slots, batch, outcomes))))
      ensures result.Done? || result.AllFailed? ==> rack.reported == old(rack).reported
      ensures rack.reported > old(rack).reported ==>
                var pods := ListPods(old(rack).slots);
                && result.Requeue?
                && |pending| ==
                   |Selected(pods, |pods|, spec.target, maxIgnorable, stuck)| - (rack.reported - old(rack).reported)
    {
      ghost var from := rack;
      OwnSelf(spec, rack);
      if spec.target.hashes.config == "" {
        return Done;
      }
      var pods, selected := ScanRack(spec, maxIgnorable, stuck, adoptable, from);
      ghost var scanned := AfterScan(spec, from, maxIgnorable, stuck, adoptable);
      HeldConfined(spec, from, scanned, Batch(spec, pods, maxIgnorable, stuck), maxIgnorable, stuck, adoptable);
      if selected == [] {
        pending := [];
        Finish(spec, from);
        return Done;
      }
      pending := Names(selected);
      var blocked := IsBatchBlocked(pods, spec.target, gates, check, now);
      if blocked {
        Finish(spec, from);
        return Requeue;
      }
      assert Seen(rack) == Seen(scanned);
      result := RestartAllowed(spec, maxIgnorable, stuck, pods, selected, dynamic, outcomes, from);
      ghost var changed := ConfigChanged(spec, pods, maxIgnorable, stuck);
      PassConfined(spec, from, scanned, rack, maxIgnorable, stuck, adoptable, changed, dynamic, outcomes);
      PassTakesDownExactly(spec, from, scanned, rack, maxIgnorable, stuck, adoptable, changed, dynamic, outcomes);
    }
  }

  ghost function Marks(adopt: seq<nat>, accepted: set<nat>): set<nat> { set o | o in adopt && o in accepted }

  /** The pods to adopt, as the scan lists them. */
  lemma AdoptFacts(
      spec: Spec, s: Rack, pods: seq<Pod>, maxIgnorable: nat, stuck: set<nat>, adopt: seq<nat>, accepted: set<nat>)
    requires WellFormed(spec, s) && pods == ListPods(s.slots)
    requires forall o :: o in adopt <==> o in ToAdopt(spec, pods, maxIgnorable, stuck)
    ensures forall o :: o in adopt ==> o < |s.slots| && s.slots[o].Occupied? && !Stale(s.slots[o].pod, spec.target)
    ensures Marks(adopt, accepted) == ToAdopt(spec, pods, maxIgnorable, stuck) * accepted
  {
    ListDescending(s.slots);
    forall o | o in adopt ensures o < |s.slots| && s.slots[o].Occupied? && !Stale(s.slots[o].pod, spec.target) {
      var i: nat :| i < |pods| && pods[i].ordinal == o && !Stale(pods[i], spec.target);
      assert pods[i] in pods;
    }
  }

  lemma MarksNext(adopt: seq<nat>, i: nat, accepted: set<nat>)
    requires i < |adopt|
    ensures Marks(adopt[..i+1], accepted) == Marks(adopt[..i], accepted) + if adopt[i] in accepted then {adopt[i]}
                                                                           else {}
  {
    assert adopt[..i+1] == adopt[..i] + [adopt[i]];
  }

  lemma StampsNext(batch: seq<Pod>, i: nat, stamped: set<nat>)
    requires i < |batch|
    ensures Ordinals(batch[..i+1]) * stamped ==
            Ordinals(batch[..i]) * stamped + if batch[i].ordinal in stamped then {batch[i].ordinal} else {}
  {
    assert batch[..i+1] == batch[..i] + [batch[i]];
  }

  /** Gates are on and met, or data is known not to migrate, or the check has been unanswered for too long. */
  ghost predicate GateOpen(
      pods: seq<Pod>, gates: Gates, check: MigrationCheck, entries: Hatch.Entries, key: Hatch.Key)
  {
    match gates
    case Enabled(satisfied) => !GateUnsatisfied(pods, satisfied)
    case Disabled => check == Answer(false) || (check.Unanswered? && key in entries && Hatch.HatchOpen(entries[key]))
  }

  lemma {:induction false} NoFailures(names: seq<nat>, n: nat)
    requires n <= |names| && (forall a, b :: 0 <= a < b < |names| ==> names[a] > names[b])
    ensures |Restarted(names, n, [])| == n
  {
    if n > 0 {
      NoFailures(names, n - 1);
      NextName(names, n - 1, []);
    }
  }

  lemma {:induction false} WithoutCount(names: seq<nat>, gone: set<nat>)
    requires (forall a, b :: 0 <= a < b < |names| ==> names[a] > names[b]) && (forall x :: x in gone ==> x in names)
    ensures |Without(names, gone)| == |names| - |gone|
  {
    if names == [] {
      assert gone == {};
    } else {
      var last := names[|names|-1];
      assert names == names[..|names|-1] + [last];
      WithoutCount(names[..|names|-1], gone - {last});
      SkipLast(names[..|names|-1], gone, last);
    }
  }

  lemma {:induction false} SkipLast(names: seq<nat>, gone: set<nat>, x: nat)
    requires x !in names
    ensures Without(names, gone - {x}) == Without(names, gone)
  {
    if names != [] { SkipLast(names[..|names|-1], gone, x); }
  }

  /** Dropping the restarted names from the queue shortens it by their number. */
  lemma RemainingCount(selected: seq<Pod>, batch: seq<Pod>, failed: seq<nat>)
    requires Descending(selected) && batch <= selected
    ensures var done := Restarted(Names(batch), |batch|, failed);
            |Without(Names(selected), done)| == |selected| - |done|
  {
    var names := Names(batch);
    RestartedExactly(names, |batch|, failed);
    assert names[..|batch|] == names;
    assert names <= Names(selected);
    WithoutCount(Names(selected), Restarted(names, |batch|, failed));
  }

  /** Every one of the first i names is counted as restarted or listed as failed. */
  ghost predicate Tally(names: seq<nat>, i: nat, restarted: nat, failed: seq<nat>)
    requires i <= |names|
  {
    && restarted + |failed| == i && restarted == |Restarted(names, i, failed)|
    && forall o :: o in failed ==> o in names[..i]
  }

  ghost predicate Falling(names: seq<nat>) { forall a, b :: 0 <= a < b < |names| ==> names[a] > names[b] }

  lemma NamesFall(batch: seq<Pod>)
    requires Descending(batch)
    ensures Falling(Names(batch)) && |Names(batch)| == |batch|
    ensures forall i :: 0 <= i < |batch| ==> Names(batch)[i] == batch[i].ordinal
  {
  }

  lemma TallyNext(names: seq<nat>, i: nat, restarted: nat, failed: seq<nat>)
    requires i < |names| && Falling(names) && Tally(names, i, restarted, failed)
    ensures Tally(names, i + 1, restarted + 1, failed) && Tally(names, i + 1, restarted, failed + [names[i]])
  {
    NextName(names, i, failed);
    assert names[..i+1] == names[..i] + [names[i]];
  }

  /** The first i pods of the batch have had their turn, and the counts say how it went. */
  ghost predicate Worked(
      spec: Spec, s: Rack, now: Rack, batch: seq<Pod>, i: nat, outcomes: nat -> Outcome, restarted: nat,
      failed: seq<nat>)
    requires i <= |batch|
  {
    && now.operator.Restarting? && now.operator.todo == batch[i..] && |now.slots| == |s.slots|
    && now.reported == s.reported + restarted && Restarts(spec, Seen(s), Seen(now), batch[..i], outcomes)
    && Failures(spec, s.slots, batch[..i], outcomes, failed) && Tally(Names(batch), i, restarted, failed)
  }

  lemma NothingDone(spec: Spec, s: Rack, batch: seq<Pod>, outcomes: nat -> Outcome)
    requires s.operator.Restarting? && s.operator.todo == batch
    ensures Worked(spec, s, s, batch, 0, outcomes, 0, [])
  {
    RestartsNone(spec, Seen(s), outcomes);
    assert batch[..0] == [] && batch[0..] == batch;
  }

  lemma OneMoreDone(
      spec: Spec, s: Rack, now: Rack, batch: seq<Pod>, i: nat, outcomes: nat -> Outcome, restarted: nat,
      failed: seq<nat>)
    requires i < |batch| && Descending(batch) && batch[i].ordinal < |s.slots|
    requires Worked(spec, s, now, batch, i, outcomes, restarted, failed)
    ensures now.operator.todo != [] && now.operator.todo[0] == batch[i]
    ensures var ok := RestartPod(spec, now.slots[batch[i].ordinal], batch[i], outcomes(batch[i].ordinal)).1;
            Worked(spec, s, Apply(spec, now, RestartNext(outcomes(batch[i].ordinal))), batch, i + 1, outcomes,
                   if ok then restarted + 1 else restarted, if ok then failed else failed + [batch[i].ordinal])
  {
    TodoHead(batch, i);
    NamesFall(batch);
    RestartsNext(spec, Seen(s), now, batch, i, outcomes);
    FailuresNext(spec, s.slots, batch, i, outcomes, failed);
    TallyNext(Names(batch), i, restarted, failed);
    ReportedNext(spec, now, outcomes(batch[i].ordinal));
  }

  lemma AllDone(
      spec: Spec, s: Rack, now: Rack, batch: seq<Pod>, outcomes: nat -> Outcome, restarted: nat, failed: seq<nat>)
    requires Worked(spec, s, now, batch, |batch|, outcomes, restarted, failed)
    ensures Restarts(spec, Seen(s), Seen(now), batch, outcomes) && Failures(spec, s.slots, batch, outcomes, failed)
    ensures restarted + |failed| == |batch| && restarted == |Restarted(Names(batch), |batch|, failed)|
  {
    assert batch[..|batch|] == batch;
  }

  lemma TodoHead(batch: seq<Pod>, i: nat)
    requires i < |batch|
    ensures batch[i..][0] == batch[i] && batch[i..][1..] == batch[i+1..]
  {
  }

  lemma RestartKeepsShape(spec: Spec, s: Rack, outcome: Outcome)
    requires WellFormed(spec, s) && RollingRestart.Enabled(spec, s, RestartNext(outcome))
    ensures WellFormed(spec, Apply(spec, s, RestartNext(outcome)))
  {
  }

  lemma ReportedNext(spec: Spec, s: Rack, outcome: Outcome)
    requires RollingRestart.Enabled(spec, s, RestartNext(outcome))
    ensures var s', pod := Apply(spec, s, RestartNext(outcome)), s.operator.todo[0];
            && s'.operator.Restarting? && s'.operator.todo == s.operator.todo[1..]
            && s'.reported == s.reported + if RestartPod(spec, s.slots[pod.ordinal], pod, outcome).1 then 1 else 0
  {
  }

  /** A further name enlarges the restarted set by one, or not at all when it is listed as failed. */
  lemma NextName(names: seq<nat>, i: nat, failed: seq<nat>)
    requires i < |names| && (forall a, b :: 0 <= a < b < |names| ==> names[a] > names[b])
    requires forall o :: o in failed ==> o in names[..i]
    ensures |Restarted(names, i + 1, failed)| == |Restarted(names, i, failed)| + 1
    ensures Restarted(names, i + 1, failed + [names[i]]) == Restarted(names, i, failed)
  {
    RestartedExactly(names, i, failed);
    RestartedExactly(names, i, failed + [names[i]]);
    assert forall x :: x in names[..i] ==> x != names[i];
    assert Restarted(names, i, failed + [names[i]]) == Restarted(names, i, failed);
  }
}
