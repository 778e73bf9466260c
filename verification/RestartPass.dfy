/**
  What one pass of the operator does to a rack, slot by slot: the storage hashes it adopts,
  the stamps of a dynamic update and the restarts of a batch. Nothing outside the batch is
  taken down, and what is taken down is owed.
 */
module RestartPass {
  import Collections
  import opened RackPods
  import opened RollingRestart

  /** How the two-phase dynamic update of a batch ends; `stamped` pods carry the new config hash. */
  datatype DynamicUpdate = NotTried | AllApplied(stamped: set<nat>) | Aborted(stamped: set<nat>)

  // ---- Adoption ------------------------------------------------------------------------------

  /** Pods a scan neither passes over nor finds stale, but that lack a storage hash. */
  ghost function ToAdopt(spec: Spec, pods: seq<Pod>, maxIgnorable: nat, stuck: set<nat>): set<nat> {
    set i: nat | i < |pods| && !Skipped(pods, i, maxIgnorable, stuck) && !Stale(pods[i], spec.target)
                 && ComparePodHashes(pods[i].hashes, spec.target.hashes).storageUnknown
      :: pods[i].ordinal
  }

  function AdoptHash(spec: Spec, slot: Slot): Slot
    requires slot.Occupied?
  {
    Occupied(slot.pod.(hashes := slot.pod.hashes.(storage := spec.target.hashes.storage)))
  }

  ghost function AdoptAll(spec: Spec, slots: seq<Slot>, marks: set<nat>): seq<Slot> {
    seq(|slots|, o requires 0 <= o < |slots| => if o in marks && slots[o].Occupied? then AdoptHash(spec, slots[o])
                                                else slots[o])
  }

  lemma AdoptNone(spec: Spec, slots: seq<Slot>)
    ensures AdoptAll(spec, slots, {}) == slots
  {
  }

  lemma AdoptOneMore(spec: Spec, slots: seq<Slot>, marks: set<nat>, o: nat)
    requires o < |slots| && slots[o].Occupied?
    ensures AdoptAll(spec, slots, marks)[o].Occupied?
    ensures AdoptAll(spec, slots, marks)[o := AdoptHash(spec, AdoptAll(spec, slots, marks)[o])] ==
            AdoptAll(spec, slots, marks + {o})
  {
  }

  /** Adopting a storage hash leaves an up-to-date pod up to date and a rack well formed. */
  lemma AdoptKeeps(spec: Spec, s: Rack, marks: set<nat>)
    requires WellFormed(spec, s)
    ensures WellFormed(spec, s.(slots := AdoptAll(spec, s.slots, marks)))
    ensures forall o :: 0 <= o < |s.slots| && s.slots[o].Occupied? ==>
              && AdoptAll(spec, s.slots, marks)[o].Occupied?
              && (!Stale(s.slots[o].pod, spec.target) ==> !Stale(AdoptAll(spec, s.slots, marks)[o].pod, spec.target))
  {
  }

  lemma StampKeeps(spec: Spec, s: Rack, marks: set<nat>)
    requires WellFormed(spec, s)
    ensures WellFormed(spec, s.(slots := StampAll(spec, s.slots, marks)))
    ensures forall o :: 0 <= o < |s.slots| ==> (StampAll(spec, s.slots, marks)[o].Occupied? <==> s.slots[o].Occupied?)
  {
  }

  /** The part of a rack a batch works on. */
  datatype View = View(slots: seq<Slot>, owed: set<nat>)

  function Seen(s: Rack): View { View(s.slots, s.owed) }

  // ---- Restarting a batch --------------------------------------------------------------------

  /** The pods of the batch whose deletion was accepted. */
  ghost function ColdRestarted(spec: Spec, slots: seq<Slot>, batch: seq<Pod>, outcomes: nat -> Outcome): set<nat>
    requires forall p :: p in batch ==> p.ordinal < |slots|
  {
    set p | p in batch && !Warm(spec, p, outcomes(p.ordinal))
            && RestartPod(spec, slots[p.ordinal], p, outcomes(p.ordinal)).1
      :: p.ordinal
  }

  /** Every pod of the batch has been restarted as its outcome says, and no other slot has changed. */
  ghost predicate Restarts(spec: Spec, a: View, b: View, batch: seq<Pod>, outcomes: nat -> Outcome) {
    && |b.slots| == |a.slots|
    && (forall p :: p in batch ==> p.ordinal < |a.slots|)
    && (forall p :: p in batch ==> b.slots[p.ordinal] == RestartPod(spec, a.slots[p.ordinal], p, outcomes(p.ordinal)).0)
    && (forall o :: 0 <= o < |a.slots| && o !in Ordinals(batch) ==> b.slots[o] == a.slots[o])
    && b.owed == a.owed + ColdRestarted(spec, a.slots, batch, outcomes)
  }

  lemma RestartsNone(spec: Spec, a: View, outcomes: nat -> Outcome)
    ensures Restarts(spec, a, a, [], outcomes)
  {
    assert ColdRestarted(spec, a.slots, [], outcomes) == {};
    assert a.owed + {} == a.owed;
  }

  lemma RestartsOneMore(spec: Spec, a: View, mid: View, e: View, front: seq<Pod>, p: Pod, outcomes: nat -> Outcome)
    requires Restarts(spec, a, mid, front, outcomes) && p.ordinal < |a.slots| && p.ordinal !in Ordinals(front)
    requires var (slot, ok) := RestartPod(spec, a.slots[p.ordinal], p, outcomes(p.ordinal));
             && e.slots == mid.slots[p.ordinal := slot]
             && e.owed == if ok && !Warm(spec, p, outcomes(p.ordinal)) then mid.owed + {p.ordinal} else mid.owed
    ensures Restarts(spec, a, e, front + [p], outcomes)
  {
    assert Ordinals(front + [p]) == Ordinals(front) + {p.ordinal};
    ColdNext(spec, a.slots, front, p, outcomes);
  }

  lemma OrdinalIsNew(batch: seq<Pod>, i: nat)
    requires i < |batch| && Descending(batch)
    ensures batch[..i+1] == batch[..i] + [batch[i]] && batch[i].ordinal !in Ordinals(batch[..i])
  {
    assert forall q :: q in batch[..i] ==> q.ordinal > batch[i].ordinal;
  }

  lemma RestartsNext(spec: Spec, a: View, mid: Rack, batch: seq<Pod>, i: nat, outcomes: nat -> Outcome)
    requires i < |batch| && Descending(batch) && batch[i].ordinal < |a.slots|
    requires Restarts(spec, a, Seen(mid), batch[..i], outcomes)
    requires mid.operator.Restarting? && mid.operator.todo != [] && mid.operator.todo[0] == batch[i]
    ensures mid.slots[batch[i].ordinal] == a.slots[batch[i].ordinal]
    ensures Restarts(spec, a, Seen(Apply(spec, mid, RestartNext(outcomes(batch[i].ordinal)))), batch[..i+1], outcomes)
  {
    OrdinalIsNew(batch, i);
    var e := Apply(spec, mid, RestartNext(outcomes(batch[i].ordinal)));
    RestartsOneMore(spec, a, Seen(mid), Seen(e), batch[..i], batch[i], outcomes);
  }

  lemma ColdNext(spec: Spec, slots: seq<Slot>, front: seq<Pod>, p: Pod, outcomes: nat -> Outcome)
    requires p.ordinal < |slots| && forall q :: q in front ==> q.ordinal < |slots|
    ensures forall q :: q in front + [p] ==> q.ordinal < |slots|
    ensures var ok := RestartPod(spec, slots[p.ordinal], p, outcomes(p.ordinal)).1;
            ColdRestarted(spec, slots, front + [p], outcomes) ==
            ColdRestarted(spec, slots, front, outcomes) +
            if ok && !Warm(spec, p, outcomes(p.ordinal)) then {p.ordinal} else {}
  {
  }

  /** Failed are exactly the batch members whose restart did not go through. */
  ghost predicate Failures(spec: Spec, slots: seq<Slot>, batch: seq<Pod>, outcomes: nat -> Outcome, failed: seq<nat>) {
    && (forall p :: p in batch ==> p.ordinal < |slots|)
    && forall o :: o in failed <==>
         exists p :: p in batch && p.ordinal == o && !RestartPod(spec, slots[p.ordinal], p, outcomes(p.ordinal)).1
  }

  lemma FailuresNext(spec: Spec, slots: seq<Slot>, batch: seq<Pod>, i: nat, outcomes: nat -> Outcome, failed: seq<nat>)
    requires i < |batch| && batch[i].ordinal < |slots| && Failures(spec, slots, batch[..i], outcomes, failed)
    ensures var p := batch[i];
            Failures(spec, slots, batch[..i+1], outcomes,
                     if RestartPod(spec, slots[p.ordinal], p, outcomes(p.ordinal)).1 then failed
                     else failed + [p.ordinal])
  {
    assert batch[..i+1] == batch[..i] + [batch[i]];
  }

  /** Stamps first where a dynamic update was tried, then the restarts it did not make unnecessary. */
  ghost predicate BatchDone(
      spec: Spec, a: View, b: View, batch: seq<Pod>, configChanged: bool, dynamic: DynamicUpdate,
      outcomes: nat -> Outcome)
  {
    if !configChanged || dynamic.NotTried? then Restarts(spec, a, b, batch, outcomes)
    else
      var mid := a.(slots := StampAll(spec, a.slots, Ordinals(batch) * dynamic.stamped));
      if dynamic.AllApplied? then b == mid else Restarts(spec, mid, b, batch, outcomes)
  }

  // ---- What a pass takes down -------------------------------------------------------------------

  ghost function WentDown(a: seq<Slot>, b: seq<Slot>): set<nat>
    requires |a| == |b|
  {
    set o: nat | o < |a| && !Down(a[o]) && Down(b[o])
  }

  lemma RestartTakesDown(spec: Spec, slot: Slot, pod: Pod, outcome: Outcome)
    ensures !Down(slot) && Down(RestartPod(spec, slot, pod, outcome).0) ==>
              !Warm(spec, pod, outcome) && RestartPod(spec, slot, pod, outcome).1
  {
  }

  lemma RestartsTakeDown(spec: Spec, a: View, b: View, batch: seq<Pod>, outcomes: nat -> Outcome)
    requires Restarts(spec, a, b, batch, outcomes)
    ensures WentDown(a.slots, b.slots) <= b.owed && WentDown(a.slots, b.slots) <= Ordinals(batch)
  {
    forall o | o in WentDown(a.slots, b.slots) ensures o in b.owed && o in Ordinals(batch) {
      assert o in Ordinals(batch);
      var p :| p in batch && p.ordinal == o;
      RestartTakesDown(spec, a.slots[o], p, outcomes(o));
    }
  }

  /** A batch takes down only its own members, and every one it takes down is owed. */
  lemma BatchTakesDown(
      spec: Spec, a: View, b: View, batch: seq<Pod>, configChanged: bool, dynamic: DynamicUpdate,
      outcomes: nat -> Outcome)
    requires BatchDone(spec, a, b, batch, configChanged, dynamic, outcomes) && Descending(batch)
    ensures |b.slots| == |a.slots|
    ensures (forall o :: 0 <= o < |a.slots| && o !in Ordinals(batch) ==> b.slots[o] == a.slots[o])
    ensures var down := WentDown(a.slots, b.slots); down <= b.owed && down <= Ordinals(batch) && |down| <= |batch|
    ensures a.owed <= b.owed <= a.owed + Ordinals(batch)
  {
    OrdinalsCount(batch);
    if !configChanged || dynamic.NotTried? {
      RestartsTakeDown(spec, a, b, batch, outcomes);
    } else {
      var marks := Ordinals(batch) * dynamic.stamped;
      var mid := a.(slots := StampAll(spec, a.slots, marks));
      StampsTakeNoneDown(spec, a.slots, b.slots, marks);
      if !dynamic.AllApplied? { RestartsTakeDown(spec, mid, b, batch, outcomes); }
    }
    Collections.SubsetOfSameSize(WentDown(a.slots, b.slots), Ordinals(batch));
  }

  lemma StampsTakeNoneDown(spec: Spec, a: seq<Slot>, b: seq<Slot>, marks: set<nat>)
    requires |b| == |a|
    ensures var mid := StampAll(spec, a, marks);
            && WentDown(a, mid) == {} && WentDown(a, b) == WentDown(mid, b)
            && (forall o :: 0 <= o < |a| ==> Down(mid[o]) == Down(a[o]))
            && forall o :: 0 <= o < |a| && o !in marks ==> mid[o] == a[o]
  {
    var mid := StampAll(spec, a, marks);
    assert forall o :: 0 <= o < |a| ==> Down(mid[o]) == Down(a[o]);
  }

  // ---- Which pods stay up ----------------------------------------------------------------------

  /** The members of a batch that were up, could not be signalled and were deleted. */
  ghost function TakenDown(spec: Spec, slots: seq<Slot>, batch: seq<Pod>, outcomes: nat -> Outcome): set<nat> {
    set p | p in batch && p.ordinal < |slots| && !Down(slots[p.ordinal])
            && !Signalled(spec, p, outcomes(p.ordinal)) && !outcomes(p.ordinal).deletion.Refused?
      :: p.ordinal
  }

  /** The batch members deleted rather than signalled, whether or not they were still there. */
  ghost function Deleted(spec: Spec, batch: seq<Pod>, outcomes: nat -> Outcome): set<nat> {
    set p | p in batch && !Signalled(spec, p, outcomes(p.ordinal)) && !outcomes(p.ordinal).deletion.Refused?
      :: p.ordinal
  }

  /**
    Restarting a batch takes down exactly the members that were up, not signalled and deleted; it owes
    exactly the deleted ones; and a member that stays up carries the wanted config hash if it was
    signalled and its stamp written, and is untouched otherwise.
   */
  lemma RestartsExactly(spec: Spec, a: View, b: View, batch: seq<Pod>, outcomes: nat -> Outcome)
    requires Restarts(spec, a, b, batch, outcomes)
    ensures WentDown(a.slots, b.slots) == TakenDown(spec, a.slots, batch, outcomes)
    ensures b.owed == a.owed + Deleted(spec, batch, outcomes)
    ensures forall p :: p in batch ==> StaysAs(spec, a.slots[p.ordinal], b.slots[p.ordinal], p, outcomes(p.ordinal))
  {
    forall p | p in batch
      ensures StaysAs(spec, a.slots[p.ordinal], b.slots[p.ordinal], p, outcomes(p.ordinal))
      ensures !Down(a.slots[p.ordinal]) ==>
                (Down(b.slots[p.ordinal]) <==>
                 !Signalled(spec, p, outcomes(p.ordinal)) && !outcomes(p.ordinal).deletion.Refused?)
    {
      RestartExactly(spec, a.slots[p.ordinal], p, outcomes(p.ordinal));
    }
    RestartsTakeDown(spec, a, b, batch, outcomes);
    DeletedExactly(spec, a.slots, batch, outcomes);
  }

  /** A pod that was up and stays up is stamped if it was signalled and its stamp written, else untouched. */
  ghost predicate StaysAs(spec: Spec, was: Slot, after: Slot, pod: Pod, outcome: Outcome) {
    !Down(was) && !Down(after) ==>
      after.pod == if Signalled(spec, pod, outcome) && outcome.stampOk
                   then was.pod.(hashes := was.pod.hashes.(config := spec.target.hashes.config)) else was.pod
  }

  lemma DeletedExactly(spec: Spec, slots: seq<Slot>, batch: seq<Pod>, outcomes: nat -> Outcome)
    requires forall p :: p in batch ==> p.ordinal < |slots|
    ensures ColdRestarted(spec, slots, batch, outcomes) == Deleted(spec, batch, outcomes)
  {
    forall p | p in batch
      ensures !Warm(spec, p, outcomes(p.ordinal)) && RestartPod(spec, slots[p.ordinal], p, outcomes(p.ordinal)).1 <==>
              !Signalled(spec, p, outcomes(p.ordinal)) && !outcomes(p.ordinal).deletion.Refused?
    {
      RestartExactly(spec, slots[p.ordinal], p, outcomes(p.ordinal));
    }
  }

  /** A batch member fails exactly when it is signalled and cannot be stamped, or is not and its deletion is refused. */
  lemma FailedExactly(
      spec: Spec, slots: seq<Slot>, batch: seq<Pod>, outcomes: nat -> Outcome, failed: seq<nat>, p: Pod)
    requires Failures(spec, slots, batch, outcomes, failed) && Descending(batch) && p in batch
    ensures p.ordinal in failed <==>
            if Signalled(spec, p, outcomes(p.ordinal)) then slots[p.ordinal].Empty? || !outcomes(p.ordinal).stampOk
            else outcomes(p.ordinal).deletion.Refused?
  {
    RestartExactly(spec, slots[p.ordinal], p, outcomes(p.ordinal));
    var i :| 0 <= i < |batch| && batch[i] == p;
    assert forall j :: 0 <= j < |batch| && batch[j].ordinal == p.ordinal ==> j == i;
  }

  /** The same for a batch the dynamic update was offered first: all applied, it takes no pod down. */
  lemma BatchTakesDownExactly(
      spec: Spec, a: View, b: View, batch: seq<Pod>, configChanged: bool, dynamic: DynamicUpdate,
      outcomes: nat -> Outcome)
    requires BatchDone(spec, a, b, batch, configChanged, dynamic, outcomes)
    ensures |b.slots| == |a.slots|
    ensures var spared := configChanged && dynamic.AllApplied?;
            && WentDown(a.slots, b.slots) == (if spared then {} else TakenDown(spec, a.slots, batch, outcomes))
            && b.owed == a.owed + if spared then {} else Deleted(spec, batch, outcomes)
  {
    if !configChanged || dynamic.NotTried? {
      RestartsExactly(spec, a, b, batch, outcomes);
    } else {
      var marks := Ordinals(batch) * dynamic.stamped;
      var mid := a.(slots := StampAll(spec, a.slots, marks));
      StampsTakeNoneDown(spec, a.slots, b.slots, marks);
      if !dynamic.AllApplied? {
        RestartsExactly(spec, mid, b, batch, outcomes);
        SameDown(spec, a.slots, mid.slots, batch, outcomes);
      }
    }
  }

  lemma SameDown(spec: Spec, a: seq<Slot>, b: seq<Slot>, batch: seq<Pod>, outcomes: nat -> Outcome)
    requires |a| == |b| && forall o :: 0 <= o < |a| ==> Down(a[o]) == Down(b[o])
    ensures TakenDown(spec, a, batch, outcomes) == TakenDown(spec, b, batch, outcomes)
  {
  }

  // ---- A whole pass ----------------------------------------------------------------------------

  /** A pass that is held, or has nothing to restart, only adopts storage hashes. */
  ghost function AfterScan(spec: Spec, s: Rack, maxIgnorable: nat, stuck: set<nat>, adoptable: set<nat>): Rack {
    s.(slots := AdoptAll(spec, s.slots, ToAdopt(spec, ListPods(s.slots), maxIgnorable, stuck) * adoptable))
  }

  lemma AdoptedPods(spec: Spec, s: Rack, maxIgnorable: nat, stuck: set<nat>, adoptable: set<nat>)
    requires WellFormed(spec, s)
    ensures var t := AfterScan(spec, s, maxIgnorable, stuck, adoptable);
            && |t.slots| == |s.slots| && WentDown(s.slots, t.slots) == {}
            && (forall o :: 0 <= o < |s.slots| ==>
                  t.slots[o] == s.slots[o]
                  || (s.slots[o].Occupied? && !Stale(s.slots[o].pod, spec.target)
                      && t.slots[o] == AdoptHash(spec, s.slots[o])))
  {
    ListDescending(s.slots);
    var marks := ToAdopt(spec, ListPods(s.slots), maxIgnorable, stuck);
    forall o | o in marks ensures o < |s.slots| && s.slots[o].Occupied? && !Stale(s.slots[o].pod, spec.target) {
      var pods := ListPods(s.slots);
      var i: nat :| i < |pods| && pods[i].ordinal == o && !Stale(pods[i], spec.target);
      assert pods[i] in pods;
    }
  }

  /**
    Every slot a pass leaves different is in its batch, or holds an up-to-date pod that gained its
    storage hash. At most a batch of slots goes down, all of them batch members and all of them owed.
   */
  ghost predicate Confined(spec: Spec, s: Rack, e: Rack, batch: seq<Pod>) {
    && |e.slots| == |s.slots|
    && (forall o :: 0 <= o < |s.slots| && o !in Ordinals(batch) ==>
          e.slots[o] == s.slots[o]
          || (s.slots[o].Occupied? && !Stale(s.slots[o].pod, spec.target) && e.slots[o] == AdoptHash(spec, s.slots[o])))
    && WentDown(s.slots, e.slots) <= e.owed && WentDown(s.slots, e.slots) <= Ordinals(batch)
    && |WentDown(s.slots, e.slots)| <= spec.batchSize
    && s.owed <= e.owed <= s.owed + Ordinals(batch)
  }

  lemma HeldConfined(
      spec: Spec, s: Rack, t: Rack, batch: seq<Pod>, maxIgnorable: nat, stuck: set<nat>, adoptable: set<nat>)
    requires WellFormed(spec, s) && t == AfterScan(spec, s, maxIgnorable, stuck, adoptable)
    ensures Confined(spec, s, t, batch)
  {
    AdoptedPods(spec, s, maxIgnorable, stuck, adoptable);
  }

  /** Adopting hashes and then working on the batch stays within the same bounds. */
  lemma ConfinedThen(spec: Spec, s: Rack, t: Rack, e: Rack, batch: seq<Pod>)
    requires Confined(spec, s, t, []) && |e.slots| == |t.slots| && |batch| <= spec.batchSize
    requires forall o :: 0 <= o < |t.slots| && o !in Ordinals(batch) ==> e.slots[o] == t.slots[o]
    requires var down := WentDown(t.slots, e.slots); down <= e.owed && down <= Ordinals(batch) && |down| <= |batch|
    requires t.owed <= e.owed <= t.owed + Ordinals(batch)
    ensures Confined(spec, s, e, batch)
  {
    assert WentDown(s.slots, t.slots) == {};
    assert forall o :: 0 <= o < |s.slots| && !Down(s.slots[o]) ==> !Down(t.slots[o]) by {
      assert forall o :: 0 <= o < |s.slots| && !Down(s.slots[o]) && Down(t.slots[o]) ==>
               o in WentDown(s.slots, t.slots);
    }
    var down, inner := WentDown(s.slots, e.slots), WentDown(t.slots, e.slots);
    assert down <= inner;
    Collections.SubsetOfSameSize(down, inner);
  }

  /** What a pass that works on its batch does is confined to it. */
  lemma PassConfined(
      spec: Spec, s: Rack, t: Rack, e: Rack, maxIgnorable: nat, stuck: set<nat>, adoptable: set<nat>,
      configChanged: bool, dynamic: DynamicUpdate, outcomes: nat -> Outcome)
    requires WellFormed(spec, s) && t == AfterScan(spec, s, maxIgnorable, stuck, adoptable)
    requires BatchDone(spec, Seen(t), Seen(e), Batch(spec, ListPods(s.slots), maxIgnorable, stuck), configChanged,
                       dynamic, outcomes)
    ensures Confined(spec, s, e, Batch(spec, ListPods(s.slots), maxIgnorable, stuck))
  {
    var batch := Batch(spec, ListPods(s.slots), maxIgnorable, stuck);
    ListDescending(s.slots);
    BatchFacts(spec, ListPods(s.slots), maxIgnorable, stuck);
    HeldConfined(spec, s, t, [], maxIgnorable, stuck, adoptable);
    BatchTakesDown(spec, Seen(t), Seen(e), batch, configChanged, dynamic, outcomes);
    ConfinedThen(spec, s, t, e, batch);
  }

  /**
    So a pass takes down exactly the batch members that were up at the scan, were not signalled and
    whose deletion was not refused, none of them when a dynamic update was applied to the whole batch.
   */
  lemma PassTakesDownExactly(
      spec: Spec, s: Rack, t: Rack, e: Rack, maxIgnorable: nat, stuck: set<nat>, adoptable: set<nat>,
      configChanged: bool, dynamic: DynamicUpdate, outcomes: nat -> Outcome)
    requires WellFormed(spec, s) && t == AfterScan(spec, s, maxIgnorable, stuck, adoptable)
    requires BatchDone(spec, Seen(t), Seen(e), Batch(spec, ListPods(s.slots), maxIgnorable, stuck), configChanged,
                       dynamic, outcomes)
    ensures |e.slots| == |s.slots|
    ensures WentDown(s.slots, e.slots) ==
            if configChanged && dynamic.AllApplied? then {}
            else TakenDown(spec, s.slots, Batch(spec, ListPods(s.slots), maxIgnorable, stuck), outcomes)
  {
    var batch := Batch(spec, ListPods(s.slots), maxIgnorable, stuck);
    AdoptedPods(spec, s, maxIgnorable, stuck, adoptable);
    BatchTakesDownExactly(spec, Seen(t), Seen(e), batch, configChanged, dynamic, outcomes);
    assert forall o :: 0 <= o < |s.slots| ==> Down(s.slots[o]) == Down(t.slots[o]);
    SameDown(spec, s.slots, t.slots, batch, outcomes);
  }

  lemma {:induction false} OwnIsRun(spec: Spec, s: Rack, m: Rack, e: Rack)
    requires Reaches(spec, s, m) && OperatorReaches(spec, m, e)
    ensures Reaches(spec, s, e)
  {
    var run :| ValidRun(spec, s, run) && Exec(spec, s, run) == m;
    var own :| ValidRun(spec, m, own) && OwnRun(own) && Exec(spec, m, own) == e;
    ExecConcat(spec, s, run, own);
  }

  /**
    So on a Parallel rack, whatever happened before, what a pass takes down is part of the at most
    one batch that is owed when it ends.
   */
  lemma PassKeepsBound(spec: Spec, first: Rack, s: Rack, e: Rack, batch: seq<Pod>)
    requires Initial(spec, first) && spec.target.policy.Parallel? && Reaches(spec, first, s)
    requires OperatorReaches(spec, s, e) && Confined(spec, s, e, batch)
    ensures WentDown(s.slots, e.slots) <= e.owed && |e.owed| <= spec.batchSize
  {
    OwnIsRun(spec, first, s, e);
    var run :| ValidRun(spec, first, run) && Exec(spec, first, run) == e;
    RestartBound(spec, first, run);
  }
}
