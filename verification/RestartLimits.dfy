/** How far the restart bound reaches: the exact condition under which one batch bounds what is down. */
module RestartLimits {
  import opened Collections
  import opened RackPods
  import opened RollingRestart

  // ---- Exactly when one batch bounds what is down ----------------------------------

  /** A rack whose pods are all healthy and all stale on their config hash. */
  function StalePod(o: nat, target: Target): Pod {
    Pod(o, Running, true, false, target.image, Hashes("", target.hashes.podSpec, target.hashes.storage))
  }

  function StaleRack(spec: Spec): Rack {
    Rack(seq(spec.target.replicas, o requires 0 <= o < spec.target.replicas => Occupied(StalePod(o, spec.target))),
         Idle, {}, 0)
  }

  const COLD := Outcome(false, false, Accepted)

  ghost predicate AllPlain(spec: Spec, pods: seq<Pod>) {
    forall p :: p in pods ==> p == StalePod(p.ordinal, spec.target)
  }

  lemma {:induction false} PlainAllSelected(spec: Spec, pods: seq<Pod>, n: nat)
    requires n <= |pods| && AllPlain(spec, pods) && spec.target.hashes.config != ""
    ensures Selected(pods, n, spec.target, 0, {}) == pods[..n]
  {
    if n > 0 {
      PlainAllSelected(spec, pods, n - 1);
      assert pods[n-1] in pods;
      assert pods[..n] == pods[..n-1] + [pods[n-1]];
    }
  }

  ghost predicate Draining(s: Rack) {
    && s.operator.Restarting? && Descending(s.operator.todo)
    && (forall p :: p in s.operator.todo ==> p.ordinal < |s.slots| && s.slots[p.ordinal] == Occupied(p))
  }

  /** Cold-restarting one pod and letting the kubelet remove it. */
  lemma DrainOne(spec: Spec, from: Rack, s: Rack) returns (e: Rack)
    requires Reaches(spec, from, s) && Draining(s) && s.operator.todo != []
    ensures Reaches(spec, from, e)
    ensures Draining(e) && e.operator.todo == s.operator.todo[1..]
    ensures e.owed == s.owed + {s.operator.todo[0].ordinal}
    ensures e.slots == s.slots[s.operator.todo[0].ordinal := Empty]
  {
    var p := s.operator.todo[0];
    ReachStep(spec, from, s, RestartNext(COLD));
    var mid := Apply(spec, s, RestartNext(COLD));
    ReachStep(spec, from, mid, KubeletRemove(p.ordinal));
    e := Apply(spec, mid, KubeletRemove(p.ordinal));
    OrdinalsTail(s.operator.todo);
    assert forall q :: q in e.operator.todo ==> q.ordinal < p.ordinal;
  }

  lemma {:induction false} DrainBatch(spec: Spec, from: Rack, s: Rack) returns (e: Rack)
    requires Reaches(spec, from, s) && Draining(s)
    ensures Reaches(spec, from, e)
    ensures |e.slots| == |s.slots| && e.owed == s.owed + Ordinals(s.operator.todo)
    ensures forall o :: 0 <= o < |s.slots| ==>
              e.slots[o] == if o in Ordinals(s.operator.todo) then Empty else s.slots[o]
    decreases |s.operator.todo|
  {
    if s.operator.todo == [] {
      e := s;
    } else {
      OrdinalsTail(s.operator.todo);
      var m := DrainOne(spec, from, s);
      e := DrainBatch(spec, from, m);
    }
  }

  /** Starting a pass on a rack whose remaining pods are plain stale pods. */
  lemma OpenPass(spec: Spec, from: Rack, s: Rack) returns (e: Rack)
    requires Reaches(spec, from, s)
    requires WellFormed(spec, s) && s.operator.Idle? && spec.target.policy.OrderedReady?
    requires forall o :: 0 <= o < |s.slots| && s.slots[o].Occupied? ==> s.slots[o].pod == StalePod(o, spec.target)
    ensures Reaches(spec, from, e)
    ensures Draining(e) && e.slots == s.slots && e.owed == s.owed
    ensures |e.operator.todo| == if |ListPods(s.slots)| <= spec.batchSize then |ListPods(s.slots)| else spec.batchSize
  {
    var pods := ListPods(s.slots);
    ListDescending(s.slots);
    assert AllPlain(spec, pods);
    ReachStep(spec, from, s, Scan);
    var mid := Apply(spec, s, Scan);
    assert !InFlight(pods, spec.target);
    PlainAllSelected(spec, pods, |pods|);
    assert pods[..|pods|] == pods;
    BatchFacts(spec, pods, 0, {});
    ReachStep(spec, from, mid, StartBatch(0, {}));
    e := Apply(spec, mid, StartBatch(0, {}));
  }

  lemma {:induction false} ListAll(slots: seq<Slot>)
    requires forall i :: 0 <= i < |slots| ==> slots[i].Occupied?
    ensures |ListPods(slots)| == |slots|
  {
    if slots != [] { ListAll(slots[..|slots|-1]); }
  }

  lemma StaleRackFacts(spec: Spec)
    requires spec.target.hashes.config != ""
    ensures Initial(spec, StaleRack(spec)) && |ListPods(StaleRack(spec).slots)| == spec.target.replicas
  {
    ListAll(StaleRack(spec).slots);
  }

  /** Plain stale pods everywhere except in the slots that are owed, which are empty. */
  ghost predicate Gapped(spec: Spec, s: Rack) {
    && |s.slots| == spec.target.replicas
    && (forall o :: 0 <= o < |s.slots| ==>
          s.slots[o] == if o in s.owed then Empty else Occupied(StalePod(o, spec.target)))
  }

  /** A first batch deleted and gone, and the operator idle again. */
  lemma FirstBatchGone(spec: Spec) returns (e: Rack)
    requires spec.target.policy.OrderedReady? && spec.target.hashes.config != ""
    requires 1 <= spec.batchSize < spec.target.replicas
    ensures Reaches(spec, StaleRack(spec), e)
    ensures Gapped(spec, e) && e.operator.Idle? && |e.owed| == spec.batchSize
  {
    var s := StaleRack(spec);
    StaleRackFacts(spec);
    ReachSelf(spec, s);
    var a := OpenPass(spec, s, s);
    OrdinalsCount(a.operator.todo);
    var b := DrainBatch(spec, s, a);
    assert b.owed == Ordinals(a.operator.todo);
    ReachStep(spec, s, b, EndPass);
    e := b.(operator := Idle);
  }

  lemma RestartAnother(spec: Spec, from: Rack, s: Rack) returns (e: Rack)
    requires Reaches(spec, from, s) && Gapped(spec, s) && Draining(s) && s.operator.todo != []
    ensures Reaches(spec, from, e) && |e.owed| == |s.owed| + 1
  {
    var p := s.operator.todo[0];
    assert p in s.operator.todo;
    assert p.ordinal !in s.owed;
    ReachStep(spec, from, s, RestartNext(COLD));
    e := Apply(spec, s, RestartNext(COLD));
    assert e.owed == s.owed + {p.ordinal};
  }

  /** Under OrderedReady the count rule is off, so an emptied batch does not hold the next one. */
  lemma OrderedReadyExceeds(spec: Spec) returns (e: Rack)
    requires spec.target.policy.OrderedReady? && spec.target.hashes.config != ""
    requires 1 <= spec.batchSize < spec.target.replicas
    ensures Initial(spec, StaleRack(spec)) && Reaches(spec, StaleRack(spec), e) && |e.owed| > spec.batchSize
  {
    StaleRackFacts(spec);
    var c := FirstBatchGone(spec);
    StaleSlotLeft(spec, c);
    var d := OpenPass(spec, StaleRack(spec), c);
    assert Gapped(spec, d);
    e := RestartAnother(spec, StaleRack(spec), d);
  }

  lemma StaleSlotLeft(spec: Spec, c: Rack)
    requires Gapped(spec, c) && |c.owed| < spec.target.replicas
    ensures ListPods(c.slots) != []
  {
    SomeSlotLeft(c.owed, spec.target.replicas);
    var left :| 0 <= left < spec.target.replicas && left !in c.owed;
    assert c.slots[left].Occupied? && c.slots[left].pod in ListPods(c.slots);
  }

  lemma SomeSlotLeft(owed: set<nat>, n: nat)
    requires |owed| < n
    ensures exists o: nat :: o < n && o !in owed
  {
    if Below(n) <= owed {
      SubsetOfSameSize(Below(n), owed);
    }
    var o :| o in Below(n) && o !in owed;
  }

  lemma {:induction false} OwedInRange(spec: Spec, s: Rack, steps: seq<Step>)
    requires ValidRun(spec, s, steps) && forall o :: o in s.owed ==> o < |s.slots|
    ensures var e := Exec(spec, s, steps); |e.slots| == |s.slots| && forall o :: o in e.owed ==> o < |e.slots|
    decreases |steps|
  {
    if steps != [] { OwedInRange(spec, Apply(spec, s, steps[0]), steps[1..]); }
  }

  ghost predicate BatchBoundsEveryRun(spec: Spec) {
    forall s: Rack, steps: seq<Step> :: Initial(spec, s) && ValidRun(spec, s, steps) ==>
      |Exec(spec, s, steps).owed| <= spec.batchSize
  }

  /** The bound holds over all runs if and only if the rack is Parallel or fits into one batch. */
  lemma BoundExactly(spec: Spec)
    requires 1 <= spec.batchSize && spec.target.hashes.config != ""
    ensures BatchBoundsEveryRun(spec) <==> spec.target.policy.Parallel? || spec.target.replicas <= spec.batchSize
  {
    if spec.target.policy.Parallel? {
      forall s: Rack, steps: seq<Step> | Initial(spec, s) && ValidRun(spec, s, steps)
        ensures |Exec(spec, s, steps).owed| <= spec.batchSize
      {
        RestartBound(spec, s, steps);
      }
    } else if spec.target.replicas <= spec.batchSize {
      forall s: Rack, steps: seq<Step> | Initial(spec, s) && ValidRun(spec, s, steps)
        ensures |Exec(spec, s, steps).owed| <= spec.batchSize
      {
        OwedInRange(spec, s, steps);
        SubsetOfSameSize(Exec(spec, s, steps).owed, Below(spec.target.replicas));
      }
    } else {
      var e := OrderedReadyExceeds(spec);
      var run :| ValidRun(spec, StaleRack(spec), run) && Exec(spec, StaleRack(spec), run) == e;
    }
  }
}
