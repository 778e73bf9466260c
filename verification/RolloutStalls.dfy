/**
  When a rollout stops making progress although every pass reports restarts. A dynamic
  update stamps only the config hash, and so does a warm restart; a pod that is stale for
  another reason keeps its place at the head of the queue.
 */
module RolloutStalls {
  import opened Collections
  import opened RackPods
  import opened RollingRestart
  import opened RestartLimits

  /** How a pass selects: the ignorable unhealthy pods and the stuck pods are passed over. */
  datatype Choice = Choice(maxIgnorable: nat, stuck: set<nat>)

  function Queue(spec: Spec, pods: seq<Pod>, c: Choice): seq<Pod> {
    Selected(pods, |pods|, spec.target, c.maxIgnorable, c.stuck)
  }

  function BatchOf(spec: Spec, pods: seq<Pod>, c: Choice): seq<Pod> { Batch(spec, pods, c.maxIgnorable, c.stuck) }

  predicate Changed(spec: Spec, s: Rack, c: Choice) { ConfigChanged(spec, ListPods(s.slots), c.maxIgnorable, c.stuck) }

  predicate ConfigStale(spec: Spec, p: Pod) { p.hashes.config != spec.target.hashes.config }

  /** Stale even with the wanted config hash. */
  predicate Persistent(spec: Spec, p: Pod) {
    PodSpecMismatch(p.hashes, spec.target.hashes) || StorageMismatch(p.hashes, spec.target.hashes)
  }

  function Stamped(spec: Spec, p: Pod): Pod { p.(hashes := p.hashes.(config := spec.target.hashes.config)) }

  // ---- One dynamic round -----------------------------------------------------------------

  /** A pass whose dynamic update succeeds on the whole batch. */
  ghost function Round(spec: Spec, s: Rack, c: Choice): Rack {
    var batch := BatchOf(spec, ListPods(s.slots), c);
    s.(slots := StampAll(spec, s.slots, Ordinals(batch)), reported := s.reported + |batch|)
  }

  lemma BatchInPlace(spec: Spec, s: Rack, c: Choice)
    requires WellFormed(spec, s)
    ensures var pods := ListPods(s.slots); var batch := BatchOf(spec, pods, c);
            && Descending(pods) && Descending(batch)
            && forall p :: p in batch ==>
                 p in pods && Stale(p, spec.target) && p.ordinal < |s.slots| && s.slots[p.ordinal] == Occupied(p)
  {
    ListDescending(s.slots);
    BatchFacts(spec, ListPods(s.slots), c.maxIgnorable, c.stuck);
  }

  /** The stamps of a batch, one by one. */
  lemma {:induction false} StampsReachable(spec: Spec, from: Rack, s: Rack, slots: seq<Slot>, batch: seq<Pod>, n: nat)
    requires Reaches(spec, from, s) && s.slots == slots
    requires s.operator.Restarting? && s.operator.configChanged && s.operator.done == {} && s.operator.todo == batch
    requires n <= |batch| && forall p :: p in batch ==> p.ordinal < |slots| && slots[p.ordinal].Occupied?
    ensures Reaches(spec, from, s.(slots := StampAll(spec, slots, Ordinals(batch[..n]))))
  {
    if n == 0 {
      StampNone(spec, slots);
      assert Ordinals(batch[..0]) == {};
      assert s.(slots := slots) == s;
    } else {
      StampsReachable(spec, from, s, slots, batch, n - 1);
      var p, planned := batch[n-1], Ordinals(batch[..n-1]);
      assert p in batch;
      assert batch[..n] == batch[..n-1] + [p];
      assert Ordinals(batch[..n]) == planned + {p.ordinal};
      StampOneMore(spec, slots, planned, p.ordinal);
      ReachStep(spec, from, s.(slots := StampAll(spec, slots, planned)), DynamicStamp(p.ordinal));
    }
  }

  lemma RoundReachable(spec: Spec, from: Rack, s: Rack, c: Choice)
    requires Reaches(spec, from, s) && WellFormed(spec, s) && s.operator.Idle?
    requires !InFlight(ListPods(s.slots), spec.target) && Changed(spec, s, c)
    ensures Reaches(spec, from, Round(spec, s, c))
  {
    var pods := ListPods(s.slots);
    var batch := BatchOf(spec, pods, c);
    BatchInPlace(spec, s, c);
    ReachStep(spec, from, s, Scan);
    var a := Apply(spec, s, Scan);
    ReachStep(spec, from, a, StartBatch(c.maxIgnorable, c.stuck));
    var b := Apply(spec, a, StartBatch(c.maxIgnorable, c.stuck));
    StampsReachable(spec, from, b, s.slots, batch, |batch|);
    assert batch[..|batch|] == batch;
    var d := b.(slots := StampAll(spec, s.slots, Ordinals(batch)));
    ReachStep(spec, from, d, DynamicSuccess);
  }

  ghost function ConfigStaleSlots(spec: Spec, slots: seq<Slot>): set<nat> {
    set o: nat | o < |slots| && slots[o].Occupied? && ConfigStale(spec, slots[o].pod)
  }

  lemma StampedSlots(spec: Spec, slots: seq<Slot>, planned: set<nat>)
    ensures var after := StampAll(spec, slots, planned);
            && ConfigStaleSlots(spec, after) == ConfigStaleSlots(spec, slots) - planned
            && (after == slots <==> ConfigStaleSlots(spec, slots) !! planned)
  {
    var after := StampAll(spec, slots, planned);
    forall o: nat | o < |slots| ensures after[o] != slots[o] <==> o in ConfigStaleSlots(spec, slots) && o in planned {}
    if after != slots {
      var o: nat :| o < |slots| && after[o] != slots[o];
    }
  }

  lemma StampedWellFormed(spec: Spec, s: Rack, planned: set<nat>, reported: nat)
    requires WellFormed(spec, s)
    ensures WellFormed(spec, s.(slots := StampAll(spec, s.slots, planned), reported := reported))
  {
  }

  /** The config-stale slots of a batch are its config-stale members. */
  lemma BatchSlots(spec: Spec, s: Rack, c: Choice)
    requires WellFormed(spec, s)
    ensures var batch := BatchOf(spec, ListPods(s.slots), c);
            ConfigStaleSlots(spec, s.slots) !! Ordinals(batch) <==> forall p :: p in batch ==> !ConfigStale(spec, p)
  {
    var batch := BatchOf(spec, ListPods(s.slots), c);
    BatchInPlace(spec, s, c);
    if p :| p in batch && ConfigStale(spec, p) {
      assert p.ordinal in ConfigStaleSlots(spec, s.slots) && p.ordinal in Ordinals(batch);
    }
  }

  /**
    A round changes nothing if and only if every member of its batch already carries the
    wanted config hash. Otherwise the config-stale pods strictly decrease.
   */
  lemma RoundExactly(spec: Spec, s: Rack, c: Choice)
    requires WellFormed(spec, s)
    ensures var batch := BatchOf(spec, ListPods(s.slots), c); var after := Round(spec, s, c);
            && WellFormed(spec, after)
            && (after.slots == s.slots <==> forall p :: p in batch ==> !ConfigStale(spec, p))
            && ConfigStaleSlots(spec, after.slots) == ConfigStaleSlots(spec, s.slots) - Ordinals(batch)
            && (after.slots != s.slots ==> ConfigStaleSlots(spec, after.slots) < ConfigStaleSlots(spec, s.slots))
  {
    var batch := BatchOf(spec, ListPods(s.slots), c);
    StampedSlots(spec, s.slots, Ordinals(batch));
    StampedWellFormed(spec, s, Ordinals(batch), s.reported + |batch|);
    BatchSlots(spec, s, c);
  }

  /**
    A round that changes nothing comes again: after any number of passes the rack is the same
    and only the number of reported restarts has grown.
   */
  lemma {:induction false} StallRepeats(spec: Spec, s: Rack, c: Choice, n: nat)
    requires WellFormed(spec, s) && s.operator.Idle? && !InFlight(ListPods(s.slots), spec.target) && Changed(spec, s, c)
    requires forall p :: p in BatchOf(spec, ListPods(s.slots), c) ==> !ConfigStale(spec, p)
    ensures Reaches(spec, s, s.(reported := s.reported + n * |BatchOf(spec, ListPods(s.slots), c)|))
  {
    var k := |BatchOf(spec, ListPods(s.slots), c)|;
    if n == 0 {
      ReachSelf(spec, s);
      assert s.(reported := s.reported + 0 * k) == s;
    } else {
      StallRepeats(spec, s, c, n - 1);
      StallOnce(spec, s, c, (n - 1) * k);
      assert (n - 1) * k + k == n * k;
    }
  }

  lemma StallOnce(spec: Spec, s: Rack, c: Choice, extra: nat)
    requires WellFormed(spec, s) && s.operator.Idle? && !InFlight(ListPods(s.slots), spec.target) && Changed(spec, s, c)
    requires forall p :: p in BatchOf(spec, ListPods(s.slots), c) ==> !ConfigStale(spec, p)
    requires Reaches(spec, s, s.(reported := s.reported + extra))
    ensures Reaches(spec, s, s.(reported := s.reported + (extra + |BatchOf(spec, ListPods(s.slots), c)|)))
  {
    var m := s.(reported := s.reported + extra);
    RoundExactly(spec, m, c);
    RoundReachable(spec, s, m, c);
  }

  // ---- Whole rollouts ---------------------------------------------------------------------

  predicate Picked(spec: Spec, pods: seq<Pod>, c: Choice, i: nat)
    requires i < |pods|
  {
    Stale(pods[i], spec.target) && !Skipped(pods, i, c.maxIgnorable, c.stuck)
  }

  function Ahead(spec: Spec, pods: seq<Pod>, c: Choice, n: nat): seq<Pod>
    requires n <= |pods|
  {
    Selected(pods, n, spec.target, c.maxIgnorable, c.stuck)
  }

  /** How many of the first n pods are picked and stay stale whatever their config hash. */
  function PersistentAhead(spec: Spec, pods: seq<Pod>, c: Choice, n: nat): nat
    requires n <= |pods|
  {
    if n == 0 then 0
    else
      PersistentAhead(spec, pods, c, n - 1) +
      if Picked(spec, pods, c, n - 1) && Persistent(spec, pods[n-1]) then 1 else 0
  }

  /** A config-stale pod waits behind at least a batch of pods that dynamic updates cannot cure. */
  predicate Hopeless(spec: Spec, pods: seq<Pod>, c: Choice) {
    exists i :: 0 <= i < |pods| && Picked(spec, pods, c, i) && ConfigStale(spec, pods[i])
                && PersistentAhead(spec, pods, c, i) >= spec.batchSize
  }

  lemma {:induction false} AheadGrows(spec: Spec, pods: seq<Pod>, c: Choice, i: nat, n: nat)
    requires i < n <= |pods|
    ensures Ahead(spec, pods, c, i) <= Ahead(spec, pods, c, n)
    ensures Picked(spec, pods, c, i) ==> |Ahead(spec, pods, c, i)| < |Ahead(spec, pods, c, n)|
                                         && Ahead(spec, pods, c, n)[|Ahead(spec, pods, c, i)|] == pods[i]
  {
    if i < n - 1 { AheadGrows(spec, pods, c, i, n - 1); }
  }

  lemma {:induction false} PersistentBelow(spec: Spec, pods: seq<Pod>, c: Choice, n: nat)
    requires n <= |pods|
    ensures PersistentAhead(spec, pods, c, n) <= |Ahead(spec, pods, c, n)|
  {
    if n > 0 { PersistentBelow(spec, pods, c, n - 1); }
  }

  /** A picked pod is in the batch if and only if fewer than a batch are picked before it. */
  lemma InBatchExactly(spec: Spec, pods: seq<Pod>, c: Choice, i: nat)
    requires i < |pods| && Descending(pods) && Picked(spec, pods, c, i)
    ensures pods[i] in BatchOf(spec, pods, c) <==> |Ahead(spec, pods, c, i)| < spec.batchSize
  {
    var all, k := Queue(spec, pods, c), |Ahead(spec, pods, c, i)|;
    AheadGrows(spec, pods, c, i, |pods|);
    SelectedDescending(pods, |pods|, spec.target, c.maxIgnorable, c.stuck);
    var batch := BatchOf(spec, pods, c);
    if k < spec.batchSize { assert batch[k] == pods[i]; }
    if pods[i] in batch {
      var j :| 0 <= j < |batch| && batch[j] == pods[i];
      assert all[j] == all[k];
    }
  }

  lemma PickedInQueue(spec: Spec, pods: seq<Pod>, c: Choice, p: Pod) returns (i: nat)
    requires p in Queue(spec, pods, c)
    ensures i < |pods| && pods[i] == p && Picked(spec, pods, c, i)
  {
    SelectedExactly(pods, |pods|, spec.target, c.maxIgnorable, c.stuck);
    i :| i < |pods| && pods[i] == p && Stale(p, spec.target) && !Skipped(pods, i, c.maxIgnorable, c.stuck);
  }

  /** With nothing config-stale in the batch, its members count as persistent. */
  lemma {:induction false} CurrentBatchPersistent(spec: Spec, pods: seq<Pod>, c: Choice, n: nat)
    requires n <= |pods| && Descending(pods) && forall p :: p in BatchOf(spec, pods, c) ==> !ConfigStale(spec, p)
    ensures var ahead := |Ahead(spec, pods, c, n)|;
            PersistentAhead(spec, pods, c, n) >= if ahead < spec.batchSize then ahead else spec.batchSize
  {
    if n > 0 {
      CurrentBatchPersistent(spec, pods, c, n - 1);
      if Picked(spec, pods, c, n - 1) { InBatchExactly(spec, pods, c, n - 1); }
    }
  }

  lemma StalledIsHopeless(spec: Spec, pods: seq<Pod>, c: Choice)
    requires Descending(pods) && ConfigChanged(spec, pods, c.maxIgnorable, c.stuck)
    requires forall p :: p in BatchOf(spec, pods, c) ==> !ConfigStale(spec, p)
    ensures Hopeless(spec, pods, c)
  {
    var p :| p in Selected(pods, |pods|, spec.target, c.maxIgnorable, c.stuck)
             && p.hashes.config != spec.target.hashes.config;
    var i := PickedInQueue(spec, pods, c, p);
    InBatchExactly(spec, pods, c, i);
    CurrentBatchPersistent(spec, pods, c, i);
  }

  lemma HopelessIsChanged(spec: Spec, pods: seq<Pod>, c: Choice)
    requires Hopeless(spec, pods, c)
    ensures ConfigChanged(spec, pods, c.maxIgnorable, c.stuck)
  {
    var i :| 0 <= i < |pods| && Picked(spec, pods, c, i) && ConfigStale(spec, pods[i])
             && PersistentAhead(spec, pods, c, i) >= spec.batchSize;
    SelectedExactly(pods, |pods|, spec.target, c.maxIgnorable, c.stuck);
    assert pods[i] in Queue(spec, pods, c);
  }

  // ---- Stamping and the list of pods ------------------------------------------------------------

  /** The same pods, some of them stamped. */
  ghost predicate StampedList(spec: Spec, before: seq<Pod>, after: seq<Pod>, planned: set<nat>) {
    && |after| == |before|
    && forall i :: 0 <= i < |before| ==>
         after[i] == if before[i].ordinal in planned then Stamped(spec, before[i]) else before[i]
  }

  lemma {:induction false} StampedListPods(spec: Spec, slots: seq<Slot>, planned: set<nat>)
    requires forall o :: 0 <= o < |slots| && slots[o].Occupied? ==> slots[o].pod.ordinal == o
    ensures StampedList(spec, ListPods(slots), ListPods(StampAll(spec, slots, planned)), planned)
  {
    if slots != [] {
      var n := |slots| - 1;
      var after := StampAll(spec, slots, planned);
      StampedListPods(spec, slots[..n], planned);
      StampPrefix(spec, slots, planned, n);
      StampedOneMore(spec, slots, after, planned);
    }
  }

  lemma StampedOneMore(spec: Spec, slots: seq<Slot>, after: seq<Slot>, planned: set<nat>)
    requires slots != [] && |after| == |slots|
    requires var n := |slots| - 1;
             && (slots[n].Occupied? <==> after[n].Occupied?)
             && (slots[n].Occupied? ==>
                   var p := slots[n].pod; after[n].pod == if p.ordinal in planned then Stamped(spec, p) else p)
             && StampedList(spec, ListPods(slots[..n]), ListPods(after[..n]), planned)
    ensures StampedList(spec, ListPods(slots), ListPods(after), planned)
  {
    var n := |slots| - 1;
    ListLast(slots);
    ListLast(after);
    StampedGlue(spec, slots[n], after[n], ListPods(slots[..n]), ListPods(after[..n]), ListPods(slots), ListPods(after),
                planned);
  }

  /** One more slot in front of a list and of its stamped form. */
  lemma StampedGlue(
      spec: Spec, slot: Slot, stamped: Slot, before: seq<Pod>, after: seq<Pod>, before': seq<Pod>, after': seq<Pod>,
      planned: set<nat>)
    requires StampedList(spec, before, after, planned) && slot.Occupied? == stamped.Occupied?
    requires slot.Occupied? ==> stamped.pod == if slot.pod.ordinal in planned then Stamped(spec, slot.pod) else slot.pod
    requires before' == if slot.Occupied? then [slot.pod] + before else before
    requires after' == if stamped.Occupied? then [stamped.pod] + after else after
    ensures StampedList(spec, before', after', planned)
  {
    if slot.Occupied? { StampedFirst(spec, slot.pod, before, after, planned); }
  }

  lemma ListLast(slots: seq<Slot>)
    requires slots != []
    ensures var n := |slots| - 1;
            ListPods(slots) == if slots[n].Occupied? then [slots[n].pod] + ListPods(slots[..n])
                               else ListPods(slots[..n])
  {
  }

  lemma StampPrefix(spec: Spec, slots: seq<Slot>, planned: set<nat>, n: nat)
    requires n <= |slots|
    ensures StampAll(spec, slots, planned)[..n] == StampAll(spec, slots[..n], planned)
  {
  }

  lemma StampedFirst(spec: Spec, p: Pod, before: seq<Pod>, after: seq<Pod>, planned: set<nat>)
    requires StampedList(spec, before, after, planned)
    ensures StampedList(spec, [p] + before, [if p.ordinal in planned then Stamped(spec, p) else p] + after, planned)
  {
  }

  lemma {:induction false} StampedUnhealthy(spec: Spec, before: seq<Pod>, after: seq<Pod>, planned: set<nat>, n: nat)
    requires StampedList(spec, before, after, planned) && n <= |before|
    ensures CountUnhealthy(after[..n]) == CountUnhealthy(before[..n])
  {
    if n > 0 {
      StampedUnhealthy(spec, before, after, planned, n - 1);
      assert before[..n][..n-1] == before[..n-1] && after[..n][..n-1] == after[..n-1];
    }
  }

  lemma StampedPicked(spec: Spec, before: seq<Pod>, after: seq<Pod>, planned: set<nat>, c: Choice, i: nat)
    requires StampedList(spec, before, after, planned) && i < |before|
    ensures Picked(spec, after, c, i) <==>
            Picked(spec, before, c, i) && (before[i].ordinal in planned ==> Persistent(spec, before[i]))
    ensures Persistent(spec, after[i]) <==> Persistent(spec, before[i])
  {
    StampedUnhealthy(spec, before, after, planned, i);
  }

  lemma {:induction false} StampedPersistentAhead(
      spec: Spec, before: seq<Pod>, after: seq<Pod>, planned: set<nat>, c: Choice, n: nat)
    requires StampedList(spec, before, after, planned) && n <= |before|
    ensures PersistentAhead(spec, after, c, n) == PersistentAhead(spec, before, c, n)
  {
    if n > 0 {
      StampedPersistentAhead(spec, before, after, planned, c, n - 1);
      StampedPicked(spec, before, after, planned, c, n - 1);
    }
  }

  /** A round neither creates nor removes a hopeless wait. */
  lemma HopelessKept(spec: Spec, before: seq<Pod>, after: seq<Pod>, c: Choice)
    requires Descending(before) && StampedList(spec, before, after, Ordinals(BatchOf(spec, before, c)))
    ensures Hopeless(spec, after, c) <==> Hopeless(spec, before, c)
  {
    var planned := Ordinals(BatchOf(spec, before, c));
    if Hopeless(spec, before, c) {
      var i :| 0 <= i < |before| && Picked(spec, before, c, i) && ConfigStale(spec, before[i])
               && PersistentAhead(spec, before, c, i) >= spec.batchSize;
      PersistentBelow(spec, before, c, i);
      InBatchExactly(spec, before, c, i);
      NotPlanned(spec, before, c, i);
      StampedPicked(spec, before, after, planned, c, i);
      StampedPersistentAhead(spec, before, after, planned, c, i);
    }
    if Hopeless(spec, after, c) {
      var i :| 0 <= i < |after| && Picked(spec, after, c, i) && ConfigStale(spec, after[i])
               && PersistentAhead(spec, after, c, i) >= spec.batchSize;
      StampedPicked(spec, before, after, planned, c, i);
      StampedPersistentAhead(spec, before, after, planned, c, i);
    }
  }

  lemma NotPlanned(spec: Spec, pods: seq<Pod>, c: Choice, i: nat)
    requires i < |pods| && Descending(pods) && pods[i] !in BatchOf(spec, pods, c)
    ensures pods[i].ordinal !in Ordinals(BatchOf(spec, pods, c))
  {
    BatchFacts(spec, pods, c.maxIgnorable, c.stuck);
    forall p | p in BatchOf(spec, pods, c) ensures p.ordinal != pods[i].ordinal {
      var j :| 0 <= j < |pods| && pods[j] == p;
    }
  }

  // ---- When a rollout by dynamic updates ends ---------------------------------------------------

  /** Up to n steps, as long as there is something to do. */
  ghost function Iterate(next: Rack -> Rack, busy: Rack -> bool, s: Rack, n: nat): Rack
    decreases n
  {
    if n == 0 || !busy(s) then s else Iterate(next, busy, next(s), n - 1)
  }

  /** A step that keeps an invariant and lowers a rank gets everything done. */
  lemma {:induction false} Descent(
      next: Rack -> Rack, busy: Rack -> bool, good: Rack -> bool, rank: Rack -> nat, s: Rack, n: nat)
    requires forall x :: good(x) && busy(x) ==> good(next(x)) && rank(next(x)) < rank(x)
    requires good(s) && rank(s) <= n
    ensures !busy(Iterate(next, busy, s, n))
    decreases n
  {
    if busy(s) { Descent(next, busy, good, rank, next(s), n - 1); }
  }

  /** A step that keeps a state of affairs in which there is always something to do never gets done. */
  lemma {:induction false} Treadmill(next: Rack -> Rack, busy: Rack -> bool, bad: Rack -> bool, s: Rack, n: nat)
    requires forall x :: bad(x) ==> busy(x) && bad(next(x))
    requires bad(s)
    ensures busy(Iterate(next, busy, s, n))
    decreases n
  {
    if n > 0 { Treadmill(next, busy, bad, next(s), n - 1); }
  }

  /** Up to n rounds, as long as a config hash differs. */
  ghost function Rollout(spec: Spec, s: Rack, c: Choice, n: nat): Rack {
    Iterate((x: Rack) => Round(spec, x, c), (x: Rack) => Changed(spec, x, c), s, n)
  }

  lemma RoundKeepsHopeless(spec: Spec, s: Rack, c: Choice)
    requires WellFormed(spec, s)
    ensures WellFormed(spec, Round(spec, s, c))
    ensures Hopeless(spec, ListPods(Round(spec, s, c).slots), c) <==> Hopeless(spec, ListPods(s.slots), c)
  {
    var pods := ListPods(s.slots);
    RoundExactly(spec, s, c);
    ListDescending(s.slots);
    StampedListPods(spec, s.slots, Ordinals(BatchOf(spec, pods, c)));
    HopelessKept(spec, pods, ListPods(Round(spec, s, c).slots), c);
  }

  lemma HopelessForever(spec: Spec, s: Rack, c: Choice, n: nat)
    requires WellFormed(spec, s) && Hopeless(spec, ListPods(s.slots), c)
    ensures Changed(spec, Rollout(spec, s, c, n), c)
  {
    var bad: Rack -> bool := (x: Rack) => WellFormed(spec, x) && Hopeless(spec, ListPods(x.slots), c);
    forall x | bad(x) ensures Changed(spec, x, c) && bad(Round(spec, x, c)) {
      HopelessIsChanged(spec, ListPods(x.slots), c);
      RoundKeepsHopeless(spec, x, c);
    }
    Treadmill((x: Rack) => Round(spec, x, c), (x: Rack) => Changed(spec, x, c), bad, s, n);
  }

  lemma HopefulEnds(spec: Spec, s: Rack, c: Choice)
    requires WellFormed(spec, s) && !Hopeless(spec, ListPods(s.slots), c)
    ensures !Changed(spec, Rollout(spec, s, c, |ConfigStaleSlots(spec, s.slots)|), c)
  {
    var good: Rack -> bool := (x: Rack) => WellFormed(spec, x) && !Hopeless(spec, ListPods(x.slots), c);
    var rank: Rack -> nat := (x: Rack) => |ConfigStaleSlots(spec, x.slots)|;
    forall x | good(x) && Changed(spec, x, c) ensures good(Round(spec, x, c)) && rank(Round(spec, x, c)) < rank(x) {
      HopefulShrinks(spec, x, c);
    }
    Descent((x: Rack) => Round(spec, x, c), (x: Rack) => Changed(spec, x, c), good, rank, s, rank(s));
  }

  /** Without a hopeless wait a round makes progress and brings none about. */
  lemma HopefulShrinks(spec: Spec, s: Rack, c: Choice)
    requires WellFormed(spec, s) && !Hopeless(spec, ListPods(s.slots), c) && Changed(spec, s, c)
    ensures var after := Round(spec, s, c);
            && WellFormed(spec, after) && !Hopeless(spec, ListPods(after.slots), c)
            && |ConfigStaleSlots(spec, after.slots)| < |ConfigStaleSlots(spec, s.slots)|
  {
    RoundKeepsHopeless(spec, s, c);
    RoundMoves(spec, s, c);
    SubsetOfSameSize(ConfigStaleSlots(spec, Round(spec, s, c).slots), ConfigStaleSlots(spec, s.slots));
  }

  lemma RoundMoves(spec: Spec, s: Rack, c: Choice)
    requires WellFormed(spec, s) && !Hopeless(spec, ListPods(s.slots), c) && Changed(spec, s, c)
    ensures ConfigStaleSlots(spec, Round(spec, s, c).slots) < ConfigStaleSlots(spec, s.slots)
  {
    RoundExactly(spec, s, c);
    ListDescending(s.slots);
    if forall p :: p in BatchOf(spec, ListPods(s.slots), c) ==> !ConfigStale(spec, p) {
      StalledIsHopeless(spec, ListPods(s.slots), c);
    }
  }

  /**
    Passes whose dynamic updates all succeed get rid of every config difference if and only
    if no config-stale pod waits behind a batch of pods that are stale for another reason.
   */
  lemma RolloutEndsExactly(spec: Spec, s: Rack, c: Choice)
    requires WellFormed(spec, s)
    ensures (exists n :: !Changed(spec, Rollout(spec, s, c, n), c)) <==> !Hopeless(spec, ListPods(s.slots), c)
  {
    if Hopeless(spec, ListPods(s.slots), c) {
      forall n ensures Changed(spec, Rollout(spec, s, c, n), c) { HopelessForever(spec, s, c, n); }
    } else {
      HopefulEnds(spec, s, c);
    }
  }

  /** Every slot holds a Ready pod that is not terminating, so nothing is ever in flight. */
  ghost predicate AllUp(spec: Spec, s: Rack) {
    && WellFormed(spec, s) && s.operator.Idle?
    && forall o :: 0 <= o < |s.slots| ==> s.slots[o].Occupied? && s.slots[o].pod.Ready() && !s.slots[o].pod.terminating
  }

  lemma AllUpFree(spec: Spec, s: Rack)
    requires AllUp(spec, s)
    ensures !InFlight(ListPods(s.slots), spec.target)
  {
    ListAll(s.slots);
  }

  /** On a rack that is up, these passes are runs of the machine. */
  lemma {:induction false} RolloutReachable(spec: Spec, from: Rack, s: Rack, c: Choice, n: nat)
    requires Reaches(spec, from, s) && AllUp(spec, s)
    ensures Reaches(spec, from, Rollout(spec, s, c, n))
    decreases n
  {
    if n > 0 && Changed(spec, s, c) {
      UpRound(spec, from, s, c);
      RolloutReachable(spec, from, Round(spec, s, c), c, n - 1);
      assert Rollout(spec, s, c, n) == Rollout(spec, Round(spec, s, c), c, n - 1);
    }
  }

  lemma UpRound(spec: Spec, from: Rack, s: Rack, c: Choice)
    requires Reaches(spec, from, s) && AllUp(spec, s) && Changed(spec, s, c)
    ensures Reaches(spec, from, Round(spec, s, c)) && AllUp(spec, Round(spec, s, c))
  {
    AllUpFree(spec, s);
    RoundReachable(spec, from, s, c);
    StampedUp(spec, s, c);
  }

  lemma StampedUp(spec: Spec, s: Rack, c: Choice)
    requires AllUp(spec, s)
    ensures AllUp(spec, Round(spec, s, c))
  {
    StampedWellFormed(spec, s, Ordinals(BatchOf(spec, ListPods(s.slots), c)), Round(spec, s, c).reported);
  }

  // ---- The case the code's own comment rules out ------------------------------------------------------

  /** A rack of Ready pods that differ from the template in these hashes only. */
  ghost function UniformRack(spec: Spec, hashes: Hashes): Rack {
    Rack(seq(spec.target.replicas, o requires 0 <= o < spec.target.replicas =>
           Occupied(Pod(o, Running, true, false, spec.target.image, hashes))), Idle, {}, 0)
  }

  const EVERY := Choice(0, {})

  lemma HealthyPicked(spec: Spec, pods: seq<Pod>, i: nat)
    requires i < |pods| && pods[i].Ready() && Stale(pods[i], spec.target)
    ensures Picked(spec, pods, EVERY, i)
  {
  }

  lemma {:induction false} HealthyQueue(spec: Spec, pods: seq<Pod>, n: nat)
    requires n <= |pods| && forall p :: p in pods ==> p.Ready() && Stale(p, spec.target)
    ensures Selected(pods, n, spec.target, 0, {}) == pods[..n]
  {
    if n > 0 {
      HealthyQueue(spec, pods, n - 1);
      assert pods[n-1] in pods;
      HealthyPicked(spec, pods, n - 1);
      assert pods[..n] == pods[..n-1] + [pods[n-1]];
    }
  }

  lemma {:induction false} HealthyPersistent(spec: Spec, pods: seq<Pod>, n: nat)
    requires n <= |pods| && forall p :: p in pods ==> p.Ready() && Persistent(spec, p)
    ensures PersistentAhead(spec, pods, EVERY, n) == n
  {
    if n > 0 {
      HealthyPersistent(spec, pods, n - 1);
      assert pods[n-1] in pods;
      HealthyPicked(spec, pods, n - 1);
    }
  }

  lemma UniformFacts(spec: Spec, hashes: Hashes)
    requires spec.target.hashes.config != ""
    ensures var s := UniformRack(spec, hashes); var pods := ListPods(s.slots);
            && AllUp(spec, s) && |pods| == spec.target.replicas && Descending(pods)
            && forall p :: p in pods ==> p.Ready() && p.hashes == hashes && p.image == spec.target.image
  {
    var s := UniformRack(spec, hashes);
    ListDescending(s.slots);
    ListAll(s.slots);
  }

  /**
    Config and pod spec change together on a healthy rack: a rollout by dynamic updates keeps a
    config difference for ever if and only if the rack is larger than a batch.
   */
  lemma BothChangedExactly(spec: Spec, hashes: Hashes)
    requires spec.target.hashes.config != "" && hashes.config != spec.target.hashes.config
    requires PodSpecMismatch(hashes, spec.target.hashes)
    ensures (forall n :: Changed(spec, Rollout(spec, UniformRack(spec, hashes), EVERY, n), EVERY)) <==>
            spec.target.replicas > spec.batchSize
  {
    var s := UniformRack(spec, hashes);
    UniformFacts(spec, hashes);
    BothChangedWaits(spec, hashes);
    RolloutEndsExactly(spec, s, EVERY);
  }

  lemma BothChangedWaits(spec: Spec, hashes: Hashes)
    requires spec.target.hashes.config != "" && hashes.config != spec.target.hashes.config
    requires PodSpecMismatch(hashes, spec.target.hashes)
    ensures Hopeless(spec, ListPods(UniformRack(spec, hashes).slots), EVERY) <==> spec.target.replicas > spec.batchSize
  {
    var pods := ListPods(UniformRack(spec, hashes).slots);
    UniformFacts(spec, hashes);
    forall i | 0 <= i < |pods| ensures Picked(spec, pods, EVERY, i) && PersistentAhead(spec, pods, EVERY, i) == i {
      HealthyPersistent(spec, pods, i);
      assert pods[i] in pods;
    }
    if spec.target.replicas > spec.batchSize {
      assert pods[spec.batchSize] in pods;
      assert Picked(spec, pods, EVERY, spec.batchSize);
    }
  }

  // ---- Warm restarts and storage ----------------------------------------------------------------------

  /** Differs from the template in its storage hash alone. */
  predicate StorageOnly(spec: Spec, p: Pod) {
    && !ConfigStale(spec, p) && !PodSpecMismatch(p.hashes, spec.target.hashes)
    && StorageMismatch(p.hashes, spec.target.hashes)
    && p.image == spec.target.image
  }

  const WARM := Outcome(true, true, Refused)

  /** Warm-restarting a batch of such pods leaves every slot as it was. */
  lemma {:induction false} WarmBatch(spec: Spec, from: Rack, s: Rack) returns (e: Rack)
    requires Reaches(spec, from, s) && s.operator.Restarting? && spec.execAvailable
    requires forall p :: p in s.operator.todo ==>
               p.ordinal < |s.slots| && s.slots[p.ordinal] == Occupied(p) && p.Ready() && StorageOnly(spec, p)
    ensures Reaches(spec, from, e)
    ensures e.slots == s.slots && e.owed == s.owed && e.reported == s.reported + |s.operator.todo|
    decreases |s.operator.todo|
  {
    if s.operator.todo == [] {
      e := s;
    } else {
      var p := s.operator.todo[0];
      assert p in s.operator.todo;
      ReachStep(spec, from, s, RestartNext(WARM));
      var m := Apply(spec, s, RestartNext(WARM));
      assert m.slots == s.slots;
      assert forall q :: q in m.operator.todo ==> q in s.operator.todo;
      e := WarmBatch(spec, from, m);
    }
  }

  /** One pass of warm restarts over such a batch. */
  lemma WarmRound(spec: Spec, from: Rack, s: Rack, c: Choice)
    requires Reaches(spec, from, s) && WellFormed(spec, s) && s.operator.Idle? && spec.execAvailable
    requires !InFlight(ListPods(s.slots), spec.target)
    requires forall p :: p in BatchOf(spec, ListPods(s.slots), c) ==> p.Ready() && StorageOnly(spec, p)
    ensures Reaches(spec, from, s.(reported := s.reported + |BatchOf(spec, ListPods(s.slots), c)|))
  {
    BatchInPlace(spec, s, c);
    ReachStep(spec, from, s, Scan);
    var a := Apply(spec, s, Scan);
    ReachStep(spec, from, a, StartBatch(c.maxIgnorable, c.stuck));
    var b := Apply(spec, a, StartBatch(c.maxIgnorable, c.stuck));
    var d := WarmBatch(spec, from, b);
    ReachStep(spec, from, d, EndPass);
    assert Apply(spec, d, EndPass) == s.(reported := s.reported + |BatchOf(spec, ListPods(s.slots), c)|);
  }

  /**
    Where exec is available, pods that are stale on storage only are restarted warm for ever:
    for every n there is a run that reports n rounds of restarts and leaves every pod in place and stale.
   */
  lemma {:induction false} WarmStall(spec: Spec, s: Rack, c: Choice, n: nat)
    requires WellFormed(spec, s) && s.operator.Idle? && spec.execAvailable
    requires !InFlight(ListPods(s.slots), spec.target)
    requires forall p :: p in BatchOf(spec, ListPods(s.slots), c) ==> p.Ready() && StorageOnly(spec, p)
    ensures Reaches(spec, s, s.(reported := s.reported + n * |BatchOf(spec, ListPods(s.slots), c)|))
  {
    var k := |BatchOf(spec, ListPods(s.slots), c)|;
    if n == 0 {
      ReachSelf(spec, s);
      assert s.(reported := s.reported + 0 * k) == s;
    } else {
      WarmStall(spec, s, c, n - 1);
      WarmRound(spec, s, s.(reported := s.reported + (n - 1) * k), c);
      assert (n - 1) * k + k == n * k;
    }
  }

  /** Such a rack exists under every template with a storage hash. */
  lemma WarmStallOccurs(spec: Spec, n: nat)
    requires spec.execAvailable && spec.batchSize >= 1 && spec.target.replicas >= 1
    requires spec.target.hashes.config != "" && spec.target.hashes.storage != ""
    ensures var hashes := spec.target.hashes.(storage := spec.target.hashes.storage + "'");
            var s := UniformRack(spec, hashes);
            exists k :: k >= 1 && Reaches(spec, s, s.(reported := n * k)) && |Live(spec, s)| == spec.target.replicas
  {
    var hashes := spec.target.hashes.(storage := spec.target.hashes.storage + "'");
    var s := UniformRack(spec, hashes);
    var pods := ListPods(s.slots);
    UniformFacts(spec, hashes);
    AllUpFree(spec, s);
    assert |hashes.storage| > |spec.target.hashes.storage|;
    HealthyQueue(spec, pods, |pods|);
    assert pods[..|pods|] == pods;
    BatchInPlace(spec, s, EVERY);
    assert |BatchOf(spec, pods, EVERY)| >= 1;
    WarmStall(spec, s, EVERY, n);
    UniformLive(spec, hashes);
  }

  lemma UniformLive(spec: Spec, hashes: Hashes)
    requires ComparePodHashes(hashes, spec.target.hashes).stale
    ensures |Live(spec, UniformRack(spec, hashes))| == spec.target.replicas
  {
    assert Live(spec, UniformRack(spec, hashes)) == Below(spec.target.replicas);
  }
}
