/**
  The rolling restart of one rack as a machine. Operator steps (scan, start a batch,
  restart the next pod) interleave freely with the StatefulSet controller, the
  kubelet and evictions by third parties, so a decision taken on a scan may act on
  a rack that has moved on.

  Main results, over every run:
    RestartBound         cold-deleted pods that are not back Ready never exceed the batch size
    RestartConservation  reported restarts and live stale pods add up to a constant
    RestartsBounded      with evictions allowed, reported restarts never exceed the initial stale pods
 */
module RollingRestart {
  import opened Collections
  import opened RackPods

  datatype Slot = Empty | Occupied(pod: Pod)

  datatype Operator =
    | Idle
    | Scanned(pods: seq<Pod>)
    | Restarting(todo: seq<Pod>, done: set<nat>, configChanged: bool)

  /**
    `owed` holds the slots the rolling restart cold-deleted whose replacement has
    not been Ready yet; `reported` counts the restarts it claimed.
   */
  datatype Rack = Rack(slots: seq<Slot>, operator: Operator, owed: set<nat>, reported: nat)

  datatype Spec = Spec(target: Target, batchSize: nat, execAvailable: bool)

  datatype Deletion = Accepted | Removed | Refused

  /** How the foreign calls of one pod restart turn out. */
  datatype Outcome = Outcome(execOk: bool, stampOk: bool, deletion: Deletion)

  datatype Step =
    | Scan
    | StartBatch(maxIgnorable: nat, stuck: set<nat>)
    | RestartNext(outcome: Outcome)
    | EndPass
    | Adopt(slot: nat)
    | DynamicStamp(slot: nat)
    | DynamicSuccess
    | KubeletRemove(slot: nat)
    | Recreate(slot: nat)
    | Observe(slot: nat, phase: Phase, ready: bool)
    | Evict(slot: nat, removed: bool)

  // ---- One pod ------------------------------------------------------------------

  /** The rack's pod list, highest ordinal first. */
  function ListPods(slots: seq<Slot>): (r: seq<Pod>)
    ensures |r| <= |slots|
    ensures |r| == |slots| ==> forall i :: 0 <= i < |slots| ==> slots[i].Occupied?
    ensures forall i :: 0 <= i < |slots| && slots[i].Occupied? ==> slots[i].pod in r
    ensures forall p :: p in r ==> exists i :: 0 <= i < |slots| && slots[i] == Occupied(p)
  {
    if slots == [] then []
    else
      var last := slots[|slots|-1];
      var rest := ListPods(slots[..|slots|-1]);
      if last.Occupied? then [last.pod] + rest else rest
  }

  function StampConfig(slot: Slot, want: Hashes): Slot
    requires slot.Occupied?
  {
    Occupied(slot.pod.(hashes := slot.pod.hashes.(config := want.config)))
  }

  /** Deleting by name: a pod that is already gone counts as deleted. */
  function DeletePod(slot: Slot, d: Deletion): (Slot, bool) {
    if d.Refused? then (slot, false)
    else if slot.Empty? || d.Removed? then (Empty, true)
    else (Occupied(slot.pod.(terminating := true)), true)
  }

  predicate Warm(spec: Spec, pod: Pod, outcome: Outcome) {
    ShouldWarmRestart(pod, spec.target, spec.execAvailable) && outcome.execOk
  }

  /** Warm first, cold when warm does not apply or its signal cannot be sent. */
  function RestartPod(spec: Spec, slot: Slot, pod: Pod, outcome: Outcome): (Slot, bool) {
    if Warm(spec, pod, outcome) then
      if outcome.stampOk && slot.Occupied? then (StampConfig(slot, spec.target.hashes), true) else (slot, false)
    else DeletePod(slot, outcome.deletion)
  }

  /**
    Field by field: exec is available and works, and the pod is Running and Ready on the wanted image
    and, where the target asks for one, the wanted pod spec.
   */
  predicate Signalled(spec: Spec, pod: Pod, outcome: Outcome) {
    && spec.execAvailable && outcome.execOk
    && pod.phase == Running && pod.readyCondition && pod.image == spec.target.image
    && (spec.target.hashes.podSpec == "" || pod.hashes.podSpec == spec.target.hashes.podSpec)
  }

  /** Gone or on its way out. */
  predicate Down(slot: Slot) { slot.Empty? || slot.pod.terminating }

  /**
    A restart succeeds and leaves the pod in place exactly when the pod was there, was signalled and
    its stamp was written. A signalled pod never goes down and gains the wanted config hash at most;
    any other pod goes down exactly when its deletion is not refused, and is never stamped.
   */
  lemma RestartExactly(spec: Spec, slot: Slot, pod: Pod, outcome: Outcome)
    ensures var (after, ok) := RestartPod(spec, slot, pod, outcome);
            && (ok && !Down(after) <==> !Down(slot) && Signalled(spec, pod, outcome) && outcome.stampOk)
            && (ok <==> if Signalled(spec, pod, outcome) then slot.Occupied? && outcome.stampOk
                        else !outcome.deletion.Refused?)
            && (Signalled(spec, pod, outcome) && ok ==>
                  after == Occupied(slot.pod.(hashes := slot.pod.hashes.(config := spec.target.hashes.config))))
            && (Signalled(spec, pod, outcome) && !ok ==> after == slot)
            && (!Signalled(spec, pod, outcome) ==>
                  && (Down(after) <==> Down(slot) || ok)
                  && (after.Occupied? ==>
                        slot.Occupied? && after.pod == slot.pod.(terminating := after.pod.terminating)))
  {
    assert Warm(spec, pod, outcome) == Signalled(spec, pod, outcome);
  }

  function Replacement(spec: Spec, o: nat): Pod {
    Pod(o, Pending, false, false, spec.target.image, spec.target.hashes)
  }

  // ---- Steps ----------------------------------------------------------------------

  function Batch(spec: Spec, pods: seq<Pod>, maxIgnorable: nat, stuck: set<nat>): seq<Pod> {
    var selected := Selected(pods, |pods|, spec.target, maxIgnorable, stuck);
    if |selected| <= spec.batchSize then selected else selected[..spec.batchSize]
  }

  /** Some selected pod differs in its config hash, so the dynamic path is offered to the batch. */
  predicate ConfigChanged(spec: Spec, pods: seq<Pod>, maxIgnorable: nat, stuck: set<nat>) {
    exists p :: p in Selected(pods, |pods|, spec.target, maxIgnorable, stuck)
                && p.hashes.config != spec.target.hashes.config
  }

  /** The slot belongs to one of the pods. */
  predicate Targeted(pods: seq<Pod>, o: nat) { exists p :: p in pods && p.ordinal == o }

  predicate Enabled(spec: Spec, s: Rack, step: Step) {
    match step
    case Scan => s.operator.Idle?
    case StartBatch(_, _) => s.operator.Scanned? && !InFlight(s.operator.pods, spec.target)
    case RestartNext(_) => s.operator.Restarting? && s.operator.todo != [] && s.operator.todo[0].ordinal < |s.slots|
    case EndPass => true
    case Adopt(o) => o < |s.slots| && s.slots[o].Occupied? && !Stale(s.slots[o].pod, spec.target)
    case DynamicStamp(o) =>
      && s.operator.Restarting? && s.operator.configChanged && s.operator.done == {} && Targeted(s.operator.todo, o)
      && o < |s.slots| && s.slots[o].Occupied?
    case DynamicSuccess => s.operator.Restarting? && s.operator.configChanged && s.operator.done == {}
    case KubeletRemove(o) => o < |s.slots| && s.slots[o].Occupied? && s.slots[o].pod.terminating
    case Recreate(o) => o < |s.slots| && s.slots[o].Empty?
    case Observe(o, _, _) => o < |s.slots| && s.slots[o].Occupied?
    case Evict(o, _) => o < |s.slots| && s.slots[o].Occupied?
  }

  function Apply(spec: Spec, s: Rack, step: Step): Rack
    requires Enabled(spec, s, step)
  {
    match step
    case Scan => s.(operator := Scanned(ListPods(s.slots)))
    case StartBatch(maxIgnorable, stuck) =>
      s.(operator := Restarting(Batch(spec, s.operator.pods, maxIgnorable, stuck), {},
                                ConfigChanged(spec, s.operator.pods, maxIgnorable, stuck)))
    case RestartNext(outcome) =>
      var pod := s.operator.todo[0];
      var (slot, ok) := RestartPod(spec, s.slots[pod.ordinal], pod, outcome);
      Rack(s.slots[pod.ordinal := slot],
           Restarting(s.operator.todo[1..], s.operator.done + {pod.ordinal}, s.operator.configChanged),
           if ok && !Warm(spec, pod, outcome) then s.owed + {pod.ordinal} else s.owed,
           if ok then s.reported + 1 else s.reported)
    case EndPass => s.(operator := Idle)
    case Adopt(o) =>
      var pod := s.slots[o].pod;
      s.(slots := s.slots[o := Occupied(pod.(hashes := pod.hashes.(storage := spec.target.hashes.storage)))])
    case DynamicStamp(o) => s.(slots := s.slots[o := StampConfig(s.slots[o], spec.target.hashes)])
    case DynamicSuccess => s.(operator := Idle, reported := s.reported + |s.operator.todo|)
    case KubeletRemove(o) => s.(slots := s.slots[o := Empty])
    case Recreate(o) => s.(slots := s.slots[o := Occupied(Replacement(spec, o))])
    case Observe(o, phase, ready) =>
      var pod := s.slots[o].pod.(phase := phase, readyCondition := ready);
      s.(slots := s.slots[o := Occupied(pod)],
         owed := if pod.Ready() && !pod.terminating then s.owed - {o} else s.owed)
    case Evict(o, removed) =>
      s.(slots := s.slots[o := if removed then Empty else Occupied(s.slots[o].pod.(terminating := true))])
  }

  ghost predicate ValidRun(spec: Spec, s: Rack, steps: seq<Step>)
    decreases |steps|
  {
    steps != [] ==> Enabled(spec, s, steps[0]) && ValidRun(spec, Apply(spec, s, steps[0]), steps[1..])
  }

  ghost function Exec(spec: Spec, s: Rack, steps: seq<Step>): Rack
    requires ValidRun(spec, s, steps)
    decreases |steps|
  {
    if steps == [] then s else Exec(spec, Apply(spec, s, steps[0]), steps[1..])
  }

  lemma {:induction false} ExecConcat(spec: Spec, s: Rack, a: seq<Step>, b: seq<Step>)
    requires ValidRun(spec, s, a) && ValidRun(spec, Exec(spec, s, a), b)
    ensures ValidRun(spec, s, a + b) && Exec(spec, s, a + b) == Exec(spec, Exec(spec, s, a), b)
    decreases |a|
  {
    if a == [] {
      assert a + b == b;
    } else {
      ExecConcat(spec, Apply(spec, s, a[0]), a[1..], b);
      assert (a + b)[1..] == a[1..] + b;
    }
  }

  /** e can be reached from s by some run. */
  ghost predicate Reaches(spec: Spec, s: Rack, e: Rack) {
    exists run: seq<Step> :: ValidRun(spec, s, run) && Exec(spec, s, run) == e
  }

  lemma ReachStep(spec: Spec, s: Rack, m: Rack, step: Step)
    requires Reaches(spec, s, m) && Enabled(spec, m, step)
    ensures Reaches(spec, s, Apply(spec, m, step))
  {
    var run :| ValidRun(spec, s, run) && Exec(spec, s, run) == m;
    var e := Apply(spec, m, step);
    assert ValidRun(spec, e, [step][1..]) && Exec(spec, e, [step][1..]) == e;
    ExecConcat(spec, s, run, [step]);
  }

  lemma ReachSelf(spec: Spec, s: Rack)
    ensures Reaches(spec, s, s)
  {
    assert ValidRun(spec, s, []) && Exec(spec, s, []) == s;
  }

  /** The operator's own steps; the others belong to the kubelet, the StatefulSet controller and third parties. */
  predicate Own(step: Step) {
    step.Scan? || step.StartBatch? || step.RestartNext? || step.EndPass? || step.Adopt? || step.DynamicStamp?
    || step.DynamicSuccess?
  }

  ghost predicate OwnRun(run: seq<Step>) { forall i :: 0 <= i < |run| ==> Own(run[i]) }

  /** e can be reached from s by steps of the operator alone. */
  ghost predicate OperatorReaches(spec: Spec, s: Rack, e: Rack) {
    exists run: seq<Step> :: ValidRun(spec, s, run) && OwnRun(run) && Exec(spec, s, run) == e
  }

  lemma OwnStep(spec: Spec, s: Rack, m: Rack, step: Step)
    requires OperatorReaches(spec, s, m) && Enabled(spec, m, step) && Own(step)
    ensures OperatorReaches(spec, s, Apply(spec, m, step))
  {
    var run :| ValidRun(spec, s, run) && OwnRun(run) && Exec(spec, s, run) == m;
    var e := Apply(spec, m, step);
    assert ValidRun(spec, e, [step][1..]) && Exec(spec, e, [step][1..]) == e;
    ExecConcat(spec, s, run, [step]);
    assert OwnRun(run + [step]);
  }

  lemma OwnSelf(spec: Spec, s: Rack)
    ensures OperatorReaches(spec, s, s)
  {
    assert ValidRun(spec, s, []) && OwnRun([]) && Exec(spec, s, []) == s;
  }

  // ---- What the machine keeps track of --------------------------------------------------------

  /** A recreated pod is current, and once it is Ready it could be restarted warm. */
  lemma ReplacementIsCurrent(spec: Spec, s: Rack, o: nat, outcome: Outcome)
    requires o < |s.slots| && s.slots[o].Empty? && spec.execAvailable && outcome.execOk
    ensures var made := Apply(spec, s, Recreate(o));
            && made.slots[o].Occupied? && made.slots[o].pod.ordinal == o
            && made.slots[o].pod.hashes == spec.target.hashes
            && made.slots[o].pod.phase == Pending && !made.slots[o].pod.readyCondition && !Down(made.slots[o])
            && var up := Apply(spec, made, Observe(o, Running, true));
            && !Down(up.slots[o]) && !Stale(up.slots[o].pod, spec.target) && Signalled(spec, up.slots[o].pod, outcome)
  {
  }

  /**
    A slot enters the owed ones only by a cold restart of its pod, and leaves them only when its pod is
    Running, Ready and not terminating.
   */
  lemma OwedExactly(spec: Spec, s: Rack, step: Step, o: nat)
    requires Enabled(spec, s, step)
    ensures var s' := Apply(spec, s, step);
            && (o !in s.owed && o in s'.owed ==>
                  && step.RestartNext? && s.operator.todo[0].ordinal == o && Down(s'.slots[o])
                  && !Signalled(spec, s.operator.todo[0], step.outcome))
            && (o in s.owed && o !in s'.owed ==>
                  && o < |s'.slots| && s'.slots[o].Occupied? && s'.slots[o].pod.phase == Running
                  && s'.slots[o].pod.readyCondition && !s'.slots[o].pod.terminating)
  {
    if step.RestartNext? {
      var pod := s.operator.todo[0];
      RestartExactly(spec, s.slots[pod.ordinal], pod, step.outcome);
    }
  }

  // ---- The restart bound --------------------------------------------------------------

  ghost predicate WellFormed(spec: Spec, s: Rack) {
    && |s.slots| == spec.target.replicas
    && spec.target.hashes.config != ""
    && (forall o :: 0 <= o < |s.slots| && s.slots[o].Occupied? ==> s.slots[o].pod.ordinal == o)
  }

  /** Deleted and not back: on its way out, gone, or recreated and not Ready. */
  predicate Outstanding(spec: Spec, slot: Slot) {
    slot.Empty? || slot.pod.terminating || (!Stale(slot.pod, spec.target) && !slot.pod.Ready())
  }

  ghost predicate BoundInv(spec: Spec, s: Rack) {
    && WellFormed(spec, s)
    && (forall o :: o in s.owed ==> o < |s.slots| && Outstanding(spec, s.slots[o]))
    && match s.operator
       case Idle => |s.owed| <= spec.batchSize
       case Scanned(pods) => |s.owed| <= spec.batchSize && (!InFlight(pods, spec.target) ==> s.owed == {})
       case Restarting(todo, done, _) => s.owed <= done && |done| + |todo| <= spec.batchSize
  }

  ghost predicate Initial(spec: Spec, s: Rack) {
    WellFormed(spec, s) && s.operator.Idle? && s.owed == {}
  }

  lemma ScanSeesOwed(spec: Spec, s: Rack)
    requires BoundInv(spec, s) && spec.target.policy.Parallel?
    requires !InFlight(ListPods(s.slots), spec.target)
    ensures s.owed == {}
  {
    assert forall o :: 0 <= o < |s.slots| ==> s.slots[o].Occupied? && !Outstanding(spec, s.slots[o]);
  }

  /** One slot changes and nothing is newly owed: still owed slots stay outstanding. */
  lemma BoundSlot(spec: Spec, s: Rack, o: nat, slot: Slot, owed: set<nat>)
    requires BoundInv(spec, s) && o < |s.slots| && (slot.Occupied? ==> slot.pod.ordinal == o)
    requires owed <= s.owed && (o in owed ==> Outstanding(spec, slot))
    ensures BoundInv(spec, s.(slots := s.slots[o := slot], owed := owed))
  {
    SubsetOfSameSize(owed, s.owed);
  }

  lemma BoundEnvironment(spec: Spec, s: Rack, step: Step)
    requires BoundInv(spec, s) && Enabled(spec, s, step)
    requires step.Adopt? || step.DynamicStamp? || step.KubeletRemove? || step.Recreate? || step.Observe? || step.Evict?
    ensures BoundInv(spec, Apply(spec, s, step))
  {
    var s' := Apply(spec, s, step);
    BoundSlot(spec, s, step.slot, s'.slots[step.slot], s'.owed);
  }

  lemma BoundRestart(spec: Spec, s: Rack, step: Step)
    requires BoundInv(spec, s) && Enabled(spec, s, step) && step.RestartNext?
    ensures BoundInv(spec, Apply(spec, s, step))
  {
    var s', o := Apply(spec, s, step), s.operator.todo[0].ordinal;
    RestartOutstanding(spec, s.slots[o], s.operator.todo[0], step.outcome);
    BoundOwed(spec, s, o, s'.slots[o], s'.owed);
    assert |s'.operator.done| <= |s.operator.done| + 1;
  }

  /** A restart keeps an outstanding slot outstanding, and a cold one makes any slot so. */
  lemma RestartOutstanding(spec: Spec, slot: Slot, pod: Pod, outcome: Outcome)
    ensures var (after, ok) := RestartPod(spec, slot, pod, outcome);
            && (Outstanding(spec, slot) || (ok && !Warm(spec, pod, outcome)) ==> Outstanding(spec, after))
            && (after.Occupied? ==> slot.Occupied? && after.pod.ordinal == slot.pod.ordinal)
  {
  }

  lemma BoundOwed(spec: Spec, s: Rack, o: nat, slot: Slot, owed: set<nat>)
    requires BoundInv(spec, s) && o < |s.slots|
    requires (slot.Occupied? ==> s.slots[o].Occupied? && slot.pod.ordinal == s.slots[o].pod.ordinal)
    requires s.owed <= owed <= s.owed + {o} && (o in owed ==> Outstanding(spec, slot))
    ensures WellFormed(spec, s.(slots := s.slots[o := slot]))
    ensures forall x :: x in owed ==> x < |s.slots| && Outstanding(spec, s.slots[o := slot][x])
  {
  }

  lemma BoundPass(spec: Spec, s: Rack, step: Step)
    requires BoundInv(spec, s) && spec.target.policy.Parallel? && Enabled(spec, s, step)
    requires step.Scan? || step.StartBatch? || step.EndPass? || step.DynamicSuccess?
    ensures BoundInv(spec, Apply(spec, s, step))
  {
    if step.Scan? && !InFlight(ListPods(s.slots), spec.target) { ScanSeesOwed(spec, s); }
    if s.operator.Restarting? { SubsetOfSameSize(s.owed, s.operator.done); }
  }

  lemma BoundStep(spec: Spec, s: Rack, step: Step)
    requires BoundInv(spec, s) && spec.target.policy.Parallel? && Enabled(spec, s, step)
    ensures BoundInv(spec, Apply(spec, s, step))
  {
    if step.Scan? || step.StartBatch? || step.EndPass? || step.DynamicSuccess? { BoundPass(spec, s, step); }
    else if step.RestartNext? { BoundRestart(spec, s, step); }
    else { BoundEnvironment(spec, s, step); }
  }

  lemma {:induction false} BoundRun(spec: Spec, s: Rack, steps: seq<Step>)
    requires BoundInv(spec, s) && spec.target.policy.Parallel? && ValidRun(spec, s, steps)
    ensures BoundInv(spec, Exec(spec, s, steps))
    decreases |steps|
  {
    if steps != [] {
      BoundStep(spec, s, steps[0]);
      BoundRun(spec, Apply(spec, s, steps[0]), steps[1..]);
    }
  }

  /** In every reachable state of a Parallel rack at most one batch is down. */
  lemma RestartBound(spec: Spec, s: Rack, steps: seq<Step>)
    requires Initial(spec, s) && spec.target.policy.Parallel? && ValidRun(spec, s, steps)
    ensures |Exec(spec, s, steps).owed| <= spec.batchSize
  {
    BoundRun(spec, s, steps);
    var e := Exec(spec, s, steps);
    if e.operator.Restarting? { SubsetOfSameSize(e.owed, e.operator.done); }
  }

  // ---- Conservation of restarts ---------------------------------------------------------

  /** Stale pods nobody has deleted yet. */
  ghost function Live(spec: Spec, s: Rack): set<nat> { LiveIn(spec, s.slots) }

  ghost function LiveIn(spec: Spec, slots: seq<Slot>): set<nat> {
    set o: nat | o < |slots| && IsLive(spec, slots[o])
  }

  predicate IsLive(spec: Spec, slot: Slot) {
    slot.Occupied? && !slot.pod.terminating && Stale(slot.pod, spec.target)
  }

  /** The pods the operator may still act on. */
  ghost function Planned(spec: Spec, operator: Operator): set<nat> {
    match operator
    case Idle => {}
    case Scanned(pods) => set p | p in pods && !p.terminating && Stale(p, spec.target) :: p.ordinal
    case Restarting(todo, _, _) => Ordinals(todo)
  }

  ghost function Ordinals(pods: seq<Pod>): set<nat> { set p | p in pods :: p.ordinal }

  lemma OrdinalsTail(pods: seq<Pod>)
    requires pods != [] && Descending(pods)
    ensures Descending(pods[1..]) && pods[0].ordinal !in Ordinals(pods[1..])
    ensures Ordinals(pods) == Ordinals(pods[1..]) + {pods[0].ordinal}
    ensures forall p :: p in pods[1..] ==> p in pods
  {
    assert pods == [pods[0]] + pods[1..];
  }

  lemma {:induction false} OrdinalsCount(pods: seq<Pod>)
    requires Descending(pods)
    ensures |Ordinals(pods)| == |pods|
  {
    if pods != [] {
      OrdinalsTail(pods);
      OrdinalsCount(pods[1..]);
    }
  }

  predicate Descending(pods: seq<Pod>) {
    forall i, j :: 0 <= i < j < |pods| ==> pods[i].ordinal > pods[j].ordinal
  }

  function Pods(operator: Operator): seq<Pod> {
    match operator
    case Idle => []
    case Scanned(pods) => pods
    case Restarting(todo, _, _) => todo
  }

  ghost predicate NoStorageMismatch(spec: Spec, s: Rack) {
    forall o :: 0 <= o < |s.slots| && s.slots[o].Occupied? ==>
      !StorageMismatch(s.slots[o].pod.hashes, spec.target.hashes)
  }

  /** What may have become of a pod between the scan and the operator acting on it. */
  predicate MovedOn(spec: Spec, slot: Slot, pod: Pod) {
    slot.Empty? || slot.pod.terminating || !Stale(slot.pod, spec.target) || slot.pod.hashes == pod.hashes
  }

  ghost predicate Tracked(spec: Spec, s: Rack) {
    && WellFormed(spec, s) && NoStorageMismatch(spec, s)
    && Descending(Pods(s.operator))
    && (forall p :: p in Pods(s.operator) ==> p.ordinal < |s.slots|)
    && (forall p :: p in Pods(s.operator) && !p.terminating && Stale(p, spec.target) ==>
          MovedOn(spec, s.slots[p.ordinal], p))
    && (s.operator.Restarting? ==> forall p :: p in s.operator.todo ==> !p.terminating && Stale(p, spec.target))
  }

  /** Without evictions every planned pod is still live, with the hashes the scan saw. */
  ghost predicate Undisturbed(spec: Spec, s: Rack) {
    && Tracked(spec, s)
    && (forall p :: p in Pods(s.operator) && !p.terminating && Stale(p, spec.target) ==>
          IsLive(spec, s.slots[p.ordinal]) && s.slots[p.ordinal].pod.hashes == p.hashes)
  }

  ghost function Potential(spec: Spec, s: Rack): nat {
    s.reported + |Live(spec, s) + Planned(spec, s.operator)|
  }

  lemma {:induction false} ListDescending(slots: seq<Slot>)
    requires forall o :: 0 <= o < |slots| && slots[o].Occupied? ==> slots[o].pod.ordinal == o
    ensures Descending(ListPods(slots))
    ensures forall p :: p in ListPods(slots) ==> p.ordinal < |slots| && slots[p.ordinal] == Occupied(p)
  {
    if slots != [] { ListDescending(slots[..|slots|-1]); }
  }

  lemma {:induction false} SelectedDescending(
      pods: seq<Pod>, n: nat, target: Target, maxIgnorable: nat, stuck: set<nat>)
    requires n <= |pods| && Descending(pods)
    ensures Descending(Selected(pods, n, target, maxIgnorable, stuck))
    ensures forall p :: p in Selected(pods, n, target, maxIgnorable, stuck) ==>
                        Stale(p, target) && exists i :: 0 <= i < n && pods[i] == p
  {
    if n > 0 {
      SelectedDescending(pods, n - 1, target, maxIgnorable, stuck);
      assert forall p :: p in Selected(pods, n - 1, target, maxIgnorable, stuck) ==> p.ordinal > pods[n-1].ordinal;
    }
  }

  lemma BatchFacts(spec: Spec, pods: seq<Pod>, maxIgnorable: nat, stuck: set<nat>)
    requires Descending(pods)
    ensures var b := Batch(spec, pods, maxIgnorable, stuck);
            Descending(b) && |b| <= spec.batchSize && forall p :: p in b ==> p in pods && Stale(p, spec.target)
  {
    SelectedDescending(pods, |pods|, spec.target, maxIgnorable, stuck);
    var selected := Selected(pods, |pods|, spec.target, maxIgnorable, stuck);
    assert forall p :: p in Batch(spec, pods, maxIgnorable, stuck) ==> p in selected;
  }

  predicate OffDynamic(step: Step) { !step.DynamicStamp? && !step.DynamicSuccess? }

  /** A slot changes without a stale pod appearing in it. */
  ghost predicate SlotOnlyFades(spec: Spec, before: Slot, after: Slot) {
    IsLive(spec, after) ==> IsLive(spec, before) && after.pod.hashes == before.pod.hashes
  }

  lemma LiveUpdate(spec: Spec, slots: seq<Slot>, o: nat, slot: Slot)
    requires o < |slots| && (IsLive(spec, slot) ==> IsLive(spec, slots[o]))
    ensures LiveIn(spec, slots[o := slot]) == if IsLive(spec, slot) then LiveIn(spec, slots)
                                              else LiveIn(spec, slots) - {o}
  {
    var after := slots[o := slot];
    assert forall x: nat :: x < |slots| ==> after[x] == if x == o then slot else slots[x];
  }

  lemma SlotChange(spec: Spec, s: Rack, o: nat, slot: Slot, owed: set<nat>)
    requires Tracked(spec, s) && o < |s.slots| && SlotOnlyFades(spec, s.slots[o], slot)
    requires slot.Occupied? ==> slot.pod.ordinal == o && !StorageMismatch(slot.pod.hashes, spec.target.hashes)
    ensures var s' := s.(slots := s.slots[o := slot], owed := owed);
            && Tracked(spec, s')
            && Live(spec, s') == (if IsLive(spec, slot) then Live(spec, s) else Live(spec, s) - {o})
            && (Undisturbed(spec, s) && (IsLive(spec, s.slots[o]) ==> IsLive(spec, slot)) ==> Undisturbed(spec, s'))
  {
    LiveUpdate(spec, s.slots, o, slot);
  }

  /** Every step that is neither the operator's own nor dynamic changes one slot, harmlessly. */
  lemma EnvironmentStep(spec: Spec, s: Rack, step: Step)
    requires Tracked(spec, s) && Enabled(spec, s, step)
    requires step.Adopt? || step.KubeletRemove? || step.Recreate? || step.Observe? || step.Evict?
    ensures var s' := Apply(spec, s, step);
            && Tracked(spec, s') && s'.operator == s.operator && s'.reported == s.reported
            && Live(spec, s') <= Live(spec, s)
            && (Undisturbed(spec, s) && !step.Evict? ==> Undisturbed(spec, s') && Live(spec, s') == Live(spec, s))
  {
    var s' := Apply(spec, s, step);
    SlotChange(spec, s, step.slot, s'.slots[step.slot], s'.owed);
  }

  lemma ScanStep(spec: Spec, s: Rack)
    requires Tracked(spec, s) && s.operator.Idle?
    ensures var s' := Apply(spec, s, Scan);
            Undisturbed(spec, s') && Live(spec, s') == Live(spec, s) && Planned(spec, s'.operator) <= Live(spec, s)
  {
    ListDescending(s.slots);
  }

  lemma StartBatchStep(spec: Spec, s: Rack, step: Step)
    requires Tracked(spec, s) && step.StartBatch? && Enabled(spec, s, step)
    ensures var s' := Apply(spec, s, step);
            && Tracked(spec, s') && s'.slots == s.slots && s'.reported == s.reported
            && Planned(spec, s'.operator) <= Planned(spec, s.operator)
            && (Undisturbed(spec, s) ==> Undisturbed(spec, s'))
  {
    BatchFacts(spec, s.operator.pods, step.maxIgnorable, step.stuck);
  }

  /** A reported restart always leaves the slot without a live stale pod; a failed one leaves it alone. */
  lemma RestartPodFades(spec: Spec, slot: Slot, pod: Pod, outcome: Outcome)
    requires MovedOn(spec, slot, pod)
    requires slot.Occupied? ==> !StorageMismatch(slot.pod.hashes, spec.target.hashes)
    ensures var (after, ok) := RestartPod(spec, slot, pod, outcome);
            && SlotOnlyFades(spec, slot, after)
            && (if ok then !IsLive(spec, after) else after == slot)
            && (after.Occupied? ==> slot.Occupied? && after.pod.ordinal == slot.pod.ordinal
                                    && !StorageMismatch(after.pod.hashes, spec.target.hashes))
  {
  }

  lemma DropHead(spec: Spec, s: Rack)
    requires Tracked(spec, s) && s.operator.Restarting? && s.operator.todo != []
    ensures var head := s.operator.todo[0].ordinal;
            var s' :=
              s.(operator := Restarting(s.operator.todo[1..], s.operator.done + {head}, s.operator.configChanged));
            && Tracked(spec, s')
            && Planned(spec, s'.operator) == Planned(spec, s.operator) - {head}
            && (Undisturbed(spec, s) ==> Undisturbed(spec, s'))
  {
    OrdinalsTail(s.operator.todo);
  }

  /** The state a restart of the head leaves, put together from the queue and the slot. */
  lemma RestartNextShape(spec: Spec, s: Rack, outcome: Outcome)
    requires Enabled(spec, s, RestartNext(outcome))
    ensures var s', pod := Apply(spec, s, RestartNext(outcome)), s.operator.todo[0];
            var (slot, ok) := RestartPod(spec, s.slots[pod.ordinal], pod, outcome);
            var todo := Restarting(s.operator.todo[1..], s.operator.done + {pod.ordinal}, s.operator.configChanged);
            && s' ==
               s.(operator := todo, slots := s.slots[pod.ordinal := slot], owed := s'.owed, reported := s'.reported)
            && s'.reported == (if ok then s.reported + 1 else s.reported)
            && (slot == s.slots[pod.ordinal] ==> s'.slots == s.slots)
  {
  }

  lemma RestartTracked(spec: Spec, s: Rack, outcome: Outcome)
    requires Tracked(spec, s) && Enabled(spec, s, RestartNext(outcome))
    ensures var s' := Apply(spec, s, RestartNext(outcome));
            var head := s.operator.todo[0].ordinal;
            && Tracked(spec, s')
            && Planned(spec, s'.operator) == Planned(spec, s.operator) - {head}
            && ((s'.reported == s.reported && Live(spec, s') == Live(spec, s))
                || (s'.reported == s.reported + 1 && Live(spec, s') == Live(spec, s) - {head}))
  {
    var pod := s.operator.todo[0];
    var (slot, ok) := RestartPod(spec, s.slots[pod.ordinal], pod, outcome);
    assert pod in Pods(s.operator);
    RestartNextShape(spec, s, outcome);
    RestartPodFades(spec, s.slots[pod.ordinal], pod, outcome);
    DropHead(spec, s);
    var s' := Apply(spec, s, RestartNext(outcome));
    var mid := s.(operator := s'.operator, reported := s'.reported);
    assert Tracked(spec, mid);
    SlotChange(spec, mid, pod.ordinal, slot, s'.owed);
  }

  lemma RestartUndisturbed(spec: Spec, s: Rack, outcome: Outcome)
    requires Undisturbed(spec, s) && Enabled(spec, s, RestartNext(outcome))
    requires Tracked(spec, Apply(spec, s, RestartNext(outcome)))
    ensures Undisturbed(spec, Apply(spec, s, RestartNext(outcome))) && s.operator.todo[0].ordinal in Live(spec, s)
  {
    assert s.operator.todo[0] in Pods(s.operator);
    OrdinalsTail(s.operator.todo);
    var s' := Apply(spec, s, RestartNext(outcome));
    assert forall p :: p in s'.operator.todo ==> p in s.operator.todo && s'.slots[p.ordinal] == s.slots[p.ordinal];
  }

  lemma RestartNextStep(spec: Spec, s: Rack, outcome: Outcome)
    requires Tracked(spec, s) && Enabled(spec, s, RestartNext(outcome))
    ensures var s' := Apply(spec, s, RestartNext(outcome));
            var head := s.operator.todo[0].ordinal;
            && Tracked(spec, s')
            && Planned(spec, s'.operator) == Planned(spec, s.operator) - {head}
            && head in Planned(spec, s.operator)
            && ((s'.reported == s.reported && Live(spec, s') == Live(spec, s))
                || (s'.reported == s.reported + 1 && Live(spec, s') == Live(spec, s) - {head}))
            && (Undisturbed(spec, s) ==> Undisturbed(spec, s') && head in Live(spec, s))
  {
    RestartTracked(spec, s, outcome);
    assert s.operator.todo[0] in s.operator.todo;
    if Undisturbed(spec, s) { RestartUndisturbed(spec, s, outcome); }
  }

  lemma RemoveOne(a: set<nat>, x: nat)
    requires x in a
    ensures |a - {x}| == |a| - 1
  {
  }

  lemma PotentialRestart(spec: Spec, s: Rack, outcome: Outcome)
    requires Tracked(spec, s) && Enabled(spec, s, RestartNext(outcome))
    ensures var s' := Apply(spec, s, RestartNext(outcome));
            && Tracked(spec, s') && Potential(spec, s') <= Potential(spec, s)
            && (Undisturbed(spec, s) ==>
                  Undisturbed(spec, s') && s'.reported + |Live(spec, s')| == s.reported + |Live(spec, s)|)
  {
    RestartNextStep(spec, s, outcome);
    var s' := Apply(spec, s, RestartNext(outcome));
    var head := s.operator.todo[0].ordinal;
    var before := Live(spec, s) + Planned(spec, s.operator);
    var after := Live(spec, s') + Planned(spec, s'.operator);
    if s'.reported > s.reported {
      assert after == before - {head};
      RemoveOne(before, head);
      if head in Live(spec, s) { RemoveOne(Live(spec, s), head); }
    } else {
      SubsetOfSameSize(after, before);
    }
  }

  lemma PotentialStep(spec: Spec, s: Rack, step: Step)
    requires Tracked(spec, s) && Enabled(spec, s, step) && OffDynamic(step)
    ensures var s' := Apply(spec, s, step);
            && Tracked(spec, s') && Potential(spec, s') <= Potential(spec, s)
            && (Undisturbed(spec, s) && !step.Evict? ==>
                  Undisturbed(spec, s') && s'.reported + |Live(spec, s')| == s.reported + |Live(spec, s)|)
  {
    if step.RestartNext? {
      PotentialRestart(spec, s, step.outcome);
    } else {
      var s' := Apply(spec, s, step);
      match step {
        case Scan => ScanStep(spec, s);
        case StartBatch(_, _) => StartBatchStep(spec, s, step);
        case EndPass =>
        case _ => EnvironmentStep(spec, s, step);
      }
      SubsetOfSameSize(Live(spec, s') + Planned(spec, s'.operator), Live(spec, s) + Planned(spec, s.operator));
    }
  }

  predicate EvictionFree(steps: seq<Step>) { forall i :: 0 <= i < |steps| ==> !steps[i].Evict? }

  predicate DynamicFree(steps: seq<Step>) { forall i :: 0 <= i < |steps| ==> OffDynamic(steps[i]) }

  lemma {:induction false} PotentialRun(spec: Spec, s: Rack, steps: seq<Step>)
    requires Tracked(spec, s) && ValidRun(spec, s, steps) && DynamicFree(steps)
    ensures var e := Exec(spec, s, steps);
            && Potential(spec, e) <= Potential(spec, s)
            && (Undisturbed(spec, s) && EvictionFree(steps) ==>
                  Undisturbed(spec, e) && e.reported + |Live(spec, e)| == s.reported + |Live(spec, s)|)
    decreases |steps|
  {
    if steps != [] {
      PotentialStep(spec, s, steps[0]);
      PotentialRun(spec, Apply(spec, s, steps[0]), steps[1..]);
    }
  }

  /**
    With dynamic update off and no storage drift, whatever the interleaving, the
    restarts reported over a run are exactly the stale pods that disappeared.
   */
  lemma RestartConservation(spec: Spec, s: Rack, steps: seq<Step>)
    requires WellFormed(spec, s) && s.operator.Idle? && NoStorageMismatch(spec, s)
    requires ValidRun(spec, s, steps) && DynamicFree(steps) && EvictionFree(steps)
    ensures var e := Exec(spec, s, steps);
            e.reported - s.reported == |Live(spec, s)| - |Live(spec, e)|
  {
    PotentialRun(spec, s, steps);
  }

  /** Third-party evictions may do some of the work, but never cause extra restarts. */
  lemma RestartsBounded(spec: Spec, s: Rack, steps: seq<Step>)
    requires WellFormed(spec, s) && s.operator.Idle? && NoStorageMismatch(spec, s)
    requires ValidRun(spec, s, steps) && DynamicFree(steps)
    ensures var e := Exec(spec, s, steps);
            e.reported - s.reported <= |Live(spec, s)| - |Live(spec, e)|
  {
    PotentialRun(spec, s, steps);
    var e := Exec(spec, s, steps);
    SubsetOfSameSize(Live(spec, e), Live(spec, e) + Planned(spec, e.operator));
    assert Live(spec, s) + Planned(spec, s.operator) == Live(spec, s);
  }

  /** No step of anyone, dynamic updates included, makes a pod stale. */
  lemma StaleNeverGrows(spec: Spec, s: Rack, step: Step)
    requires WellFormed(spec, s) && Enabled(spec, s, step)
    ensures Live(spec, Apply(spec, s, step)) <= Live(spec, s)
  {
    var s' := Apply(spec, s, step);
    forall o: nat | o in Live(spec, s')
      ensures o in Live(spec, s)
    {
      assert IsLive(spec, s.slots[o]);
    }
  }

  // ---- Where the code stops short of progress ------------------------------------------

  /** A warm restart reports success, yet clears the pod only when its storage hash agrees. */
  lemma WarmRestartClears(spec: Spec, slot: Slot, outcome: Outcome)
    requires IsLive(spec, slot) && Warm(spec, slot.pod, outcome) && outcome.stampOk
    ensures var (after, ok) := RestartPod(spec, slot, slot.pod, outcome);
            ok && (IsLive(spec, after) <==> StorageMismatch(slot.pod.hashes, spec.target.hashes))
  {
  }

  /** The stamps of a dynamic update that succeeds on every planned pod. */
  ghost function StampAll(spec: Spec, slots: seq<Slot>, planned: set<nat>): seq<Slot> {
    seq(|slots|, o requires 0 <= o < |slots| =>
      if o in planned && slots[o].Occupied? then StampConfig(slots[o], spec.target.hashes) else slots[o])
  }

  lemma StampNone(spec: Spec, slots: seq<Slot>)
    ensures StampAll(spec, slots, {}) == slots
  {
  }

  lemma StampOneMore(spec: Spec, slots: seq<Slot>, planned: set<nat>, o: nat)
    requires o < |slots| && slots[o].Occupied?
    ensures StampAll(spec, slots, planned)[o].Occupied?
    ensures StampAll(spec, slots, planned)[o := StampConfig(StampAll(spec, slots, planned)[o], spec.target.hashes)]
            == StampAll(spec, slots, planned + {o})
  {
  }

  ghost function OnlyConfigStale(spec: Spec, s: Rack): set<nat> {
    set o: nat | o < |s.slots| && o in Planned(spec, s.operator)
                 && s.slots[o].Occupied? && !PodSpecMismatch(s.slots[o].pod.hashes, spec.target.hashes)
  }

  /**
    A dynamic update that succeeds on the whole batch claims every planned pod as
    restarted. The stale pods fall by exactly those pods if and only if no batch
    member differs from the template in its pod spec as well.
   */
  lemma DynamicBatchFalls(spec: Spec, s: Rack)
    requires Undisturbed(spec, s) && s.operator.Restarting?
    ensures var planned := Planned(spec, s.operator);
            var after := LiveIn(spec, StampAll(spec, s.slots, planned));
            && planned <= Live(spec, s) && after == Live(spec, s) - OnlyConfigStale(spec, s)
            && (Live(spec, s) - after == planned <==>
                forall p :: p in s.operator.todo ==> !PodSpecMismatch(p.hashes, spec.target.hashes))
  {
    var planned, cured := Planned(spec, s.operator), OnlyConfigStale(spec, s);
    var stamped := StampAll(spec, s.slots, planned);
    var after := LiveIn(spec, stamped);
    forall o: nat | o < |s.slots|
      ensures IsLive(spec, stamped[o]) <==> IsLive(spec, s.slots[o]) && o !in cured
    {
    }
    assert after == Live(spec, s) - cured;
    assert cured <= planned <= Live(spec, s);
    assert Live(spec, s) - after == cured;
    if forall p :: p in s.operator.todo ==> !PodSpecMismatch(p.hashes, spec.target.hashes) {
      assert planned <= cured;
    } else {
      var p :| p in s.operator.todo && PodSpecMismatch(p.hashes, spec.target.hashes);
      assert p.ordinal in planned && p.ordinal !in cured;
    }
  }
}
