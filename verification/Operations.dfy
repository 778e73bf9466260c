/**
  On-demand operations: a persisted status machine interleaved with the pods' own life.
  A pass takes a snapshot, checks the guard, attempts at most one batch of pods and then
  persists. Every step of the pods may fall between any two steps of the operator.
 */
module Operations {
  import opened Text
  import opened Collections
  import opened Sizes

  datatype Pod = Pod(terminating: bool, ready: bool)

  datatype Kind = WarmRestart | PodRestart | Unsupported

  datatype Phase = InProgress | Completed | Error

  datatype Status = Status(id: string, phase: Phase, completed: seq<string>, failed: seq<string>)

  /** The requested operation and the batch-size settings it runs under. */
  datatype Spec = Spec(id: string, kind: Kind, podList: seq<string>, rackLevel: Option<IntOrPercent>,
                       legacy: Option<int>)

  datatype Work = Idle | Working(targets: seq<string>, st: Status, todo: seq<string>)

  /**
    `owed` are the pods this operation cold-restarted that have not been Ready since, `log` the
    pods it attempted in order, `batch` the size of the last batch it started.
   */
  datatype State = State(pods: map<string, Pod>, status: Option<Status>, work: Work, owed: set<string>,
                         log: seq<string>, batch: nat)

  datatype Outcome = Accepted | Removed | Failed

  datatype Step =
    | Create(name: string)
    | Remove(name: string)
    | Terminate(name: string)
    | Unready(name: string)
    | BecomeReady(name: string)
    | Begin(listing: seq<string>, held: bool, written: bool)
    | Attempt(outcome: Outcome)
    | Persist(written: bool)

  // ---- The pass -------------------------------------------------------------------------

  function Resolved(st: Status): set<string> { (set n | n in st.completed) + (set n | n in st.failed) }

  predicate Terminal(spec: Spec, s: State) {
    s.status.Some? && s.status.value.id == spec.id && s.status.value.phase != InProgress
  }

  /** The status a pass continues from. */
  function Progress(spec: Spec, s: State): Status {
    if s.status.Some? && s.status.value.id == spec.id then s.status.value.(phase := InProgress)
    else Status(spec.id, InProgress, [], [])
  }

  /** Named pods in the order they were named, without those that do not exist; all pods when none is named. */
  function Targets(names: seq<string>, listing: seq<string>): seq<string> {
    if names == [] then listing else Present(names, listing)
  }

  function Present(names: seq<string>, listing: seq<string>): seq<string> {
    if names == [] then []
    else
      var front, last := Present(names[..|names|-1], listing), names[|names|-1];
      if last in listing then front + [last] else front
  }

  predicate Outstanding(targets: seq<string>, resolved: set<string>) { exists t :: t in targets && t !in resolved }

  /** A pod this operation restarted is not back. */
  predicate InFlight(pods: map<string, Pod>, targets: seq<string>, completed: seq<string>) {
    exists n :: n in completed && !(n in targets && n in pods && !pods[n].terminating && pods[n].ready)
  }

  predicate Blocked(s: State, st: Status, targets: seq<string>, held: bool) {
    && Outstanding(targets, Resolved(st))
    && (|| InFlight(s.pods, targets, st.completed) || held
        || exists t :: t in targets && t in s.pods && s.pods[t].terminating)
  }

  /** The first n unresolved names. */
  function Pick(targets: seq<string>, resolved: set<string>, n: nat): seq<string> {
    if targets == [] || n == 0 then []
    else if targets[0] in resolved then Pick(targets[1..], resolved, n)
    else [targets[0]] + Pick(targets[1..], resolved + {targets[0]}, n - 1)
  }

  function BatchSize(spec: Spec, targets: seq<string>): nat {
    RollingUpdateBatchSize(spec.rackLevel, spec.legacy, |targets|)
  }

  /**
    The empty Error status that says none of the named pods exists is written at once, the others
    when the pass ends.
   */
  function Started(spec: Spec, s: State, listing: seq<string>, held: bool, written: bool): State {
    var targets, st := Targets(spec.podList, listing), Progress(spec, s);
    if Terminal(spec, s) then s
    else if spec.podList != [] && targets == [] then
      if written then s.(status := Some(Status(spec.id, Error, [], []))) else s
    else if Blocked(s, st, targets, held) then s
    else
      var todo := Pick(targets, Resolved(st), BatchSize(spec, targets));
      s.(work := Working(targets, st, todo), batch := if todo == [] then s.batch else BatchSize(spec, targets))
  }

  function Deleted(pods: map<string, Pod>, n: string, outcome: Outcome): map<string, Pod> {
    if n !in pods || outcome.Failed? then pods
    else if outcome.Removed? then pods - {n}
    else pods[n := pods[n].(terminating := true)]
  }

  predicate Succeeds(spec: Spec, outcome: Outcome) { !spec.kind.Unsupported? && !outcome.Failed? }

  function Recorded(st: Status, n: string, ok: bool): Status {
    if ok then st.(completed := st.completed + [n]) else st.(failed := st.failed + [n])
  }

  function Attempted(spec: Spec, s: State, outcome: Outcome): State
    requires s.work.Working? && s.work.todo != []
  {
    var n, ok := s.work.todo[0], Succeeds(spec, outcome);
    var cold := ok && spec.kind.PodRestart?;
    s.(pods := if cold then Deleted(s.pods, n, outcome) else s.pods,
       work := Working(s.work.targets, Recorded(s.work.st, n, ok), s.work.todo[1..]),
       owed := if cold then s.owed + {n} else s.owed,
       log := s.log + [n])
  }

  function Finalized(st: Status, targets: seq<string>): Status {
    if Outstanding(targets, Resolved(st)) then st
    else st.(phase := if st.failed == [] then Completed else Error)
  }

  predicate Lists(listing: seq<string>, pods: map<string, Pod>) {
    NoDup(listing) && (forall n :: n in listing ==> n in pods) && forall n :: n in pods ==> n in listing
  }

  predicate Enabled(spec: Spec, s: State, step: Step) {
    match step
    case Create(n) => n !in s.pods
    case Remove(n) => n in s.pods
    case Terminate(n) => n in s.pods
    case Unready(n) => n in s.pods
    case BecomeReady(n) => n in s.pods
    case Begin(listing, _, _) => s.work.Idle? && Lists(listing, s.pods)
    case Attempt(_) => s.work.Working? && s.work.todo != []
    case Persist(_) => s.work.Working? && s.work.todo == []
  }

  function Apply(spec: Spec, s: State, step: Step): State
    requires Enabled(spec, s, step)
  {
    match step
    case Create(n) => s.(pods := s.pods[n := Pod(false, false)])
    case Remove(n) => s.(pods := s.pods - {n})
    case Terminate(n) => s.(pods := s.pods[n := s.pods[n].(terminating := true)])
    case Unready(n) => s.(pods := s.pods[n := s.pods[n].(ready := false)])
    case BecomeReady(n) =>
      s.(pods := s.pods[n := s.pods[n].(ready := true)], owed := if s.pods[n].terminating then s.owed else s.owed - {n})
    case Begin(listing, held, written) => Started(spec, s, listing, held, written)
    case Attempt(outcome) => Attempted(spec, s, outcome)
    case Persist(written) =>
      s.(status := if written then Some(Finalized(s.work.st, s.work.targets)) else s.status, work := Idle)
  }

  ghost predicate ValidRun(spec: Spec, s: State, steps: seq<Step>)
    decreases |steps|
  {
    steps == [] || (Enabled(spec, s, steps[0]) && ValidRun(spec, Apply(spec, s, steps[0]), steps[1..]))
  }

  ghost function Exec(spec: Spec, s: State, steps: seq<Step>): State
    requires ValidRun(spec, s, steps)
    decreases |steps|
  {
    if steps == [] then s else Exec(spec, Apply(spec, s, steps[0]), steps[1..])
  }

  lemma {:induction false} ExecLast(spec: Spec, s: State, run: seq<Step>, step: Step)
    requires ValidRun(spec, s, run) && Enabled(spec, Exec(spec, s, run), step)
    ensures ValidRun(spec, s, run + [step]) && Exec(spec, s, run + [step]) == Apply(spec, Exec(spec, s, run), step)
    decreases |run|
  {
    if run == [] {
      assert [] + [step] == [step] && [step][1..] == [];
      assert ValidRun(spec, Apply(spec, s, step), []);
    } else {
      assert (run + [step])[1..] == run[1..] + [step];
      ExecLast(spec, Apply(spec, s, run[0]), run[1..], step);
    }
  }

  ghost predicate AllWritten(steps: seq<Step>) { forall i :: 0 <= i < |steps| ==> steps[i] != Persist(false) }

  ghost predicate Initial(spec: Spec, s: State) {
    s.work.Idle? && s.owed == {} && s.log == [] && (s.status.Some? ==> s.status.value.id != spec.id)
  }

  // ---- What every step keeps --------------------------------------------------------------------

  ghost function Current(spec: Spec, s: State): Status { if s.work.Working? then s.work.st else Progress(spec, s) }

  ghost function Todo(s: State): seq<string> { if s.work.Working? then s.work.todo else [] }

  /** Duplicate-free, disjoint lists that name exactly the attempted pods. */
  ghost predicate Ledger(st: Status, log: seq<string>) {
    && NoDup(st.completed + st.failed) && NoDup(log)
    && forall n :: n in log <==> n in st.completed || n in st.failed
  }

  ghost predicate Down(pods: map<string, Pod>, n: string) { n in pods ==> pods[n].terminating || !pods[n].ready }

  ghost predicate Inv(spec: Spec, s: State) {
    && (s.work.Working? ==> !Terminal(spec, s) && s.work.st.id == spec.id && s.work.st.phase == InProgress)
    && (!Terminal(spec, s) ==>
          Ledger(Current(spec, s), s.log) && forall n :: n in s.owed ==> n in Current(spec, s).completed)
    && NoDup(s.log) && NoDup(Todo(s)) && (forall n :: n in Todo(s) ==> n !in s.log && n in s.work.targets)
    && (forall n :: n in s.owed ==> Down(s.pods, n))
    && |s.owed| + |Todo(s)| <= s.batch && (Terminal(spec, s) ==> Sealed(s.status.value))
  }

  /**
    A terminal status: Error exactly when a pod failed, or when it is the empty status of a pass
    that matched no pod.
   */
  ghost predicate Sealed(st: Status) {
    && NoDup(st.completed + st.failed)
    && (st.phase == Completed ==> st.failed == [])
    && (st.phase == Error ==> st.failed != [] || st.completed == [])
  }

  lemma {:induction false} PickFacts(targets: seq<string>, resolved: set<string>, n: nat)
    ensures var r := Pick(targets, resolved, n);
            && |r| <= n && NoDup(r) && (forall t :: t in r ==> t in targets && t !in resolved)
            && (n > 0 && Outstanding(targets, resolved) ==> r != [])
            && (|r| < n ==> forall t :: t in targets ==> t in resolved || t in r)
  {
    if targets != [] && n > 0 {
      var next := if targets[0] in resolved then resolved else resolved + {targets[0]};
      PickFacts(targets[1..], next, if targets[0] in resolved then n else n - 1);
      if Outstanding(targets, resolved) && targets[0] in resolved {
        var t :| t in targets && t !in resolved;
        assert t in targets[1..];
      }
    }
  }

  lemma PodStepInv(spec: Spec, s: State, step: Step)
    requires Inv(spec, s) && Enabled(spec, s, step) && !step.Begin? && !step.Attempt? && !step.Persist?
    ensures Inv(spec, Apply(spec, s, step))
  {
    var s' := Apply(spec, s, step);
    assert Current(spec, s') == Current(spec, s) && Todo(s') == Todo(s);
    if step.BecomeReady? && s'.owed != s.owed { assert |s.owed - {step.name}| <= |s.owed|; }
  }

  /** Past the guard nothing this operation restarted is down. */
  lemma GuardClears(spec: Spec, s: State, targets: seq<string>, held: bool)
    requires Inv(spec, s) && s.work.Idle? && !Terminal(spec, s)
    requires Outstanding(targets, Resolved(Progress(spec, s))) && !Blocked(s, Progress(spec, s), targets, held)
    ensures s.owed == {}
  {
    forall n | n in Progress(spec, s).completed ensures !Down(s.pods, n) {}
  }

  lemma BatchInv(spec: Spec, s: State, targets: seq<string>, todo: seq<string>, held: bool)
    requires Inv(spec, s) && s.work.Idle? && !Terminal(spec, s) && !Blocked(s, Progress(spec, s), targets, held)
    requires todo == Pick(targets, Resolved(Progress(spec, s)), BatchSize(spec, targets)) && todo != []
    ensures Inv(spec, s.(work := Working(targets, Progress(spec, s), todo), batch := BatchSize(spec, targets)))
  {
    PickFacts(targets, Resolved(Progress(spec, s)), BatchSize(spec, targets));
    assert todo[0] in todo;
    GuardClears(spec, s, targets, held);
  }

  lemma BeginInv(spec: Spec, s: State, step: Step)
    requires Inv(spec, s) && Enabled(spec, s, step) && step.Begin?
    ensures Inv(spec, Apply(spec, s, step))
  {
    var targets, st := Targets(spec.podList, step.listing), Progress(spec, s);
    var todo := Pick(targets, Resolved(st), BatchSize(spec, targets));
    var s' := Apply(spec, s, step);
    if s'.work.Working? && todo != [] { BatchInv(spec, s, targets, todo, step.held); }
  }

  lemma NoDupInsert(a: seq<string>, b: seq<string>, n: string)
    requires NoDup(a + b) && n !in a && n !in b
    ensures NoDup(a + [n] + b)
  {
    var c, d := a + b, a + [n] + b;
    forall i, j | 0 <= i < j < |d| ensures d[i] != d[j] {
      if i != |a| && j != |a| {
        assert d[i] == c[if i < |a| then i else i - 1] && d[j] == c[if j < |a| then j else j - 1];
      }
    }
  }

  lemma LedgerGrows(st: Status, log: seq<string>, n: string, ok: bool)
    requires Ledger(st, log) && n !in log
    ensures Ledger(Recorded(st, n, ok), log + [n])
  {
    var st' := Recorded(st, n, ok);
    NoDupInsert(log, [], n);
    assert log + [] == log && log + [n] + [] == log + [n];
    if ok {
      NoDupInsert(st.completed, st.failed, n);
      assert st'.completed + st'.failed == st.completed + [n] + st.failed;
    } else {
      assert st.completed + st.failed + [] == st.completed + st.failed;
      NoDupInsert(st.completed + st.failed, [], n);
      assert st'.completed + st'.failed == st.completed + st.failed + [n] + [];
    }
  }

  lemma AttemptOwed(spec: Spec, s: State, outcome: Outcome)
    requires Inv(spec, s) && s.work.Working? && s.work.todo != []
    ensures var s' := Attempted(spec, s, outcome);
            && (forall n :: n in s'.owed ==> Down(s'.pods, n) && n in s'.work.st.completed)
            && |s'.owed| + |s'.work.todo| <= s'.batch
  {
    var n, s' := s.work.todo[0], Attempted(spec, s, outcome);
    assert forall x :: x in s.owed ==> x in s.work.st.completed;
    assert |s'.owed| <= |s.owed| + 1;
  }

  lemma TodoTail(todo: seq<string>, log: seq<string>)
    requires todo != [] && NoDup(todo) && forall n :: n in todo ==> n !in log
    ensures NoDup(todo[1..]) && forall n :: n in todo[1..] ==> n in todo && n !in log + [todo[0]]
  {
    forall n | n in todo[1..] ensures n in todo && n != todo[0] {
      var i :| 0 <= i < |todo[1..]| && todo[1..][i] == n;
      assert todo[i+1] == n;
    }
  }

  lemma AttemptInv(spec: Spec, s: State, step: Step)
    requires Inv(spec, s) && Enabled(spec, s, step) && step.Attempt?
    ensures Inv(spec, Apply(spec, s, step))
  {
    LedgerGrows(s.work.st, s.log, s.work.todo[0], Succeeds(spec, step.outcome));
    AttemptOwed(spec, s, step.outcome);
    TodoTail(s.work.todo, s.log);
  }

  lemma PersistInv(spec: Spec, s: State)
    requires Inv(spec, s) && Enabled(spec, s, Persist(true))
    ensures Inv(spec, Apply(spec, s, Persist(true)))
  {
  }

  lemma InvStep(spec: Spec, s: State, steps: seq<Step>)
    requires Inv(spec, s) && steps != [] && Enabled(spec, s, steps[0]) && AllWritten(steps)
    ensures Inv(spec, Apply(spec, s, steps[0])) && AllWritten(steps[1..])
  {
    var step := steps[0];
    if step.Begin? { BeginInv(spec, s, step); }
    else if step.Attempt? { AttemptInv(spec, s, step); }
    else if step.Persist? { PersistInv(spec, s); }
    else { PodStepInv(spec, s, step); }
  }

  lemma {:induction false} InvRun(spec: Spec, s: State, steps: seq<Step>)
    requires Inv(spec, s) && ValidRun(spec, s, steps) && AllWritten(steps)
    ensures Inv(spec, Exec(spec, s, steps))
    decreases |steps|
  {
    if steps != [] {
      InvStep(spec, s, steps);
      InvRun(spec, Apply(spec, s, steps[0]), steps[1..]);
    }
  }

  // ---- The theorems -----------------------------------------------------------------------------

  /**
    Over every run whose status writes succeed: no pod is attempted twice, the persisted lists
    are duplicate-free and disjoint, and the pods this operation took down that are not back
    Ready number at most one batch.
   */
  lemma OperationsRun(spec: Spec, s: State, steps: seq<Step>)
    requires Initial(spec, s) && ValidRun(spec, s, steps) && AllWritten(steps)
    ensures var e := Exec(spec, s, steps);
            && NoDup(e.log) && |e.owed| <= e.batch && (forall n :: n in e.owed ==> Down(e.pods, n))
            && (e.status.Some? && e.status.value.id == spec.id ==>
                  NoDup(e.status.value.completed + e.status.value.failed))
            && (Terminal(spec, e) ==> Sealed(e.status.value))
  {
    InvRun(spec, s, steps);
    var e := Exec(spec, s, steps);
    StatusListsRun(spec, s, steps);
  }

  ghost predicate StatusLists(spec: Spec, s: State) {
    s.status.Some? && s.status.value.id == spec.id ==> NoDup(s.status.value.completed + s.status.value.failed)
  }

  lemma {:induction false} StatusListsRun(spec: Spec, s: State, steps: seq<Step>)
    requires Inv(spec, s) && StatusLists(spec, s) && ValidRun(spec, s, steps) && AllWritten(steps)
    ensures StatusLists(spec, Exec(spec, s, steps))
    decreases |steps|
  {
    if steps != [] {
      InvStep(spec, s, steps);
      StatusListsRun(spec, Apply(spec, s, steps[0]), steps[1..]);
    }
  }

  /** A terminal status stays as it is, and nothing is attempted any more. */
  lemma {:induction false} TerminalAbsorbs(spec: Spec, s: State, steps: seq<Step>)
    requires Terminal(spec, s) && s.work.Idle? && ValidRun(spec, s, steps)
    ensures var e := Exec(spec, s, steps); e.status == s.status && e.log == s.log && e.work.Idle?
    decreases |steps|
  {
    if steps != [] { TerminalAbsorbs(spec, Apply(spec, s, steps[0]), steps[1..]); }
  }

  /** The targets of a pass that are not resolved yet. */
  ghost function Left(s: State): set<string>
    requires s.work.Working?
  {
    set t | t in s.work.targets && t !in Resolved(s.work.st)
  }

  ghost function Untried(s: State): set<string>
    requires s.work.Working?
  {
    set t | t in s.work.targets && t !in Resolved(s.work.st) && t !in s.work.todo
  }

  lemma UntriedConstant(spec: Spec, s: State, step: Step)
    requires Inv(spec, s) && s.work.Working? && Enabled(spec, s, step) && !step.Persist?
    ensures var s' := Apply(spec, s, step);
            s'.work.Working? && s'.work.targets == s.work.targets && Untried(s') == Untried(s)
  {
    if step.Attempt? {
      var n := s.work.todo[0];
      assert s.work.todo == [n] + s.work.todo[1..];
      assert Resolved(Apply(spec, s, step).work.st) == Resolved(s.work.st) + {n};
    }
  }

  lemma {:induction false} PassRun(spec: Spec, s: State, steps: seq<Step>)
    requires Inv(spec, s) && s.work.Working? && ValidRun(spec, s, steps)
    requires forall i :: 0 <= i < |steps| ==> !steps[i].Persist?
    ensures var e := Exec(spec, s, steps);
            e.work.Working? && e.work.targets == s.work.targets && Untried(e) == Untried(s) && Inv(spec, e)
    decreases |steps|
  {
    if steps != [] {
      UntriedConstant(spec, s, steps[0]);
      InvStep(spec, s, steps);
      PassRun(spec, Apply(spec, s, steps[0]), steps[1..]);
    }
  }

  /**
    A pass that gets past the guard resolves its whole batch, whatever its pods do meanwhile:
    the unresolved targets shrink by exactly the batch, which is empty only when nothing was
    left, and the status it writes is terminal exactly when nothing is left.
   */
  lemma PassProgress(spec: Spec, s: State, begin: Step, steps: seq<Step>)
    requires Inv(spec, s) && begin.Begin? && Enabled(spec, s, begin) && Apply(spec, s, begin).work.Working?
    requires ValidRun(spec, Apply(spec, s, begin), steps) && forall i :: 0 <= i < |steps| ==> !steps[i].Persist?
    requires Todo(Exec(spec, Apply(spec, s, begin), steps)) == []
    ensures var w, e := Apply(spec, s, begin), Exec(spec, Apply(spec, s, begin), steps);
            && e.work.Working? && |Left(e)| + |w.work.todo| == |Left(w)|
            && (w.work.todo == [] ==> Left(w) == {})
            && var st := Finalized(e.work.st, e.work.targets);
            && (st.phase != InProgress <==> Left(e) == {})
            && (st.phase == Completed <==> Left(e) == {} && st.failed == [])
  {
    var w := Apply(spec, s, begin);
    BeginInv(spec, s, begin);
    PassRun(spec, w, steps);
    LeftSplits(spec, w);
    LeftSplits(spec, Exec(spec, w, steps));
    PickFacts(w.work.targets, Resolved(w.work.st), BatchSize(spec, w.work.targets));
    BatchTakesSome(spec, w);
    FinalizedExactly(Exec(spec, w, steps));
  }

  /** The unresolved targets are the batch and the untried rest. */
  lemma LeftSplits(spec: Spec, s: State)
    requires Inv(spec, s) && s.work.Working?
    ensures |Left(s)| == |Untried(s)| + |s.work.todo|
  {
    var todo := set t | t in s.work.todo;
    assert forall t :: t in todo ==> t !in s.log;
    assert Left(s) == Untried(s) + todo;
    assert Untried(s) !! todo;
    NoDupSize(s.work.todo);
  }

  lemma BatchTakesSome(spec: Spec, w: State)
    requires w.work.Working? && (Outstanding(w.work.targets, Resolved(w.work.st)) ==> w.work.todo != [])
    ensures w.work.todo == [] ==> Left(w) == {}
  {
  }

  lemma FinalizedExactly(e: State)
    requires e.work.Working? && e.work.st.phase == InProgress
    ensures var st := Finalized(e.work.st, e.work.targets);
            && (st.phase != InProgress <==> Left(e) == {})
            && (st.phase == Completed <==> Left(e) == {} && st.failed == [])
  {
    if Outstanding(e.work.targets, Resolved(e.work.st)) {
      var t :| t in e.work.targets && t !in Resolved(e.work.st);
      assert t in Left(e);
    }
  }

  lemma {:induction false} NoDupSize(s: seq<string>)
    requires NoDup(s)
    ensures |set t | t in s| == |s|
  {
    if s != [] {
      NoDupSize(s[1..]);
      assert (set t | t in s) == {s[0]} + (set t | t in s[1..]);
    }
  }

  // ---- Where the promises end --------------------------------------------------------------------------

  /**
    A pass ends the operation as Error without a failed pod exactly when pods are named, none of
    them exists and the write goes through.
   */
  lemma NoMatchExactly(spec: Spec, s: State, begin: Step)
    requires begin.Begin? && Enabled(spec, s, begin) && !Terminal(spec, s)
    ensures Terminal(spec, Apply(spec, s, begin)) <==>
            begin.written && spec.podList != [] && forall n :: n in spec.podList ==> n !in s.pods
    ensures Terminal(spec, Apply(spec, s, begin)) ==>
              Apply(spec, s, begin).status == Some(Status(spec.id, Error, [], []))
  {
    var found := Present(spec.podList, begin.listing);
    PresentExactly(spec.podList, begin.listing);
    assert found != [] ==> found[0] in found;
  }

  lemma {:induction false} PresentExactly(names: seq<string>, listing: seq<string>)
    ensures forall n :: n in Present(names, listing) <==> n in names && n in listing
  {
    if names != [] { PresentExactly(names[..|names|-1], listing); }
  }

  /** The first listed pod is the whole first batch. */
  ghost predicate FreshPass(spec: Spec, s: State, listing: seq<string>) {
    && s.work.Idle? && !Terminal(spec, s) && Progress(spec, s) == Status(spec.id, InProgress, [], [])
    && spec.podList == [] && Lists(listing, s.pods) && (forall n :: n in s.pods ==> !s.pods[n].terminating)
    && listing != [] && (|listing| == 1 || BatchSize(spec, listing) == 1)
  }

  lemma PassOfOne(spec: Spec, s: State, listing: seq<string>, outcome: Outcome) returns (s': State)
    requires FreshPass(spec, s, listing)
    ensures var begin := Begin(listing, false, true);
            && Enabled(spec, s, begin) && Enabled(spec, Apply(spec, s, begin), Attempt(outcome))
            && s' == Apply(spec, Apply(spec, s, begin), Attempt(outcome))
    ensures s'.work.Working? && s'.work.todo == [] && s'.status == s.status && s'.log == s.log + [listing[0]]
    ensures s'.batch == BatchSize(spec, listing)
    ensures Succeeds(spec, outcome) && spec.kind.PodRestart? ==>
              s'.pods == Deleted(s.pods, listing[0], outcome) && s'.owed == s.owed + {listing[0]}
    ensures !spec.kind.PodRestart? ==> s'.pods == s.pods
  {
    var w := Apply(spec, s, Begin(listing, false, true));
    var k := BatchSize(spec, listing);
    assert Resolved(Progress(spec, s)) == {};
    assert !Blocked(s, Progress(spec, s), listing, false);
    assert Pick(listing, {}, k) == [listing[0]] + Pick(listing[1..], {} + {listing[0]}, k - 1);
    assert w.work.Working? && w.work.todo == [listing[0]];
    s' := Apply(spec, w, Attempt(outcome));
  }

  lemma RunFirst(spec: Spec, s: State, step: Step, rest: seq<Step>, end: State)
    requires Enabled(spec, s, step) && ValidRun(spec, Apply(spec, s, step), rest)
    requires Exec(spec, Apply(spec, s, step), rest) == end
    ensures ValidRun(spec, s, [step] + rest) && Exec(spec, s, [step] + rest) == end
  {
    assert ([step] + rest)[1..] == rest;
  }

  lemma TwoPasses(spec: Spec, s: State, a: Step, b: Step, c: Step, d: Step, e: Step, mid: State)
    requires Enabled(spec, s, a) && Enabled(spec, Apply(spec, s, a), b)
    requires Enabled(spec, Apply(spec, Apply(spec, s, a), b), c)
    requires mid == Apply(spec, Apply(spec, Apply(spec, s, a), b), c)
    requires Enabled(spec, mid, d) && Enabled(spec, Apply(spec, mid, d), e)
    ensures ValidRun(spec, s, [a, b, c, d, e]) && Exec(spec, s, [a, b, c, d, e]) == Apply(spec, Apply(spec, mid, d), e)
  {
    var s1 := Apply(spec, s, a);
    var s2 := Apply(spec, s1, b);
    var end := Apply(spec, Apply(spec, mid, d), e);
    RunFirst(spec, Apply(spec, mid, d), e, [], end);
    RunFirst(spec, mid, d, [e] + [], end);
    RunFirst(spec, s2, c, [d] + ([e] + []), end);
    RunFirst(spec, s1, b, [c] + ([d] + ([e] + [])), end);
    RunFirst(spec, s, a, [b] + ([c] + ([d] + ([e] + []))), end);
    assert [a] + ([b] + ([c] + ([d] + ([e] + [])))) == [a, b, c, d, e];
  }

  /** One lost status write is enough for a second attempt on the same pod. */
  lemma LostWriteRepeats(spec: Spec, s: State, n: string)
    requires Initial(spec, s) && spec.kind.WarmRestart? && spec.podList == [] && s.pods == map[n := Pod(false, true)]
    ensures var begin, go := Begin([n], false, true), Attempt(Accepted);
            var steps := [begin, go, Persist(false), begin, go];
            ValidRun(spec, s, steps) && Exec(spec, s, steps).log == [n, n]
  {
    var begin, go := Begin([n], false, true), Attempt(Accepted);
    var s1 := PassOfOne(spec, s, [n], Accepted);
    var mid := Apply(spec, s1, Persist(false));
    var s2 := PassOfOne(spec, mid, [n], Accepted);
    TwoPasses(spec, s, begin, go, Persist(false), begin, go, mid);
  }

  /**
    And it breaks the batch bound: the pod taken down is forgotten, so with a batch size of one
    the next pass takes down a second one while the first is still gone.
   */
  lemma LostWriteExceedsBatch(spec: Spec, s: State, a: string, b: string)
    requires Initial(spec, s) && spec.kind.PodRestart? && FreshPass(spec, s, [a, b]) && BatchSize(spec, [b]) == 1
    requires a != b
    ensures var go := Attempt(Removed);
            var steps := [Begin([a, b], false, true), go, Persist(false), Begin([b], false, true), go];
            && ValidRun(spec, s, steps)
            && var e := Exec(spec, s, steps); e.batch == 1 && e.owed == {a, b} && a !in e.pods && b !in e.pods
  {
    var s1 := PassOfOne(spec, s, [a, b], Removed);
    var mid := Apply(spec, s1, Persist(false));
    SecondPassFresh(spec, s, mid, a, b);
    var s2 := PassOfOne(spec, mid, [b], Removed);
    TwoPasses(spec, s, Begin([a, b], false, true), Attempt(Removed), Persist(false), Begin([b], false, true),
              Attempt(Removed), mid);
  }

  lemma SecondPassFresh(spec: Spec, s: State, mid: State, a: string, b: string)
    requires a != b && FreshPass(spec, s, [a, b]) && mid.work.Idle? && mid.status == s.status
    requires mid.pods == s.pods - {a}
    ensures FreshPass(spec, mid, [b])
  {
    assert forall n :: n in mid.pods <==> n in s.pods && n != a;
  }
}
