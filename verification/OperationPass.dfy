/**
  One pass over an on-demand operation: the steps of the Operations machine it may take, what
  it does to the log, the pods and the status, and the imperative form that does it.
 */
module OperationPass {
  import opened Text
  import opened Collections
  import opened Sizes
  import opened Operations

  // ---- What one pass does -------------------------------------------------------------------------------

  /** The operator's own steps; the others are the pods' own life. */
  predicate Own(step: Step) { step.Begin? || step.Attempt? || step.Persist? }

  ghost predicate OwnRun(run: seq<Step>) { forall i :: 0 <= i < |run| ==> Own(run[i]) }

  /** e can be reached from s by steps of the operator alone. */
  ghost predicate OperatorReaches(spec: Spec, s: State, e: State) {
    exists run: seq<Step> :: ValidRun(spec, s, run) && OwnRun(run) && Exec(spec, s, run) == e
  }

  lemma OwnStep(spec: Spec, s: State, m: State, step: Step)
    requires OperatorReaches(spec, s, m) && Enabled(spec, m, step) && Own(step)
    ensures OperatorReaches(spec, s, Apply(spec, m, step))
  {
    var run :| ValidRun(spec, s, run) && OwnRun(run) && Exec(spec, s, run) == m;
    ExecLast(spec, s, run, step);
    assert OwnRun(run + [step]);
  }

  /** The whole batch attempted in order. */
  ghost function AttemptAll(spec: Spec, s: State, outcomes: string -> Outcome): State
    requires s.work.Working?
    decreases |s.work.todo|
  {
    if s.work.todo == [] then s else AttemptAll(spec, Attempted(spec, s, outcomes(s.work.todo[0])), outcomes)
  }

  /** The names whose attempt succeeds, or fails. */
  function Those(spec: Spec, names: seq<string>, outcomes: string -> Outcome, succeeded: bool): seq<string> {
    if names == [] then []
    else (if Succeeds(spec, outcomes(names[0])) == succeeded then [names[0]] else []) +
         Those(spec, names[1..], outcomes, succeeded)
  }

  /** The pods after an attempt on one of them. */
  function After(spec: Spec, pods: map<string, Pod>, n: string, outcome: Outcome): map<string, Pod> {
    if spec.kind.PodRestart? && Succeeds(spec, outcome) then Deleted(pods, n, outcome) else pods
  }

  ghost predicate AgreeOn(a: map<string, Pod>, b: map<string, Pod>, n: string) {
    (n in a <==> n in b) && (n in a ==> a[n] == b[n])
  }

  lemma {:induction false} AttemptAllFrame(spec: Spec, s: State, outcomes: string -> Outcome)
    requires s.work.Working?
    ensures var e := AttemptAll(spec, s, outcomes);
            && e.log == s.log + s.work.todo && e.status == s.status && e.batch == s.batch
            && e.work.Working? && e.work.targets == s.work.targets && e.work.todo == []
            && e.work.st.id == s.work.st.id && e.work.st.phase == s.work.st.phase
    decreases |s.work.todo|
  {
    var todo := s.work.todo;
    if todo != [] {
      AttemptAllFrame(spec, Attempted(spec, s, outcomes(todo[0])), outcomes);
      assert s.log + [todo[0]] + todo[1..] == s.log + todo;
    }
  }

  lemma Regroup(a: seq<string>, b: seq<string>, c: seq<string>)
    ensures a + (b + c) == a + b + c && a + [] == a
  {
  }

  lemma {:induction false} AttemptAllRecords(spec: Spec, s: State, outcomes: string -> Outcome)
    requires s.work.Working? && AttemptAll(spec, s, outcomes).work.Working?
    ensures var st, todo := AttemptAll(spec, s, outcomes).work.st, s.work.todo;
            && st.completed == s.work.st.completed + Those(spec, todo, outcomes, true)
            && st.failed == s.work.st.failed + Those(spec, todo, outcomes, false)
    decreases |s.work.todo|
  {
    var todo := s.work.todo;
    if todo != [] {
      AttemptAllRecords(spec, Attempted(spec, s, outcomes(todo[0])), outcomes);
      Regroup(s.work.st.completed, [todo[0]], Those(spec, todo[1..], outcomes, true));
      Regroup(s.work.st.failed, [todo[0]], Those(spec, todo[1..], outcomes, false));
    }
  }

  lemma AfterElsewhere(spec: Spec, pods: map<string, Pod>, n: string, outcome: Outcome, other: string)
    requires other != n
    ensures AgreeOn(After(spec, pods, n, outcome), pods, other)
  {
  }

  lemma AfterAgrees(spec: Spec, a: map<string, Pod>, b: map<string, Pod>, n: string, outcome: Outcome)
    requires AgreeOn(a, b, n)
    ensures AgreeOn(After(spec, a, n, outcome), After(spec, b, n, outcome), n)
  {
  }

  lemma {:induction false} PodAfterAll(spec: Spec, s: State, outcomes: string -> Outcome, n: string)
    requires s.work.Working? && NoDup(s.work.todo)
    ensures var want := if n in s.work.todo then After(spec, s.pods, n, outcomes(n)) else s.pods;
            AgreeOn(AttemptAll(spec, s, outcomes).pods, want, n)
    decreases |s.work.todo|
  {
    var todo := s.work.todo;
    if todo != [] {
      var s' := Attempted(spec, s, outcomes(todo[0]));
      TodoTail(todo, []);
      assert n in todo <==> n == todo[0] || n in todo[1..];
      PodAfterAll(spec, s', outcomes, n);
      assert s'.pods == After(spec, s.pods, todo[0], outcomes(todo[0]));
      if n != todo[0] {
        AfterElsewhere(spec, s.pods, todo[0], outcomes(todo[0]), n);
        AfterAgrees(spec, s'.pods, s.pods, n, outcomes(n));
      }
    }
  }

  /** The operation is not over, some target exists and nothing holds the batch. */
  predicate GetsPast(spec: Spec, s: State, targets: seq<string>, held: bool) {
    !Terminal(spec, s) && (spec.podList == [] || targets != []) && !Blocked(s, Progress(spec, s), targets, held)
  }

  /** The pods a pass attempts. */
  function BatchOf(spec: Spec, s: State, listing: seq<string>, held: bool): seq<string> {
    var targets, st := Targets(spec.podList, listing), Progress(spec, s);
    if GetsPast(spec, s, targets, held) then Pick(targets, Resolved(st), BatchSize(spec, targets)) else []
  }

  /**
    The log grows by exactly the batch, which is no larger than the batch size; every other pod is
    left as it was, and every batch member as its outcome says.
   */
  ghost predicate Confined(spec: Spec, s: State, e: State, batch: seq<string>, size: nat, outcomes: string -> Outcome) {
    && e.log == s.log + batch && |batch| <= size
    && (forall n :: n !in batch ==> AgreeOn(e.pods, s.pods, n))
    && (forall n :: n in batch ==> AgreeOn(e.pods, After(spec, s.pods, n, outcomes(n)), n))
  }

  /** The status a pass that gets past the guard writes. */
  ghost function Outcomes(
      spec: Spec, s: State, targets: seq<string>, batch: seq<string>, outcomes: string -> Outcome): Status
  {
    var st := Progress(spec, s);
    Finalized(st.(completed := st.completed + Those(spec, batch, outcomes, true),
                  failed := st.failed + Those(spec, batch, outcomes, false)), targets)
  }

  // ---- The imperative form ------------------------------------------------------------------------------

  /** How the API server answered a status write. */
  datatype Write = Stored | Conflict | Refused

  method FilterPodsByNames(names: seq<string>, listing: seq<string>) returns (targets: seq<string>)
    ensures targets == Targets(names, listing)
  {
    if names == [] { return listing; }
    targets := [];
    for i := 0 to |names|
      invariant targets == Present(names[..i], listing)
    {
      assert names[..i+1][..i] == names[..i];
      if names[i] in listing { targets := targets + [names[i]]; }
    }
    assert names[..|names|] == names;
  }

  predicate IsResolved(st: Status, n: string) { n in st.completed || n in st.failed }

  /** What is left of a batch when the scan has come to `rest`. */
  ghost predicate Pending(spec: Spec, s: State, rest: seq<string>, n: nat, outcomes: string -> Outcome, end: State) {
    && s.work.Working? && s.work.todo == Pick(rest, Resolved(s.work.st), n)
    && AttemptAll(spec, s, outcomes) == end
  }

  lemma PendingNext(spec: Spec, s: State, targets: seq<string>, i: nat, n: nat, outcomes: string -> Outcome, end: State)
    requires i < |targets| && n > 0 && Pending(spec, s, targets[i..], n, outcomes, end)
    ensures IsResolved(s.work.st, targets[i]) ==> Pending(spec, s, targets[i+1..], n, outcomes, end)
    ensures !IsResolved(s.work.st, targets[i]) ==>
              && s.work.todo != []
              && Pending(spec, Attempted(spec, s, outcomes(targets[i])), targets[i+1..], n - 1, outcomes, end)
  {
    PickNext(targets, i, Resolved(s.work.st), n);
    ResolvedGrows(s.work.st, targets[i], Succeeds(spec, outcomes(targets[i])));
  }

  lemma PickNext(targets: seq<string>, i: nat, resolved: set<string>, n: nat)
    requires i < |targets| && n > 0
    ensures Pick(targets[i..], resolved, n) ==
            if targets[i] in resolved then Pick(targets[i+1..], resolved, n)
            else [targets[i]] + Pick(targets[i+1..], resolved + {targets[i]}, n - 1)
  {
    assert targets[i..][1..] == targets[i+1..];
  }

  lemma ResolvedGrows(st: Status, n: string, ok: bool)
    ensures Resolved(Recorded(st, n, ok)) == Resolved(st) + {n}
  {
  }

  class OperationController {
    var s: State

    /** Restarts the unresolved targets in order until the batch is full. */
    method AttemptBatch(spec: Spec, batchSize: nat, outcomes: string -> Outcome, ghost from: State)
      requires s.work.Working? && OperatorReaches(spec, from, s)
      requires s.work.todo == Pick(s.work.targets, Resolved(s.work.st), batchSize)
      modifies this
      ensures OperatorReaches(spec, from, s) && s == AttemptAll(spec, old(s), outcomes)
    {
      var targets := s.work.targets;
      var processed, i := 0, 0;
      ghost var end := AttemptAll(spec, s, outcomes);
      assert targets[0..] == targets;
      while i < |targets| && processed < batchSize
        invariant 0 <= i <= |targets| && 0 <= processed <= batchSize
        invariant OperatorReaches(spec, from, s) && Pending(spec, s, targets[i..], batchSize - processed, outcomes, end)
      {
        PendingNext(spec, s, targets, i, batchSize - processed, outcomes, end);
        if !IsResolved(s.work.st, targets[i]) {
          AttemptFirst(spec, outcomes(targets[i]), from);
          processed := processed + 1;
        }
        i := i + 1;
      }
    }

    method AttemptFirst(spec: Spec, outcome: Outcome, ghost from: State)
      requires s.work.Working? && s.work.todo != [] && OperatorReaches(spec, from, s)
      modifies this
      ensures OperatorReaches(spec, from, s) && s == Attempted(spec, old(s), outcome)
    {
      OwnStep(spec, from, s, Attempt(outcome));
      s := Apply(spec, s, Attempt(outcome));
    }

    /** The pass past its guard: the batch, the phase it comes to, and the status write. */
    method WorkThrough(
        spec: Spec, listing: seq<string>, held: bool, outcomes: string -> Outcome, write: Write, ghost from: State)
      returns (phase: Phase)
      requires OperatorReaches(spec, from, s) && Enabled(spec, s, Begin(listing, held, write.Stored?))
      requires Apply(spec, s, Begin(listing, held, write.Stored?)).work.Working?
      modifies this
      ensures OperatorReaches(spec, from, s) && s.work.Idle?
      ensures var batch, targets := BatchOf(spec, old(s), listing, held), Targets(spec.podList, listing);
              && Confined(spec, old(s), s, batch, BatchSize(spec, targets), outcomes)
              && phase == Outcomes(spec, old(s), targets, batch, outcomes).phase
              && s.status == if write.Stored? then Some(Outcomes(spec, old(s), targets, batch, outcomes))
                             else old(s).status
    {
      var targets := FilterPodsByNames(spec.podList, listing);
      OwnStep(spec, from, s, Begin(listing, held, write.Stored?));
      s := Apply(spec, s, Begin(listing, held, write.Stored?));
      PickFacts(targets, Resolved(s.work.st), BatchSize(spec, targets));
      AttemptAllFrame(spec, s, outcomes);
      AttemptAllRecords(spec, s, outcomes);
      forall n { PodAfterAll(spec, s, outcomes, n); }
      AttemptBatch(spec, BatchSize(spec, targets), outcomes, from);
      phase := Finalized(s.work.st, targets).phase;
      OwnStep(spec, from, s, Persist(write.Stored?));
      s := Apply(spec, s, Persist(write.Stored?));
    }

    /**
      One pass, made of the operator's own steps and confined to its batch, which is empty when the
      pass is held or has nothing to do. A conflicting status write asks for another pass, and any
      other refused write is an error.
     */
    method ReconcileOperations(
        spec: Spec, requested: bool, listing: seq<string>, held: bool, outcomes: string -> Outcome, write: Write)
      returns (inProgress: bool, failed: bool)
      requires s.work.Idle? && Lists(listing, s.pods)
      modifies this
      ensures OperatorReaches(spec, old(s), s) && s.work.Idle?
      ensures !requested || Terminal(spec, old(s)) ==> s == old(s) && !inProgress && !failed
      ensures var batch := if requested then BatchOf(spec, old(s), listing, held) else [];
              Confined(spec, old(s), s, batch, BatchSize(spec, Targets(spec.podList, listing)), outcomes)
      ensures !write.Stored? ==> s.status == old(s.status)
      ensures var targets := Targets(spec.podList, listing);
              requested && write.Stored? && GetsPast(spec, old(s), targets, held) ==>
                s.status == Some(Outcomes(spec, old(s), targets, BatchOf(spec, old(s), listing, held), outcomes))
      ensures requested && !inProgress && !failed ==> Terminal(spec, s)
      ensures inProgress ==> !Terminal(spec, s)
      ensures failed ==> write.Refused? && s.status == old(s.status)
    {
      assert ValidRun(spec, s, []) && OwnRun([]) && Exec(spec, s, []) == s;
      assert s.log + [] == s.log;
      if !requested || Terminal(spec, s) { return false, false; }
      var begin := Begin(listing, held, write.Stored?);
      var targets := FilterPodsByNames(spec.podList, listing);
      if spec.podList != [] && targets == [] {
        OwnStep(spec, s, s, begin);
        if write.Stored? { s := s.(status := Some(Status(spec.id, Error, [], []))); }
        return write.Conflict?, write.Refused?;
      }
      if Blocked(s, Progress(spec, s), targets, held) { return true, false; }
      var phase := WorkThrough(spec, listing, held, outcomes, write, s);
      inProgress, failed := write.Conflict? || phase == InProgress, write.Refused?;
    }
  }
}
