/**
  Whole runs of an on-demand operation: how many passes it takes, what each batch waits for, and
  which lost status writes are harmless.
 */
module OperationRuns {
  import opened Text
  import opened Collections
  import opened Sizes
  import opened Operations

  // ---- How many passes it takes ------------------------------------------------------------------

  ghost predicate StartsWork(spec: Spec, s: State, step: Step)
    requires Enabled(spec, s, step)
  {
    step.Begin? && Apply(spec, s, step).work.Working?
  }

  /** Every pass of the run that gets past the guard has the same targets and the same batch size. */
  ghost predicate Steady(spec: Spec, s: State, steps: seq<Step>, names: set<string>, size: nat)
    requires ValidRun(spec, s, steps)
    decreases |steps|
  {
    steps == []
    || var w := Apply(spec, s, steps[0]);
       && (StartsWork(spec, s, steps[0]) ==> Aims(w.work.targets, names) && BatchSize(spec, w.work.targets) == size)
       && Steady(spec, w, steps[1..], names, size)
  }

  /** How many passes of the run get past the guard. */
  ghost function Passes(spec: Spec, s: State, steps: seq<Step>): nat
    requires ValidRun(spec, s, steps)
    decreases |steps|
  {
    if steps == [] then 0
    else (if StartsWork(spec, s, steps[0]) then 1 else 0) + Passes(spec, Apply(spec, s, steps[0]), steps[1..])
  }

  /** As many names as those passes have room for. */
  ghost function Room(spec: Spec, s: State, steps: seq<Step>, size: nat): nat
    requires ValidRun(spec, s, steps)
    decreases |steps|
  {
    if steps == [] then 0
    else (if StartsWork(spec, s, steps[0]) then size else 0) + Room(spec, Apply(spec, s, steps[0]), steps[1..], size)
  }

  lemma OneMoreTime(k: nat, size: nat)
    ensures (k + 1) * size == k * size + size
  {
  }

  lemma {:induction false} RoomIsProduct(spec: Spec, s: State, steps: seq<Step>, size: nat)
    requires ValidRun(spec, s, steps)
    ensures Room(spec, s, steps, size) == Passes(spec, s, steps) * size
    decreases |steps|
  {
    if steps != [] {
      RoomIsProduct(spec, Apply(spec, s, steps[0]), steps[1..], size);
      OneMoreTime(Passes(spec, Apply(spec, s, steps[0]), steps[1..]), size);
    }
  }

  /** The names that are neither resolved nor part of the batch under way. */
  ghost function Waiting(spec: Spec, s: State, names: set<string>): set<string> {
    set n | n in names && n !in Resolved(Current(spec, s)) && n !in Todo(s)
  }

  /**
    The passes so far have left no more than `left` names waiting, and a stored pass none without
    ending the operation.
   */
  ghost predicate OnTrack(spec: Spec, s: State, names: set<string>, left: int, started: bool) {
    var waiting := Waiting(spec, s, names);
    if s.work.Working? then started && Aims(s.work.targets, names) && (waiting == {} || |waiting| <= left)
    else Terminal(spec, s) || (|waiting| <= left && (started ==> waiting != {}))
  }

  ghost predicate Aims(targets: seq<string>, names: set<string>) { forall t :: t in targets <==> t in names }

  /** A batch is full, or nothing is left waiting behind it. */
  lemma BatchCovers(targets: seq<string>, names: set<string>, resolved: set<string>, size: nat)
    requires Aims(targets, names)
    ensures var todo := Pick(targets, resolved, size);
            var before, after := (set n | n in names && n !in resolved),
                                 (set n | n in names && n !in resolved && n !in todo);
            after == {} || |after| + size == |before|
  {
    var todo := Pick(targets, resolved, size);
    var before, after := (set n | n in names && n !in resolved), (set n | n in names && n !in resolved && n !in todo);
    PickFacts(targets, resolved, size);
    NoDupSize(todo);
    var taken := set t | t in todo;
    assert before == after + taken && after !! taken;
  }

  lemma StartOnTrack(spec: Spec, s: State, step: Step, names: set<string>, size: nat, left: int, started: bool)
    requires Inv(spec, s) && OnTrack(spec, s, names, left, started) && Enabled(spec, s, step)
    requires StartsWork(spec, s, step)
    requires var w := Apply(spec, s, step); Aims(w.work.targets, names) && BatchSize(spec, w.work.targets) == size
    ensures OnTrack(spec, Apply(spec, s, step), names, left - size, true)
  {
    var w := Apply(spec, s, step);
    BatchCovers(w.work.targets, names, Resolved(w.work.st), size);
    assert Waiting(spec, s, names) == set n | n in names && n !in Resolved(w.work.st);
  }

  lemma AttemptOnTrack(spec: Spec, s: State, step: Step, names: set<string>, left: int, started: bool)
    requires OnTrack(spec, s, names, left, started) && Enabled(spec, s, step) && step.Attempt?
    ensures OnTrack(spec, Apply(spec, s, step), names, left, started)
  {
    var n, w := s.work.todo[0], Apply(spec, s, step);
    assert s.work.todo == [n] + s.work.todo[1..];
    assert Resolved(w.work.st) == Resolved(s.work.st) + {n};
    assert Waiting(spec, w, names) == Waiting(spec, s, names);
  }

  lemma PersistOnTrack(spec: Spec, s: State, names: set<string>, left: int, started: bool)
    requires Inv(spec, s) && OnTrack(spec, s, names, left, started) && Enabled(spec, s, Persist(true))
    ensures OnTrack(spec, Apply(spec, s, Persist(true)), names, left, started)
  {
    FinalizedExactly(s);
    assert Left(s) == Waiting(spec, s, names);
    if Left(s) != {} { assert Waiting(spec, Apply(spec, s, Persist(true)), names) == Waiting(spec, s, names); }
  }

  lemma OtherOnTrack(spec: Spec, s: State, step: Step, names: set<string>, left: int, started: bool)
    requires OnTrack(spec, s, names, left, started) && Enabled(spec, s, step)
    requires !step.Attempt? && !step.Persist? && !StartsWork(spec, s, step)
    ensures OnTrack(spec, Apply(spec, s, step), names, left, started)
  {
    var e := Apply(spec, s, step);
    if e.status == s.status { assert Waiting(spec, e, names) == Waiting(spec, s, names); }
  }

  lemma OnTrackStep(spec: Spec, s: State, step: Step, names: set<string>, size: nat, left: int, started: bool)
    requires Inv(spec, s) && OnTrack(spec, s, names, left, started) && Enabled(spec, s, step) && step != Persist(false)
    requires StartsWork(spec, s, step) ==>
               var w := Apply(spec, s, step); Aims(w.work.targets, names) && BatchSize(spec, w.work.targets) == size
    ensures StartsWork(spec, s, step) ==> OnTrack(spec, Apply(spec, s, step), names, left - size, true)
    ensures !StartsWork(spec, s, step) ==> OnTrack(spec, Apply(spec, s, step), names, left, started)
  {
    if StartsWork(spec, s, step) { StartOnTrack(spec, s, step, names, size, left, started); }
    else if step.Attempt? { AttemptOnTrack(spec, s, step, names, left, started); }
    else if step.Persist? { PersistOnTrack(spec, s, names, left, started); }
    else { OtherOnTrack(spec, s, step, names, left, started); }
  }

  lemma {:induction false} OnTrackRun(
      spec: Spec, s: State, steps: seq<Step>, names: set<string>, size: nat, left: int, started: bool)
    requires Inv(spec, s) && OnTrack(spec, s, names, left, started)
    requires ValidRun(spec, s, steps) && AllWritten(steps) && Steady(spec, s, steps, names, size)
    ensures OnTrack(spec, Exec(spec, s, steps), names, left - Room(spec, s, steps, size),
                    started || Passes(spec, s, steps) > 0)
    decreases |steps|
  {
    if steps != [] {
      var s', starts := Apply(spec, s, steps[0]), StartsWork(spec, s, steps[0]);
      InvStep(spec, s, steps);
      OnTrackStep(spec, s, steps[0], names, size, left, started);
      OnTrackRun(spec, s', steps[1..], names, size, if starts then left - size else left, started || starts);
    }
  }

  /**
    With a fixed set of targets, once as many passes have got past the guard as it takes batches to
    cover the unresolved ones, and at least one, the operation is over, whatever happens in between.
   */
  lemma FinishesWithin(spec: Spec, s: State, steps: seq<Step>, names: set<string>, size: nat)
    requires Inv(spec, s) && s.work.Idle?
    requires ValidRun(spec, s, steps) && AllWritten(steps) && Steady(spec, s, steps, names, size)
    requires Passes(spec, s, steps) >= 1 && Passes(spec, s, steps) * size >= |names - Resolved(Progress(spec, s))|
    ensures var e := Exec(spec, s, steps); e.work.Idle? ==> Terminal(spec, e)
  {
    var base := |names - Resolved(Progress(spec, s))|;
    assert Waiting(spec, s, names) == names - Resolved(Progress(spec, s));
    OnTrackRun(spec, s, steps, names, size, base, false);
    RoomIsProduct(spec, s, steps, size);
  }

  // ---- What a batch waits for -----------------------------------------------------------------------

  /**
    Whether the operation restarts warm or cold, a batch starts only when every pod it has restarted
    so far is present, Ready and not terminating.
   */
  lemma BatchWaits(spec: Spec, s: State, steps: seq<Step>, begin: Step)
    requires Initial(spec, s) && ValidRun(spec, s, steps) && AllWritten(steps)
    requires begin.Begin? && Enabled(spec, Exec(spec, s, steps), begin)
    requires Todo(Apply(spec, Exec(spec, s, steps), begin)) != []
    ensures var e := Exec(spec, s, steps);
            forall n :: n in e.log ==>
              n in Progress(spec, e).failed || (n in e.pods && e.pods[n].ready && !e.pods[n].terminating)
  {
    InvRun(spec, s, steps);
    var e := Exec(spec, s, steps);
    var targets, st := Targets(spec.podList, begin.listing), Progress(spec, e);
    var todo := Pick(targets, Resolved(st), BatchSize(spec, targets));
    PickFacts(targets, Resolved(st), BatchSize(spec, targets));
    assert todo[0] in todo;
    assert Outstanding(targets, Resolved(st)) && !Blocked(e, st, targets, begin.held);
    assert Ledger(st, e.log);
  }

  /**
    A pass starts a batch exactly when some target is unresolved, no gate is held, no target is on its
    way out and every pod completed so far is a target that is present, Ready and not terminating. The
    batch is as large as the settings say for that many targets, or takes all that is left.
   */
  lemma StartsExactly(spec: Spec, s: State, listing: seq<string>, held: bool, written: bool)
    requires s.work.Idle? && !Terminal(spec, s) && (spec.podList != [] ==> Targets(spec.podList, listing) != [])
    ensures var s', targets, st := Started(spec, s, listing, held, written), Targets(spec.podList, listing),
                                   Progress(spec, s);
            && (Todo(s') != [] <==>
                && !held && (exists t :: t in targets && t !in st.completed && t !in st.failed)
                && (forall t :: t in targets && t in s.pods ==> !s.pods[t].terminating)
                && (forall n :: n in st.completed ==>
                      n in targets && n in s.pods && s.pods[n].ready && !s.pods[n].terminating))
            && (Todo(s') != [] ==>
                  var size := RollingUpdateBatchSize(spec.rackLevel, spec.legacy, |targets|);
                  && s'.batch == size && |Todo(s')| <= size
                  && (|Todo(s')| < size ==>
                        forall t :: t in targets ==> t in st.completed || t in st.failed || t in Todo(s')))
  {
    var targets, st := Targets(spec.podList, listing), Progress(spec, s);
    PickFacts(targets, Resolved(st), BatchSize(spec, targets));
    var todo := Pick(targets, Resolved(st), BatchSize(spec, targets));
    if todo != [] { assert todo[0] in todo; }
    assert Outstanding(targets, Resolved(st)) <==> exists t :: t in targets && t !in st.completed && t !in st.failed;
  }

  // ---- Which lost writes are harmless -----------------------------------------------------------------

  /** The pass under way has added to the status it started from, and named pods are the only ones attempted. */
  ghost predicate Extends(spec: Spec, s: State) {
    && (spec.podList != [] ==> forall n :: n in s.log || n in Todo(s) ==> n in spec.podList)
    && (s.work.Working? ==>
          var st := Progress(spec, s);
          st.completed <= s.work.st.completed && st.failed <= s.work.st.failed)
  }

  lemma ExtendsStep(spec: Spec, s: State, step: Step)
    requires Inv(spec, s) && Extends(spec, s) && Enabled(spec, s, step)
    ensures Extends(spec, Apply(spec, s, step))
  {
    if step.Begin? {
      var targets := Targets(spec.podList, step.listing);
      PickFacts(targets, Resolved(Progress(spec, s)), BatchSize(spec, targets));
      PresentExactly(spec.podList, step.listing);
    } else if step.Attempt? {
      TodoTail(s.work.todo, []);
    }
  }

  lemma {:induction false} ExtendsRun(spec: Spec, s: State, steps: seq<Step>)
    requires Inv(spec, s) && Extends(spec, s) && ValidRun(spec, s, steps) && AllWritten(steps)
    ensures Extends(spec, Exec(spec, s, steps))
    decreases |steps|
  {
    if steps != [] {
      InvStep(spec, s, steps);
      ExtendsStep(spec, s, steps[0]);
      ExtendsRun(spec, Apply(spec, s, steps[0]), steps[1..]);
    }
  }

  predicate PodStep(step: Step) { !step.Begin? && !step.Attempt? && !step.Persist? }

  /** e can be reached from s by the pods' own life. */
  ghost predicate PodsReach(spec: Spec, s: State, e: State) {
    exists run: seq<Step> ::
      && ValidRun(spec, s, run) && (forall i :: 0 <= i < |run| ==> PodStep(run[i])) && Exec(spec, s, run) == e
  }

  lemma PodsReachStep(spec: Spec, s: State, m: State, step: Step)
    requires PodsReach(spec, s, m) && Enabled(spec, m, step) && PodStep(step)
    ensures PodsReach(spec, s, Apply(spec, m, step))
  {
    var run :| ValidRun(spec, s, run) && (forall i :: 0 <= i < |run| ==> PodStep(run[i])) && Exec(spec, s, run) == m;
    ExecLast(spec, s, run, step);
    assert forall i :: 0 <= i < |run + [step]| ==> PodStep((run + [step])[i]);
  }

  lemma {:induction false} RemoveAll(spec: Spec, from: State, s: State) returns (e: State)
    requires PodsReach(spec, from, s)
    ensures PodsReach(spec, from, e) && e == s.(pods := map[])
    decreases |s.pods|
  {
    if s.pods == map[] {
      e := s;
    } else {
      var n :| n in s.pods;
      PodsReachStep(spec, from, s, Remove(n));
      assert |s.pods - {n}| < |s.pods| by { assert (s.pods - {n}).Keys == s.pods.Keys - {n}; }
      e := RemoveAll(spec, from, s.(pods := s.pods - {n}));
    }
  }

  const UP := Pod(false, true)

  ghost function Ups(names: set<string>): map<string, Pod> { map n | n in names :: UP }

  lemma AddUp(spec: Spec, from: State, s: State, have: set<string>, n: string) returns (e: State)
    requires PodsReach(spec, from, s) && s.pods == Ups(have) && n !in have
    ensures PodsReach(spec, from, e) && e == s.(pods := Ups(have + {n}), owed := e.owed)
  {
    PodsReachStep(spec, from, s, Create(n));
    var m := Apply(spec, s, Create(n));
    PodsReachStep(spec, from, m, BecomeReady(n));
    e := Apply(spec, m, BecomeReady(n));
    assert e.pods == Ups(have + {n});
  }

  lemma {:induction false} AddAll(spec: Spec, from: State, s: State, have: set<string>, want: set<string>)
    returns (e: State)
    requires PodsReach(spec, from, s) && s.pods == Ups(have) && have <= want
    ensures PodsReach(spec, from, e) && e == s.(pods := Ups(want), owed := e.owed)
    decreases |want - have|
  {
    if have == want {
      e := s;
    } else {
      var n :| n in want && n !in have;
      var m := AddUp(spec, from, s, have, n);
      assert want - (have + {n}) == want - have - {n};
      e := AddAll(spec, from, m, have + {n}, want);
    }
  }

  /** The pods can come to be exactly the given ones, all up. */
  lemma Settle(spec: Spec, s: State, names: set<string>) returns (e: State)
    ensures PodsReach(spec, s, e) && e == s.(pods := Ups(names), owed := e.owed)
  {
    assert ValidRun(spec, s, []) && Exec(spec, s, []) == s;
    assert PodsReach(spec, s, s);
    var m := RemoveAll(spec, s, s);
    assert Ups({}) == map[];
    e := AddAll(spec, s, m, {}, names);
  }

  lemma {:induction false} Enumerate(names: set<string>) returns (list: seq<string>)
    ensures NoDup(list) && forall n :: n in list <==> n in names
    decreases |names|
  {
    if names == {} {
      list := [];
    } else {
      var n :| n in names;
      var rest := Enumerate(names - {n});
      list := [n] + rest;
    }
  }

  /** With every restarted pod up and one pod unaccounted for, the next pass attempts exactly that pod first. */
  lemma NextPassTakes(spec: Spec, s: State, listing: seq<string>, n: string)
    requires s.work.Idle? && !Terminal(spec, s) && n !in Resolved(Progress(spec, s))
    requires var names := (set c | c in Progress(spec, s).completed) + {n};
             && s.pods == Ups(names) && NoDup(listing) && (forall x :: x in listing <==> x in names)
             && (spec.podList != [] ==> forall x :: x in names ==> x in spec.podList)
    ensures Enabled(spec, s, Begin(listing, false, true))
    ensures var w := Apply(spec, s, Begin(listing, false, true));
            w.work.Working? && Todo(w) != [] && Todo(w)[0] == n && w.log == s.log
  {
    var targets, st := Targets(spec.podList, listing), Progress(spec, s);
    PresentExactly(spec.podList, listing);
    assert forall x :: x in targets <==> x in listing;
    assert n in targets;
    assert !Blocked(s, st, targets, false);
    PickFacts(targets, Resolved(st), BatchSize(spec, targets));
    var todo := Pick(targets, Resolved(st), BatchSize(spec, targets));
    assert Outstanding(targets, Resolved(st));
    assert todo[0] in todo;
  }

  lemma {:induction false} ThenTwo(spec: Spec, s: State, m: State, a: Step, b: Step)
    requires PodsReach(spec, s, m) && Enabled(spec, m, a) && Enabled(spec, Apply(spec, m, a), b)
    requires a != Persist(false) && b != Persist(false)
    ensures exists run ::
              ValidRun(spec, s, run) && AllWritten(run) && Exec(spec, s, run) == Apply(spec, Apply(spec, m, a), b)
  {
    var run :| ValidRun(spec, s, run) && (forall i :: 0 <= i < |run| ==> PodStep(run[i])) && Exec(spec, s, run) == m;
    ExecLast(spec, s, run, a);
    ExecLast(spec, s, run + [a], b);
    var all := run + [a] + [b];
    assert AllWritten(all);
  }

  ghost predicate NoRepeat(spec: Spec, s: State) {
    forall run :: ValidRun(spec, s, run) && AllWritten(run) ==> NoDup(Exec(spec, s, run).log)
  }

  /** A pod of the log that the status does not know is attempted again in some run. */
  lemma ForgottenRepeats(spec: Spec, s: State, n: string)
    requires s.work.Idle? && !Terminal(spec, s) && n in s.log && n !in Resolved(Progress(spec, s))
    requires spec.podList != [] ==>
               n in spec.podList && forall c :: c in Progress(spec, s).completed ==> c in spec.podList
    ensures !NoRepeat(spec, s)
  {
    var names := (set c | c in Progress(spec, s).completed) + {n};
    var m := Settle(spec, s, names);
    assert Progress(spec, m) == Progress(spec, s);
    var listing := Enumerate(names);
    NextPassTakes(spec, m, listing, n);
    var begin, go := Begin(listing, false, true), Attempt(Accepted);
    var w := Apply(spec, m, begin);
    ThenTwo(spec, s, m, begin, go);
    var run :| ValidRun(spec, s, run) && AllWritten(run) && Exec(spec, s, run) == Apply(spec, w, go);
    var log := Exec(spec, s, run).log;
    assert log == s.log + [n];
    var i :| 0 <= i < |s.log| && s.log[i] == n;
    assert log[i] == log[|s.log|];
  }

  /**
    A lost status write leaves single attempts intact, over every run that follows, if and only if
    the pass that lost it attempted nothing.
   */
  lemma LostWriteExactly(spec: Spec, s: State, steps: seq<Step>)
    requires Initial(spec, s) && ValidRun(spec, s, steps) && AllWritten(steps)
    requires Enabled(spec, Exec(spec, s, steps), Persist(false))
    ensures var e := Exec(spec, s, steps);
            NoRepeat(spec, Apply(spec, e, Persist(false))) <==> e.work.st == Progress(spec, e)
  {
    InvRun(spec, s, steps);
    ExtendsRun(spec, s, steps);
    var e := Exec(spec, s, steps);
    var lost := Apply(spec, e, Persist(false));
    if e.work.st == Progress(spec, e) {
      assert Inv(spec, lost);
      forall run | ValidRun(spec, lost, run) && AllWritten(run)
        ensures NoDup(Exec(spec, lost, run).log)
      {
        InvRun(spec, lost, run);
      }
    } else {
      var n := ForgottenPod(spec, e);
      ForgottenRepeats(spec, lost, n);
    }
  }

  lemma ForgottenPod(spec: Spec, e: State) returns (n: string)
    requires Inv(spec, e) && Extends(spec, e) && e.work.Working? && e.work.st != Progress(spec, e)
    ensures n in e.log && n !in Resolved(Progress(spec, e))
  {
    var st, was := e.work.st, Progress(spec, e);
    var both := st.completed + st.failed;
    assert st.id == was.id && st.phase == was.phase;
    if |was.completed| < |st.completed| {
      n := st.completed[|was.completed|];
      assert both[|was.completed|] == n;
    } else {
      assert was.completed == st.completed && |was.failed| < |st.failed|;
      n := st.failed[|was.failed|];
      assert both[|st.completed| + |was.failed|] == n;
    }
    forall c | c in was.completed ensures c != n {
      var i :| 0 <= i < |was.completed| && was.completed[i] == c;
      assert both[i] == c;
    }
    forall c | c in was.failed ensures c != n {
      var i :| 0 <= i < |was.failed| && was.failed[i] == c;
      assert both[|st.completed| + i] == c;
    }
  }

  // ---- A kind nobody knows ------------------------------------------------------------------------

  /** What the pods' own steps do to them. */
  ghost function Weather(pods: map<string, Pod>, step: Step): map<string, Pod> {
    match step
    case Create(n) => pods[n := Pod(false, false)]
    case Remove(n) => pods - {n}
    case Terminate(n) => if n in pods then pods[n := pods[n].(terminating := true)] else pods
    case Unready(n) => if n in pods then pods[n := pods[n].(ready := false)] else pods
    case BecomeReady(n) => if n in pods then pods[n := pods[n].(ready := true)] else pods
    case _ => pods
  }

  ghost function Weathered(pods: map<string, Pod>, steps: seq<Step>): map<string, Pod>
    decreases |steps|
  {
    if steps == [] then pods else Weathered(Weather(pods, steps[0]), steps[1..])
  }

  /** Nothing is owed, and neither the work at hand nor a stored status of this operation lists a completed pod. */
  ghost predicate AllFailed(spec: Spec, s: State) {
    && s.owed == {} && Current(spec, s).completed == []
    && (s.status.Some? && s.status.value.id == spec.id ==> s.status.value.completed == [])
  }

  lemma UnsupportedStep(spec: Spec, s: State, step: Step)
    requires spec.kind.Unsupported? && AllFailed(spec, s) && Enabled(spec, s, step)
    ensures AllFailed(spec, Apply(spec, s, step)) && Apply(spec, s, step).pods == Weather(s.pods, step)
  {
  }

  /**
    An operation of an unsupported kind touches no pod, whatever its calls would have answered:
    over every run the pods are what their own steps made of them, and no pod counts as completed.
   */
  lemma {:induction false} UnsupportedTouchesNothing(spec: Spec, s: State, steps: seq<Step>)
    requires spec.kind.Unsupported? && AllFailed(spec, s) && ValidRun(spec, s, steps)
    ensures var e := Exec(spec, s, steps); AllFailed(spec, e) && e.pods == Weathered(s.pods, steps)
    decreases |steps|
  {
    if steps != [] {
      UnsupportedStep(spec, s, steps[0]);
      UnsupportedTouchesNothing(spec, Apply(spec, s, steps[0]), steps[1..]);
    }
  }

  /** And where a pass has left no target outstanding, it stores Error with every target failed. */
  lemma UnsupportedEndsInError(spec: Spec, s: State, steps: seq<Step>)
    requires spec.kind.Unsupported? && Initial(spec, s) && ValidRun(spec, s, steps)
    requires var e := Exec(spec, s, steps);
             e.work.Working? && e.work.todo == [] && e.work.targets != []
             && !Outstanding(e.work.targets, Resolved(e.work.st))
    ensures var e := Exec(spec, s, steps);
            && Enabled(spec, e, Persist(true))
            && var stored := Apply(spec, e, Persist(true)).status;
            && stored.Some? && stored.value.phase == Error && stored.value.completed == []
            && forall t :: t in e.work.targets ==> t in stored.value.failed
  {
    UnsupportedTouchesNothing(spec, s, steps);
    var e := Exec(spec, s, steps);
    var t := e.work.targets[0];
    assert t in e.work.targets;
    assert forall x :: x in e.work.targets ==> x in Resolved(e.work.st);
  }
}
