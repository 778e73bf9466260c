/**
  The rollback result of an aborted two-phase update as a partition: for pods and nodes that
  are all different and changes that really move the config, it names each pod at most once,
  and names exactly those whose node is not back to its prior config.
 */
module RollbackPartition {
  import opened Text
  import opened Collections
  import opened TwoPhase

  ghost predicate DistinctPods(targets: seq<Target>) {
    forall i, j :: 0 <= i < j < |targets| ==> targets[i].pod != targets[j].pod
  }

  /** On every target the changes move the config away from values that are on record. */
  ghost predicate Moves(prior: map<string, Config>, targets: seq<Target>, changes: seq<Order>) {
    forall t :: t in targets ==> t.node in prior && Effective(prior[t.node], changes) && HeldOld(prior[t.node], changes)
  }

  /** The first n targets carry all the changes. */
  ghost predicate Carrying(w: World, prior: map<string, Config>, targets: seq<Target>, n: nat, changes: seq<Order>)
    requires n <= |targets|
  {
    forall j :: 0 <= j < n ==>
      targets[j].node in w.nodes && targets[j].node in prior
      && w.nodes[targets[j].node] == Updated(prior[targets[j].node], changes)
  }

  ghost predicate Named(out: World, prior: map<string, Config>, t: Target, failedPods: seq<string>) {
    t.node in prior && (t.pod in failedPods <==> ConfigOf(out, t.node) != Some(prior[t.node]))
  }

  lemma PodNotBelow(targets: seq<Target>, n: nat, i: nat)
    requires DistinctPods(targets) && n <= i < |targets|
    ensures targets[i].pod !in Pods(targets[..n])
  {
    forall t | t in targets[..n] ensures t.pod != targets[i].pod {
      var j :| 0 <= j < n && targets[..n][j] == t;
    }
  }

  /** The target undone first: the tally names it exactly when its node is not back. */
  lemma LastNamed(w: World, fate: Fate, t: Target, changes: seq<Order>, r: RollbackResult, prior: map<string, Config>)
    requires t.node in w.nodes && t.node in prior && t.pod !in r.failedPods
    requires Effective(prior[t.node], changes) && HeldOld(prior[t.node], changes)
    requires w.nodes[t.node] == Updated(prior[t.node], changes)
    ensures var (w', failed) := RollbackFrom(w, fate, t.node, changes, |changes|, 0);
            OnlyNode(w, w', t.node) && Named(w', prior, t, Tally(r, t.pod, failed).failedPods)
  {
    assert changes[..|changes|] == changes;
    RollbackFrame(w, fate, t.node, changes, |changes|, 0);
    UndoneExactly(w, fate, t.node, changes, |changes|, prior[t.node]);
  }

  lemma CarryingOn(w: World, w': World, prior: map<string, Config>, targets: seq<Target>, n: nat, changes: seq<Order>)
    requires 0 < n <= |targets| && DistinctNodes(targets) && Carrying(w, prior, targets, n, changes)
    requires OnlyNode(w, w', targets[n-1].node)
    ensures Carrying(w', prior, targets, n - 1, changes)
  {
  }

  lemma {:induction false} UndoneNamed(
      w: World, fate: Fate, targets: seq<Target>, n: nat, changes: seq<Order>, r: RollbackResult,
      prior: map<string, Config>, i: nat)
    requires i < n <= |targets| && Known(w, targets) && DistinctNodes(targets) && DistinctPods(targets)
    requires Carrying(w, prior, targets, n, changes) && Moves(prior, targets, changes)
    requires forall j :: 0 <= j < n ==> targets[j].pod !in r.failedPods
    ensures var (w', r') := RollbackBatch(w, fate, targets, n, changes, r); Named(w', prior, targets[i], r'.failedPods)
    decreases n
  {
    var t := targets[n-1];
    assert t in targets && targets[i] in targets;
    LastNamed(w, fate, t, changes, r, prior);
    var (w', failed) := RollbackFrom(w, fate, t.node, changes, |changes|, 0);
    var r' := Tally(r, t.pod, failed);
    if i < n - 1 {
      CarryingOn(w, w', prior, targets, n, changes);
      UndoneNamed(w', fate, targets, n - 1, changes, r', prior, i);
    } else {
      NodeKept(w', fate, targets, n, changes, r');
      NameKept(w', fate, targets, n, changes, r');
    }
  }

  /** Undoing the targets before the n-th leaves its node alone. */
  lemma NodeKept(w: World, fate: Fate, targets: seq<Target>, n: nat, changes: seq<Order>, r: RollbackResult)
    requires 0 < n <= |targets| && Known(w, targets) && DistinctNodes(targets)
    ensures ConfigOf(RollbackBatch(w, fate, targets, n - 1, changes, r).0, targets[n-1].node) ==
            ConfigOf(w, targets[n-1].node)
  {
    NodeNotBelow(targets, n - 1, n - 1);
    RollbackBatchFrame(w, fate, targets, n - 1, changes, r);
  }

  /** And whether its pod is named. */
  lemma NameKept(w: World, fate: Fate, targets: seq<Target>, n: nat, changes: seq<Order>, r: RollbackResult)
    requires 0 < n <= |targets| && Known(w, targets) && DistinctPods(targets)
    ensures targets[n-1].pod in RollbackBatch(w, fate, targets, n - 1, changes, r).1.failedPods <==>
            targets[n-1].pod in r.failedPods
  {
    PodNotBelow(targets, n - 1, n - 1);
    RollbackTally(w, fate, targets, n - 1, changes, r);
    InLonger(r.failedPods, RollbackBatch(w, fate, targets, n - 1, changes, r).1.failedPods, targets[n-1].pod);
  }

  lemma InLonger(a: seq<string>, b: seq<string>, x: string)
    requires a <= b
    ensures x in a ==> x in b
  {
    if x in a {
      var j :| 0 <= j < |a| && a[j] == x;
      assert b[j] == x;
    }
  }

  lemma {:induction false} NamedOnce(
      w: World, fate: Fate, targets: seq<Target>, n: nat, changes: seq<Order>, r: RollbackResult)
    requires n <= |targets| && Known(w, targets) && DistinctPods(targets)
    requires NoDup(r.failedPods) && forall j :: 0 <= j < n ==> targets[j].pod !in r.failedPods
    ensures NoDup(RollbackBatch(w, fate, targets, n, changes, r).1.failedPods)
    decreases n
  {
    if n > 0 {
      var t := targets[n-1];
      RollbackFrame(w, fate, t.node, changes, |changes|, 0);
      var (w', failed) := RollbackFrom(w, fate, t.node, changes, |changes|, 0);
      NamedOnce(w', fate, targets, n - 1, changes, Tally(r, t.pod, failed));
    }
  }

  /** Each pod before the failing one is named once if its node is not back, and not at all if it is. */
  ghost predicate Partition(out: World, prior: map<string, Config>, targets: seq<Target>, at: nat, r: RollbackResult) {
    && at <= |targets| && NoDup(r.failedPods)
    && (forall p :: p in r.failedPods ==> p in Pods(targets[..at]))
    && (forall i :: 0 <= i < at ==> Named(out, prior, targets[i], r.failedPods))
  }

  ghost predicate Partitioned(out: (World, Outcome), prior: map<string, Config>, targets: seq<Target>) {
    out.1.Aborted? ==> Partition(out.0, prior, targets, out.1.at, out.1.result)
  }

  lemma AbortPartitions(
      w: World, fate: Fate, prior: map<string, Config>, targets: seq<Target>, i: nat, changes: seq<Order>)
    requires i < |targets| && Known(w, targets) && DistinctNodes(targets) && DistinctPods(targets)
    requires UptoBut(w, prior, targets, i, changes) && Moves(prior, targets, changes)
    ensures var (out, r) := RollbackBatch(w, fate, targets, i, changes, NOTHING); Partition(out, prior, targets, i, r)
  {
    forall j | 0 <= j < i
      ensures targets[j].node in w.nodes && targets[j].node in prior
      ensures w.nodes[targets[j].node] == Updated(prior[targets[j].node], changes)
    {
      assert targets[j] in targets && targets[j] in targets[..i];
    }
    NamedOnce(w, fate, targets, i, changes, NOTHING);
    RollbackTally(w, fate, targets, i, changes, NOTHING);
    forall j | 0 <= j < i
      ensures Named(RollbackBatch(w, fate, targets, i, changes, NOTHING).0, prior, targets[j],
                    RollbackBatch(w, fate, targets, i, changes, NOTHING).1.failedPods)
    {
      UndoneNamed(w, fate, targets, i, changes, NOTHING, prior, j);
    }
  }

  lemma {:induction false} CommitPartitions(
      w: World, fate: Fate, prior: map<string, Config>, targets: seq<Target>, i: nat, changes: seq<Order>, stamp: bool)
    requires i <= |targets| && Known(w, targets) && DistinctNodes(targets) && DistinctPods(targets)
    requires Upto(w, prior, targets, i, changes) && Moves(prior, targets, changes)
    ensures Partitioned(CommitFrom(w, fate, targets, i, changes, stamp), prior, targets)
    decreases |targets| - i
  {
    if i < |targets| {
      if !fate(w.tick) {
        CommitExpires(w, fate, targets, i, changes, stamp);
        AbortPartitions(Tick(w), fate, prior, targets, i, changes);
      } else {
        var node := targets[i].node;
        ApplyFrame(Tick(w), fate, node, changes, 0);
        var (w1, k) := ApplyFrom(Tick(w), fate, node, changes, 0);
        if k < |changes| {
          RollbackFrame(w1, fate, node, changes, k, 0);
          var (w2, failed) := RollbackFrom(w1, fate, node, changes, k, 0);
          CommitFails(w, fate, targets, i, changes, stamp, w1, k, w2, failed);
          AbortPartitions(w2, fate, prior, targets, i, changes);
        } else {
          assert changes[..0] == [] && changes[..|changes|] == changes;
          assert Updated(w.nodes[node], changes[..0]) == w.nodes[node];
          UptoNext(w, w1, prior, targets, i, changes);
          CommitGoesOn(w, fate, targets, i, changes, stamp, w1);
          CommitPartitions(Stamp(w1, fate, targets[i].pod, stamp), fate, prior, targets, i + 1, changes, stamp);
        }
      }
    }
  }

  /**
    An aborted batch reports a partition of the pods before the failing one: a pod is named if and
    only if its node is not back to its prior config, and no pod is named twice.
   */
  lemma AbortReportsExactly(w: World, fate: Fate, targets: seq<Target>, changes: seq<Order>, stamp: bool)
    requires Known(w, targets) && DistinctNodes(targets) && DistinctPods(targets) && Moves(w.nodes, targets, changes)
    ensures Partitioned(TryBatch(w, fate, targets, changes, stamp), w.nodes, targets)
  {
    var (v, ok) := ValidateFrom(w, fate, targets, 0, changes);
    assert targets[..0] == [];
    if ok { CommitPartitions(v, fate, w.nodes, targets, 0, changes, stamp); }
  }
}
