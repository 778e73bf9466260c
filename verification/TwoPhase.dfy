/**
  The two-phase dynamic config update over a batch of pods: validate on every node,
  apply on every node, and undo last-in-first-out when a node fails. Every foreign call
  and every deadline check draws its outcome from `fate`, so the theorems range over all
  ways a batch can go wrong. A command that fails changes nothing on its node.
 */
module TwoPhase {
  import opened Text
  import opened SetConfigCommand

  /**
    One change as the protocol sees it: where it writes and what, whether its command can be
    built, and the old value to send back, if one is on record and its command can be built.
   */
  datatype Order = Order(address: Address, value: string, sendable: bool, undo: Option<string>)

  type Config = map<Address, string>

  datatype Target = Target(pod: string, node: string)

  /** `stamped` are the pods carrying the new config hash; `tick` counts outcomes drawn so far. */
  datatype World = World(nodes: map<string, Config>, stamped: set<string>, tick: nat)

  datatype RollbackResult = RollbackResult(successCount: nat, failedCount: nat, failedPods: seq<string>)

  datatype Outcome = Refused | Committed | Aborted(at: nat, result: RollbackResult)

  type Fate = nat -> bool

  // ---- One node -----------------------------------------------------------------------

  function Tick(w: World): World { w.(tick := w.tick + 1) }

  function Send(w: World, fate: Fate, node: string, address: Address, value: string): (World, bool)
    requires node in w.nodes
  {
    if !fate(w.tick) then (Tick(w), false)
    else (Tick(w.(nodes := w.nodes[node := w.nodes[node][address := value]])), true)
  }

  /** Applies changes[i..] until one fails; returns how many are in force. */
  function ApplyFrom(w: World, fate: Fate, node: string, changes: seq<Order>, i: nat): (World, nat)
    requires node in w.nodes && i <= |changes|
    decreases |changes| - i
  {
    if i == |changes| then (w, i)
    else if !fate(w.tick) || !changes[i].sendable then (Tick(w), i)
    else
      var (w', ok) := Send(Tick(w), fate, node, changes[i].address, changes[i].value);
      if ok then ApplyFrom(w', fate, node, changes, i + 1) else (w', i)
  }

  /** Reverts one change on one node; false when no command exists or the node did not take it. */
  function Undo(w: World, fate: Fate, node: string, c: Order): (World, bool)
    requires node in w.nodes
  {
    if c.undo.None? then (w, false) else Send(w, fate, node, c.address, c.undo.value)
  }

  /** Undoes changes[..n] from the last to the first; returns how many could not be undone. */
  function RollbackFrom(w: World, fate: Fate, node: string, changes: seq<Order>, n: nat, failed: nat): (World, nat)
    requires node in w.nodes && n <= |changes|
    decreases n
  {
    if n == 0 then (w, failed)
    else
      var (w', ok) := Undo(w, fate, node, changes[n-1]);
      RollbackFrom(w', fate, node, changes, n - 1, if ok then failed else failed + 1)
  }

  // ---- The batch ------------------------------------------------------------------------

  ghost predicate Known(w: World, targets: seq<Target>) {
    forall t :: t in targets ==> t.node in w.nodes
  }

  function Tally(r: RollbackResult, pod: string, failed: nat): RollbackResult {
    if failed > 0 then RollbackResult(r.successCount, r.failedCount + 1, r.failedPods + [pod])
    else r.(successCount := r.successCount + 1)
  }

  function RollbackBatch(w: World, fate: Fate, targets: seq<Target>, n: nat, changes: seq<Order>, r: RollbackResult)
    : (out: (World, RollbackResult))
    requires n <= |targets| && Known(w, targets)
    decreases n
  {
    if n == 0 then (w, r)
    else
      RollbackFrame(w, fate, targets[n-1].node, changes, |changes|, 0);
      var (w', failed) := RollbackFrom(w, fate, targets[n-1].node, changes, |changes|, 0);
      RollbackBatch(w', fate, targets, n - 1, changes, Tally(r, targets[n-1].pod, failed))
  }

  const NOTHING := RollbackResult(0, 0, [])

  function Stamp(w: World, fate: Fate, pod: string, wanted: bool): World {
    if !wanted then w
    else if fate(w.tick) then Tick(w.(stamped := w.stamped + {pod}))
    else Tick(w)
  }

  /** Phase two from target i on. */
  function CommitFrom(
      w: World, fate: Fate, targets: seq<Target>, i: nat, changes: seq<Order>, stamp: bool): (World, Outcome)
    requires i <= |targets| && Known(w, targets)
    decreases |targets| - i
  {
    if i == |targets| then (w, Committed)
    else if !fate(w.tick) then
      var (w', r) := RollbackBatch(Tick(w), fate, targets, i, changes, NOTHING);
      (w', Aborted(i, r))
    else
      ApplyFrame(Tick(w), fate, targets[i].node, changes, 0);
      var (w1, k) := ApplyFrom(Tick(w), fate, targets[i].node, changes, 0);
      if k < |changes| then
        RollbackFrame(w1, fate, targets[i].node, changes, k, 0);
        var (w2, _) := RollbackFrom(w1, fate, targets[i].node, changes, k, 0);
        var (w3, r) := RollbackBatch(w2, fate, targets, i, changes, NOTHING);
        (w3, Aborted(i, r))
      else CommitFrom(Stamp(w1, fate, targets[i].pod, stamp), fate, targets, i + 1, changes, stamp)
  }

  lemma CommitExpires(w: World, fate: Fate, targets: seq<Target>, i: nat, changes: seq<Order>, stamp: bool)
    requires i < |targets| && Known(w, targets) && !fate(w.tick)
    ensures var (w', r) := RollbackBatch(Tick(w), fate, targets, i, changes, NOTHING);
            CommitFrom(w, fate, targets, i, changes, stamp) == (w', Aborted(i, r))
  {
  }

  lemma CommitFails(
      w: World, fate: Fate, targets: seq<Target>, i: nat, changes: seq<Order>, stamp: bool, w1: World, k: nat,
      w2: World, failed: nat)
    requires i < |targets| && Known(w, targets) && fate(w.tick) && w1.nodes.Keys == w2.nodes.Keys == w.nodes.Keys
    requires (w1, k) == ApplyFrom(Tick(w), fate, targets[i].node, changes, 0) && k < |changes|
    requires (w2, failed) == RollbackFrom(w1, fate, targets[i].node, changes, k, 0)
    ensures var (w3, r) := RollbackBatch(w2, fate, targets, i, changes, NOTHING);
            CommitFrom(w, fate, targets, i, changes, stamp) == (w3, Aborted(i, r))
  {
  }

  lemma CommitGoesOn(w: World, fate: Fate, targets: seq<Target>, i: nat, changes: seq<Order>, stamp: bool, w1: World)
    requires i < |targets| && Known(w, targets) && fate(w.tick) && w1.nodes.Keys == w.nodes.Keys
    requires ApplyFrom(Tick(w), fate, targets[i].node, changes, 0) == (w1, |changes|)
    ensures var v := Stamp(w1, fate, targets[i].pod, stamp);
            && v.nodes.Keys == w.nodes.Keys
            && CommitFrom(w, fate, targets, i, changes, stamp) == CommitFrom(v, fate, targets, i + 1, changes, stamp)
  {
  }

  /** Phase one: deadline, command syntax and a probe on every node; nothing is written. */
  function ValidateFrom(w: World, fate: Fate, targets: seq<Target>, i: nat, changes: seq<Order>): (r: (World, bool))
    requires i <= |targets|
    ensures r.0 == w.(tick := r.0.tick)
    decreases |targets| - i
  {
    if i == |targets| then (w, true)
    else if !fate(w.tick) || (exists c :: c in changes && !c.sendable) then (Tick(w), false)
    else if !fate(w.tick + 1) then (Tick(Tick(w)), false)
    else ValidateFrom(Tick(Tick(w)), fate, targets, i + 1, changes)
  }

  /** The whole update, for a diff that has dynamic changes and no static ones. */
  function TryBatch(w: World, fate: Fate, targets: seq<Target>, changes: seq<Order>, stamp: bool): (World, Outcome)
    requires Known(w, targets)
  {
    var (w', ok) := ValidateFrom(w, fate, targets, 0, changes);
    if ok then CommitFrom(w', fate, targets, 0, changes, stamp) else (w', Refused)
  }

  // ---- What one node ends up with ------------------------------------------------------------

  /** A node's config with changes in force. */
  ghost function Updated(cfg: Config, changes: seq<Order>): Config {
    if changes == [] then cfg
    else Updated(cfg, changes[..|changes|-1])[changes[|changes|-1].address := changes[|changes|-1].value]
  }

  ghost predicate OnlyNode(w: World, w': World, node: string) {
    && node in w.nodes && w'.nodes.Keys == w.nodes.Keys && w'.stamped == w.stamped
    && forall n :: n in w.nodes && n != node ==> w'.nodes[n] == w.nodes[n]
  }

  lemma UndoEffect(w: World, fate: Fate, node: string, c: Order)
    requires node in w.nodes
    ensures var (w', ok) := Undo(w, fate, node, c);
            && OnlyNode(w, w', node) && (ok ==> c.undo.Some? && w'.tick == w.tick + 1)
            && (ok <==> c.undo.Some? && fate(w.tick))
            && w'.nodes[node] == if ok then w.nodes[node][c.address := c.undo.value] else w.nodes[node]
  {
  }

  lemma {:induction false} ApplyFrame(w: World, fate: Fate, node: string, changes: seq<Order>, i: nat)
    requires node in w.nodes && i <= |changes|
    ensures var (w', k) := ApplyFrom(w, fate, node, changes, i);
            && i <= k <= |changes| && OnlyNode(w, w', node)
            && (forall cfg :: w.nodes[node] == Updated(cfg, changes[..i]) ==>
                  w'.nodes[node] == Updated(cfg, changes[..k]))
    decreases |changes| - i
  {
    if i < |changes| && fate(w.tick) && changes[i].sendable {
      var (w', ok) := Send(Tick(w), fate, node, changes[i].address, changes[i].value);
      if ok {
        assert changes[..i+1][..i] == changes[..i];
        ApplyFrame(w', fate, node, changes, i + 1);
      }
    }
  }

  lemma {:induction false} RollbackFrame(w: World, fate: Fate, node: string, changes: seq<Order>, n: nat, failed: nat)
    requires node in w.nodes && n <= |changes|
    ensures var (w', f) := RollbackFrom(w, fate, node, changes, n, failed);
            failed <= f <= failed + n && OnlyNode(w, w', node)
    decreases n
  {
    if n > 0 {
      UndoEffect(w, fate, node, changes[n-1]);
      var (w', ok) := Undo(w, fate, node, changes[n-1]);
      RollbackFrame(w', fate, node, changes, n - 1, if ok then failed else failed + 1);
    }
  }

  /** The node held the recorded old value of every change that records one. */
  ghost predicate HeldOld(cfg: Config, changes: seq<Order>) {
    forall c :: c in changes && c.undo.Some? ==> c.address in cfg && cfg[c.address] == c.undo.value
  }

  ghost function Get(cfg: Config, a: Address): Option<string> { if a in cfg then Some(cfg[a]) else None }

  ghost function Addresses(changes: seq<Order>): set<Address> { set c | c in changes :: c.address }

  /** cfg differs from the prior config at most where the changes write. */
  ghost predicate Near(cfg: Config, prior: Config, changes: seq<Order>) {
    forall a :: a !in Addresses(changes) ==> Get(cfg, a) == Get(prior, a)
  }

  lemma {:induction false} UpdatedNear(prior: Config, changes: seq<Order>)
    ensures Near(Updated(prior, changes), prior, changes)
  {
    if changes != [] {
      var rest := changes[..|changes|-1];
      UpdatedNear(prior, rest);
      assert forall c :: c in rest ==> c in changes;
    }
  }

  /** Changes at one address agree on its value. */
  ghost predicate Consistent(changes: seq<Order>) {
    forall j, k :: 0 <= j < k < |changes| && changes[j].address == changes[k].address ==>
      changes[j].value == changes[k].value
  }

  /** Where the changes are consistent, the updated config carries every one of them. */
  lemma {:induction false} UpdatedCarries(prior: Config, changes: seq<Order>, i: nat)
    requires i < |changes|
    requires Consistent(changes)
    ensures Get(Updated(prior, changes), changes[i].address) == Some(changes[i].value)
  {
    if i < |changes| - 1 { UpdatedCarries(prior, changes[..|changes|-1], i); }
  }

  lemma NearUndone(cfg: Config, prior: Config, changes: seq<Order>, n: nat)
    requires 0 < n <= |changes| && Near(cfg, prior, changes[..n]) && HeldOld(prior, changes)
    requires changes[n-1].undo.Some?
    ensures Near(cfg[changes[n-1].address := changes[n-1].undo.value], prior, changes[..n-1])
  {
    assert changes[..n] == changes[..n-1] + [changes[n-1]];
    assert changes[n-1] in changes;
  }

  /** An undo without failures leaves the node exactly as it was. */
  lemma {:induction false} RollbackRestores(
      w: World, fate: Fate, node: string, changes: seq<Order>, n: nat, failed: nat, prior: Config)
    requires node in w.nodes && n <= |changes| && HeldOld(prior, changes)
    requires Near(w.nodes[node], prior, changes[..n])
    requires RollbackFrom(w, fate, node, changes, n, failed).1 == failed
    ensures ConfigOf(RollbackFrom(w, fate, node, changes, n, failed).0, node) == Some(prior)
    decreases n
  {
    if n == 0 {
      assert forall a :: Get(w.nodes[node], a) == Get(prior, a);
      SameConfig(w.nodes[node], prior);
    } else {
      UndoEffect(w, fate, node, changes[n-1]);
      var (w', ok) := Undo(w, fate, node, changes[n-1]);
      RollbackFrame(w', fate, node, changes, n - 1, if ok then failed else failed + 1);
      NearUndone(w.nodes[node], prior, changes, n);
      RollbackRestores(w', fate, node, changes, n - 1, failed, prior);
    }
  }

  lemma SameConfig(a: Config, b: Config)
    requires forall x :: Get(a, x) == Get(b, x)
    ensures a == b
  {
    assert forall x :: x in a <==> Get(a, x).Some?;
    assert forall x :: x in b <==> Get(b, x).Some?;
    assert forall x :: x in a ==> Get(a, x) == Some(a[x]);
    assert forall x :: x in b ==> Get(b, x) == Some(b[x]);
  }

  ghost function ConfigOf(w: World, node: string): Option<Config> {
    if node in w.nodes then Some(w.nodes[node]) else None
  }

  // ---- What the batch ends up with ---------------------------------------------------------

  ghost function Nodes(targets: seq<Target>): set<string> { set t | t in targets :: t.node }

  ghost function Pods(targets: seq<Target>): set<string> { set t | t in targets :: t.pod }

  ghost predicate DistinctNodes(targets: seq<Target>) {
    forall i, j :: 0 <= i < j < |targets| ==> targets[i].node != targets[j].node
  }

  ghost predicate Untouched(nodes: map<string, Config>, prior: map<string, Config>, except: set<string>) {
    && nodes.Keys == prior.Keys
    && forall n :: n in prior && n !in except ==> nodes[n] == prior[n]
  }

  /** Undoing the first n targets touches no other node and no stamp. */
  lemma {:induction false} RollbackBatchFrame(
      w: World, fate: Fate, targets: seq<Target>, n: nat, changes: seq<Order>, r: RollbackResult)
    requires n <= |targets| && Known(w, targets)
    ensures var (w', r') := RollbackBatch(w, fate, targets, n, changes, r);
            w'.stamped == w.stamped && Untouched(w'.nodes, w.nodes, Nodes(targets[..n]))
    decreases n
  {
    if n > 0 {
      var t := targets[n-1];
      RollbackFrame(w, fate, t.node, changes, |changes|, 0);
      var (w', failed) := RollbackFrom(w, fate, t.node, changes, |changes|, 0);
      RollbackBatchFrame(w', fate, targets, n - 1, changes, Tally(r, t.pod, failed));
      assert targets[..n] == targets[..n-1] + [t];
    }
  }

  /** The counts add up and name the pods whose undo failed, all of them among the first n. */
  lemma {:induction false} RollbackTally(
      w: World, fate: Fate, targets: seq<Target>, n: nat, changes: seq<Order>, r: RollbackResult)
    requires n <= |targets| && Known(w, targets)
    ensures var (w', r') := RollbackBatch(w, fate, targets, n, changes, r);
            && r'.successCount + r'.failedCount == r.successCount + r.failedCount + n
            && |r'.failedPods| - r'.failedCount == |r.failedPods| - r.failedCount
            && r.failedPods <= r'.failedPods
            && (forall p :: p in r'.failedPods ==> p in r.failedPods || p in Pods(targets[..n]))
            && w'.stamped == w.stamped && Untouched(w'.nodes, w.nodes, Nodes(targets[..n]))
    decreases n
  {
    RollbackBatchFrame(w, fate, targets, n, changes, r);
    if n > 0 {
      var t := targets[n-1];
      RollbackFrame(w, fate, t.node, changes, |changes|, 0);
      var (w', failed) := RollbackFrom(w, fate, t.node, changes, |changes|, 0);
      assert targets[..n] == targets[..n-1] + [t];
      RollbackTally(w', fate, targets, n - 1, changes, Tally(r, t.pod, failed));
    }
  }

  /** Ready to be undone: the node held the old values and is near its prior config. */
  ghost predicate Undoable(w: World, prior: map<string, Config>, t: Target, changes: seq<Order>) {
    && t.node in w.nodes && t.node in prior && HeldOld(prior[t.node], changes)
    && Near(w.nodes[t.node], prior[t.node], changes)
  }

  lemma NodeNotBelow(targets: seq<Target>, n: nat, i: nat)
    requires DistinctNodes(targets) && n <= i < |targets|
    ensures targets[i].node !in Nodes(targets[..n])
  {
    forall t | t in targets[..n] ensures t.node != targets[i].node {
      var j :| 0 <= j < n && targets[..n][j] == t;
    }
  }

  /** The pod undone first: named by the tally, or back to its prior config. */
  lemma LastRestores(
      w: World, fate: Fate, t: Target, changes: seq<Order>, r: RollbackResult, prior: map<string, Config>)
    requires Undoable(w, prior, t, changes)
    ensures var (w', failed) := RollbackFrom(w, fate, t.node, changes, |changes|, 0);
            && OnlyNode(w, w', t.node)
            && (t.pod in Tally(r, t.pod, failed).failedPods || ConfigOf(w', t.node) == Some(prior[t.node]))
  {
    RollbackFrame(w, fate, t.node, changes, |changes|, 0);
    if RollbackFrom(w, fate, t.node, changes, |changes|, 0).1 == 0 {
      assert changes[..|changes|] == changes;
      RollbackRestores(w, fate, t.node, changes, |changes|, 0, prior[t.node]);
    }
  }

  /** A pod the tally does not name is back to exactly its prior config. */
  lemma {:induction false} RollbackBatchRestores(
      w: World, fate: Fate, targets: seq<Target>, n: nat, changes: seq<Order>, r: RollbackResult,
      prior: map<string, Config>, i: nat)
    requires i < n <= |targets| && Known(w, targets) && DistinctNodes(targets)
    requires Undoable(w, prior, targets[i], changes)
    ensures var (w', r') := RollbackBatch(w, fate, targets, n, changes, r);
            targets[i].pod in r'.failedPods || ConfigOf(w', targets[i].node) == Some(prior[targets[i].node])
    decreases n
  {
    var t := targets[n-1];
    RollbackFrame(w, fate, t.node, changes, |changes|, 0);
    var (w', failed) := RollbackFrom(w, fate, t.node, changes, |changes|, 0);
    if i < n - 1 {
      RollbackBatchRestores(w', fate, targets, n - 1, changes, Tally(r, t.pod, failed), prior, i);
    } else {
      LastRestores(w, fate, t, changes, r, prior);
      RollbackTally(w', fate, targets, n - 1, changes, Tally(r, t.pod, failed));
      NodeNotBelow(targets, n - 1, i);
    }
  }

  /** The first i targets carry the changes, every other node is as before. */
  ghost predicate Upto(w: World, prior: map<string, Config>, targets: seq<Target>, i: nat, changes: seq<Order>)
    requires i <= |targets|
  {
    && w.nodes.Keys == prior.Keys
    && forall n :: n in prior ==>
         w.nodes[n] == if n in Nodes(targets[..i]) then Updated(prior[n], changes) else prior[n]
  }

  /** What an abort at target `at` leaves behind. */
  ghost predicate Settled(w: World, prior: map<string, Config>, targets: seq<Target>, at: nat, r: RollbackResult) {
    && at < |targets| && Untouched(w.nodes, prior, Nodes(targets[..at+1]))
    && r.successCount + r.failedCount == at && |r.failedPods| == r.failedCount
    && (forall p :: p in r.failedPods ==> p in Pods(targets[..at]))
  }

  /** Every earlier target whose node held the old values is named, or back to its prior config. */
  ghost predicate Restored(
      w: World, prior: map<string, Config>, targets: seq<Target>, at: nat, changes: seq<Order>, r: RollbackResult)
    requires at <= |targets| && forall t :: t in targets ==> t.node in prior
  {
    forall i :: 0 <= i < at && HeldOld(prior[targets[i].node], changes) ==>
      targets[i].pod in r.failedPods || ConfigOf(w, targets[i].node) == Some(prior[targets[i].node])
  }

  /** One more target committed. */
  lemma UptoNext(w: World, w': World, prior: map<string, Config>, targets: seq<Target>, i: nat, changes: seq<Order>)
    requires i < |targets| && DistinctNodes(targets) && Upto(w, prior, targets, i, changes)
    requires OnlyNode(w, w', targets[i].node) && w'.nodes[targets[i].node] == Updated(w.nodes[targets[i].node], changes)
    ensures Upto(w', prior, targets, i + 1, changes)
  {
    NodeNotBelow(targets, i, i);
    assert targets[..i+1] == targets[..i] + [targets[i]];
  }

  /** Upto, except perhaps at the target being worked on. */
  ghost predicate UptoBut(w: World, prior: map<string, Config>, targets: seq<Target>, i: nat, changes: seq<Order>)
    requires i < |targets|
  {
    && w.nodes.Keys == prior.Keys
    && forall n :: n in prior && n != targets[i].node ==>
         w.nodes[n] == if n in Nodes(targets[..i]) then Updated(prior[n], changes) else prior[n]
  }

  lemma AbortRestores(
      w: World, fate: Fate, prior: map<string, Config>, targets: seq<Target>, i: nat, changes: seq<Order>)
    requires i < |targets| && Known(w, targets) && DistinctNodes(targets)
    requires UptoBut(w, prior, targets, i, changes) && forall t :: t in targets ==> t.node in prior
    ensures var (w', r) := RollbackBatch(w, fate, targets, i, changes, NOTHING);
            Restored(w', prior, targets, i, changes, r)
  {
    forall j | 0 <= j < i && HeldOld(prior[targets[j].node], changes)
      ensures targets[j].pod in RollbackBatch(w, fate, targets, i, changes, NOTHING).1.failedPods
           || ConfigOf(RollbackBatch(w, fate, targets, i, changes, NOTHING).0, targets[j].node) ==
              Some(prior[targets[j].node])
    {
      assert targets[j] in targets[..i];
      UpdatedNear(prior[targets[j].node], changes);
      RollbackBatchRestores(w, fate, targets, i, changes, NOTHING, prior, j);
    }
  }

  lemma UntouchedBeyond(
      w: World, w': World, prior: map<string, Config>, targets: seq<Target>, i: nat, changes: seq<Order>)
    requires i < |targets| && UptoBut(w, prior, targets, i, changes) && DistinctNodes(targets)
    requires Untouched(w'.nodes, w.nodes, Nodes(targets[..i]))
    ensures Untouched(w'.nodes, prior, Nodes(targets[..i+1]))
    ensures ConfigOf(w', targets[i].node) == ConfigOf(w, targets[i].node)
  {
    NodeNotBelow(targets, i, i);
    assert targets[..i+1] == targets[..i] + [targets[i]];
    assert Nodes(targets[..i+1]) == Nodes(targets[..i]) + {targets[i].node};
  }

  lemma AbortSettles(
      w: World, fate: Fate, prior: map<string, Config>, targets: seq<Target>, i: nat, changes: seq<Order>)
    requires i < |targets| && Known(w, targets) && DistinctNodes(targets) && UptoBut(w, prior, targets, i, changes)
    ensures var (w', r) := RollbackBatch(w, fate, targets, i, changes, NOTHING);
            && Settled(w', prior, targets, i, r) && w'.stamped == w.stamped
            && ConfigOf(w', targets[i].node) == ConfigOf(w, targets[i].node)
  {
    RollbackTally(w, fate, targets, i, changes, NOTHING);
    UntouchedBeyond(w, RollbackBatch(w, fate, targets, i, changes, NOTHING).0, prior, targets, i, changes);
  }

  // ---- The theorems -------------------------------------------------------------------------

  /** What phase two from target i on guarantees. */
  ghost predicate Verdict(
      w: World, out: (World, Outcome), prior: map<string, Config>, targets: seq<Target>, changes: seq<Order>)
    requires forall t :: t in targets ==> t.node in prior
  {
    && w.stamped <= out.0.stamped
    && match out.1 {
         case Refused => out.0.nodes == prior && out.0.stamped == w.stamped
         case Committed => Upto(out.0, prior, targets, |targets|, changes) && out.0.stamped <= w.stamped + Pods(targets)
         case Aborted(at, r) =>
           && Settled(out.0, prior, targets, at, r) && out.0.stamped <= w.stamped + Pods(targets[..at])
           && Restored(out.0, prior, targets, at, changes, r)
       }
  }

  /** Giving up at target i from a state v in which only that target may be half done. */
  lemma AbortVerdict(
      w: World, v: World, fate: Fate, prior: map<string, Config>, targets: seq<Target>, i: nat, changes: seq<Order>)
    requires i < |targets| && Known(v, targets) && DistinctNodes(targets) && UptoBut(v, prior, targets, i, changes)
    requires v.stamped == w.stamped && forall t :: t in targets ==> t.node in prior
    ensures var (w', r) := RollbackBatch(v, fate, targets, i, changes, NOTHING);
            Verdict(w, (w', Aborted(i, r)), prior, targets, changes)
  {
    AbortSettles(v, fate, prior, targets, i, changes);
    AbortRestores(v, fate, prior, targets, i, changes);
  }

  lemma StampedPods(targets: seq<Target>, i: nat, at: nat)
    requires i < at <= |targets|
    ensures targets[i].pod in Pods(targets[..at]) && targets[i].pod in Pods(targets)
  {
    assert targets[..at][i] in targets[..at];
  }

  lemma {:induction false} CommitVerdict(
      w: World, fate: Fate, prior: map<string, Config>, targets: seq<Target>, i: nat, changes: seq<Order>, stamp: bool)
    requires i <= |targets| && Known(w, targets) && DistinctNodes(targets) && Upto(w, prior, targets, i, changes)
    ensures Verdict(w, CommitFrom(w, fate, targets, i, changes, stamp), prior, targets, changes)
    ensures var out := CommitFrom(w, fate, targets, i, changes, stamp).1;
            out.Committed? || (out.Aborted? && out.at >= i)
    decreases |targets| - i
  {
    if i < |targets| {
      if !fate(w.tick) {
        AbortVerdict(w, Tick(w), fate, prior, targets, i, changes);
      } else {
        var node := targets[i].node;
        ApplyFrame(Tick(w), fate, node, changes, 0);
        var (w1, k) := ApplyFrom(Tick(w), fate, node, changes, 0);
        if k < |changes| {
          RollbackFrame(w1, fate, node, changes, k, 0);
          AbortVerdict(w, RollbackFrom(w1, fate, node, changes, k, 0).0, fate, prior, targets, i, changes);
        } else {
          assert changes[..0] == [] && changes[..|changes|] == changes;
          assert Updated(w.nodes[node], changes[..0]) == w.nodes[node];
          UptoNext(w, w1, prior, targets, i, changes);
          CommitVerdict(Stamp(w1, fate, targets[i].pod, stamp), fate, prior, targets, i + 1, changes, stamp);
          var out := CommitFrom(Stamp(w1, fate, targets[i].pod, stamp), fate, targets, i + 1, changes, stamp).1;
          StampedPods(targets, i, if out.Aborted? then out.at else i + 1);
        }
      }
    }
  }

  /**
    A refused batch changes no node. A committed batch leaves every target with all changes
    and every other node alone. An aborted batch leaves the nodes after the failing target
    alone, accounts for every target before it, and has each of those that it does not name
    back to exactly its prior config, provided that node held the old values on record.
    Hash stamps are only ever added, on targets that took the changes.
   */
  lemma TwoPhaseVerdict(w: World, fate: Fate, targets: seq<Target>, changes: seq<Order>, stamp: bool)
    requires Known(w, targets) && DistinctNodes(targets)
    ensures Verdict(w, TryBatch(w, fate, targets, changes, stamp), w.nodes, targets, changes)
  {
    var (v, ok) := ValidateFrom(w, fate, targets, 0, changes);
    assert targets[..0] == [];
    if ok { CommitVerdict(v, fate, w.nodes, targets, 0, changes, stamp); }
  }

  lemma {:induction false} ValidateExactly(w: World, fate: Fate, targets: seq<Target>, i: nat, changes: seq<Order>)
    requires i <= |targets|
    ensures ValidateFrom(w, fate, targets, i, changes).1 <==>
            i == |targets| || ((forall c :: c in changes ==> c.sendable)
                               && forall k :: w.tick <= k < w.tick + 2 * (|targets| - i) ==> fate(k))
    decreases |targets| - i
  {
    if i < |targets| && fate(w.tick) && fate(w.tick + 1) {
      ValidateExactly(Tick(Tick(w)), fate, targets, i + 1, changes);
    }
  }

  /**
    A batch is refused exactly when there is a target and a change cannot be sent, the deadline passes
    or a node stays silent before every target has been probed.
   */
  lemma RefusedExactly(w: World, fate: Fate, targets: seq<Target>, changes: seq<Order>, stamp: bool)
    requires Known(w, targets) && DistinctNodes(targets)
    ensures TryBatch(w, fate, targets, changes, stamp).1.Refused? <==>
            targets != [] && ((exists c :: c in changes && !c.sendable)
                              || exists k :: w.tick <= k < w.tick + 2 * |targets| && !fate(k))
  {
    ValidateExactly(w, fate, targets, 0, changes);
    var (v, ok) := ValidateFrom(w, fate, targets, 0, changes);
    assert targets[..0] == [];
    if ok { CommitVerdict(v, fate, w.nodes, targets, 0, changes, stamp); }
  }

  // ---- The failing target itself ----------------------------------------------------------------

  /** Every change moves the node: no two at one address, none to the value already there. */
  ghost predicate Effective(prior: Config, changes: seq<Order>) {
    && (forall j, k :: 0 <= j < k < |changes| ==> changes[j].address != changes[k].address)
    && forall c :: c in changes ==> Get(prior, c.address) != Some(c.value)
  }

  lemma {:induction false} RollbackKeepsOff(
      w: World, fate: Fate, node: string, changes: seq<Order>, n: nat, failed: nat, a: Address)
    requires node in w.nodes && n <= |changes|
    requires forall j :: 0 <= j < n ==> changes[j].address != a
    ensures var w' := RollbackFrom(w, fate, node, changes, n, failed).0;
            node in w'.nodes && Get(w'.nodes[node], a) == Get(w.nodes[node], a)
    decreases n
  {
    if n > 0 {
      UndoEffect(w, fate, node, changes[n-1]);
      var (w', ok) := Undo(w, fate, node, changes[n-1]);
      RollbackKeepsOff(w', fate, node, changes, n - 1, if ok then failed else failed + 1, a);
    }
  }

  ghost predicate InForce(cfg: Config, changes: seq<Order>, n: nat)
    requires n <= |changes|
  {
    forall j :: 0 <= j < n ==> Get(cfg, changes[j].address) == Some(changes[j].value)
  }

  lemma InForceBelow(cfg: Config, changes: seq<Order>, n: nat, value: string, prior: Config)
    requires 0 < n <= |changes| && InForce(cfg, changes, n) && Effective(prior, changes)
    ensures InForce(cfg[changes[n-1].address := value], changes, n - 1)
  {
  }

  /** A failed undo shows: the change it should have reverted is still in force. */
  lemma {:induction false} FailureShows(
      w: World, fate: Fate, node: string, changes: seq<Order>, n: nat, failed: nat, prior: Config)
    requires node in w.nodes && n <= |changes| && Effective(prior, changes)
    requires InForce(w.nodes[node], changes, n)
    requires RollbackFrom(w, fate, node, changes, n, failed).1 > failed
    ensures ConfigOf(RollbackFrom(w, fate, node, changes, n, failed).0, node) != Some(prior)
    decreases n
  {
    if n > 0 {
      var c := changes[n-1];
      UndoEffect(w, fate, node, c);
      var (w', ok) := Undo(w, fate, node, c);
      if ok {
        InForceBelow(w.nodes[node], changes, n, c.undo.value, prior);
        FailureShows(w', fate, node, changes, n - 1, failed, prior);
      } else {
        RollbackKeepsOff(w', fate, node, changes, n - 1, failed + 1, c.address);
        assert c in changes;
      }
    }
  }

  /** Undoing k changes brings the node back exactly when no undo command failed. */
  lemma UndoneExactly(w: World, fate: Fate, node: string, changes: seq<Order>, k: nat, prior: Config)
    requires node in w.nodes && k <= |changes| && Effective(prior, changes) && HeldOld(prior, changes)
    requires w.nodes[node] == Updated(prior, changes[..k])
    ensures var (w', failed) := RollbackFrom(w, fate, node, changes, k, 0);
            ConfigOf(w', node) == Some(prior) <==> failed == 0
  {
    UpdatedNear(prior, changes[..k]);
    if RollbackFrom(w, fate, node, changes, k, 0).1 == 0 {
      RollbackRestores(w, fate, node, changes, k, 0, prior);
    } else {
      RollbackFrame(w, fate, node, changes, k, 0);
      forall j | 0 <= j < k ensures Get(w.nodes[node], changes[j].address) == Some(changes[j].value) {
        UpdatedCarries(prior, changes[..k], j);
      }
      FailureShows(w, fate, node, changes, k, 0, prior);
    }
  }

  /**
    An undo of n changes has no failure if and only if each has a command and the node takes it when
    its turn comes.
   */
  lemma {:induction false} CleanUndoExactly(
      w: World, fate: Fate, node: string, changes: seq<Order>, n: nat, failed: nat)
    requires node in w.nodes && n <= |changes|
    ensures RollbackFrom(w, fate, node, changes, n, failed).1 == failed <==> UndoGoes(fate, w.tick, changes, n)
    decreases n
  {
    if n > 0 {
      UndoEffect(w, fate, node, changes[n-1]);
      var (w', ok) := Undo(w, fate, node, changes[n-1]);
      RollbackFrame(w', fate, node, changes, n - 1, if ok then failed else failed + 1);
      if ok { CleanUndoExactly(w', fate, node, changes, n - 1, failed); }
    }
  }

  /** From the last of n changes to the first, each has an old value that can be sent and the node takes it. */
  predicate UndoGoes(fate: Fate, tick: nat, changes: seq<Order>, n: nat)
    requires n <= |changes|
    decreases n
  {
    n == 0 || (changes[n-1].undo.Some? && fate(tick) && UndoGoes(fate, tick + 1, changes, n - 1))
  }

  /** So one change without such an old value, known before the call, is enough. */
  lemma {:induction false} NoOldValueSticks(fate: Fate, tick: nat, changes: seq<Order>, n: nat, j: nat)
    requires j < n <= |changes| && changes[j].undo.None?
    ensures !UndoGoes(fate, tick, changes, n)
    decreases n
  {
    if j < n - 1 { NoOldValueSticks(fate, tick + 1, changes, n - 1, j); }
  }

  predicate Goes(fate: Fate, tick: nat, c: Order) { fate(tick) && c.sendable && fate(tick + 1) }

  /**
    Where an apply stops, and how many outcomes it has drawn by then: two per change in force, then
    one or two for the one that fails.
   */
  lemma {:induction false} ApplyStops(w: World, fate: Fate, node: string, changes: seq<Order>, i: nat)
    requires node in w.nodes && i <= |changes|
    ensures var (w', k) := ApplyFrom(w, fate, node, changes, i);
            && i <= k <= |changes|
            && (k < |changes| ==> !Goes(fate, w.tick + 2 * (k - i), changes[k]))
            && w'.tick == w.tick + 2 * (k - i) + if k == |changes| then 0
                          else if fate(w.tick + 2 * (k - i)) && changes[k].sendable then 2 else 1
    decreases |changes| - i
  {
    if i < |changes| && Goes(fate, w.tick, changes[i]) {
      var (w', ok) := Send(Tick(w), fate, node, changes[i].address, changes[i].value);
      ApplyStops(w', fate, node, changes, i + 1);
    }
  }

  lemma {:induction false} ApplyWent(w: World, fate: Fate, node: string, changes: seq<Order>, i: nat, j: nat)
    requires node in w.nodes && i <= j < |changes| && j < ApplyFrom(w, fate, node, changes, i).1
    ensures Goes(fate, w.tick + 2 * (j - i), changes[j])
    decreases |changes| - i
  {
    if i < j {
      var (w', ok) := Send(Tick(w), fate, node, changes[i].address, changes[i].value);
      ApplyWent(w', fate, node, changes, i + 1, j);
    }
  }

  /** An apply from change i puts in force exactly the changes before the first that does not go. */
  lemma ApplyExactly(w: World, fate: Fate, node: string, changes: seq<Order>, i: nat, w': World, k: nat)
    requires node in w.nodes && i <= |changes| && (w', k) == ApplyFrom(w, fate, node, changes, i)
    ensures i <= k <= |changes| && forall j :: i <= j < k ==> Goes(fate, w.tick + 2 * (j - i), changes[j])
    ensures k < |changes| ==> !Goes(fate, w.tick + 2 * (k - i), changes[k])
    ensures w'.tick == w.tick + 2 * (k - i) + if k == |changes| then 0
                       else if fate(w.tick + 2 * (k - i)) && changes[k].sendable then 2 else 1
  {
    ApplyStops(w, fate, node, changes, i);
    forall j | i <= j < k
      ensures Goes(fate, w.tick + 2 * (j - i), changes[j])
    {
      ApplyWent(w, fate, node, changes, i, j);
    }
  }

  /**
    The target whose apply failed at change k ends as it started if and only if every change
    before k recorded an old value that can be sent and the node took each of those commands.
    Nothing of this is reported: the result the caller gets is about the targets before it only.
   */
  lemma FailingTargetExactly(
      w: World, fate: Fate, prior: map<string, Config>, targets: seq<Target>, i: nat, changes: seq<Order>, stamp: bool)
    requires i < |targets| && Known(w, targets) && DistinctNodes(targets) && Upto(w, prior, targets, i, changes)
    requires Effective(prior[targets[i].node], changes) && HeldOld(prior[targets[i].node], changes)
    requires fate(w.tick) && ApplyFrom(Tick(w), fate, targets[i].node, changes, 0).1 < |changes|
    ensures var (w1, k) := ApplyFrom(Tick(w), fate, targets[i].node, changes, 0);
            && k <= |changes|
            && var (out, outcome) := CommitFrom(w, fate, targets, i, changes, stamp);
            && outcome.Aborted? && outcome.at == i
            && (ConfigOf(out, targets[i].node) == Some(prior[targets[i].node]) <==>
                   UndoGoes(fate, w1.tick, changes, k))
  {
    var node := targets[i].node;
    NodeNotBelow(targets, i, i);
    ApplyFrame(Tick(w), fate, node, changes, 0);
    var (w1, k) := ApplyFrom(Tick(w), fate, node, changes, 0);
    assert changes[..0] == [];
    assert w.nodes[node] == Updated(prior[node], changes[..0]);
    UndoneExactly(w1, fate, node, changes, k, prior[node]);
    CleanUndoExactly(w1, fate, node, changes, k, 0);
    RollbackFrame(w1, fate, node, changes, k, 0);
    AbortSettles(RollbackFrom(w1, fate, node, changes, k, 0).0, fate, prior, targets, i, changes);
  }

  // ---- The stamps that stay -------------------------------------------------------------------------

  /** When the stamp of the d-th target from here is attempted: each target draws two outcomes, and two per change. */
  function StampTick(tick: nat, size: nat, d: nat): nat
    decreases d
  {
    if d == 0 then tick + 2 * size + 1 else StampTick(tick + 2 * size + 2, size, d - 1)
  }

  /** The pods among targets[i..m] whose stamp is accepted. */
  ghost function NewStamps(fate: Fate, tick: nat, size: nat, targets: seq<Target>, i: nat, m: nat): set<string>
    requires i <= m <= |targets|
    decreases m - i
  {
    if i == m then {}
    else (if fate(tick + 2 * size + 1) then {targets[i].pod} else {}) +
         NewStamps(fate, tick + 2 * size + 2, size, targets, i + 1, m)
  }

  lemma NewStampsStep(fate: Fate, tick: nat, size: nat, targets: seq<Target>, i: nat, m: nat, base: set<string>)
    requires i < m <= |targets|
    ensures base + (if fate(tick + 2 * size + 1) then {targets[i].pod} else {}) +
            NewStamps(fate, tick + 2 * size + 2, size, targets, i + 1, m)
            == base + NewStamps(fate, tick, size, targets, i, m)
  {
  }

  lemma {:induction false} NewStampsExactly(
      fate: Fate, tick: nat, size: nat, targets: seq<Target>, i: nat, m: nat, p: string)
    requires i <= m <= |targets|
    ensures p in NewStamps(fate, tick, size, targets, i, m) <==>
            exists j :: i <= j < m && targets[j].pod == p && fate(StampTick(tick, size, j - i))
    decreases m - i
  {
    if i < m {
      NewStampsExactly(fate, tick + 2 * size + 2, size, targets, i + 1, m, p);
      if j :| i <= j < m && targets[j].pod == p && fate(StampTick(tick, size, j - i)) {
        if j > i { assert StampTick(tick, size, j - i) == StampTick(tick + 2 * size + 2, size, j - (i + 1)); }
      }
      if j :| i + 1 <= j < m && targets[j].pod == p && fate(StampTick(tick + 2 * size + 2, size, j - (i + 1))) {
        assert StampTick(tick, size, j - i) == StampTick(tick + 2 * size + 2, size, j - (i + 1));
      }
      if fate(tick + 2 * size + 1) && targets[i].pod == p {
        assert StampTick(tick, size, i - i) == tick + 2 * size + 1;
      }
    }
  }

  ghost function Done(outcome: Outcome, targets: seq<Target>): nat {
    match outcome
    case Refused => 0
    case Committed => |targets|
    case Aborted(at, _) => at
  }

  /** A target that takes every change hands over to the next one with its stamp, if accepted. */
  lemma CommitOne(w: World, fate: Fate, targets: seq<Target>, i: nat, changes: seq<Order>, stamp: bool)
    returns (v: World)
    requires i < |targets| && Known(w, targets) && fate(w.tick)
    requires ApplyFrom(Tick(w), fate, targets[i].node, changes, 0).1 == |changes|
    ensures Known(v, targets)
    ensures CommitFrom(w, fate, targets, i, changes, stamp) == CommitFrom(v, fate, targets, i + 1, changes, stamp)
    ensures stamp ==> v.tick == w.tick + 2 * |changes| + 2
    ensures v.stamped == w.stamped + if stamp && fate(w.tick + 2 * |changes| + 1) then {targets[i].pod} else {}
  {
    ApplyFrame(Tick(w), fate, targets[i].node, changes, 0);
    ApplyStops(Tick(w), fate, targets[i].node, changes, 0);
    v := Stamp(ApplyFrom(Tick(w), fate, targets[i].node, changes, 0).0, fate, targets[i].pod, stamp);
  }

  lemma AbortHere(w: World, fate: Fate, targets: seq<Target>, i: nat, changes: seq<Order>, stamp: bool)
    returns (out: World, outcome: Outcome)
    requires i < |targets| && Known(w, targets)
    requires !fate(w.tick) || ApplyFrom(Tick(w), fate, targets[i].node, changes, 0).1 != |changes|
    ensures (out, outcome) == CommitFrom(w, fate, targets, i, changes, stamp)
    ensures outcome.Aborted? && outcome.at == i && out.stamped == w.stamped
  {
    var result := CommitFrom(w, fate, targets, i, changes, stamp);
    out, outcome := result.0, result.1;
    if !fate(w.tick) {
      RollbackTally(Tick(w), fate, targets, i, changes, NOTHING);
    } else {
      var node := targets[i].node;
      ApplyFrame(Tick(w), fate, node, changes, 0);
      var (w1, k) := ApplyFrom(Tick(w), fate, node, changes, 0);
      RollbackFrame(w1, fate, node, changes, k, 0);
      RollbackTally(RollbackFrom(w1, fate, node, changes, k, 0).0, fate, targets, i, changes, NOTHING);
    }
  }

  lemma {:induction false} CommitStamps(
      w: World, fate: Fate, targets: seq<Target>, i: nat, changes: seq<Order>, stamp: bool)
      returns (out: World, outcome: Outcome)
    requires i <= |targets| && Known(w, targets)
    ensures (out, outcome) == CommitFrom(w, fate, targets, i, changes, stamp)
    ensures i <= Done(outcome, targets) <= |targets|
    ensures out.stamped ==
            w.stamped + if stamp then NewStamps(fate, w.tick, |changes|, targets, i, Done(outcome, targets)) else {}
    decreases |targets| - i
  {
    if i == |targets| {
      out, outcome := w, Committed;
    } else if fate(w.tick) && ApplyFrom(Tick(w), fate, targets[i].node, changes, 0).1 == |changes| {
      var v := CommitOne(w, fate, targets, i, changes, stamp);
      out, outcome := CommitStamps(v, fate, targets, i + 1, changes, stamp);
      if stamp { NewStampsStep(fate, w.tick, |changes|, targets, i, Done(outcome, targets), w.stamped); }
    } else {
      out, outcome := AbortHere(w, fate, targets, i, changes, stamp);
    }
  }

  lemma {:induction false} ValidateTicks(w: World, fate: Fate, targets: seq<Target>, i: nat, changes: seq<Order>)
    requires i <= |targets| && ValidateFrom(w, fate, targets, i, changes).1
    ensures ValidateFrom(w, fate, targets, i, changes).0 == w.(tick := w.tick + 2 * (|targets| - i))
    decreases |targets| - i
  {
    if i < |targets| { ValidateTicks(Tick(Tick(w)), fate, targets, i + 1, changes); }
  }

  /**
    An abort takes no stamp back: the new stamps are exactly those of the targets before the
    failing one whose patch was accepted. So the stamps are as before if and only if the first
    target failed, stamping is off, or every such patch failed or was on a pod already stamped.
   */
  lemma StampsLeftExactly(w: World, fate: Fate, targets: seq<Target>, changes: seq<Order>, stamp: bool)
    requires Known(w, targets) && TryBatch(w, fate, targets, changes, stamp).1.Aborted?
    ensures var (out, outcome) := TryBatch(w, fate, targets, changes, stamp);
            var tick := w.tick + 2 * |targets|;
            && outcome.at <= |targets|
            && out.stamped ==
               w.stamped + (if stamp then NewStamps(fate, tick, |changes|, targets, 0, outcome.at) else {})
            && (out.stamped == w.stamped <==>
                || outcome.at == 0 || !stamp
                || forall j: nat :: j < outcome.at && fate(StampTick(tick, |changes|, j)) ==>
                     targets[j].pod in w.stamped)
  {
    var (out, outcome) := TryBatch(w, fate, targets, changes, stamp);
    var tick := w.tick + 2 * |targets|;
    ValidateTicks(w, fate, targets, 0, changes);
    var _, _ := CommitStamps(w.(tick := tick), fate, targets, 0, changes, stamp);
    StampsWithin(fate, tick, |changes|, targets, outcome.at, w.stamped);
    SameUnion(w.stamped, NewStamps(fate, tick, |changes|, targets, 0, outcome.at));
  }

  lemma SameUnion(a: set<string>, b: set<string>)
    ensures a + b == a <==> b <= a
    ensures a + {} == a
  {
    assert b <= a + b;
  }

  lemma StampsWithin(fate: Fate, tick: nat, size: nat, targets: seq<Target>, m: nat, base: set<string>)
    requires m <= |targets|
    ensures NewStamps(fate, tick, size, targets, 0, m) <= base <==>
            forall j: nat :: j < m && fate(StampTick(tick, size, j)) ==> targets[j].pod in base
  {
    var stamps := NewStamps(fate, tick, size, targets, 0, m);
    forall p
      ensures p in stamps <==> exists j :: 0 <= j < m && targets[j].pod == p && fate(StampTick(tick, size, j - 0))
    {
      NewStampsExactly(fate, tick, size, targets, 0, m, p);
    }
    forall j: nat | j < m && fate(StampTick(tick, size, j)) ensures targets[j].pod in stamps {
      assert fate(StampTick(tick, size, j - 0));
    }
  }

  // ---- Both gaps at once --------------------------------------------------------------------------------

  ghost function Put(w: World, node: string, c: Order, value: string, ticks: nat): World
    requires node in w.nodes
  {
    w.(nodes := w.nodes[node := w.nodes[node][c.address := value]], tick := w.tick + ticks)
  }

  lemma ApplyOne(w: World, fate: Fate, node: string, changes: seq<Order>, i: nat)
    requires node in w.nodes && i < |changes| && changes[i].sendable && fate(w.tick)
    ensures ApplyFrom(w, fate, node, changes, i) ==
            if fate(w.tick + 1) then ApplyFrom(Put(w, node, changes[i], changes[i].value, 2), fate, node, changes,
                                               i + 1)
            else (w.(tick := w.tick + 2), i)
  {
  }

  lemma UndoOne(w: World, fate: Fate, node: string, c: Order)
    requires node in w.nodes && c.undo.Some?
    ensures Undo(w, fate, node, c) == if fate(w.tick) then (Put(w, node, c, c.undo.value, 1), true)
                                      else (Tick(w), false)
  {
  }

  lemma BothValidate(w: World, fate: Fate, s: Target, t: Target, c: Order, d: Order) returns (v: World)
    requires c.sendable && d.sendable
    requires forall k :: w.tick <= k < w.tick + 4 ==> fate(k)
    ensures v == w.(tick := w.tick + 4) && ValidateFrom(w, fate, [s, t], 0, [c, d]) == (v, true)
  {
    v := w.(tick := w.tick + 4);
    assert ValidateFrom(v, fate, [s, t], 2, [c, d]) == (v, true);
    assert ValidateFrom(w.(tick := w.tick + 2), fate, [s, t], 1, [c, d]) == (v, true);
  }

  /** The first of two targets takes both changes and the stamp. */
  lemma FirstCommits(w: World, fate: Fate, s: Target, t: Target, c: Order, d: Order) returns (v: World)
    requires s.node in w.nodes && t.node in w.nodes && s.node != t.node
    requires c.sendable && d.sendable
    requires forall k :: w.tick <= k < w.tick + 6 ==> fate(k)
    ensures v.tick == w.tick + 6 && v.nodes.Keys == w.nodes.Keys && v.nodes[t.node] == w.nodes[t.node]
    ensures s.pod in v.stamped
    ensures CommitFrom(w, fate, [s, t], 0, [c, d], true) == CommitFrom(v, fate, [s, t], 1, [c, d], true)
  {
    var w0 := Tick(w);
    ApplyOne(w0, fate, s.node, [c, d], 0);
    var w1 := Put(w0, s.node, c, c.value, 2);
    ApplyOne(w1, fate, s.node, [c, d], 1);
    var w2 := Put(w1, s.node, d, d.value, 2);
    assert ApplyFrom(w0, fate, s.node, [c, d], 0) == (w2, 2);
    v := Stamp(w2, fate, s.pod, true);
  }

  /** The second target takes one change, refuses the other, and keeps the first. */
  lemma SecondFails(w: World, fate: Fate, s: Target, t: Target, c: Order, d: Order)
    requires s.node in w.nodes && t.node in w.nodes && s.node != t.node
    requires c.sendable && d.sendable && c.undo.Some? && d.undo.Some?
    requires forall k :: w.tick <= k ==> fate(k) == (k != w.tick + 4 && k != w.tick + 5)
    ensures var (w', outcome) := CommitFrom(w, fate, [s, t], 1, [c, d], true);
            && outcome == Aborted(1, RollbackResult(1, 0, [])) && w'.stamped == w.stamped
            && ConfigOf(w', t.node) == Some(w.nodes[t.node][c.address := c.value])
  {
    var w2 := HalfApplied(Tick(w), fate, t.node, c, d);
    BothUndone(Tick(w2), fate, s, t, c, d);
  }

  /** The first change goes in, the second does not, and the first cannot be taken back. */
  lemma HalfApplied(w: World, fate: Fate, node: string, c: Order, d: Order) returns (v: World)
    requires node in w.nodes && c.sendable && d.sendable && c.undo.Some?
    requires fate(w.tick) && fate(w.tick + 1) && fate(w.tick + 2) && !fate(w.tick + 3) && !fate(w.tick + 4)
    ensures v == Put(w, node, c, c.value, 4) && ApplyFrom(w, fate, node, [c, d], 0) == (v, 1)
    ensures RollbackFrom(v, fate, node, [c, d], 1, 0) == (Tick(v), 1)
  {
    ApplyOne(w, fate, node, [c, d], 0);
    ApplyOne(Put(w, node, c, c.value, 2), fate, node, [c, d], 1);
    v := Put(w, node, c, c.value, 4);
    UndoOne(v, fate, node, c);
    assert RollbackFrom(Tick(v), fate, node, [c, d], 0, 1) == (Tick(v), 1);
  }

  lemma BothUndone(w: World, fate: Fate, s: Target, t: Target, c: Order, d: Order)
    requires s.node in w.nodes && t.node in w.nodes && s.node != t.node
    requires c.undo.Some? && d.undo.Some? && forall k :: w.tick <= k ==> fate(k)
    ensures var (w', r) := RollbackBatch(w, fate, [s, t], 1, [c, d], NOTHING);
            r == RollbackResult(1, 0, []) && w'.stamped == w.stamped && ConfigOf(w', t.node) == Some(w.nodes[t.node])
  {
    UndoOne(w, fate, s.node, d);
    var w1 := Put(w, s.node, d, d.undo.value, 1);
    UndoOne(w1, fate, s.node, c);
    var w2 := Put(w1, s.node, c, c.undo.value, 1);
    assert RollbackFrom(w, fate, s.node, [c, d], 2, 0) == RollbackFrom(w1, fate, s.node, [c, d], 1, 0);
    assert RollbackFrom(w1, fate, s.node, [c, d], 1, 0) == (w2, 0);
    assert RollbackBatch(w2, fate, [s, t], 0, [c, d], RollbackResult(1, 0, [])) == (w2, RollbackResult(1, 0, []));
  }

  /**
    Both gaps at once, for any two targets and any two changes that can be sent and undone:
    the second target's first change goes in, its second change fails, and so does the undo
    of the first. The reported result has no failure, yet the second node keeps the change
    and the first pod keeps the new hash on a node that was rolled back.
   */
  lemma SilentLeftovers(w: World, s: Target, t: Target, c: Order, d: Order)
    requires w.tick == 0 && s.node in w.nodes && t.node in w.nodes && s.node != t.node
    requires c.sendable && d.sendable && c.undo.Some? && d.undo.Some?
    requires Effective(w.nodes[t.node], [c, d])
    requires HeldOld(w.nodes[s.node], [c, d]) && HeldOld(w.nodes[t.node], [c, d])
    ensures var (w', outcome) := TryBatch(w, k => k != 14 && k != 15, [s, t], [c, d], true);
            && outcome == Aborted(1, RollbackResult(1, 0, []))
            && ConfigOf(w', t.node) == Some(w.nodes[t.node][c.address := c.value])
            && w'.nodes[t.node] != w.nodes[t.node]
            && ConfigOf(w', s.node) == Some(w.nodes[s.node]) && s.pod in w'.stamped
  {
    var fate: Fate := k => k != 14 && k != 15;
    var targets, changes := [s, t], [c, d];
    var v := BothValidate(w, fate, s, t, c, d);
    var v1 := FirstCommits(v, fate, s, t, c, d);
    SecondFails(v1, fate, s, t, c, d);
    var (w', outcome) := TryBatch(w, fate, targets, changes, true);
    TwoPhaseVerdict(w, fate, targets, changes, true);
    assert c in changes;
    assert Restored(w', w.nodes, targets, 1, changes, outcome.result);
    assert targets[0] == s;
  }
}
