/**
  The two-phase update as the reconciler runs it: commands are built from config changes, sent
  to nodes that read them, and undone from the old values on record. Each method computes
  exactly what the protocol of TwoPhase says about the orders its changes amount to.
 */
module DynamicUpdate {
  import opened Text
  import opened SetConfigCommand
  import opened TwoPhase

  datatype Change = Change(context: string, namespace: string, key: string, oldValue: Option<string>, newValue: string)

  function AddressOf(c: Change): Address {
    Address(if c.namespace != "" then NAMESPACE else c.context, c.namespace, c.key)
  }

  function SetCommand(c: Change): Option<string> { Build(c.context, c.namespace, c.key, c.newValue) }

  /** None when the change added a key, or the old value cannot be sent. */
  function RollbackCommand(c: Change): Option<string> {
    if c.oldValue.None? then None else Build(c.context, c.namespace, c.key, c.oldValue.value)
  }

  function OrderOf(c: Change): Order {
    Order(AddressOf(c), c.newValue, SetCommand(c).Some?, if RollbackCommand(c).Some? then c.oldValue else None)
  }

  function Orders(changes: seq<Change>): (r: seq<Order>)
    ensures |r| == |changes| && forall i :: 0 <= i < |changes| ==> r[i] == OrderOf(changes[i])
  {
    seq(|changes|, i requires 0 <= i < |changes| => OrderOf(changes[i]))
  }

  lemma ReadsBack(c: Change, value: string, cmd: string)
    requires Build(c.context, c.namespace, c.key, value) == Some(cmd)
    ensures Read(cmd) == Some(Assignment(AddressOf(c), value))
  {
    ReadBuild(c.context, c.namespace, c.key, value);
  }

  class Fleet {
    var world: World

    /** Sends the command for one value; a node that takes it reads exactly the address and the value. */
    method SendValue(fate: Fate, node: string, c: Change, value: string, cmd: string) returns (ok: bool)
      requires node in world.nodes && Build(c.context, c.namespace, c.key, value) == Some(cmd)
      modifies this
      ensures (world, ok) == Send(old(world), fate, node, AddressOf(c), value)
      ensures world.nodes.Keys == old(world.nodes.Keys)
    {
      ReadsBack(c, value, cmd);
      var reading := Read(cmd);
      ok := fate(world.tick) && reading.Some?;
      if ok {
        var a := reading.value;
        world := world.(nodes := world.nodes[node := world.nodes[node][a.address := a.value]]);
      }
      world := world.(tick := world.tick + 1);
    }

    method DeadlinePassed(fate: Fate) returns (passed: bool)
      modifies this
      ensures world == Tick(old(world)) && passed == !fate(old(world).tick)
    {
      passed := !fate(world.tick);
      world := world.(tick := world.tick + 1);
    }

    /** One change on one node, after its deadline check. */
    method ApplyChange(fate: Fate, node: string, c: Change) returns (ok: bool)
      requires node in world.nodes
      modifies this
      ensures world.nodes.Keys == old(world.nodes.Keys)
      ensures !OrderOf(c).sendable ==> !ok && world == old(world)
      ensures OrderOf(c).sendable ==> (world, ok) == Send(old(world), fate, node, OrderOf(c).address, OrderOf(c).value)
    {
      var cmd := SetCommand(c);
      if cmd.None? { return false; }
      ok := SendValue(fate, node, c, c.newValue, cmd.value);
    }

    method UndoChange(fate: Fate, node: string, c: Change) returns (ok: bool)
      requires node in world.nodes
      modifies this
      ensures (world, ok) == Undo(old(world), fate, node, OrderOf(c)) && world.nodes.Keys == old(world.nodes.Keys)
    {
      var cmd := RollbackCommand(c);
      if cmd.None? { return false; }
      ok := SendValue(fate, node, c, c.oldValue.value, cmd.value);
    }

    method ApplyOnPod(fate: Fate, node: string, changes: seq<Change>) returns (applied: nat)
      requires node in world.nodes
      modifies this
      ensures (world, applied) == ApplyFrom(old(world), fate, node, Orders(changes), 0)
      ensures world.nodes.Keys == old(world.nodes.Keys) && applied <= |changes|
    {
      ghost var orders := Orders(changes);
      applied := 0;
      while applied < |changes|
        invariant applied <= |changes| && world.nodes.Keys == old(world.nodes.Keys)
        invariant ApplyFrom(old(world), fate, node, orders, 0) == ApplyFrom(world, fate, node, orders, applied)
      {
        var expired := DeadlinePassed(fate);
        if expired { return; }
        var ok := ApplyChange(fate, node, changes[applied]);
        if !ok { return; }
        applied := applied + 1;
      }
    }

    method Rollback(fate: Fate, node: string, changes: seq<Change>, applied: nat) returns (failed: nat)
      requires node in world.nodes && applied <= |changes|
      modifies this
      ensures (world, failed) == RollbackFrom(old(world), fate, node, Orders(changes), applied, 0)
      ensures world.nodes.Keys == old(world.nodes.Keys)
    {
      ghost var orders := Orders(changes);
      failed := 0;
      var i := applied;
      while i > 0
        invariant 0 <= i <= applied && world.nodes.Keys == old(world.nodes.Keys)
        invariant RollbackFrom(old(world), fate, node, orders, applied, 0) ==
                  RollbackFrom(world, fate, node, orders, i, failed)
      {
        i := i - 1;
        var ok := UndoChange(fate, node, changes[i]);
        if !ok { failed := failed + 1; }
      }
    }

    method RollbackAll(fate: Fate, targets: seq<Target>, n: nat, changes: seq<Change>) returns (r: RollbackResult)
      requires n <= |targets| && Known(world, targets)
      modifies this
      ensures (world, r) == RollbackBatch(old(world), fate, targets, n, Orders(changes), NOTHING)
      ensures world.nodes.Keys == old(world.nodes.Keys)
    {
      ghost var orders := Orders(changes);
      r := NOTHING;
      var i := n;
      while i > 0
        invariant 0 <= i <= n && world.nodes.Keys == old(world.nodes.Keys)
        invariant RollbackBatch(old(world), fate, targets, n, orders, NOTHING) ==
                  RollbackBatch(world, fate, targets, i, orders, r)
      {
        i := i - 1;
        var failed := Rollback(fate, targets[i].node, changes, |changes|);
        if failed > 0 {
          r := RollbackResult(r.successCount, r.failedCount + 1, r.failedPods + [targets[i].pod]);
        } else {
          r := r.(successCount := r.successCount + 1);
        }
      }
    }

    method Validate(fate: Fate, targets: seq<Target>, changes: seq<Change>) returns (ok: bool)
      modifies this
      ensures (world, ok) == ValidateFrom(old(world), fate, targets, 0, Orders(changes))
    {
      ghost var orders := Orders(changes);
      var bad := exists c :: c in changes && SetCommand(c).None?;
      UnsendableExactly(changes);
      var i := 0;
      while i < |targets|
        invariant i <= |targets|
        invariant ValidateFrom(old(world), fate, targets, 0, orders) == ValidateFrom(world, fate, targets, i, orders)
      {
        var expired := DeadlinePassed(fate);
        if expired || bad { return false; }
        var silent := DeadlinePassed(fate);
        if silent { return false; }
        i := i + 1;
      }
      return true;
    }

    /** One target: its changes and its stamp, or the undo of everything so far. */
    method CommitTarget(fate: Fate, targets: seq<Target>, i: nat, changes: seq<Change>, stamp: bool)
      returns (aborted: Option<Outcome>)
      requires i < |targets| && Known(world, targets)
      modifies this
      ensures world.nodes.Keys == old(world.nodes.Keys)
      ensures CommitFrom(old(world), fate, targets, i, Orders(changes), stamp) ==
              if aborted.Some? then (world, aborted.value)
              else CommitFrom(world, fate, targets, i + 1, Orders(changes), stamp)
    {
      ghost var w, orders := world, Orders(changes);
      var expired := DeadlinePassed(fate);
      if expired {
        CommitExpires(w, fate, targets, i, orders, stamp);
        var r := RollbackAll(fate, targets, i, changes);
        return Some(Aborted(i, r));
      }
      var applied := ApplyOnPod(fate, targets[i].node, changes);
      ghost var w1 := world;
      if applied < |changes| {
        var failed := Rollback(fate, targets[i].node, changes, applied);
        CommitFails(w, fate, targets, i, orders, stamp, w1, applied, world, failed);
        var r := RollbackAll(fate, targets, i, changes);
        return Some(Aborted(i, r));
      }
      CommitGoesOn(w, fate, targets, i, orders, stamp, w1);
      world := Stamp(world, fate, targets[i].pod, stamp);
      aborted := None;
    }

    method Commit(fate: Fate, targets: seq<Target>, changes: seq<Change>, stamp: bool) returns (outcome: Outcome)
      requires Known(world, targets)
      modifies this
      ensures (world, outcome) == CommitFrom(old(world), fate, targets, 0, Orders(changes), stamp)
    {
      ghost var orders := Orders(changes);
      var i := 0;
      while i < |targets|
        invariant i <= |targets| && world.nodes.Keys == old(world.nodes.Keys)
        invariant CommitFrom(old(world), fate, targets, 0, orders, stamp) ==
                  CommitFrom(world, fate, targets, i, orders, stamp)
      {
        var aborted := CommitTarget(fate, targets, i, changes, stamp);
        if aborted.Some? { return aborted.value; }
        i := i + 1;
      }
      outcome := Committed;
    }

    /**
      The entry point. `nodeOf` is the client's view of which node answers for a pod;
      `dynamic` and `hasStatic` come from the config diff.
     */
    method TryDynamicConfigUpdateBatch(
        fate: Fate, enabled: bool, pods: seq<string>, nodeOf: string -> Option<string>,
        dynamic: seq<Change>, hasStatic: bool, desiredHash: string)
      returns (outcome: Outcome, targets: seq<Target>)
      requires forall p :: p in pods && nodeOf(p).Some? ==> nodeOf(p).value in world.nodes
      modifies this
      ensures !enabled || hasStatic || dynamic == [] || (exists p :: p in pods && nodeOf(p).None?) ==>
                outcome == Refused && world == old(world)
      ensures enabled && !hasStatic && dynamic != [] && (forall p :: p in pods ==> nodeOf(p).Some?) ==>
                && |targets| == |pods|
                && (forall i :: 0 <= i < |pods| ==> targets[i] == Target(pods[i], nodeOf(pods[i]).value))
                && (world, outcome) == TryBatch(old(world), fate, targets, Orders(dynamic), desiredHash != "")
    {
      targets := [];
      if !enabled || hasStatic || dynamic == [] { return Refused, targets; }
      for i := 0 to |pods|
        invariant |targets| == i && world == old(world)
        invariant forall j :: 0 <= j < i ==>
                    nodeOf(pods[j]).Some? && targets[j] == Target(pods[j], nodeOf(pods[j]).value)
      {
        var node := nodeOf(pods[i]);
        if node.None? { return Refused, targets; }
        targets := targets + [Target(pods[i], node.value)];
      }
      var ok := Validate(fate, targets, dynamic);
      if !ok { return Refused, targets; }
      outcome := Commit(fate, targets, dynamic, desiredHash != "");
    }
  }

  lemma UnsendableExactly(changes: seq<Change>)
    ensures (exists c :: c in changes && SetCommand(c).None?) <==> exists o :: o in Orders(changes) && !o.sendable
  {
    if c :| c in changes && SetCommand(c).None? {
      var i :| 0 <= i < |changes| && changes[i] == c;
      assert Orders(changes)[i] == OrderOf(c);
    }
  }
}
