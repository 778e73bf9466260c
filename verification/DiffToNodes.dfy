/**
  From the diff to the nodes: the dynamic findings of two configs never write one parameter
  twice, so a committed two-phase update leaves every target with every one of them.
 */
module DiffToNodes {
  import opened Text
  import opened SetConfigCommand
  import opened ConfigTree
  import Collections
  import Diff = ConfigDiff
  import Sound = DiffSoundness
  import Places = DiffClasses
  import Update = DynamicUpdate
  import Protocol = TwoPhase
  import Partition = RollbackPartition

  /** How a config value is written in a command. */
  type Render = Val -> string

  function ToUpdate(render: Render, c: Diff.Change): Update.Change {
    var oldValue := if c.oldValue.Nil? then None else Some(render(c.oldValue));
    Update.Change(c.context, c.namespace, c.key, oldValue, render(c.newValue))
  }

  function ToUpdates(render: Render, cs: seq<Diff.Change>): (r: seq<Update.Change>)
    ensures |r| == |cs| && forall i :: 0 <= i < |cs| ==> r[i] == ToUpdate(render, cs[i])
  {
    seq(|cs|, i requires 0 <= i < |cs| => ToUpdate(render, cs[i]))
  }

  function AddressOf(render: Render, c: Diff.Change): Address { Update.AddressOf(ToUpdate(render, c)) }

  /** Different dynamic findings have different addresses. */
  lemma AddressesDiffer(render: Render, live: Diff.Registry, was: Section, now: Section, c: Diff.Change, d: Diff.Change)
    requires Sound.WellFormed(was) && Sound.WellFormed(now) && Sound.Dotted(live)
    requires Diff.Finding(c, true) in Diff.SectionFindings(live, "", was, now)
    requires Diff.Finding(d, true) in Diff.SectionFindings(live, "", was, now)
    ensures AddressOf(render, c) == AddressOf(render, d) ==> c == d
  {
    Sound.SpotsDiffer(live, was, now, c, d);
  }

  lemma FindingsConsistent(render: Render, live: Diff.Registry, was: Section, now: Section, cs: seq<Diff.Change>)
    requires Sound.WellFormed(was) && Sound.WellFormed(now) && Sound.Dotted(live)
    requires forall c :: c in cs ==> Diff.Finding(c, true) in Diff.SectionFindings(live, "", was, now)
    ensures Protocol.Consistent(Update.Orders(ToUpdates(render, cs)))
  {
    var orders := Update.Orders(ToUpdates(render, cs));
    forall j, k | 0 <= j < k < |orders| && orders[j].address == orders[k].address
      ensures orders[j].value == orders[k].value
    {
      AddressesDiffer(render, live, was, now, cs[j], cs[k]);
    }
  }

  lemma TargetListed(targets: seq<Protocol.Target>, t: Protocol.Target)
    requires t in targets
    ensures t.node in Protocol.Nodes(targets[..|targets|])
  {
    assert targets[..|targets|] == targets;
  }

  /**
    A committed update of the diff's dynamic findings leaves every target with every new value, and
    every other node alone.
   */
  lemma CommitCarriesTheDiff(
      render: Render, live: Diff.Registry, was: Section, now: Section, cs: seq<Diff.Change>,
      w: Protocol.World, fate: Protocol.Fate, targets: seq<Protocol.Target>, stamp: bool)
    requires Sound.WellFormed(was) && Sound.WellFormed(now) && Sound.Dotted(live)
    requires forall c :: c in cs ==> Diff.Finding(c, true) in Diff.SectionFindings(live, "", was, now)
    requires Protocol.Known(w, targets) && Protocol.DistinctNodes(targets)
    requires Protocol.TryBatch(w, fate, targets, Update.Orders(ToUpdates(render, cs)), stamp).1.Committed?
    ensures var out := Protocol.TryBatch(w, fate, targets, Update.Orders(ToUpdates(render, cs)), stamp).0;
            && out.nodes.Keys == w.nodes.Keys
            && (forall t, c :: t in targets && c in cs ==>
                  Protocol.Get(out.nodes[t.node], AddressOf(render, c)) == Some(render(c.newValue)))
            && forall n :: n in w.nodes && n !in Protocol.Nodes(targets) ==> out.nodes[n] == w.nodes[n]
  {
    var orders := Update.Orders(ToUpdates(render, cs));
    var out := Protocol.TryBatch(w, fate, targets, orders, stamp).0;
    Protocol.TwoPhaseVerdict(w, fate, targets, orders, stamp);
    FindingsConsistent(render, live, was, now, cs);
    assert targets[..|targets|] == targets;
    forall t, c | t in targets && c in cs
      ensures Protocol.Get(out.nodes[t.node], AddressOf(render, c)) == Some(render(c.newValue))
    {
      TargetListed(targets, t);
      var i :| 0 <= i < |cs| && cs[i] == c;
      Protocol.UpdatedCarries(w.nodes[t.node], orders, i);
    }
  }

  // ---- What the nodes run in the end ---------------------------------------------------------------

  /**
    A reading of a node's parameters as a config tree, under which setting the parameter of a
    change to its rendered value amounts to that change.
   */
  ghost predicate ReadsChanges(tree: Protocol.Config -> Sound.NodeConfig, render: Render, cs: seq<Diff.Change>) {
    forall flat: Protocol.Config, c :: c in cs ==>
      tree(flat[AddressOf(render, c) := render(c.newValue)]) == Sound.Applied(tree(flat), c)
  }

  lemma {:induction false} ApplyAllLast(s: Sound.NodeConfig, cs: seq<Diff.Change>)
    requires cs != []
    ensures Sound.ApplyAll(s, cs) == Sound.Applied(Sound.ApplyAll(s, cs[..|cs|-1]), cs[|cs|-1])
    decreases |cs|
  {
    if |cs| > 1 {
      ApplyAllLast(Sound.Applied(s, cs[0]), cs[1..]);
      assert cs[1..][..|cs|-2] == cs[..|cs|-1][1..];
      assert cs[..|cs|-1][0] == cs[0] && cs[1..][|cs|-2] == cs[|cs|-1];
    } else {
      assert cs[1..] == [] && cs[..0] == [];
    }
  }

  /** The orders of a sequence of changes end with the order of its last one. */
  lemma OrdersLast(render: Render, cs: seq<Diff.Change>)
    requires cs != []
    ensures var orders, last := Update.Orders(ToUpdates(render, cs)), cs[|cs|-1];
            && |orders| == |cs| && orders[..|cs|-1] == Update.Orders(ToUpdates(render, cs[..|cs|-1]))
            && orders[|cs|-1].address == AddressOf(render, last) && orders[|cs|-1].value == render(last.newValue)
  {
  }

  lemma UpdatedLast(render: Render, cs: seq<Diff.Change>, flat: Protocol.Config)
    requires cs != []
    ensures var last := cs[|cs|-1];
            var before := Protocol.Updated(flat, Update.Orders(ToUpdates(render, cs[..|cs|-1])));
            Protocol.Updated(flat, Update.Orders(ToUpdates(render, cs))) ==
            before[AddressOf(render, last) := render(last.newValue)]
  {
    OrdersLast(render, cs);
  }

  lemma ReadsLast(
      tree: Protocol.Config -> Sound.NodeConfig, render: Render, cs: seq<Diff.Change>, flat: Protocol.Config)
    requires cs != [] && ReadsChanges(tree, render, cs)
    ensures var last := cs[|cs|-1];
            && ReadsChanges(tree, render, cs[..|cs|-1])
            && tree(flat[AddressOf(render, last) := render(last.newValue)]) == Sound.Applied(tree(flat), last)
  {
    assert cs[|cs|-1] in cs;
    assert forall c :: c in cs[..|cs|-1] ==> c in cs;
  }

  lemma {:induction false} UpdatedReads(
      tree: Protocol.Config -> Sound.NodeConfig, render: Render, cs: seq<Diff.Change>, flat: Protocol.Config)
    requires ReadsChanges(tree, render, cs)
    ensures tree(Protocol.Updated(flat, Update.Orders(ToUpdates(render, cs)))) == Sound.ApplyAll(tree(flat), cs)
  {
    if cs != [] {
      var front := cs[..|cs|-1];
      var before := Protocol.Updated(flat, Update.Orders(ToUpdates(render, front)));
      ReadsLast(tree, render, cs, before);
      UpdatedReads(tree, render, front, flat);
      UpdatedLast(render, cs, flat);
      ApplyAllLast(tree(flat), cs);
    }
  }

  /**
    The diff and the protocol together. When the diff reports no static change, a committed update
    of its findings leaves every target that ran the old config running one that agrees with the new
    config, if and only if the new config still has a namespaces key or the old one had no namespace.
   */
  lemma CommitRunsTheNewConfig(
      tree: Protocol.Config -> Sound.NodeConfig, render: Render, live: Diff.Registry, was: Section, now: Section,
      cs: seq<Diff.Change>, w: Protocol.World, fate: Protocol.Fate, targets: seq<Protocol.Target>, stamp: bool,
      t: Protocol.Target)
    requires Sound.WellFormed(was) && Sound.WellFormed(now) && Sound.Dotted(live) && ReadsChanges(tree, render, cs)
    requires forall f :: f in Diff.SectionFindings(live, "", was, now) ==> f.dynamic
    requires forall c :: c in cs <==> Diff.Finding(c, true) in Diff.SectionFindings(live, "", was, now)
    requires Protocol.Known(w, targets) && Protocol.DistinctNodes(targets)
    requires Protocol.TryBatch(w, fate, targets, Update.Orders(ToUpdates(render, cs)), stamp).1.Committed?
    requires t in targets && tree(w.nodes[t.node]) == Sound.Loaded(was)
    ensures var out := Protocol.TryBatch(w, fate, targets, Update.Orders(ToUpdates(render, cs)), stamp).0;
            && t.node in out.nodes
            && (Sound.Agree(tree(out.nodes[t.node]), Sound.Loaded(now)) <==>
                Diff.NAMESPACES in now || Diff.Spaces(was) == map[])
  {
    Protocol.TwoPhaseVerdict(w, fate, targets, Update.Orders(ToUpdates(render, cs)), stamp);
    TargetListed(targets, t);
    UpdatedReads(tree, render, cs, w.nodes[t.node]);
    Sound.DiffSound(live, was, now, cs);
  }

  // ---- The update place by place -------------------------------------------------------------------

  /** The parameter that holds a place on a node: its section's context, or its namespace. */
  ghost function AddressAt(spot: Sound.Spot): Address {
    match spot
    case InSection(p) =>
      if |p| < 2 then Address(Sound.Join(p), "", Sound.Join(p)) else Address(p[0], "", Sound.Join(p[1..]))
    case InSpace(a, k) => Address("namespace", a, k)
  }

  /** The two configs part here and the update can be sent. */
  ghost predicate Sent(live: Diff.Registry, was: Section, now: Section, spot: Sound.Spot) {
    Places.Parts(was, now, spot) && Places.HasValue(now, spot) && live(Places.PathOf(spot))
  }

  lemma JoinTwo(a: string, b: string)
    requires Sound.CleanKey(a) && Sound.CleanKey(b)
    ensures Sound.Join([a, b]) == a + "." + Sound.Join([b])
  {
    Sound.SplitJoinOne(a);
    Sound.SplitJoinOne(b);
    assert [a, b] == [a] + [b];
    Sound.JoinOne([a], b);
  }

  lemma JoinLonger(front: Sound.Path, first: string, rest: Sound.Path, k: string)
    requires Sound.Join(front) == first + "." + Sound.Join(rest) && Sound.Join(rest) != ""
    ensures Sound.Join(front + [k]) == first + "." + Sound.Join(rest + [k])
  {
    Sound.JoinOne(front, k);
    Sound.JoinOne(rest, k);
    Regroup(first, Sound.Join(rest), k);
  }

  lemma {:induction false} JoinFirst(p: Sound.Path)
    requires |p| >= 2 && Sound.CleanPath(p)
    ensures Sound.Join(p) == p[0] + "." + Sound.Join(p[1..])
  {
    if |p| == 2 {
      assert p == [p[0], p[1]] && p[1..] == [p[1]];
      JoinTwo(p[0], p[1]);
    } else {
      var front, k := p[..|p|-1], p[|p|-1];
      JoinFirst(front);
      Sound.SplitJoin(front[1..]);
      JoinLonger(front, p[0], front[1..], k);
      assert p == front + [k] && p[1..] == front[1..] + [k];
    }
  }

  lemma Regroup(a: string, b: string, c: string)
    ensures (a + "." + b) + "." + c == a + "." + (b + "." + c)
  {
  }

  lemma FirstDot(a: string, b: string)
    requires '.' !in a
    ensures Diff.FirstSegment(a + "." + b) == a && Diff.KeyWithinContext(a + "." + b) == b
  {
    IndexOfSplit(a, '.', b);
  }

  /** A change is sent to the address of its place. */
  lemma PlaceAddress(render: Render, live: Diff.Registry, was: Section, now: Section, spot: Sound.Spot)
    requires Sound.WellFormed(was) && Sound.WellFormed(now) && Sound.Dotted(live) && Sent(live, was, now, spot)
    ensures AddressOf(render, Places.ChangeAt(was, now, spot)) == AddressAt(spot)
  {
    match spot
    case InSection(p) =>
      Places.CleanAlong(was - {Diff.NAMESPACES}, now - {Diff.NAMESPACES}, p);
      if |p| == 1 {
        assert p == [p[0]];
        Sound.SplitJoinOne(p[0]);
      } else {
        JoinFirst(p);
        FirstDot(p[0], Sound.Join(p[1..]));
      }
    case InSpace(_, _) =>
  }

  /** A finding is the change of a place the update writes. */
  lemma FindingPlaced(render: Render, live: Diff.Registry, was: Section, now: Section, c: Diff.Change)
    returns (spot: Sound.Spot)
    requires Sound.WellFormed(was) && Sound.WellFormed(now) && Sound.Dotted(live)
    requires Diff.Finding(c, true) in Diff.SectionFindings(live, "", was, now)
    ensures Sent(live, was, now, spot) && c == Places.ChangeAt(was, now, spot)
    ensures AddressOf(render, c) == AddressAt(spot)
  {
    Places.CleanIsPlain(was - {Diff.NAMESPACES});
    Places.CleanIsPlain(now - {Diff.NAMESPACES});
    spot := Places.Found(live, was, now, Diff.Finding(c, true));
    PlaceAddress(render, live, was, now, spot);
  }

  lemma {:induction false} UpdatedElsewhere(cfg: Protocol.Config, orders: seq<Protocol.Order>, a: Address)
    requires forall o :: o in orders ==> o.address != a
    ensures Protocol.Get(Protocol.Updated(cfg, orders), a) == Protocol.Get(cfg, a)
  {
    if orders != [] {
      assert orders[|orders|-1] in orders;
      UpdatedElsewhere(cfg, orders[..|orders|-1], a);
    }
  }

  /**
    A committed update of all dynamic findings writes, on every target, the rendered new value at the
    address of every place where the configs part, the new one has a value and the path is registered,
    and nothing at any other address.
   */
  lemma CommitWritesPlaces(
      render: Render, live: Diff.Registry, was: Section, now: Section, cs: seq<Diff.Change>,
      w: Protocol.World, fate: Protocol.Fate, targets: seq<Protocol.Target>, stamp: bool, t: Protocol.Target)
    requires Sound.WellFormed(was) && Sound.WellFormed(now) && Sound.Dotted(live)
    requires forall c :: c in cs <==> Diff.Finding(c, true) in Diff.SectionFindings(live, "", was, now)
    requires Protocol.Known(w, targets) && Protocol.DistinctNodes(targets) && t in targets
    requires Protocol.TryBatch(w, fate, targets, Update.Orders(ToUpdates(render, cs)), stamp).1.Committed?
    ensures var out := Protocol.TryBatch(w, fate, targets, Update.Orders(ToUpdates(render, cs)), stamp).0;
            && t.node in out.nodes
            && (forall spot :: Sent(live, was, now, spot) ==>
                  Protocol.Get(out.nodes[t.node], AddressAt(spot)) == Some(render(Places.ValueAt(now, spot))))
            && (forall a :: (forall spot :: Sent(live, was, now, spot) ==> AddressAt(spot) != a) ==>
                  Protocol.Get(out.nodes[t.node], a) == Protocol.Get(w.nodes[t.node], a))
  {
    var orders := Update.Orders(ToUpdates(render, cs));
    var out := Protocol.TryBatch(w, fate, targets, orders, stamp).0;
    CommitCarriesTheDiff(render, live, was, now, cs, w, fate, targets, stamp);
    forall spot | Sent(live, was, now, spot)
      ensures Protocol.Get(out.nodes[t.node], AddressAt(spot)) == Some(render(Places.ValueAt(now, spot)))
    {
      Places.PlaceExactly(live, was, now, spot);
      PlaceAddress(render, live, was, now, spot);
      assert Places.ChangeAt(was, now, spot) in cs;
    }
    forall a | forall spot :: Sent(live, was, now, spot) ==> AddressAt(spot) != a
      ensures Protocol.Get(out.nodes[t.node], a) == Protocol.Get(w.nodes[t.node], a)
    {
      NotWritten(render, live, was, now, cs, a);
      UpdatedElsewhere(w.nodes[t.node], orders, a);
      Protocol.TwoPhaseVerdict(w, fate, targets, orders, stamp);
      TargetListed(targets, t);
    }
  }

  lemma NotWritten(render: Render, live: Diff.Registry, was: Section, now: Section, cs: seq<Diff.Change>, a: Address)
    requires Sound.WellFormed(was) && Sound.WellFormed(now) && Sound.Dotted(live)
    requires forall c :: c in cs ==> Diff.Finding(c, true) in Diff.SectionFindings(live, "", was, now)
    requires forall spot :: Sent(live, was, now, spot) ==> AddressAt(spot) != a
    ensures forall o :: o in Update.Orders(ToUpdates(render, cs)) ==> o.address != a
  {
    var orders := Update.Orders(ToUpdates(render, cs));
    forall i | 0 <= i < |orders| ensures orders[i].address != a {
      var spot := FindingPlaced(render, live, was, now, cs[i]);
    }
  }

  // ---- What an aborted update leaves ---------------------------------------------------------------

  /** At every place the update writes, the node held what the old config says there. */
  ghost predicate HeldBefore(
      render: Render, live: Diff.Registry, was: Section, now: Section, cfg: Protocol.Config)
  {
    forall spot :: Sent(live, was, now, spot) && !Places.ValueAt(was, spot).Nil? ==>
      Protocol.Get(cfg, AddressAt(spot)) == Some(render(Places.ValueAt(was, spot)))
  }

  /** What is sent to undo a change, if anything, is its old value. */
  lemma UndoSends(render: Render, c: Diff.Change)
    ensures var order := Update.OrderOf(ToUpdate(render, c));
            order.undo.Some? ==> !c.oldValue.Nil? && order.undo.value == render(c.oldValue)
  {
  }

  /** So a node that held the old config at the places written held what the undo sends. */
  lemma OldValuesHeld(
      render: Render, live: Diff.Registry, was: Section, now: Section, cs: seq<Diff.Change>, cfg: Protocol.Config)
    requires Sound.WellFormed(was) && Sound.WellFormed(now) && Sound.Dotted(live)
    requires forall c :: c in cs ==> Diff.Finding(c, true) in Diff.SectionFindings(live, "", was, now)
    requires HeldBefore(render, live, was, now, cfg)
    ensures Protocol.HeldOld(cfg, Update.Orders(ToUpdates(render, cs)))
  {
    var orders := Update.Orders(ToUpdates(render, cs));
    forall i | 0 <= i < |orders| && orders[i].undo.Some?
      ensures orders[i].address in cfg && cfg[orders[i].address] == orders[i].undo.value
    {
      UndoSends(render, cs[i]);
      var spot := FindingPlaced(render, live, was, now, cs[i]);
      assert Protocol.Get(cfg, AddressAt(spot)) == Some(render(Places.ValueAt(was, spot)));
    }
  }

  /**
    The abort counterpart: a target before the failing one whose node held the old config at the
    places written, and whose pod the result does not name, ends with exactly its prior config.
   */
  lemma AbortKeepsTheOldConfig(
      render: Render, live: Diff.Registry, was: Section, now: Section, cs: seq<Diff.Change>,
      w: Protocol.World, fate: Protocol.Fate, targets: seq<Protocol.Target>, stamp: bool, i: nat)
    requires Sound.WellFormed(was) && Sound.WellFormed(now) && Sound.Dotted(live)
    requires forall c :: c in cs ==> Diff.Finding(c, true) in Diff.SectionFindings(live, "", was, now)
    requires Protocol.Known(w, targets) && Protocol.DistinctNodes(targets)
    requires var outcome := Protocol.TryBatch(w, fate, targets, Update.Orders(ToUpdates(render, cs)), stamp).1;
             outcome.Aborted? && i < outcome.at && i < |targets| && targets[i].pod !in outcome.result.failedPods
    requires HeldBefore(render, live, was, now, w.nodes[targets[i].node])
    ensures var out := Protocol.TryBatch(w, fate, targets, Update.Orders(ToUpdates(render, cs)), stamp).0;
            Protocol.ConfigOf(out, targets[i].node) == Some(w.nodes[targets[i].node])
  {
    Protocol.TwoPhaseVerdict(w, fate, targets, Update.Orders(ToUpdates(render, cs)), stamp);
    OldValuesHeld(render, live, was, now, cs, w.nodes[targets[i].node]);
  }

  /** The update writes no place with the text the node already has there. */
  ghost predicate MovesNode(render: Render, live: Diff.Registry, was: Section, now: Section, cfg: Protocol.Config) {
    forall spot :: Sent(live, was, now, spot) ==>
      Protocol.Get(cfg, AddressAt(spot)) != Some(render(Places.ValueAt(now, spot)))
  }

  lemma FindingsEffective(
      render: Render, live: Diff.Registry, was: Section, now: Section, cs: seq<Diff.Change>, cfg: Protocol.Config)
    requires Sound.WellFormed(was) && Sound.WellFormed(now) && Sound.Dotted(live) && Collections.NoDup(cs)
    requires forall c :: c in cs ==> Diff.Finding(c, true) in Diff.SectionFindings(live, "", was, now)
    requires MovesNode(render, live, was, now, cfg)
    ensures Protocol.Effective(cfg, Update.Orders(ToUpdates(render, cs)))
  {
    var orders := Update.Orders(ToUpdates(render, cs));
    forall j, k | 0 <= j < k < |orders| ensures orders[j].address != orders[k].address {
      AddressesDiffer(render, live, was, now, cs[j], cs[k]);
    }
    forall i | 0 <= i < |orders| ensures Protocol.Get(cfg, orders[i].address) != Some(orders[i].value) {
      var spot := FindingPlaced(render, live, was, now, cs[i]);
    }
  }

  /**
    And where the update moves every target away from the old config, the result names exactly the
    pods whose nodes do not run their prior config again.
   */
  lemma AbortNamesExactly(
      render: Render, live: Diff.Registry, was: Section, now: Section, cs: seq<Diff.Change>,
      w: Protocol.World, fate: Protocol.Fate, targets: seq<Protocol.Target>, stamp: bool)
    requires Sound.WellFormed(was) && Sound.WellFormed(now) && Sound.Dotted(live) && Collections.NoDup(cs)
    requires forall c :: c in cs ==> Diff.Finding(c, true) in Diff.SectionFindings(live, "", was, now)
    requires Protocol.Known(w, targets) && Protocol.DistinctNodes(targets) && Partition.DistinctPods(targets)
    requires forall t :: t in targets ==>
               HeldBefore(render, live, was, now, w.nodes[t.node]) && MovesNode(render, live, was, now, w.nodes[t.node])
    ensures var (out, outcome) := Protocol.TryBatch(w, fate, targets, Update.Orders(ToUpdates(render, cs)), stamp);
            outcome.Aborted? ==>
              && outcome.at <= |targets|
              && forall i :: 0 <= i < outcome.at ==>
                   (targets[i].pod in outcome.result.failedPods <==>
                    Protocol.ConfigOf(out, targets[i].node) != Some(w.nodes[targets[i].node]))
  {
    var orders := Update.Orders(ToUpdates(render, cs));
    forall t | t in targets
      ensures Protocol.Effective(w.nodes[t.node], orders) && Protocol.HeldOld(w.nodes[t.node], orders)
    {
      OldValuesHeld(render, live, was, now, cs, w.nodes[t.node]);
      FindingsEffective(render, live, was, now, cs, w.nodes[t.node]);
    }
    Partition.AbortReportsExactly(w, fate, targets, orders, stamp);
    var (out, outcome) := Protocol.TryBatch(w, fate, targets, orders, stamp);
    assert outcome.Aborted? ==> forall i :: 0 <= i < outcome.at ==>
      Partition.Named(out, w.nodes, targets[i], outcome.result.failedPods);
  }
}
