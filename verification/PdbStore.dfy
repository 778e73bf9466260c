/**
  The cluster's PodDisruptionBudgets. The Eviction API refuses a pod that two budgets select,
  so no write should ever leave one. From what store does the pass, moving between one
  cluster-wide budget and one budget per rack, keep to that in every state on its way?
 */
module PdbStore {
  import opened Text
  import opened Collections
  import opened Sizes

  datatype Selector = WholeCluster(cluster: string) | OneRack(cluster: string, rack: nat) | Other

  /** `owner` is the instance label; `labelled` says the list call of its cluster finds it. */
  datatype Pdb = Pdb(owner: string, labelled: bool, selector: Selector, budget: IntOrPercent)

  type Store = map<string, Pdb>

  const PDB := "-pdb"

  function PdbName(cluster: string): string { cluster + PDB }

  function RackPdbName(cluster: string, rack: nat): string { cluster + "-" + Itoa(rack) + PDB }

  /** `<cluster>-<integer>-pdb`. */
  predicate IsRackPdbName(name: string, cluster: string) {
    var prefix := cluster + "-";
    && prefix <= name
    && var rest := name[|prefix|..];
    && |PDB| <= |rest| && rest[|rest|-|PDB|..] == PDB
    && ParseInt(rest[..|rest|-|PDB|], INT64_MAX).Some?
  }

  lemma RackNameRecognised(cluster: string, rack: nat)
    requires rack <= INT64_MAX
    ensures IsRackPdbName(RackPdbName(cluster, rack), cluster)
  {
    var prefix, id := cluster + "-", Itoa(rack);
    var name := RackPdbName(cluster, rack);
    assert name == prefix + (id + PDB);
    var rest := name[|prefix|..];
    assert rest == id + PDB;
    assert rest[..|rest|-|PDB|] == id && rest[|rest|-|PDB|..] == PDB;
    ParseDigits(id, INT64_MAX);
  }

  lemma NamesDiffer(cluster: string, a: nat, b: nat)
    ensures RackPdbName(cluster, a) != PdbName(cluster)
    ensures RackPdbName(cluster, a) == RackPdbName(cluster, b) ==> a == b
  {
    var x, y := RackPdbName(cluster, a), RackPdbName(cluster, b);
    assert |x| > |PdbName(cluster)|;
    assert x[|cluster|+1..|x|-|PDB|] == Itoa(a) && y[|cluster|+1..|y|-|PDB|] == Itoa(b);
    if x == y { ItoaInjective(a, b); }
  }

  // ---- What holds after every write -----------------------------------------------------------

  /** The budget selects the cluster's pods in this rack. */
  predicate Selects(p: Pdb, cluster: string, rack: nat) {
    p.selector == WholeCluster(cluster) || p.selector == OneRack(cluster, rack)
  }

  predicate SelectsAny(p: Pdb, cluster: string) { !p.selector.Other? && p.selector.cluster == cluster }

  ghost predicate OnePerPod(store: Store, cluster: string) {
    forall a, b, rack :: a in store && b in store && a != b ==>
      !(Selects(store[a], cluster, rack) && Selects(store[b], cluster, rack))
  }

  function Written(cluster: string, selector: Selector, budget: IntOrPercent): Pdb {
    Pdb(cluster, true, selector, budget)
  }

  // ---- The writes of a pass ----------------------------------------------------------------------

  /** The name is taken by another cluster's budget, which is never written to. */
  predicate Foreign(store: Store, name: string, cluster: string) {
    name in store && store[name].owner !in {"", cluster}
  }

  function WriteTo(store: Store, cluster: string, name: string, selector: Selector, budget: IntOrPercent): Store {
    if Foreign(store, name, cluster) then store else store[name := Written(cluster, selector, budget)]
  }

  function WriteRack(store: Store, cluster: string, rack: nat, budget: IntOrPercent): Store {
    WriteTo(store, cluster, RackPdbName(cluster, rack), OneRack(cluster, rack), budget)
  }

  function WriteWhole(store: Store, cluster: string, budget: IntOrPercent): Store {
    WriteTo(store, cluster, PdbName(cluster), WholeCluster(cluster), budget)
  }

  /** The sweep of rack budgets finds it and does not keep it. */
  predicate Sweepable(name: string, p: Pdb, cluster: string, keep: set<string>) {
    p.labelled && p.owner == cluster && name != PdbName(cluster) && name !in keep && IsRackPdbName(name, cluster)
  }

  function Swept(store: Store, cluster: string, keep: set<string>): Store {
    map n | n in store && !Sweepable(n, store[n], cluster, keep) :: store[n]
  }

  /** The store after the first n racks have been written. */
  ghost function AfterRacks(store: Store, cluster: string, racks: seq<nat>, n: nat, budgets: nat -> IntOrPercent): Store
    requires n <= |racks|
  {
    if n == 0 then store
    else WriteRack(AfterRacks(store, cluster, racks, n - 1, budgets), cluster, racks[n-1], budgets(racks[n-1]))
  }

  ghost predicate HasRack(store: Store, cluster: string, r: nat, budgets: nat -> IntOrPercent) {
    RackPdbName(cluster, r) in store
    && store[RackPdbName(cluster, r)] == Written(cluster, OneRack(cluster, r), budgets(r))
  }

  /** One of the first n racks was written under this name. */
  ghost predicate Wrote(store: Store, cluster: string, racks: seq<nat>, n: nat, name: string)
    requires n <= |racks|
  {
    !Foreign(store, name, cluster) && exists j :: 0 <= j < n && name == RackPdbName(cluster, racks[j])
  }

  lemma WriteRackAt(store: Store, cluster: string, r: nat, budget: IntOrPercent, name: string)
    ensures var s := WriteRack(store, cluster, r, budget);
            && (Foreign(s, name, cluster) <==> Foreign(store, name, cluster))
            && (name != RackPdbName(cluster, r) || Foreign(store, name, cluster) ==>
                  (name in s <==> name in store) && (name in s ==> s[name] == store[name]))
            && (name == RackPdbName(cluster, r) && !Foreign(store, name, cluster) ==>
                  name in s && s[name] == Written(cluster, OneRack(cluster, r), budget))
  {
  }

  lemma {:induction false} ForeignKept(
      store: Store, cluster: string, racks: seq<nat>, n: nat, budgets: nat -> IntOrPercent, name: string)
    requires n <= |racks|
    ensures Foreign(AfterRacks(store, cluster, racks, n, budgets), name, cluster) <==> Foreign(store, name, cluster)
  {
    if n > 0 {
      ForeignKept(store, cluster, racks, n - 1, budgets, name);
      WriteRackAt(AfterRacks(store, cluster, racks, n - 1, budgets), cluster, racks[n-1], budgets(racks[n-1]), name);
    }
  }

  lemma {:induction false} UnwrittenKept(
      store: Store, cluster: string, racks: seq<nat>, n: nat, budgets: nat -> IntOrPercent, name: string)
    requires n <= |racks| && !Wrote(store, cluster, racks, n, name)
    ensures var s := AfterRacks(store, cluster, racks, n, budgets);
            (name in s <==> name in store) && (name in s ==> s[name] == store[name])
  {
    if n > 0 {
      UnwrittenKept(store, cluster, racks, n - 1, budgets, name);
      ForeignKept(store, cluster, racks, n - 1, budgets, name);
      WriteRackAt(AfterRacks(store, cluster, racks, n - 1, budgets), cluster, racks[n-1], budgets(racks[n-1]), name);
    }
  }

  lemma {:induction false} WrittenHas(
      store: Store, cluster: string, racks: seq<nat>, n: nat, budgets: nat -> IntOrPercent, j: nat)
    requires j < n <= |racks| && !Foreign(store, RackPdbName(cluster, racks[j]), cluster)
    ensures HasRack(AfterRacks(store, cluster, racks, n, budgets), cluster, racks[j], budgets)
  {
    var name := RackPdbName(cluster, racks[j]);
    ForeignKept(store, cluster, racks, n - 1, budgets, name);
    WriteRackAt(AfterRacks(store, cluster, racks, n - 1, budgets), cluster, racks[n-1], budgets(racks[n-1]), name);
    NamesDiffer(cluster, racks[j], racks[n-1]);
    if j < n - 1 { WrittenHas(store, cluster, racks, n - 1, budgets, j); }
  }

  // ---- When every write leaves at most one budget per pod ------------------------------------------

  lemma RackWriteExactly(store: Store, cluster: string, r: nat, budget: IntOrPercent)
    requires OnePerPod(store, cluster)
    ensures OnePerPod(WriteRack(store, cluster, r, budget), cluster) <==>
            || Foreign(store, RackPdbName(cluster, r), cluster)
            || forall n :: n in store && n != RackPdbName(cluster, r) ==> !Selects(store[n], cluster, r)
  {
    var name := RackPdbName(cluster, r);
    var s := WriteRack(store, cluster, r, budget);
    if !Foreign(store, name, cluster) && OnePerPod(s, cluster) {
      forall n | n in store && n != name ensures !Selects(store[n], cluster, r) {
        assert n in s && name in s && s[n] == store[n] && Selects(s[name], cluster, r);
      }
    }
  }

  lemma WholeWriteExactly(store: Store, cluster: string, budget: IntOrPercent)
    requires OnePerPod(store, cluster)
    ensures OnePerPod(WriteWhole(store, cluster, budget), cluster) <==>
            || Foreign(store, PdbName(cluster), cluster)
            || forall n :: n in store && n != PdbName(cluster) ==> !SelectsAny(store[n], cluster)
  {
    var name := PdbName(cluster);
    var s := WriteWhole(store, cluster, budget);
    if !Foreign(store, name, cluster) && OnePerPod(s, cluster) {
      forall n | n in store && n != name ensures !SelectsAny(store[n], cluster) {
        var rack := if store[n].selector.OneRack? then store[n].selector.rack else 0;
        assert n in s && name in s && s[n] == store[n] && Selects(s[name], cluster, rack);
        assert !Selects(s[n], cluster, rack);
      }
    }
  }

  /** When rack i is written, every other budget that selects it has already been put right. */
  ghost predicate Clear(store: Store, cluster: string, racks: seq<nat>, i: nat)
    requires i < |racks|
  {
    || Foreign(store, RackPdbName(cluster, racks[i]), cluster)
    || forall n :: n in store && Selects(store[n], cluster, racks[i]) ==>
         n == RackPdbName(cluster, racks[i]) || Wrote(store, cluster, racks, i, n)
  }

  lemma OtherRackWritten(
      store: Store, cluster: string, racks: seq<nat>, i: nat, budgets: nat -> IntOrPercent, n: string)
    requires i < |racks| && Wrote(store, cluster, racks, i, n) && n != RackPdbName(cluster, racks[i])
    ensures var s := AfterRacks(store, cluster, racks, i, budgets); n in s && !Selects(s[n], cluster, racks[i])
  {
    var j :| 0 <= j < i && n == RackPdbName(cluster, racks[j]);
    WrittenHas(store, cluster, racks, i, budgets, j);
  }

  /** The next rack's write keeps one budget per pod exactly when the initial store is clear for that rack. */
  lemma StepExactly(store: Store, cluster: string, racks: seq<nat>, i: nat, budgets: nat -> IntOrPercent)
    requires i < |racks| && OnePerPod(AfterRacks(store, cluster, racks, i, budgets), cluster)
    ensures OnePerPod(AfterRacks(store, cluster, racks, i + 1, budgets), cluster) <==> Clear(store, cluster, racks, i)
  {
    var s := AfterRacks(store, cluster, racks, i, budgets);
    var r := racks[i];
    var name := RackPdbName(cluster, r);
    RackWriteExactly(s, cluster, r, budgets(r));
    ForeignKept(store, cluster, racks, i, budgets, name);
    if Clear(store, cluster, racks, i) {
      forall n | n in s && n != name && !Foreign(store, name, cluster) ensures !Selects(s[n], cluster, r) {
        if Wrote(store, cluster, racks, i, n) {
          OtherRackWritten(store, cluster, racks, i, budgets, n);
        } else {
          UnwrittenKept(store, cluster, racks, i, budgets, n);
        }
      }
    } else {
      var n :| n in store && Selects(store[n], cluster, r) && n != name && !Wrote(store, cluster, racks, i, n);
      UnwrittenKept(store, cluster, racks, i, budgets, n);
    }
  }

  /** The store is clear for each of the first n racks. */
  ghost predicate ClearUpTo(store: Store, cluster: string, racks: seq<nat>, n: nat)
    requires n <= |racks|
  {
    n == 0 || (ClearUpTo(store, cluster, racks, n - 1) && Clear(store, cluster, racks, n - 1))
  }

  lemma {:induction false} ClearForFewer(store: Store, cluster: string, racks: seq<nat>, m: nat, n: nat)
    requires m <= n <= |racks| && ClearUpTo(store, cluster, racks, n)
    ensures ClearUpTo(store, cluster, racks, m)
  {
    if m < n { ClearForFewer(store, cluster, racks, m, n - 1); }
  }

  ghost predicate StatesCalm(store: Store, cluster: string, racks: seq<nat>, n: nat, budgets: nat -> IntOrPercent)
    requires n <= |racks|
  {
    forall i :: 0 <= i <= n ==> OnePerPod(AfterRacks(store, cluster, racks, i, budgets), cluster)
  }

  /**
    Writing the racks one by one, no state has a pod with two budgets if and only if the initial
    store is clear for each.
   */
  lemma {:induction false} RackWritesExactly(
      store: Store, cluster: string, racks: seq<nat>, n: nat, budgets: nat -> IntOrPercent)
    requires n <= |racks| && OnePerPod(store, cluster)
    ensures StatesCalm(store, cluster, racks, n, budgets) <==> ClearUpTo(store, cluster, racks, n)
  {
    if n > 0 {
      RackWritesExactly(store, cluster, racks, n - 1, budgets);
      if OnePerPod(AfterRacks(store, cluster, racks, n - 1, budgets), cluster) {
        StepExactly(store, cluster, racks, n - 1, budgets);
      }
      assert StatesCalm(store, cluster, racks, n, budgets) <==>
             StatesCalm(store, cluster, racks, n - 1, budgets)
             && OnePerPod(AfterRacks(store, cluster, racks, n, budgets), cluster);
    }
  }

  /** Every other budget on the cluster's pods is one the sweep removes. */
  ghost predicate SweepReaches(store: Store, cluster: string, keep: set<string>) {
    forall n :: n in store && n != PdbName(cluster) && n !in keep && SelectsAny(store[n], cluster) ==>
      Sweepable(n, store[n], cluster, {})
  }

  lemma SweptKeeps(store: Store, part: Store, cluster: string)
    requires OnePerPod(store, cluster) && forall n :: n in part ==> n in store && part[n] == store[n]
    ensures OnePerPod(part, cluster)
  {
  }

  /**
    Sweeping and then writing the cluster-wide budget keeps one budget per pod exactly when the
    sweep reaches every other one.
   */
  lemma WholePassExactly(store: Store, cluster: string, budget: IntOrPercent)
    requires OnePerPod(store, cluster)
    ensures OnePerPod(WriteWhole(Swept(store, cluster, {}), cluster, budget), cluster) <==>
            Foreign(store, PdbName(cluster), cluster) || SweepReaches(store, cluster, {})
  {
    var s := Swept(store, cluster, {});
    SweptKeeps(store, s, cluster);
    WholeWriteExactly(s, cluster, budget);
    assert Foreign(s, PdbName(cluster), cluster) <==> Foreign(store, PdbName(cluster), cluster);
  }

  /** Which stores a pass goes through without ever giving a pod a second budget. */
  ghost predicate Calm(store: Store, cluster: string, racks: seq<nat>, disabled: bool, perRack: bool) {
    || disabled
    || if perRack then ClearUpTo(store - {PdbName(cluster)}, cluster, racks, |racks|)
       else Foreign(store, PdbName(cluster), cluster) || SweepReaches(store, cluster, {})
  }

  // ---- What a successful pass leaves -----------------------------------------------------------------

  function RackNames(cluster: string, racks: seq<nat>): set<string> { set r | r in racks :: RackPdbName(cluster, r) }

  /** The store a pass leaves when every write is accepted. */
  ghost function PassResult(
      store: Store, cluster: string, racks: seq<nat>, disabled: bool, perRack: bool, budget: IntOrPercent,
      budgets: nat -> IntOrPercent): Store
  {
    if disabled then Swept(store - {PdbName(cluster)}, cluster, {})
    else if perRack then Swept(AfterRacks(store - {PdbName(cluster)}, cluster, racks, |racks|, budgets), cluster,
                               RackNames(cluster, racks))
    else WriteWhole(Swept(store, cluster, {}), cluster, budget)
  }

  ghost predicate OnlyWhole(store: Store, cluster: string, budget: IntOrPercent) {
    && PdbName(cluster) in store && store[PdbName(cluster)] == Written(cluster, WholeCluster(cluster), budget)
    && forall n :: n in store && n != PdbName(cluster) ==> !SelectsAny(store[n], cluster)
  }

  ghost predicate OnlyRacks(store: Store, cluster: string, racks: seq<nat>, budgets: nat -> IntOrPercent) {
    && (forall r :: r in racks ==> HasRack(store, cluster, r, budgets))
    && forall n :: n in store && SelectsAny(store[n], cluster) ==> n in RackNames(cluster, racks)
  }

  lemma DisabledLeavesExactly(store: Store, cluster: string)
    ensures (forall n :: n in Swept(store - {PdbName(cluster)}, cluster, {}) ==> !SelectsAny(store[n], cluster)) <==>
            SweepReaches(store, cluster, {})
  {
    var s := Swept(store - {PdbName(cluster)}, cluster, {});
    if SweepReaches(store, cluster, {}) {
      forall n | n in s ensures !SelectsAny(store[n], cluster) { assert n in store && n != PdbName(cluster); }
    } else {
      var n :| n in store && n != PdbName(cluster) && SelectsAny(store[n], cluster)
               && !Sweepable(n, store[n], cluster, {});
      assert n in s;
    }
  }

  /**
    The cluster-wide pass leaves its budget and nothing else on the cluster's pods exactly when the
    name is its own and the sweep reaches the rest.
   */
  lemma WholeLeavesExactly(store: Store, cluster: string, budget: IntOrPercent)
    ensures OnlyWhole(WriteWhole(Swept(store, cluster, {}), cluster, budget), cluster, budget) <==>
            !Foreign(store, PdbName(cluster), cluster) && SweepReaches(store, cluster, {})
  {
    var whole := PdbName(cluster);
    var s := Swept(store, cluster, {});
    var t := WriteWhole(s, cluster, budget);
    assert Foreign(s, whole, cluster) <==> Foreign(store, whole, cluster);
    assert forall n :: n in s ==> n in t && (n != whole ==> t[n] == s[n]);
    if !SweepReaches(store, cluster, {}) {
      var n :| n in store && n != whole && SelectsAny(store[n], cluster) && !Sweepable(n, store[n], cluster, {});
      assert n in s;
    }
  }

  lemma RacksWrittenExactly(store: Store, cluster: string, racks: seq<nat>, budgets: nat -> IntOrPercent)
    ensures (forall r :: r in racks ==>
               HasRack(AfterRacks(store, cluster, racks, |racks|, budgets), cluster, r, budgets)) <==>
            forall r :: r in racks ==> !Foreign(store, RackPdbName(cluster, r), cluster)
  {
    var s := AfterRacks(store, cluster, racks, |racks|, budgets);
    forall r | r in racks
      ensures HasRack(s, cluster, r, budgets) <==> !Foreign(store, RackPdbName(cluster, r), cluster)
    {
      var name := RackPdbName(cluster, r);
      ForeignKept(store, cluster, racks, |racks|, budgets, name);
      var j :| 0 <= j < |racks| && racks[j] == r;
      if !Foreign(store, name, cluster) { WrittenHas(store, cluster, racks, |racks|, budgets, j); }
    }
  }

  /**
    The per-rack pass leaves one budget per rack and nothing else exactly when the names are its own
    and the sweep reaches the rest.
   */
  lemma RacksLeaveExactly(store: Store, cluster: string, racks: seq<nat>, budgets: nat -> IntOrPercent)
    requires PdbName(cluster) !in store
    ensures OnlyRacks(Swept(AfterRacks(store, cluster, racks, |racks|, budgets), cluster, RackNames(cluster, racks)),
                      cluster, racks, budgets) <==>
            && (forall r :: r in racks ==> !Foreign(store, RackPdbName(cluster, r), cluster))
            && SweepReaches(store, cluster, RackNames(cluster, racks))
  {
    var keep := RackNames(cluster, racks);
    var s := AfterRacks(store, cluster, racks, |racks|, budgets);
    var t := Swept(s, cluster, keep);
    RacksWrittenExactly(store, cluster, racks, budgets);
    forall r | r in racks ensures HasRack(t, cluster, r, budgets) <==> HasRack(s, cluster, r, budgets) {
      assert RackPdbName(cluster, r) in keep;
    }
    forall n | n !in keep ensures (n in s <==> n in store) && (n in s ==> s[n] == store[n]) {
      forall j | 0 <= j < |racks|
        ensures n != RackPdbName(cluster, racks[j])
      {
        assert RackPdbName(cluster, racks[j]) in keep;
      }
      UnwrittenKept(store, cluster, racks, |racks|, budgets, n);
    }
    forall r | r in racks ensures RackPdbName(cluster, r) != PdbName(cluster) { NamesDiffer(cluster, r, r); }
    RestExactly(store, s, cluster, keep);
  }

  lemma RestExactly(store: Store, s: Store, cluster: string, keep: set<string>)
    requires PdbName(cluster) !in store
    requires forall n :: n !in keep ==> (n in s <==> n in store) && (n in s ==> s[n] == store[n])
    requires PdbName(cluster) !in keep
    ensures (forall n :: n in Swept(s, cluster, keep) && SelectsAny(s[n], cluster) ==> n in keep) <==>
            SweepReaches(store, cluster, keep)
  {
    var t := Swept(s, cluster, keep);
    if SweepReaches(store, cluster, keep) {
      forall n | n in t && n !in keep
        ensures !SelectsAny(s[n], cluster)
      {
        assert !Sweepable(n, store[n], cluster, {});
      }
    } else {
      var n :| n in store && n != PdbName(cluster) && n !in keep && SelectsAny(store[n], cluster)
               && !Sweepable(n, store[n], cluster, {});
      assert n in t;
    }
  }

  // ---- Stores the pass itself produces ----------------------------------------------------------------

  /** A budget on the cluster's pods is the cluster-wide one, or a labelled one named after the only rack it selects. */
  ghost predicate Shaped(store: Store, cluster: string) {
    forall n :: n in store && SelectsAny(store[n], cluster) && n != PdbName(cluster) ==>
      && store[n].selector.OneRack? && store[n].labelled && store[n].owner == cluster
      && n == RackPdbName(cluster, store[n].selector.rack) && store[n].selector.rack <= INT64_MAX
  }

  lemma ShapedIsCalm(store: Store, cluster: string, racks: seq<nat>, disabled: bool, perRack: bool)
    requires Shaped(store, cluster)
    ensures Calm(store, cluster, racks, disabled, perRack) && SweepReaches(store, cluster, {})
  {
    forall n | n in store && n != PdbName(cluster) && SelectsAny(store[n], cluster)
      ensures Sweepable(n, store[n], cluster, {})
    {
      RackNameRecognised(cluster, store[n].selector.rack);
    }
    var base := store - {PdbName(cluster)};
    ShapedIsClear(base, cluster, racks, |racks|);
  }

  lemma {:induction false} ShapedIsClear(store: Store, cluster: string, racks: seq<nat>, n: nat)
    requires n <= |racks| && Shaped(store, cluster) && PdbName(cluster) !in store
    ensures ClearUpTo(store, cluster, racks, n)
  {
    if n > 0 { ShapedIsClear(store, cluster, racks, n - 1); }
  }

  lemma {:induction false} RacksShaped(
      store: Store, cluster: string, racks: seq<nat>, n: nat, budgets: nat -> IntOrPercent)
    requires n <= |racks| && Shaped(store, cluster) && forall r :: r in racks ==> r <= INT64_MAX
    ensures Shaped(AfterRacks(store, cluster, racks, n, budgets), cluster)
  {
    if n > 0 {
      RacksShaped(store, cluster, racks, n - 1, budgets);
      assert racks[n-1] in racks;
      ShapedWrites(AfterRacks(store, cluster, racks, n - 1, budgets), map[], cluster, racks[n-1], budgets(racks[n-1]));
    }
  }

  lemma ShapedWrites(store: Store, part: Store, cluster: string, r: nat, budget: IntOrPercent)
    requires Shaped(store, cluster)
    ensures (forall n :: n in part ==> n in store && part[n] == store[n]) ==> Shaped(part, cluster)
    ensures r <= INT64_MAX ==> Shaped(WriteRack(store, cluster, r, budget), cluster)
    ensures Shaped(WriteWhole(store, cluster, budget), cluster)
  {
  }

  // ---- The pass ---------------------------------------------------------------------------------------

  /** In no state of the history do two budgets select a pod of the cluster. */
  ghost predicate AllOnePerPod(history: seq<Store>, cluster: string) {
    history == [] || (AllOnePerPod(history[..|history|-1], cluster) && OnePerPod(history[|history|-1], cluster))
  }

  lemma OneMoreState(history: seq<Store>, next: Store, cluster: string)
    ensures AllOnePerPod(history + [next], cluster) <==> AllOnePerPod(history, cluster) && OnePerPod(next, cluster)
  {
    assert (history + [next])[..|history|] == history;
  }

  /** Every state of a safe history has one budget per pod. */
  lemma {:induction false} SafeThroughout(history: seq<Store>, cluster: string, i: nat)
    requires AllOnePerPod(history, cluster) && i < |history|
    ensures OnePerPod(history[i], cluster)
  {
    if i < |history| - 1 { SafeThroughout(history[..|history|-1], cluster, i); }
  }

  lemma RackStep(
      store: Store, cluster: string, racks: seq<nat>, i: nat, budgets: nat -> IntOrPercent, safe: bool, was: bool)
    requires i < |racks| && (safe <==> was && ClearUpTo(store, cluster, racks, i))
    requires safe ==> OnePerPod(AfterRacks(store, cluster, racks, i, budgets), cluster)
    ensures (safe && OnePerPod(AfterRacks(store, cluster, racks, i + 1, budgets), cluster)) <==>
            was && ClearUpTo(store, cluster, racks, i + 1)
  {
    if safe { StepExactly(store, cluster, racks, i, budgets); }
  }

  // ---- Other clusters' budgets ----------------------------------------------------------------------

  /** Another cluster's budget is there unchanged, except under the cluster-wide name when that is deleted. */
  ghost predicate OthersKept(a: Store, b: Store, cluster: string, deleted: bool) {
    forall n :: Foreign(a, n, cluster) ==> ((n in b && b[n] == a[n]) <==> !(deleted && n == PdbName(cluster)))
  }

  lemma DeleteKeepsOthers(store: Store, cluster: string, deleted: bool)
    ensures OthersKept(store, if deleted then store - {PdbName(cluster)} else store, cluster, deleted)
  {
  }

  lemma SweepKeepsOthers(a: Store, b: Store, cluster: string, keep: set<string>)
    requires forall n :: n in b ==> n in a && b[n] == a[n]
    requires forall n :: n in a && n !in b ==> Sweepable(n, a[n], cluster, keep)
    ensures OthersKept(a, b, cluster, false) && (PdbName(cluster) !in a ==> PdbName(cluster) !in b)
  {
  }

  lemma RacksKeepOthers(store: Store, cluster: string, racks: seq<nat>, n: nat, budgets: nat -> IntOrPercent)
    requires n <= |racks|
    ensures var s := AfterRacks(store, cluster, racks, n, budgets);
            OthersKept(store, s, cluster, false) && (PdbName(cluster) !in store ==> PdbName(cluster) !in s)
  {
    forall name | Foreign(store, name, cluster) || name == PdbName(cluster)
      ensures var s := AfterRacks(store, cluster, racks, n, budgets);
              (name in s <==> name in store) && (name in s ==> s[name] == store[name])
    {
      if name == PdbName(cluster) {
        forall j | 0 <= j < n ensures name != RackPdbName(cluster, racks[j]) { NamesDiffer(cluster, racks[j], 0); }
      }
      UnwrittenKept(store, cluster, racks, n, budgets, name);
    }
  }

  lemma KeptThen(a: Store, m: Store, b: Store, cluster: string, deleted: bool)
    requires OthersKept(a, m, cluster, deleted) && OthersKept(m, b, cluster, false)
    requires deleted ==> PdbName(cluster) !in m && PdbName(cluster) !in b
    ensures OthersKept(a, b, cluster, deleted)
  {
    forall n | Foreign(a, n, cluster) ensures (n in b && b[n] == a[n]) <==> !(deleted && n == PdbName(cluster)) {
      if !(deleted && n == PdbName(cluster)) { assert Foreign(m, n, cluster); }
    }
  }

  /**
    Names collide across clusters: the budget of rack 1 of `demo` is called what the cluster-wide
    one of `demo-1` is. When `demo-1` goes without one, it deletes the other's.
   */
  lemma OtherBudgetLost(cluster: string, rack: nat, budget: IntOrPercent)
    requires cluster != ""
    ensures var other := cluster + "-" + Itoa(rack);
            var store := map[RackPdbName(cluster, rack) := Written(cluster, OneRack(cluster, rack), budget)];
            && Foreign(store, PdbName(other), other)
            && PdbName(other) !in PassResult(store, other, [0], true, false, budget, _ => budget)
  {
    var other := cluster + "-" + Itoa(rack);
    assert PdbName(other) == RackPdbName(cluster, rack);
    assert |other| > |cluster|;
  }

  class PdbApi {
    var store: Store

    /** Every state the store has been in since this object was made. */
    ghost var history: seq<Store>

    ghost predicate Tracked()
      reads this
    {
      history != [] && history[|history|-1] == store
    }

    ghost predicate Safe(cluster: string)
      reads this
    {
      AllOnePerPod(history, cluster)
    }

    method Put(next: Store, ghost cluster: string)
      requires Tracked()
      modifies this
      ensures Tracked() && store == next && old(history) <= history
      ensures Safe(cluster) <==> old(Safe(cluster)) && OnePerPod(next, cluster)
    {
      OneMoreState(history, next, cluster);
      store := next;
      history := history + [next];
    }

    /** Creates the budget, or brings an existing one of this cluster in line; another cluster's is left alone. */
    method ReconcileOnePdb(cluster: string, name: string, selector: Selector, budget: IntOrPercent, accepted: bool)
      returns (ok: bool)
      requires Tracked()
      modifies this
      ensures Tracked() && old(history) <= history
      ensures store == if ok then WriteTo(old(store), cluster, name, selector, budget) else old(store)
      ensures Safe(cluster) <==> old(Safe(cluster)) && OnePerPod(store, cluster)
    {
      var want := Written(cluster, selector, budget);
      if name in store {
        if store[name].owner != "" && store[name].owner != cluster { return true; }
        if store[name] == want {
          assert store[name := want] == store;
          return true;
        }
      }
      if !accepted { return false; }
      Put(store[name := want], cluster);
      return true;
    }

    method DeletePdbByName(cluster: string, name: string, accepted: bool) returns (ok: bool)
      requires Tracked()
      modifies this
      ensures Tracked() && old(history) <= history
      ensures store == if ok then old(store) - {name} else old(store)
      ensures name in old(store) ==> ok == accepted
      ensures Safe(cluster) <==> old(Safe(cluster))
    {
      if name !in store {
        assert store - {name} == store;
        return true;
      }
      if !accepted { return false; }
      if Safe(cluster) { SweptKeeps(store, store - {name}, cluster); }
      Put(store - {name}, cluster);
      return true;
    }

    /** Deletes the listed rack budgets that are not kept. */
    method DeleteRackPdbs(cluster: string, keep: set<string>, accepts: string -> bool) returns (ok: bool)
      requires Tracked()
      modifies this
      ensures Tracked() && old(history) <= history
      ensures ok ==> store == Swept(old(store), cluster, keep)
      ensures forall n :: n in store ==> n in old(store) && store[n] == old(store)[n]
      ensures forall n :: n in old(store) && n !in store ==> Sweepable(n, old(store)[n], cluster, keep)
      ensures Safe(cluster) <==> old(Safe(cluster))
    {
      var todo := set n | n in store && store[n].labelled && store[n].owner == cluster;
      while todo != {}
        invariant Tracked() && old(history) <= history
        invariant forall n :: n in store ==> n in old(store) && store[n] == old(store)[n]
        invariant forall n :: n in old(store) && n !in store ==> Sweepable(n, old(store)[n], cluster, keep)
        invariant forall n :: n in store && Sweepable(n, store[n], cluster, keep) ==> n in todo
        invariant forall n :: n in todo ==> n in old(store) && old(store)[n].labelled && old(store)[n].owner == cluster
        invariant Safe(cluster) <==> old(Safe(cluster))
        decreases |todo|
      {
        var name :| name in todo;
        if name != PdbName(cluster) && name !in keep && IsRackPdbName(name, cluster) {
          ok := DeletePdbByName(cluster, name, accepts(name));
          if !ok { return; }
        }
        todo := todo - {name};
      }
      assert store == Swept(old(store), cluster, keep);
      ok := true;
    }

    method ReconcileRack(cluster: string, rack: nat, budget: IntOrPercent, accepts: string -> bool) returns (ok: bool)
      requires Tracked()
      modifies this
      ensures Tracked() && old(history) <= history
      ensures store == if ok then WriteRack(old(store), cluster, rack, budget) else old(store)
      ensures Safe(cluster) <==> old(Safe(cluster)) && OnePerPod(store, cluster)
    {
      var name := RackPdbName(cluster, rack);
      ok := ReconcileOnePdb(cluster, name, OneRack(cluster, rack), budget, accepts(name));
    }

    /** One budget per rack, once the cluster-wide one is gone; stops at the first refused write. */
    method ReconcileRacks(cluster: string, racks: seq<nat>, budgets: nat -> IntOrPercent, accepts: string -> bool)
      returns (ok: bool, ghost written: nat)
      requires Tracked() && OnePerPod(store, cluster)
      modifies this
      ensures Tracked() && old(history) <= history
      ensures written <= |racks| && (ok ==> written == |racks|)
      ensures store == AfterRacks(old(store), cluster, racks, written, budgets)
      ensures Safe(cluster) <==> old(Safe(cluster)) && ClearUpTo(old(store), cluster, racks, written)
    {
      written := 0;
      for i := 0 to |racks|
        invariant Tracked() && old(history) <= history && written == i
        invariant store == AfterRacks(old(store), cluster, racks, i, budgets)
        invariant Safe(cluster) <==> old(Safe(cluster)) && ClearUpTo(old(store), cluster, racks, i)
      {
        RackStep(old(store), cluster, racks, i, budgets, Safe(cluster), old(Safe(cluster)));
        ok := ReconcileRack(cluster, racks[i], budgets(racks[i]), accepts);
        if !ok { return; }
        written := i + 1;
      }
      ok := true;
    }

    method DeleteAllPdbs(cluster: string, accepts: string -> bool) returns (ok: bool)
      requires Tracked()
      modifies this
      ensures Tracked() && old(history) <= history
      ensures ok ==> store == Swept(old(store) - {PdbName(cluster)}, cluster, {})
      ensures Safe(cluster) <==> old(Safe(cluster))
      ensures Shaped(old(store), cluster) ==> Shaped(store, cluster)
      ensures OthersKept(old(store), store, cluster, accepts(PdbName(cluster)))
    {
      DeleteKeepsOthers(store, cluster, accepts(PdbName(cluster)));
      ok := DeletePdbByName(cluster, PdbName(cluster), accepts(PdbName(cluster)));
      if !ok { return; }
      ghost var mid := store;
      ok := DeleteRackPdbs(cluster, {}, accepts);
      SweepKeepsOthers(mid, store, cluster, {});
      KeptThen(old(store), mid, store, cluster, accepts(PdbName(cluster)));
    }

    method ReconcileWhole(cluster: string, budget: IntOrPercent, accepts: string -> bool) returns (ok: bool)
      requires Tracked() && OnePerPod(store, cluster)
      modifies this
      ensures Tracked() && old(history) <= history
      ensures ok ==> store == WriteWhole(Swept(old(store), cluster, {}), cluster, budget)
      ensures ok ==> (Safe(cluster) <==> old(Safe(cluster)) && OnePerPod(store, cluster))
      ensures !ok ==> (Safe(cluster) <==> old(Safe(cluster)))
      ensures Shaped(old(store), cluster) ==> Shaped(store, cluster)
      ensures OthersKept(old(store), store, cluster, false)
    {
      ok := DeleteRackPdbs(cluster, {}, accepts);
      SweepKeepsOthers(old(store), store, cluster, {});
      if !ok { return; }
      SweptKeeps(old(store), store, cluster);
      if Shaped(store, cluster) { ShapedWrites(store, map[], cluster, 0, budget); }
      ok := ReconcileOnePdb(cluster, PdbName(cluster), WholeCluster(cluster), budget, accepts(PdbName(cluster)));
    }

    method ReconcilePerRack(cluster: string, racks: seq<nat>, budgets: nat -> IntOrPercent, accepts: string -> bool)
      returns (ok: bool, ghost written: nat)
      requires Tracked() && OnePerPod(store, cluster)
      modifies this
      ensures Tracked() && old(history) <= history && written <= |racks|
      ensures ok ==> written == |racks|
      ensures var base := old(store) - {PdbName(cluster)};
              ok ==>
                store == Swept(AfterRacks(base, cluster, racks, written, budgets), cluster, RackNames(cluster, racks))
      ensures Safe(cluster) <==>
              old(Safe(cluster)) && ClearUpTo(old(store) - {PdbName(cluster)}, cluster, racks, written)
      ensures Shaped(old(store), cluster) && (forall r :: r in racks ==> r <= INT64_MAX) ==> Shaped(store, cluster)
      ensures OthersKept(old(store), store, cluster, accepts(PdbName(cluster)))
    {
      ghost var base := old(store) - {PdbName(cluster)};
      SweptKeeps(old(store), base, cluster);
      DeleteKeepsOthers(store, cluster, accepts(PdbName(cluster)));
      written := 0;
      ok := DeletePdbByName(cluster, PdbName(cluster), accepts(PdbName(cluster)));
      if !ok { return; }
      ok, written := ReconcileRacks(cluster, racks, budgets, accepts);
      RacksKeepOthers(base, cluster, racks, written, budgets);
      KeptThen(old(store), base, store, cluster, accepts(PdbName(cluster)));
      if Shaped(base, cluster) && forall r :: r in racks ==> r <= INT64_MAX {
        RacksShaped(base, cluster, racks, written, budgets);
      }
      if !ok { return; }
      ghost var mid := store;
      ok := DeleteRackPdbs(cluster, RackNames(cluster, racks), accepts);
      SweepKeepsOthers(mid, store, cluster, RackNames(cluster, racks));
      KeptThen(old(store), mid, store, cluster, accepts(PdbName(cluster)));
    }

    /**
      The pass. From a store with at most one budget per pod, a pass that goes through never gave
      a pod a second one if and only if the store it started from was calm; and one that stops at
      a refused write from a calm store did not either. The store it leaves is stated outright.
      Another cluster's budget survives, whether or not the pass goes through, unless it has the
      cluster-wide name and a pass without a cluster-wide budget deletes that.
     */
    method ReconcilePdb(
        cluster: string, racks: seq<nat>, disabled: bool, anyRackBudget: bool, clusterBudget: IntOrPercent,
        budgets: nat -> IntOrPercent,
        accepts: string -> bool)
      returns (ok: bool)
      requires Tracked() && OnePerPod(store, cluster) && NoDup(racks)
      modifies this
      ensures Tracked() && old(history) <= history
      ensures var perRack := |racks| > 1 && anyRackBudget;
              && (ok ==> store == PassResult(old(store), cluster, racks, disabled, perRack, clusterBudget, budgets))
              && (ok ==> (Safe(cluster) <==> old(Safe(cluster)) && Calm(old(store), cluster, racks, disabled, perRack)))
              && (old(Safe(cluster)) && Calm(old(store), cluster, racks, disabled, perRack) ==> Safe(cluster))
      ensures Shaped(old(store), cluster) && (forall r :: r in racks ==> r <= INT64_MAX) ==> Shaped(store, cluster)
      ensures var byName := disabled || (|racks| > 1 && anyRackBudget);
              OthersKept(old(store), store, cluster, byName && accepts(PdbName(cluster)))
    {
      if disabled {
        ok := DeleteAllPdbs(cluster, accepts);
      } else if |racks| > 1 && anyRackBudget {
        ghost var written;
        ok, written := ReconcilePerRack(cluster, racks, budgets, accepts);
        ghost var base := old(store) - {PdbName(cluster)};
        if ClearUpTo(base, cluster, racks, |racks|) { ClearForFewer(base, cluster, racks, written, |racks|); }
      } else {
        WholePassExactly(store, cluster, clusterBudget);
        ok := ReconcileWhole(cluster, clusterBudget, accepts);
      }
    }
  }

  /**
    Two rack budgets whose selectors were swapped by hand select each pod once, but putting the
    first one right does not, so no per-rack pass over the two racks is calm.
   */
  lemma SwappedSelectors(cluster: string, budget: IntOrPercent)
    ensures var store := map[RackPdbName(cluster, 1) := Written(cluster, OneRack(cluster, 2), budget),
                             RackPdbName(cluster, 2) := Written(cluster, OneRack(cluster, 1), budget)];
            && OnePerPod(store, cluster)
            && !OnePerPod(WriteRack(store, cluster, 1, budget), cluster)
            && !Calm(store, cluster, [1, 2], false, true)
  {
    NamesDiffer(cluster, 1, 2);
    NamesDiffer(cluster, 2, 1);
    var store := map[RackPdbName(cluster, 1) := Written(cluster, OneRack(cluster, 2), budget),
                     RackPdbName(cluster, 2) := Written(cluster, OneRack(cluster, 1), budget)];
    assert Selects(store[RackPdbName(cluster, 2)], cluster, 1);
    RackWriteExactly(store, cluster, 1, budget);
    assert store - {PdbName(cluster)} == store;
    assert !Clear(store, cluster, [1, 2], 0);
    if ClearUpTo(store, cluster, [1, 2], 2) { ClearForFewer(store, cluster, [1, 2], 1, 2); }
  }

  // ---- What a sweep takes, by name and owner ----------------------------------------------------

  /** Named <cluster>-<number>-pdb, the number as Go reads one. */
  ghost predicate NamedAsRack(name: string, cluster: string, number: string) {
    name == cluster + "-" + number + "-pdb" && ParseInt(number, INT64_MAX).Some?
  }

  lemma NameCut(name: string, cluster: string, number: string)
    requires name == cluster + "-" + number + "-pdb"
    ensures var rest := name[|cluster| + 1..];
            && cluster + "-" <= name && |rest| == |number| + |PDB|
            && rest[..|number|] == number && rest[|number|..] == PDB
  {
    assert name == (cluster + "-") + (number + PDB);
    assert name[|cluster| + 1..] == number + PDB;
  }

  lemma NamedExactly(name: string, cluster: string)
    ensures IsRackPdbName(name, cluster) <==> exists number :: NamedAsRack(name, cluster, number)
  {
    if IsRackPdbName(name, cluster) {
      var rest := name[|cluster| + 1..];
      var number := rest[..|rest|-|PDB|];
      assert rest == number + PDB;
      assert name == cluster + "-" + rest;
      assert NamedAsRack(name, cluster, number);
    }
    if number :| NamedAsRack(name, cluster, number) { NameCut(name, cluster, number); }
  }

  /** A sweep takes exactly the cluster's own labelled budgets under a rack's name that are not to be kept. */
  lemma SweptExactly(store: Store, cluster: string, keep: set<string>, name: string)
    requires name in store
    ensures name !in Swept(store, cluster, keep) <==>
            && store[name].labelled && store[name].owner == cluster && name != cluster + "-pdb" && name !in keep
            && exists number :: NamedAsRack(name, cluster, number)
    ensures name in Swept(store, cluster, keep) ==> Swept(store, cluster, keep)[name] == store[name]
  {
    NamedExactly(name, cluster);
  }
}
