/**
  The disruption budget a cluster gets when it sets none: one less than the smallest
  replication factor any rack runs with, but at least one.
 */
module Budget {
  import opened Text
  import opened Collections
  import opened Sizes
  import opened ConfigTree
  import opened ConfigMerge
  import CeRules

  const DEFAULT_FACTOR := 2
  const FACTOR := CeRules.REPLICATION_FACTOR
  const NAMESPACES := "namespaces"

  function ToInt32(n: int): int { (n + 0x8000_0000) % 0x1_0000_0000 - 0x8000_0000 }

  function Truncated(x: real): int { if x >= 0.0 then x.Floor else 0 - (0.0 - x).Floor }

  /** A namespace's factor as the reconciler parses it: unknown types and values below one become the default. */
  function ParsedFactor(m: Section): (r: int)
    ensures r >= 1
  {
    var rf :=
      if FACTOR in m && m[FACTOR].Num? && m[FACTOR].number.kind in {Kind.Int, Int32, Int64, Float64}
      then ToInt32(Truncated(m[FACTOR].number.value)) else DEFAULT_FACTOR;
    if rf < 1 then DEFAULT_FACTOR else rf
  }

  /** The running minimum over the first n entries; zero while no entry is a map. */
  function LeastOf(list: seq<Val>, n: nat): (r: int)
    requires n <= |list|
    ensures r >= 0
  {
    if n == 0 then 0
    else
      var least := LeastOf(list, n - 1);
      if !list[n-1].Map? then least
      else
        var rf := ParsedFactor(list[n-1].entries);
        if least == 0 || rf < least then rf else least
  }

  function Namespaces(cfg: Option<Section>): seq<Val> {
    if cfg.Some? && NAMESPACES in cfg.value && cfg.value[NAMESPACES].List? then cfg.value[NAMESPACES].items else []
  }

  function LeastFactor(cfg: Option<Section>): (r: int)
    ensures r >= 1
  {
    var least := LeastOf(Namespaces(cfg), |Namespaces(cfg)|);
    if least == 0 then DEFAULT_FACTOR else least
  }

  method MinReplicationFactor(cfg: Option<Section>) returns (r: int)
    ensures r == LeastFactor(cfg)
  {
    var list := Namespaces(cfg);
    if list == [] { return DEFAULT_FACTOR; }
    r := 0;
    for i := 0 to |list|
      invariant r == LeastOf(list, i)
    {
      if list[i].Map? {
        var rf := ParsedFactor(list[i].entries);
        if r == 0 || rf < r { r := rf; }
      }
    }
    if r == 0 { r := DEFAULT_FACTOR; }
  }

  /** The least factor is no larger than any namespace's, and is one of them unless there is none. */
  lemma {:induction false} LeastIsLeast(list: seq<Val>, n: nat)
    requires n <= |list|
    ensures forall i :: 0 <= i < n && list[i].Map? ==> 1 <= LeastOf(list, n) <= ParsedFactor(list[i].entries)
    ensures || LeastOf(list, n) == 0
            || exists i :: 0 <= i < n && list[i].Map? && ParsedFactor(list[i].entries) == LeastOf(list, n)
  {
    if n > 0 { LeastIsLeast(list, n - 1); }
  }

  // ---- Racks -------------------------------------------------------------------------------

  /** A rack runs the cluster's config with its own laid over it. */
  function EffectiveConfig(cluster: Option<Section>, rack: Option<Section>): Option<Section> {
    if cluster.None? then rack
    else if rack.None? then cluster
    else Some(MergeSections(cluster.value, rack.value))
  }

  function DefaultMaxUnavailable(cluster: Option<Section>, rack: Option<Section>): (r: int)
    ensures r >= 1
  {
    Max(LeastFactor(EffectiveConfig(cluster, rack)) - 1, 1)
  }

  function LeastDefault(cluster: Option<Section>, racks: seq<Option<Section>>, n: nat): (r: int)
    requires n <= |racks|
    ensures r >= 0 && (n > 0 ==> r >= 1)
  {
    if n == 0 then 0
    else
      var least, mine := LeastDefault(cluster, racks, n - 1), DefaultMaxUnavailable(cluster, racks[n-1]);
      if least == 0 || mine < least then mine else least
  }

  /** The default of the one cluster-wide budget. */
  method ClusterDefault(cluster: Option<Section>, racks: seq<Option<Section>>) returns (r: int)
    ensures r == Max(LeastDefault(cluster, racks, |racks|), 1)
  {
    r := 0;
    for i := 0 to |racks|
      invariant r == LeastDefault(cluster, racks, i)
    {
      var least := MinReplicationFactor(EffectiveConfig(cluster, racks[i]));
      var mine := if least - 1 > 1 then least - 1 else 1;
      if r == 0 || mine < r { r := mine; }
    }
    if r < 1 { r := 1; }
  }

  lemma {:induction false} LeastDefaultBelow(cluster: Option<Section>, racks: seq<Option<Section>>, n: nat, i: nat)
    requires i < n <= |racks|
    ensures LeastDefault(cluster, racks, n) <= DefaultMaxUnavailable(cluster, racks[i])
  {
    if i < n - 1 { LeastDefaultBelow(cluster, racks, n - 1, i); }
  }

  // ---- What the default is worth ----------------------------------------------------------------

  /** The factor a namespace really runs with: the number written, or the server's default. */
  function Factor(m: Section): int {
    if FACTOR in m && m[FACTOR].Num? then m[FACTOR].number.value.Floor else DEFAULT_FACTOR
  }

  lemma ParsedIsReal(entry: Val)
    requires CeRules.NamespaceOk(entry)
    ensures ParsedFactor(entry.entries) == Factor(entry.entries)
  {
  }

  lemma EffectiveAdmissible(cluster: Option<Section>, rack: Option<Section>)
    requires (cluster.Some? ==> CeRules.Admissible(cluster.value)) && (rack.Some? ==> CeRules.Admissible(rack.value))
    ensures EffectiveConfig(cluster, rack).Some? ==> CeRules.Admissible(EffectiveConfig(cluster, rack).value)
  {
    if cluster.Some? && rack.Some? { CeRules.RackMergeAdmissible(cluster.value, rack.value); }
  }

  /** The cluster-wide default stays below every replicated namespace's factor, in every rack. */
  lemma DefaultBelowFactor(cluster: Option<Section>, racks: seq<Option<Section>>, i: nat, j: nat)
    requires (cluster.Some? ==> CeRules.Admissible(cluster.value)) && i < |racks|
    requires racks[i].Some? ==> CeRules.Admissible(racks[i].value)
    requires j < |Namespaces(EffectiveConfig(cluster, racks[i]))|
    ensures var entry := Namespaces(EffectiveConfig(cluster, racks[i]))[j];
            entry.Map? && (Factor(entry.entries) >= 2 ==> LeastDefault(cluster, racks, |racks|) < Factor(entry.entries))
  {
    var effective := EffectiveConfig(cluster, racks[i]);
    EffectiveAdmissible(cluster, racks[i]);
    var list := Namespaces(effective);
    assert CeRules.NamespaceOk(list[j]);
    ParsedIsReal(list[j]);
    LeastIsLeast(list, |list|);
    LeastDefaultBelow(cluster, racks, |racks|, i);
  }

  lemma SomeSurvive(copies: set<nat>, evicted: set<nat>)
    requires |evicted| < |copies|
    ensures copies - evicted != {}
  {
    var both := copies * evicted;
    assert copies == both + (copies - evicted) && evicted == both + (evicted - copies);
    assert |copies| == |both| + |copies - evicted| && |evicted| == |both| + |evicted - copies|;
  }

  /** Evicting as many nodes as the budget allows always leaves a copy. */
  ghost predicate KeepsData(budget: int, factor: int) {
    forall copies: set<nat>, evicted: set<nat> :: |copies| == factor && |evicted| <= budget ==> copies - evicted != {}
  }

  /**
    With no budget set, whatever nodes hold the copies of a partition, evicting as many pods as
    the cluster-wide default allows leaves a copy exactly when the namespace keeps at least two.
   */
  lemma DefaultKeepsDataExactly(cluster: Option<Section>, racks: seq<Option<Section>>, i: nat, j: nat)
    requires (cluster.Some? ==> CeRules.Admissible(cluster.value)) && i < |racks|
    requires racks[i].Some? ==> CeRules.Admissible(racks[i].value)
    requires j < |Namespaces(EffectiveConfig(cluster, racks[i]))|
    ensures var entry := Namespaces(EffectiveConfig(cluster, racks[i]))[j];
            entry.Map? && (KeepsData(Max(LeastDefault(cluster, racks, |racks|), 1), Factor(entry.entries)) <==>
                           Factor(entry.entries) >= 2)
  {
    DefaultBelowFactor(cluster, racks, i, j);
    var factor := Factor(Namespaces(EffectiveConfig(cluster, racks[i]))[j].entries);
    var budget := Max(LeastDefault(cluster, racks, |racks|), 1);
    EffectiveAdmissible(cluster, racks[i]);
    assert CeRules.NamespaceOk(Namespaces(EffectiveConfig(cluster, racks[i]))[j]);
    if factor >= 2 {
      forall copies: set<nat>, evicted: set<nat> | |copies| == factor && |evicted| <= budget
        ensures copies - evicted != {}
      {
        SomeSurvive(copies, evicted);
      }
    } else {
      var copies: set<nat> := {0};
      assert |copies| == factor && copies - copies == {};
    }
  }

  // ---- And when it is the best there is --------------------------------------------------------------

  ghost predicate Listed(cluster: Option<Section>, racks: seq<Option<Section>>, i: nat, j: nat) {
    i < |racks| && j < |Namespaces(EffectiveConfig(cluster, racks[i]))|
  }

  ghost function FactorAt(cluster: Option<Section>, racks: seq<Option<Section>>, i: nat, j: nat): int
    requires Listed(cluster, racks, i, j)
  {
    var entry := Namespaces(EffectiveConfig(cluster, racks[i]))[j];
    if entry.Map? then Factor(entry.entries) else DEFAULT_FACTOR
  }

  /** Evictions within the budget leave a copy of every namespace that is replicated at all. */
  ghost predicate KeepsAll(cluster: Option<Section>, racks: seq<Option<Section>>, budget: int) {
    forall i: nat, j: nat :: Listed(cluster, racks, i, j) && FactorAt(cluster, racks, i, j) >= 2 ==>
      KeepsData(budget, FactorAt(cluster, racks, i, j))
  }

  ghost predicate Largest(cluster: Option<Section>, racks: seq<Option<Section>>, budget: int) {
    KeepsAll(cluster, racks, budget) && forall b :: b > budget ==> !KeepsAll(cluster, racks, b)
  }

  ghost predicate AllAdmissible(cluster: Option<Section>, racks: seq<Option<Section>>) {
    && (cluster.Some? ==> CeRules.Admissible(cluster.value))
    && forall i :: 0 <= i < |racks| && racks[i].Some? ==> CeRules.Admissible(racks[i].value)
  }

  ghost predicate SomeFactorTwo(cluster: Option<Section>, racks: seq<Option<Section>>) {
    exists i: nat, j: nat :: Listed(cluster, racks, i, j) && FactorAt(cluster, racks, i, j) == 2
  }

  ghost predicate RackReplicates(cluster: Option<Section>, racks: seq<Option<Section>>, i: nat)
    requires i < |racks|
  {
    && Namespaces(EffectiveConfig(cluster, racks[i])) != []
    && forall j: nat :: Listed(cluster, racks, i, j) ==> FactorAt(cluster, racks, i, j) >= 2
  }

  ghost predicate EveryRackReplicates(cluster: Option<Section>, racks: seq<Option<Section>>) {
    racks != [] && forall i :: 0 <= i < |racks| ==> RackReplicates(cluster, racks, i)
  }

  lemma KeepsExactly(budget: int, factor: int)
    requires budget >= 0 && factor >= 0
    ensures KeepsData(budget, factor) <==> budget < factor
  {
    if budget < factor {
      forall copies: set<nat>, evicted: set<nat> | |copies| == factor && |evicted| <= budget
        ensures copies - evicted != {}
      {
        SomeSurvive(copies, evicted);
      }
    } else {
      var copies := Below(factor);
      assert |copies| == factor && |copies| <= budget && copies - copies == {};
    }
  }

  lemma {:induction false} LeastDefaultAttained(cluster: Option<Section>, racks: seq<Option<Section>>, n: nat)
    returns (i: nat)
    requires 0 < n <= |racks|
    ensures i < n && LeastDefault(cluster, racks, n) == DefaultMaxUnavailable(cluster, racks[i])
  {
    var mine := DefaultMaxUnavailable(cluster, racks[n-1]);
    if n == 1 || mine < LeastDefault(cluster, racks, n - 1) {
      i := n - 1;
    } else {
      i := LeastDefaultAttained(cluster, racks, n - 1);
    }
  }

  /** A rack's least factor is that of one of its namespaces, and none is smaller. */
  lemma LeastFactorAt(cluster: Option<Section>, racks: seq<Option<Section>>, i: nat) returns (j: nat)
    requires AllAdmissible(cluster, racks) && i < |racks| && Namespaces(EffectiveConfig(cluster, racks[i])) != []
    ensures Listed(cluster, racks, i, j)
    ensures FactorAt(cluster, racks, i, j) == LeastFactor(EffectiveConfig(cluster, racks[i]))
    ensures forall k: nat :: Listed(cluster, racks, i, k) ==>
              FactorAt(cluster, racks, i, j) <= FactorAt(cluster, racks, i, k)
  {
    EffectiveAdmissible(cluster, racks[i]);
    var list := Namespaces(EffectiveConfig(cluster, racks[i]));
    forall k: nat | k < |list|
      ensures list[k].Map? && ParsedFactor(list[k].entries) == FactorAt(cluster, racks, i, k)
    {
      assert CeRules.NamespaceOk(list[k]);
      ParsedIsReal(list[k]);
    }
    LeastIsLeast(list, |list|);
    assert list[0].Map?;
    j :| 0 <= j < |list| && list[j].Map? && ParsedFactor(list[j].entries) == LeastOf(list, |list|);
  }

  lemma DefaultKeepsAll(cluster: Option<Section>, racks: seq<Option<Section>>)
    requires AllAdmissible(cluster, racks)
    ensures KeepsAll(cluster, racks, Max(LeastDefault(cluster, racks, |racks|), 1))
  {
    forall i: nat, j: nat | Listed(cluster, racks, i, j) && FactorAt(cluster, racks, i, j) >= 2
      ensures KeepsData(Max(LeastDefault(cluster, racks, |racks|), 1), FactorAt(cluster, racks, i, j))
    {
      DefaultKeepsDataExactly(cluster, racks, i, j);
    }
  }

  lemma NotKept(cluster: Option<Section>, racks: seq<Option<Section>>, i: nat, j: nat, budget: int)
    requires Listed(cluster, racks, i, j) && 2 <= FactorAt(cluster, racks, i, j) <= budget
    ensures !KeepsAll(cluster, racks, budget)
  {
    KeepsExactly(budget, FactorAt(cluster, racks, i, j));
  }

  lemma NothingAbove(cluster: Option<Section>, racks: seq<Option<Section>>, budget: int)
    requires AllAdmissible(cluster, racks) && budget > Max(LeastDefault(cluster, racks, |racks|), 1)
    requires SomeFactorTwo(cluster, racks) || EveryRackReplicates(cluster, racks)
    ensures !KeepsAll(cluster, racks, budget)
  {
    if SomeFactorTwo(cluster, racks) {
      var i: nat, j: nat :| Listed(cluster, racks, i, j) && FactorAt(cluster, racks, i, j) == 2;
      NotKept(cluster, racks, i, j, budget);
    } else {
      var i := LeastDefaultAttained(cluster, racks, |racks|);
      assert RackReplicates(cluster, racks, i);
      var j := LeastFactorAt(cluster, racks, i);
      NotKept(cluster, racks, i, j, budget);
    }
  }

  /** A rack without namespaces, or with one that keeps a single copy, brings the default down to one. */
  lemma DefaultIsOne(cluster: Option<Section>, racks: seq<Option<Section>>)
    requires AllAdmissible(cluster, racks) && !EveryRackReplicates(cluster, racks)
    ensures Max(LeastDefault(cluster, racks, |racks|), 1) == 1
  {
    if racks != [] {
      var i :| 0 <= i < |racks| && !RackReplicates(cluster, racks, i);
      LeastDefaultBelow(cluster, racks, |racks|, i);
      if Namespaces(EffectiveConfig(cluster, racks[i])) != [] {
        var j := LeastFactorAt(cluster, racks, i);
        var k: nat :| Listed(cluster, racks, i, k) && FactorAt(cluster, racks, i, k) < 2;
      }
    }
  }

  /**
    The default is the largest budget that keeps a copy of every replicated namespace if and only if
    some namespace keeps exactly two copies, or every rack lists namespaces and replicates all of them.
   */
  lemma DefaultIsLargestExactly(cluster: Option<Section>, racks: seq<Option<Section>>)
    requires AllAdmissible(cluster, racks)
    ensures Largest(cluster, racks, Max(LeastDefault(cluster, racks, |racks|), 1)) <==>
            SomeFactorTwo(cluster, racks) || EveryRackReplicates(cluster, racks)
  {
    DefaultKeepsAll(cluster, racks);
    if SomeFactorTwo(cluster, racks) || EveryRackReplicates(cluster, racks) {
      forall b | b > Max(LeastDefault(cluster, racks, |racks|), 1) ensures !KeepsAll(cluster, racks, b) {
        NothingAbove(cluster, racks, b);
      }
    } else {
      DefaultIsOne(cluster, racks);
      forall i: nat, j: nat | Listed(cluster, racks, i, j) && FactorAt(cluster, racks, i, j) >= 2
        ensures KeepsData(2, FactorAt(cluster, racks, i, j))
      {
        KeepsExactly(2, FactorAt(cluster, racks, i, j));
      }
      assert KeepsAll(cluster, racks, 2);
    }
  }

  /** A rack runs what it sets itself, and the cluster's config at every path it says nothing about. */
  lemma EffectiveAnswers(cluster: Section, rack: Section, p: seq<string>)
    ensures EffectiveConfig(Some(cluster), Some(rack)).Some?
    ensures LaidOver(Map(cluster), Map(rack), Map(EffectiveConfig(Some(cluster), Some(rack)).value), p)
    ensures EffectiveConfig(Some(cluster), None) == Some(cluster) && EffectiveConfig(None, Some(rack)) == Some(rack)
  {
    MergeAnswers(Map(cluster), Map(rack), p);
  }

  /** A factor of a known type and range is read as it is; every other one counts as two. */
  lemma ParsedFactorExactly(m: Section)
    ensures var known := "replication-factor" in m && m["replication-factor"].Num?
                         && m["replication-factor"].number.kind in {Kind.Int, Int32, Int64, Float64};
            && (!known ==> ParsedFactor(m) == 2)
            && (known && -2147483648.0 <= m["replication-factor"].number.value < 1.0 ==> ParsedFactor(m) == 2)
            && (known && 1.0 <= m["replication-factor"].number.value < 2147483648.0 ==>
                  ParsedFactor(m) as real <= m["replication-factor"].number.value < (ParsedFactor(m) + 1) as real)
  {
  }

  /** With no budget set, an admitted cluster never lets more than three pods go. */
  lemma DefaultAtMostThree(cluster: Option<Section>, racks: seq<Option<Section>>)
    requires AllAdmissible(cluster, racks)
    ensures 1 <= Max(LeastDefault(cluster, racks, |racks|), 1) <= 3
  {
    if racks != [] {
      var i := LeastDefaultAttained(cluster, racks, |racks|);
      if Namespaces(EffectiveConfig(cluster, racks[i])) != [] {
        var j := LeastFactorAt(cluster, racks, i);
        EffectiveAdmissible(cluster, racks[i]);
        assert CeRules.NamespaceOk(Namespaces(EffectiveConfig(cluster, racks[i]))[j]);
      }
    }
  }
}
