/**
  How a cluster's pods are spread over its racks, and what follows: every pod is a mesh seed
  exactly once, and a budget admission accepts is the budget the reconciler writes.
 */
module RackSizes {
  import opened Text
  import opened Collections
  import opened Sizes
  import opened PvcNames

  /** Whole division, with the remainder going to the first racks. */
  function RackSize(size: nat, racks: nat, i: nat): nat
    requires i < racks
  {
    size / racks + if i < size % racks then 1 else 0
  }

  ghost function Total(size: nat, racks: nat, n: nat): nat
    requires n <= racks
  {
    if n == 0 then 0 else Total(size, racks, n - 1) + RackSize(size, racks, n - 1)
  }

  lemma {:induction false} TotalSoFar(size: nat, racks: nat, n: nat)
    requires n <= racks && racks > 0
    ensures Total(size, racks, n) == n * (size / racks) + if n < size % racks then n else size % racks
  {
    if n > 0 {
      TotalSoFar(size, racks, n - 1);
      OneMoreTime(n, size / racks);
    }
  }

  lemma OneMoreTime(n: nat, q: nat)
    requires n > 0
    ensures n * q == (n - 1) * q + q
  {
  }

  /**
    No pod is lost or added, no two racks differ by more than one, and no rack is empty while there
    are pods to go round.
   */
  lemma RackConservation(size: nat, racks: nat)
    requires racks > 0
    ensures Total(size, racks, racks) == size
    ensures forall i, j :: 0 <= i < racks && 0 <= j < racks ==> RackSize(size, racks, i) <= RackSize(size, racks, j) + 1
    ensures racks <= size ==> forall i :: 0 <= i < racks ==> RackSize(size, racks, i) >= 1
  {
    TotalSoFar(size, racks, racks);
    assert size == racks * (size / racks) + size % racks;
    if racks <= size { assert size / racks >= 1; }
  }

  // ---- Mesh seeds ------------------------------------------------------------------------

  function SeedName(cluster: string, rack: nat, ordinal: nat): string {
    StatefulSetName(cluster, rack) + "-" + Itoa(ordinal)
  }

  /** A rack and an ordinal have a name of their own. */
  lemma SeedNamesDiffer(cluster: string, r: nat, o: nat, r': nat, o': nat)
    requires SeedName(cluster, r, o) == SeedName(cluster, r', o')
    ensures r == r' && o == o'
  {
    var x, y := Itoa(r) + "-" + Itoa(o), Itoa(r') + "-" + Itoa(o');
    assert SeedName(cluster, r, o) == cluster + "-" + x && SeedName(cluster, r', o') == cluster + "-" + y;
    assert (cluster + "-" + x)[|cluster|+1..] == x && (cluster + "-" + y)[|cluster|+1..] == y;
    DashedPair(Itoa(r), Itoa(o), Itoa(r'), Itoa(o'));
    ItoaInjective(r, r');
    ItoaInjective(o, o');
  }

  lemma DashedPair(a: string, b: string, c: string, d: string)
    requires AllDigits(a) && AllDigits(b) && AllDigits(c) && AllDigits(d) && a + "-" + b == c + "-" + d
    ensures a == c && b == d
  {
    var s, t := a + "-" + b, c + "-" + d;
    assert s[|a|] == '-' && t[|c|] == '-';
    assert s[..|a|] == a && t[..|c|] == c && s[|a|+1..] == b && t[|c|+1..] == d;
  }

  /** The names come from the first n racks, and below the sizes given there. */
  ghost predicate FromRacks(names: seq<string>, cluster: string, size: nat, racks: seq<nat>, n: nat)
    requires n <= |racks|
  {
    forall x :: x in names ==>
      exists i, o: nat :: 0 <= i < n && o < RackSize(size, |racks|, i) && x == SeedName(cluster, racks[i], o)
  }

  /** One mesh seed per pod of the cluster: exactly `size` names, all different. */
  method AllPodNames(cluster: string, size: nat, racks: seq<nat>) returns (names: seq<string>)
    requires racks != [] && NoDup(racks)
    ensures |names| == size && NoDup(names)
    ensures forall i, o: nat :: 0 <= i < |racks| && o < RackSize(size, |racks|, i) ==>
              SeedName(cluster, racks[i], o) in names
  {
    names := [];
    for i := 0 to |racks|
      invariant |names| == Total(size, |racks|, i) && NoDup(names) && FromRacks(names, cluster, size, racks, i)
      invariant forall k, o: nat :: 0 <= k < i && o < RackSize(size, |racks|, k) ==>
                SeedName(cluster, racks[k], o) in names
    {
      ghost var before := names;
      names := AddRack(names, cluster, size, racks, i);
      RackAdded(before, names, cluster, size, racks, i);
    }
    RackConservation(size, |racks|);
  }

  /** The names of one rack's pods behind those of the racks before it. */
  method AddRack(before: seq<string>, cluster: string, size: nat, racks: seq<nat>, i: nat) returns (names: seq<string>)
    requires i < |racks| && NoDup(racks) && NoDup(before) && FromRacks(before, cluster, size, racks, i)
    ensures |names| == |before| + RackSize(size, |racks|, i) && NoDup(names) && before <= names
    ensures RackOnly(before, names, cluster, racks[i], RackSize(size, |racks|, i))
  {
    names := before;
    for j := 0 to RackSize(size, |racks|, i)
      invariant |names| == |before| + j && NoDup(names) && before <= names
      invariant RackOnly(before, names, cluster, racks[i], j)
    {
      var name := SeedName(cluster, racks[i], j);
      NewSeed(before, names, cluster, size, racks, i, j);
      NoDupAppend(names, name);
      OneMoreSeed(before, names, cluster, racks[i], j);
      names := names + [name];
    }
  }

  lemma OneMoreSeed(before: seq<string>, names: seq<string>, cluster: string, rack: nat, n: nat)
    requires RackOnly(before, names, cluster, rack, n)
    ensures RackOnly(before, names + [SeedName(cluster, rack, n)], cluster, rack, n + 1)
  {
  }

  /** Beyond those before, the names are exactly the rack's first n. */
  ghost predicate RackOnly(before: seq<string>, names: seq<string>, cluster: string, rack: nat, n: nat) {
    && (forall x :: x in names ==> x in before || exists o: nat :: o < n && x == SeedName(cluster, rack, o))
    && forall o: nat :: o < n ==> SeedName(cluster, rack, o) in names
  }

  lemma RackAdded(before: seq<string>, names: seq<string>, cluster: string, size: nat, racks: seq<nat>, i: nat)
    requires i < |racks| && before <= names && FromRacks(before, cluster, size, racks, i)
    requires RackOnly(before, names, cluster, racks[i], RackSize(size, |racks|, i))
    requires forall k, o: nat :: 0 <= k < i && o < RackSize(size, |racks|, k) ==>
              SeedName(cluster, racks[k], o) in before
    ensures FromRacks(names, cluster, size, racks, i + 1)
    ensures forall k, o: nat :: 0 <= k <= i && o < RackSize(size, |racks|, k) ==>
              SeedName(cluster, racks[k], o) in names
  {
    forall x | x in before ensures x in names {
      var j :| 0 <= j < |before| && before[j] == x;
      assert names[j] == x;
    }
  }

  lemma NewSeed(before: seq<string>, names: seq<string>, cluster: string, size: nat, racks: seq<nat>, i: nat, j: nat)
    requires i < |racks| && NoDup(racks) && FromRacks(before, cluster, size, racks, i)
    requires RackOnly(before, names, cluster, racks[i], j)
    ensures SeedName(cluster, racks[i], j) !in names
  {
    var name := SeedName(cluster, racks[i], j);
    if name in before {
      var k, o: nat :| 0 <= k < i && o < RackSize(size, |racks|, k) && name == SeedName(cluster, racks[k], o);
      SeedNamesDiffer(cluster, racks[i], j, racks[k], o);
    } else if name in names {
      var o: nat :| o < j && name == SeedName(cluster, racks[i], o);
      SeedNamesDiffer(cluster, racks[i], j, racks[i], o);
    }
  }

  // ---- Budgets: admission and reconciler agree ----------------------------------------------

  /** What admission refuses: a budget that would let every pod go at once. */
  predicate Refused(budget: IntOrPercent, size: nat) {
    match budget
    case Int(n) => size > 0 && n >= size
    case Percent(n) => n >= 100
    case Malformed => false
  }

  /** The budget written: percentages untouched, integers held between none and all but one. */
  function ResolvePolicy(configured: Option<IntOrPercent>, fallback: int, size: nat): (r: IntOrPercent)
    ensures configured.None? ==> r == Int(fallback)
    ensures configured.Some? && !configured.value.Int? ==> r == configured.value
  {
    match configured
    case None => Int(fallback)
    case Some(Int(n)) =>
      var capped := if size > 1 && n > size - 1 then size - 1 else n;
      Int(if capped < 0 then 0 else capped)
    case Some(other) => other
  }

  /** A nonnegative integer budget admission accepts for a rack passes the clamp unchanged and leaves a pod up. */
  lemma AdmittedBudgetStands(size: nat, racks: nat, i: nat, n: nat, fallback: int)
    requires i < racks && racks <= size && !Refused(Int(n), RackSize(size, racks, i))
    ensures ResolvePolicy(Some(Int(n)), fallback, RackSize(size, racks, i)) == Int(n) && n < RackSize(size, racks, i)
  {
    RackConservation(size, racks);
  }

  /** Even unadmitted, no integer budget lets a whole rack of several pods go. */
  lemma ClampLeavesOne(n: int, fallback: int, size: nat)
    requires size > 1
    ensures 0 <= ResolvePolicy(Some(Int(n)), fallback, size).value < size
    ensures ResolvePolicy(Some(Int(n)), fallback, size) == Int(n) <==> n >= 0 && !Refused(Int(n), size)
  {
  }

  function Distance(a: int, b: int): nat { if a < b then b - a else a - b }

  /** The integer written is the nearest to the configured one that evicts no fewer than none and leaves a pod. */
  lemma ClampIsNearest(n: int, fallback: int, size: nat, m: int)
    requires size > 1 && 0 <= m < size
    ensures var r := ResolvePolicy(Some(Int(n)), fallback, size).value;
            0 <= r < size && Distance(r, n) <= Distance(m, n)
  {
  }

  /** How many of `size` pods a budget lets go: Kubernetes rounds percentages up. */
  function Allowed(budget: IntOrPercent, size: nat): int {
    match budget
    case Int(n) => n
    case Percent(p) => (p * size + 99) / 100
    case Malformed => 0
  }

  lemma RoundsUpToAll(p: nat, size: nat)
    requires size > 0
    ensures Allowed(Percent(p), size) >= size <==> p * size > 100 * (size - 1)
  {
  }

  /**
    What admission lets through leaves a pod up, except a percentage below one hundred that rounds up
    to all of them.
   */
  lemma AdmittedLeavesOneExactly(budget: IntOrPercent, size: nat)
    requires size > 0 && !budget.Malformed? && budget.value >= 0
    ensures !Refused(budget, size) ==>
              (Allowed(budget, size) < size <==> (budget.Percent? ==> budget.value * size <= 100 * (size - 1)))
    ensures Refused(budget, size) ==> Allowed(budget, size) >= size
    ensures budget.Percent? ==> (Refused(budget, size) <==> budget.value * size >= 100 * size)
  {
    if budget.Percent? {
      RoundsUpToAll(budget.value, size);
      PercentOfAll(budget.value, size);
    }
  }

  lemma PercentOfAll(p: nat, size: nat)
    requires size > 0
    ensures p * size >= 100 * size <==> p >= 100
  {
    if p >= 100 { assert (p - 100) * size >= 0; } else { assert (100 - p) * size > 0; }
  }

  /** Ninety-nine percent of ten pods is admitted, and lets all ten go. */
  lemma NinetyNinePercent()
    ensures !Refused(Percent(99), 10) && Allowed(Percent(99), 10) == 10
  {
  }

  /**
    For a rack of at most one pod, or of unknown size, nothing is clamped and no integer refused;
    what is no budget at all is left to another check.
   */
  lemma SmallRacks(n: nat, fallback: int, size: nat)
    requires size <= 1
    ensures ResolvePolicy(Some(Int(n)), fallback, size) == Int(n)
    ensures !Refused(Int(n), 0) && !Refused(Malformed, size)
  {
  }
}
