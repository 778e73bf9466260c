/**
  Pods of one rack as the rolling restart sees them: the three hashes stamped on a
  pod, the hashes its StatefulSet template asks for, which pods a pass selects, and
  the guard that holds the next batch while the previous one is still down.
 */
module RackPods {
  import opened Collections

  datatype Phase = Pending | Running | Succeeded | Failed | Unknown

  /** The stamped annotations; the empty string stands for an absent annotation. */
  datatype Hashes = Hashes(config: string, podSpec: string, storage: string)

  datatype Pod = Pod(ordinal: nat, phase: Phase, readyCondition: bool, terminating: bool,
                     image: string, hashes: Hashes)
  {
    predicate Ready() { phase.Running? && readyCondition }

    predicate Unhealthy() { phase.Pending? || phase.Failed? }
  }

  datatype ManagementPolicy = OrderedReady | Parallel

  /** What a rack is being restarted towards. */
  datatype Target = Target(hashes: Hashes, image: string, replicas: nat, policy: ManagementPolicy)

  datatype Comparison = Comparison(configMismatch: bool, stale: bool, storageUnknown: bool)

  predicate PodSpecMismatch(have: Hashes, want: Hashes) {
    want.podSpec != "" && have.podSpec != want.podSpec
  }

  predicate StorageMismatch(have: Hashes, want: Hashes) {
    want.storage != "" && have.storage != "" && have.storage != want.storage
  }

  function ComparePodHashes(have: Hashes, want: Hashes): (r: Comparison)
    ensures have == want ==> !r.stale
    ensures r.configMismatch ==> r.stale
    ensures r.stale && r.storageUnknown ==> r.configMismatch || PodSpecMismatch(have, want)
  {
    var configMismatch := have.config != want.config;
    Comparison(configMismatch,
               configMismatch || PodSpecMismatch(have, want) || StorageMismatch(have, want),
               want.storage != "" && have.storage == "")
  }

  /** Adopting the wanted storage hash settles it: the pod is stale no more than before, and nothing is unknown. */
  lemma AdoptingSettles(have: Hashes, want: Hashes)
    requires ComparePodHashes(have, want).storageUnknown
    ensures var after := ComparePodHashes(have.(storage := want.storage), want);
            !after.storageUnknown && after.stale == ComparePodHashes(have, want).stale
  {
  }

  predicate Stale(pod: Pod, target: Target) {
    ComparePodHashes(pod.hashes, target.hashes).stale
  }

  /** Warm restart needs exec access, a Ready pod, the wanted image and the wanted pod spec. */
  predicate ShouldWarmRestart(pod: Pod, target: Target, execAvailable: bool) {
    execAvailable && pod.Ready() && pod.image == target.image && !PodSpecMismatch(pod.hashes, target.hashes)
  }

  // ---- Selection -------------------------------------------------------------

  function CountUnhealthy(pods: seq<Pod>): nat {
    if pods == [] then 0
    else CountUnhealthy(pods[..|pods|-1]) + if pods[|pods|-1].Unhealthy() then 1 else 0
  }

  /** The first `maxIgnorable` unhealthy pods and every stuck pod are passed over. */
  predicate Skipped(pods: seq<Pod>, i: nat, maxIgnorable: nat, stuck: set<nat>)
    requires i < |pods|
  {
    (pods[i].Unhealthy() && CountUnhealthy(pods[..i]) < maxIgnorable) || pods[i].ordinal in stuck
  }

  function Selected(pods: seq<Pod>, n: nat, target: Target, maxIgnorable: nat, stuck: set<nat>): (r: seq<Pod>)
    requires n <= |pods|
    ensures |r| <= n
  {
    if n == 0 then []
    else
      var rest := Selected(pods, n - 1, target, maxIgnorable, stuck);
      if Skipped(pods, n - 1, maxIgnorable, stuck) || !Stale(pods[n-1], target) then rest
      else rest + [pods[n-1]]
  }

  /** A pod is selected exactly when it is stale and not passed over. */
  lemma {:induction false} SelectedExactly(pods: seq<Pod>, n: nat, target: Target, maxIgnorable: nat, stuck: set<nat>)
    requires n <= |pods|
    ensures forall p :: p in Selected(pods, n, target, maxIgnorable, stuck) <==>
                        exists i: nat :: i < n && pods[i] == p && Stale(p, target)
                                         && !Skipped(pods, i, maxIgnorable, stuck)
  {
    if n > 0 { SelectedExactly(pods, n - 1, target, maxIgnorable, stuck); }
  }

  predicate Ailing(pod: Pod) { pod.phase == Pending || pod.phase == Failed }

  /** How many of the first n pods are ailing, and how many of those are passed over for it. */
  ghost function CountAiling(pods: seq<Pod>, n: nat): nat
    requires n <= |pods|
  {
    if n == 0 then 0 else CountAiling(pods, n - 1) + if Ailing(pods[n-1]) then 1 else 0
  }

  ghost function CountPassedOver(pods: seq<Pod>, n: nat, maxIgnorable: nat): nat
    requires n <= |pods|
  {
    if n == 0 then 0
    else CountPassedOver(pods, n - 1, maxIgnorable) + if Skipped(pods, n - 1, maxIgnorable, {}) then 1 else 0
  }

  /**
    Of the ailing pods exactly as many as may be ignored are passed over, the first ones; besides them
    only stuck pods are.
   */
  lemma {:induction false} PassedOverExactly(pods: seq<Pod>, n: nat, maxIgnorable: nat, stuck: set<nat>)
    requires n <= |pods|
    ensures CountPassedOver(pods, n, maxIgnorable) ==
            if CountAiling(pods, n) < maxIgnorable then CountAiling(pods, n) else maxIgnorable
    ensures CountUnhealthy(pods[..n]) == CountAiling(pods, n)
    ensures forall i :: 0 <= i < n ==>
              && (Skipped(pods, i, maxIgnorable, stuck) <==>
                  Skipped(pods, i, maxIgnorable, {}) || pods[i].ordinal in stuck)
              && (Skipped(pods, i, maxIgnorable, {}) <==> Ailing(pods[i]) && CountAiling(pods, i) < maxIgnorable)
  {
    if n > 0 {
      PassedOverExactly(pods, n - 1, maxIgnorable, stuck);
      CountUnhealthyPrefix(pods, n - 1);
    }
  }

  lemma {:induction false} CountUnhealthyPrefix(pods: seq<Pod>, i: nat)
    requires i < |pods|
    ensures CountUnhealthy(pods[..i+1]) == CountUnhealthy(pods[..i]) + if pods[i].Unhealthy() then 1 else 0
  {
    assert pods[..i+1][..i] == pods[..i];
  }

  /**
    One scan of the rack's pods. Returns the pods to restart in list order, whether a
    config-hash change is among the reasons, and the pods to adopt: up to date on
    everything their creator stamped, but lacking a storage hash.
   */
  method SelectPodsToRestart(pods: seq<Pod>, target: Target, maxIgnorable: nat, stuck: set<nat>)
    returns (selected: seq<Pod>, configChanged: bool, adopt: seq<nat>)
    ensures selected == Selected(pods, |pods|, target, maxIgnorable, stuck)
    ensures configChanged <==> exists p :: p in selected && p.hashes.config != target.hashes.config
    ensures forall o :: o in adopt <==>
                        exists i: nat :: i < |pods| && pods[i].ordinal == o && !Skipped(pods, i, maxIgnorable, stuck)
                                         && !Stale(pods[i], target)
                                         && ComparePodHashes(pods[i].hashes, target.hashes).storageUnknown
  {
    selected, configChanged, adopt := [], false, [];
    var ignored := 0;
    for n := 0 to |pods|
      invariant selected == Selected(pods, n, target, maxIgnorable, stuck)
      invariant ignored ==
                (if CountUnhealthy(pods[..n]) < maxIgnorable then CountUnhealthy(pods[..n]) else maxIgnorable)
      invariant configChanged <==> exists p :: p in selected && p.hashes.config != target.hashes.config
      invariant forall o :: o in adopt <==>
                            exists i: nat :: i < n && pods[i].ordinal == o && !Skipped(pods, i, maxIgnorable, stuck)
                                             && !Stale(pods[i], target)
                                             && ComparePodHashes(pods[i].hashes, target.hashes).storageUnknown
    {
      var pod := pods[n];
      CountUnhealthyPrefix(pods, n);
      if pod.Unhealthy() && ignored < maxIgnorable {
        ignored := ignored + 1;
        continue;
      }
      if pod.ordinal in stuck {
        continue;
      }
      var hashes := ComparePodHashes(pod.hashes, target.hashes);
      if hashes.stale {
        selected := selected + [pod];
      } else if hashes.storageUnknown {
        adopt := adopt + [pod.ordinal];
      }
      if hashes.configMismatch {
        configChanged := true;
      }
    }
  }

  // ---- The in-flight guard -----------------------------------------------------

  /** A pod this rack already restarted is not back. */
  predicate InFlight(pods: seq<Pod>, target: Target) {
    || (exists p :: p in pods && (p.terminating || (target.hashes.config != "" && !Stale(p, target) && !p.Ready())))
    || (target.replicas > 0 && !target.policy.OrderedReady? && |pods| < target.replicas)
  }

  /** The pod carries what the target asks for; an absent storage hash is not held against it. */
  predicate Current(have: Hashes, want: Hashes) {
    && have.config == want.config && (want.podSpec == "" || have.podSpec == want.podSpec)
    && (want.storage == "" || have.storage == "" || have.storage == want.storage)
  }

  /** The guard on the pods' own fields. */
  lemma InFlightExactly(pods: seq<Pod>, target: Target)
    ensures InFlight(pods, target) <==>
            || (exists p :: p in pods && p.terminating)
            || (target.hashes.config != "" && exists p :: p in pods && Current(p.hashes, target.hashes)
                                                          && !(p.phase == Running && p.readyCondition))
            || (target.policy == Parallel && |pods| < target.replicas)
  {
    assert forall p: Pod :: Stale(p, target) <==> !Current(p.hashes, target.hashes);
  }

  method RestartInFlight(pods: seq<Pod>, target: Target) returns (inFlight: bool)
    ensures inFlight <==> InFlight(pods, target)
  {
    for i := 0 to |pods|
      invariant forall j :: 0 <= j < i ==> !pods[j].terminating
      invariant forall j :: 0 <= j < i && target.hashes.config != "" ==> Stale(pods[j], target) || pods[j].Ready()
    {
      if pods[i].terminating {
        return true;
      }
      if target.hashes.config == "" || Stale(pods[i], target) {
        continue;
      }
      if !pods[i].Ready() {
        return true;
      }
    }
    return target.replicas > 0 && !target.policy.OrderedReady? && |pods| < target.replicas;
  }

  // ---- The pending queue after a batch -------------------------------------------

  function Names(pods: seq<Pod>): (r: seq<nat>)
    ensures |r| == |pods| && forall i :: 0 <= i < |r| ==> r[i] == pods[i].ordinal
  {
    seq(|pods|, i requires 0 <= i < |pods| => pods[i].ordinal)
  }

  function Without(names: seq<nat>, gone: set<nat>): (r: seq<nat>)
    ensures forall x :: x in r <==> x in names && x !in gone
  {
    if names == [] then []
    else
      var rest := Without(names[..|names|-1], gone);
      if names[|names|-1] in gone then rest else rest + [names[|names|-1]]
  }

  /** Batch members that did not fail, among the first n. */
  function Restarted(batch: seq<nat>, n: nat, failed: seq<nat>): set<nat>
    requires n <= |batch|
  {
    if n == 0 then {}
    else if batch[n-1] in failed then Restarted(batch, n - 1, failed)
    else Restarted(batch, n - 1, failed) + {batch[n-1]}
  }

  lemma {:induction false} RestartedExactly(batch: seq<nat>, n: nat, failed: seq<nat>)
    requires n <= |batch|
    ensures forall x :: x in Restarted(batch, n, failed) <==> x !in failed && x in batch[..n]
  {
    if n > 0 {
      RestartedExactly(batch, n - 1, failed);
      assert batch[..n] == batch[..n-1] + [batch[n-1]];
    }
  }

  lemma {:induction false} RestartedMonotone(batch: seq<nat>, n: nat, m: nat, failed: seq<nat>)
    requires n <= m <= |batch|
    ensures Restarted(batch, n, failed) <= Restarted(batch, m, failed)
    decreases m
  {
    if n < m { RestartedMonotone(batch, n, m - 1, failed); }
  }

  method KeepUnlisted(names: seq<nat>, gone: set<nat>) returns (remaining: seq<nat>)
    ensures remaining == Without(names, gone)
  {
    remaining := [];
    for j := 0 to |names|
      invariant remaining == Without(names[..j], gone)
    {
      assert names[..j+1][..j] == names[..j];
      if names[j] !in gone {
        remaining := remaining + [names[j]];
      }
    }
    assert names[..|names|] == names;
  }

  /** Where the scan of a batch stops: past the first member that brings the successes to the count, or at the end. */
  function StopAt(batch: seq<nat>, failed: seq<nat>, restarted: nat, i: nat): (r: nat)
    requires i <= |batch|
    ensures i <= r <= |batch|
    decreases |batch| - i
  {
    if i == |batch| || (i > 0 && |Restarted(batch, i, failed)| >= restarted) then i
    else StopAt(batch, failed, restarted, i + 1)
  }

  /** What remains pending is what was pending minus the members counted as restarted. */
  method FilterUnrestarted(pending: seq<nat>, failed: seq<nat>, restarted: nat, batch: seq<nat>)
    returns (remaining: seq<nat>)
    ensures remaining == Without(pending, Restarted(batch, StopAt(batch, failed, restarted, 0), failed))
  {
    var done := {};
    var i := 0;
    while i < |batch|
      invariant 0 <= i <= |batch|
      invariant done == Restarted(batch, i, failed)
      invariant StopAt(batch, failed, restarted, 0) == StopAt(batch, failed, restarted, i)
      invariant i > 0 && i < |batch| ==> |done| < restarted
    {
      if batch[i] !in failed {
        done := done + {batch[i]};
      }
      i := i + 1;
      if |done| >= restarted {
        break;
      }
    }
    remaining := KeepUnlisted(pending, done);
  }

  lemma {:induction false} StopFacts(batch: seq<nat>, failed: seq<nat>, restarted: nat, i: nat)
    requires i <= |batch| && restarted >= 1 && (i == 0 || |Restarted(batch, i - 1, failed)| < restarted)
    ensures var k := StopAt(batch, failed, restarted, i);
            |Restarted(batch, k, failed)| <= restarted && (k == |batch| || |Restarted(batch, k, failed)| == restarted)
    decreases |batch| - i
  {
    if !(i == |batch| || (i > 0 && |Restarted(batch, i, failed)| >= restarted)) {
      StopFacts(batch, failed, restarted, i + 1);
    }
  }

  /**
    For a positive count every member that did not fail leaves the queue if and only if there are no
    more of them than counted.
   */
  lemma FilterExactly(batch: seq<nat>, failed: seq<nat>, restarted: nat)
    requires restarted >= 1
    ensures Restarted(batch, StopAt(batch, failed, restarted, 0), failed) == Restarted(batch, |batch|, failed)
            <==> |Restarted(batch, |batch|, failed)| <= restarted
  {
    var k := StopAt(batch, failed, restarted, 0);
    StopFacts(batch, failed, restarted, 0);
    RestartedMonotone(batch, k, |batch|, failed);
    SubsetOfSameSize(Restarted(batch, k, failed), Restarted(batch, |batch|, failed));
  }

  /** A count of zero still drops the first member, unless it failed. */
  lemma ZeroDropsFirst(batch: seq<nat>, failed: seq<nat>)
    requires batch != []
    ensures Restarted(batch, StopAt(batch, failed, 0, 0), failed) == if batch[0] in failed then {} else {batch[0]}
  {
    assert StopAt(batch, failed, 0, 0) == StopAt(batch, failed, 0, 1) == 1;
  }
}
