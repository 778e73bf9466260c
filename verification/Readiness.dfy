/**
  The readiness check in front of a scale-down. It counts the listed pods whose name parses
  to a surviving ordinal and that are ready. A foreign pod under the rack's labels is counted
  too, and so is a name that does not parse, as ordinal zero.
 */
module Readiness {
  import opened Text
  import opened Collections
  import opened Reclaim

  /** `ordinal` is what the pod's name parses to; `own` says it is the StatefulSet's pod of that ordinal. */
  datatype PodView = PodView(ordinal: nat, ready: bool, own: bool)

  predicate Counted(p: PodView, target: nat) { p.ordinal < target && p.ready }

  /** Every surviving ordinal has its own ready pod in the list. */
  ghost predicate AllReadyBelow(pods: seq<PodView>, target: nat) {
    forall o: nat :: o < target ==> PodView(o, true, true) in pods
  }

  ghost function Missing(pods: seq<PodView>, target: nat): set<nat> {
    set o | o in Below(target) && PodView(o, true, true) !in pods
  }

  /** The surviving ordinals whose own pod is ready, among the first n. */
  ghost function OwnReady(pods: seq<PodView>, n: nat, target: nat): set<nat>
    requires n <= |pods|
  {
    if n == 0 then {}
    else if Counted(pods[n-1], target) && pods[n-1].own then OwnReady(pods, n - 1, target) + {pods[n-1].ordinal}
    else OwnReady(pods, n - 1, target)
  }

  /** How many of the first n are counted without adding a survivor: foreign pods and repetitions. */
  ghost function Surplus(pods: seq<PodView>, n: nat, target: nat): nat
    requires n <= |pods|
  {
    if n == 0 then 0
    else
      var p := pods[n-1];
      Surplus(pods, n - 1, target)
      + if Counted(p, target) && (!p.own || p.ordinal in OwnReady(pods, n - 1, target)) then 1 else 0
  }

  lemma {:induction false} OwnReadyExactly(pods: seq<PodView>, n: nat, target: nat)
    requires n <= |pods|
    ensures forall o: nat :: o in OwnReady(pods, n, target) <==> o < target && PodView(o, true, true) in pods[..n]
  {
    if n > 0 {
      OwnReadyExactly(pods, n - 1, target);
      assert pods[..n] == pods[..n-1] + [pods[n-1]];
    }
  }

  lemma OwnAndMissing(pods: seq<PodView>, target: nat)
    ensures |OwnReady(pods, |pods|, target)| + |Missing(pods, target)| == target
  {
    var ready, missing := OwnReady(pods, |pods|, target), Missing(pods, target);
    OwnReadyExactly(pods, |pods|, target);
    assert pods[..|pods|] == pods;
    assert Below(target) == ready + missing && ready !! missing;
  }

  /** Nothing is counted twice and nothing foreign is counted. */
  ghost predicate Clean(pods: seq<PodView>, target: nat) {
    && (forall p :: p in pods && Counted(p, target) ==> p.own)
    && forall i, j :: 0 <= i < j < |pods| && Counted(pods[i], target) && Counted(pods[j], target) ==>
         pods[i].ordinal != pods[j].ordinal
  }

  lemma {:induction false} SurplusExactly(pods: seq<PodView>, n: nat, target: nat)
    requires n <= |pods|
    ensures Surplus(pods, n, target) == 0 <==> Clean(pods[..n], target)
  {
    if n > 0 {
      SurplusExactly(pods, n - 1, target);
      CleanNext(pods, n - 1, target);
    }
  }

  lemma CleanNext(pods: seq<PodView>, n: nat, target: nat)
    requires n < |pods|
    ensures Clean(pods[..n+1], target) <==>
            && Clean(pods[..n], target)
            && (Counted(pods[n], target) ==>
                  pods[n].own && (Clean(pods[..n], target) ==> pods[n].ordinal !in OwnReady(pods, n, target)))
  {
    var a, b, p := pods[..n], pods[..n+1], pods[n];
    OwnReadyExactly(pods, n, target);
    assert b == a + [p];
    if Clean(b, target) {
      assert forall x :: x in a ==> x in b;
      assert forall i :: 0 <= i < n ==> a[i] == b[i];
      if Counted(p, target) {
        assert b[n] == p && p in b;
        assert forall i :: 0 <= i < n && Counted(b[i], target) ==> b[i].ordinal != p.ordinal;
        assert Counted(PodView(p.ordinal, true, true), target);
      }
    }
    if Clean(a, target) && (Counted(p, target) ==> p.own && p.ordinal !in OwnReady(pods, n, target)) {
      forall i, j | 0 <= i < j < |b| && Counted(b[i], target) && Counted(b[j], target)
        ensures b[i].ordinal != b[j].ordinal
      {
        if j == n {
          assert a[i] == b[i] && a[i] in a;
          assert a[i] == PodView(b[i].ordinal, true, true);
        } else {
          assert a[i] == b[i] && a[j] == b[j];
        }
      }
    }
  }

  /**
    The check lets a scale-down pass exactly when the surplus makes up for the missing survivors.
    So it means what it says, every survivor ready, whenever nothing foreign or repeated is
    counted; and it errs exactly when something is missing and the surplus covers it.
   */
  lemma PassesExactly(pods: seq<PodView>, target: nat)
    ensures AllReadyBelow(pods, target) <==> Missing(pods, target) == {}
    ensures AllReadyBelow(pods, target) ==> Enough(pods, target)
    ensures Enough(pods, target) && !AllReadyBelow(pods, target) <==>
            0 < |Missing(pods, target)| <= Surplus(pods, |pods|, target)
    ensures Clean(pods, target) ==> (Enough(pods, target) <==> AllReadyBelow(pods, target))
  {
    SurplusExactly(pods, |pods|, target);
    assert pods[..|pods|] == pods;
    if Missing(pods, target) == {} {
      forall o: nat | o < target ensures PodView(o, true, true) in pods {
        assert o in Below(target) && o !in Missing(pods, target);
      }
    } else {
      var o :| o in Missing(pods, target);
      assert |Missing(pods, target)| > 0;
    }
  }

  ghost predicate Enough(pods: seq<PodView>, target: nat) { |Missing(pods, target)| <= Surplus(pods, |pods|, target) }

  lemma CountNext(pods: seq<PodView>, i: nat, target: nat)
    requires i < |pods|
    ensures |OwnReady(pods, i + 1, target)| + Surplus(pods, i + 1, target) ==
            |OwnReady(pods, i, target)| + Surplus(pods, i, target) + if Counted(pods[i], target) then 1 else 0
  {
    var ready := OwnReady(pods, i, target);
    if pods[i].ordinal in ready { assert ready + {pods[i].ordinal} == ready; }
  }

  method CheckScaleDownReadiness(pods: seq<PodView>, target: nat) returns (deferred: bool)
    ensures deferred <==> !Enough(pods, target)
  {
    var readyCount := 0;
    for i := 0 to |pods|
      invariant readyCount == |OwnReady(pods, i, target)| + Surplus(pods, i, target)
    {
      CountNext(pods, i, target);
      if pods[i].ordinal < target && pods[i].ready {
        readyCount := readyCount + 1;
      }
    }
    OwnAndMissing(pods, target);
    return readyCount < target;
  }

  // ---- Names -------------------------------------------------------------------------------

  /** The number after the last dash; zero for a name that has none. */
  function PodOrdinal(name: string): nat {
    var r := RackPodOrdinal(name);
    if r.Some? && r.value >= 0 then r.value else 0
  }

  ghost function Viewed(sts: string, name: string, ready: bool): PodView {
    PodView(PodOrdinal(name), ready, name == PodName(sts, PodOrdinal(name)))
  }

  lemma OwnViewed(sts: string, ordinal: nat, ready: bool)
    requires ordinal <= INT64_MAX
    ensures Viewed(sts, PodName(sts, ordinal), ready) == PodView(ordinal, ready, true)
  {
    PodOrdinalRoundTrip(sts, ordinal);
  }

  /** A ready foreign pod whose name does not parse stands in for pod zero. */
  lemma StrayStandsIn(sts: string, stray: string)
    requires RackPodOrdinal(stray).None? && stray != PodName(sts, 0)
    ensures var pods := [Viewed(sts, PodName(sts, 1), true), Viewed(sts, stray, true)];
            Enough(pods, 2) && !AllReadyBelow(pods, 2)
  {
    OwnViewed(sts, 1, true);
    var pods := [Viewed(sts, PodName(sts, 1), true), Viewed(sts, stray, true)];
    assert pods[1] == PodView(0, true, false);
    assert PodView(0, true, true) !in pods;
    assert Missing(pods, 2) <= {0} by { assert PodView(1, true, true) in pods; }
    SubsetOfSameSize(Missing(pods, 2), {0});
    assert Surplus(pods, 1, 2) == 0;
    assert Surplus(pods, 2, 2) == 1;
  }
}
