/**
  Every way the operator makes a rack smaller: scaling a rack down in batches, and
  draining and deleting a rack that left the spec. A log of what was done, and on which
  evidence, lets the invariant speak about every change of every run.
 */
module Shrink {
  import opened Text
  import opened Collections
  import opened Migration
  import opened Sizes
  import opened Readiness

  datatype Sts = Sts(replicas: nat, deleting: bool)

  /** An act and the evidence it was based on. */
  datatype Act =
    | Created(rack: int, replicas: nat)
    | Grown(rack: int, before: nat, after: nat)
    | Shrunk(rack: int, before: nat, after: nat, floor: nat, check: MigrationCheck, pods: seq<PodView>)
    | Deleted(rack: int, replicas: nat)
    | ClaimsDeleted(rack: int, listed: seq<PodView>)

  datatype World = World(sets: map<int, Sts>, claims: set<int>)

  ghost function After(w: World, a: Act): World {
    if !a.Created? && a.rack !in w.sets then w
    else
      match a
      case Created(rack, replicas) => w.(sets := w.sets[rack := Sts(replicas, false)])
      case Grown(rack, _, after) => w.(sets := w.sets[rack := w.sets[rack].(replicas := after)])
      case Shrunk(rack, _, after, _, _, _) => w.(sets := w.sets[rack := w.sets[rack].(replicas := after)])
      case Deleted(rack, _) => w.(sets := w.sets[rack := w.sets[rack].(deleting := true)])
      case ClaimsDeleted(rack, _) => w.(claims := w.claims - {rack})
  }

  ghost function Replay(w: World, log: seq<Act>): World {
    if log == [] then w else After(Replay(w, log[..|log|-1]), log[|log|-1])
  }

  /** What makes an act right in the state it is done in. */
  ghost predicate Justified(w: World, a: Act) {
    match a
    case Created(rack, _) => rack !in w.sets
    case Grown(rack, before, after) => rack in w.sets && w.sets[rack].replicas == before <= after
    case Shrunk(rack, before, after, floor, check, pods) =>
      && rack in w.sets && w.sets[rack].replicas == before
      && check == Answer(false) && Enough(pods, after) && floor <= after < before
    case Deleted(rack, replicas) => rack in w.sets && w.sets[rack].replicas == replicas == 0
    case ClaimsDeleted(rack, listed) => rack in w.sets && w.sets[rack].deleting && listed == []
  }

  ghost predicate AllJustified(w: World, log: seq<Act>) {
    log == [] || (AllJustified(w, log[..|log|-1]) && Justified(Replay(w, log[..|log|-1]), log[|log|-1]))
  }

  /** Every act of a justified log was right when it was done. */
  lemma {:induction false} JustifiedThroughout(w: World, log: seq<Act>, i: nat)
    requires AllJustified(w, log) && i < |log|
    ensures Justified(Replay(w, log[..i]), log[i])
  {
    var front := log[..|log|-1];
    if i < |front| {
      JustifiedThroughout(w, front, i);
      assert front[..i] == log[..i];
    }
  }

  lemma OneMore(w: World, log: seq<Act>, a: Act)
    requires AllJustified(w, log) && Justified(Replay(w, log), a)
    ensures AllJustified(w, log + [a]) && Replay(w, log + [a]) == After(Replay(w, log), a)
  {
    assert (log + [a])[..|log|] == log;
  }

  /** A justified decrease left every survivor ready, if nothing foreign or repeated was counted. */
  lemma SurvivorsReady(w: World, a: Act)
    requires a.Shrunk? && Justified(w, a) && Clean(a.pods, a.after)
    ensures AllReadyBelow(a.pods, a.after)
  {
    PassesExactly(a.pods, a.after);
  }

  function ShrinkTarget(before: nat, floor: nat, batch: int): (r: nat)
    requires floor < before && batch >= 1
    ensures floor <= r < before && r >= before - batch && (r > floor ==> r == before - batch)
  {
    Max(before - batch, floor)
  }

  // ---- The racks -----------------------------------------------------------------------

  class Racks {
    var sets: map<int, Sts>
    var claims: set<int>
    ghost var first: World
    ghost var log: seq<Act>

    /**
      The log accounts for every difference from the first state, and every act in it was justified
      when it was done.
     */
    ghost predicate Valid()
      reads this
    {
      World(sets, claims) == Replay(first, log) && AllJustified(first, log)
    }

    constructor (sets: map<int, Sts>, claims: set<int>)
      ensures Valid() && this.sets == sets && this.claims == claims && log == [] && first == World(sets, claims)
    {
      this.sets := sets;
      this.claims := claims;
      first := World(sets, claims);
      log := [];
    }

    method Create(rack: int, replicas: nat)
      requires Valid() && rack !in sets
      modifies this`sets, this`log
      ensures Valid() && log == old(log) + [Created(rack, replicas)] && sets == old(sets)[rack := Sts(replicas, false)]
    {
      ghost var act := Created(rack, replicas);
      OneMore(first, log, act);
      assert After(World(sets, claims), act) == World(sets[rack := Sts(replicas, false)], claims);
      log := log + [act];
      sets := sets[rack := Sts(replicas, false)];
    }

    method Scale(rack: int, replicas: nat, ghost act: Act)
      requires Valid() && rack in sets && Justified(World(sets, claims), act)
      requires (act.Grown? || act.Shrunk?) && act.rack == rack && act.after == replicas
      modifies this`sets, this`log
      ensures Valid() && log == old(log) + [act] && sets == old(sets)[rack := old(sets)[rack].(replicas := replicas)]
    {
      OneMore(first, log, act);
      log := log + [act];
      sets := sets[rack := sets[rack].(replicas := replicas)];
    }

    method Delete(rack: int)
      requires Valid() && rack in sets && sets[rack].replicas == 0
      modifies this`sets, this`log
      ensures Valid() && log == old(log) + [Deleted(rack, 0)]
      ensures sets == old(sets)[rack := old(sets)[rack].(deleting := true)]
    {
      OneMore(first, log, Deleted(rack, 0));
      log := log + [Deleted(rack, 0)];
      sets := sets[rack := sets[rack].(deleting := true)];
    }

    method DeleteClaims(rack: int, listed: seq<PodView>)
      requires Valid() && rack in sets && sets[rack].deleting && listed == []
      modifies this`claims, this`log
      ensures Valid() && log == old(log) + [ClaimsDeleted(rack, listed)] && claims == old(claims) - {rack}
    {
      OneMore(first, log, ClaimsDeleted(rack, listed));
      log := log + [ClaimsDeleted(rack, listed)];
      claims := claims - {rack};
    }

    /**
      Brings one rack of the spec towards its wanted size. Growing is immediate;
      shrinking needs an answered, quiet migration check and ready survivors, and
      goes one batch at a time.
     */
    method ReconcileReplicas(
        rack: int, rackSize: nat, templateChanged: bool, batch: Option<IntOrPercent>,
        check: MigrationCheck, pods: seq<PodView>, patchOk: bool)
      returns (deferred: bool)
      requires Valid()
      modifies this`sets, this`log
      ensures Valid() && old(log) <= log && rack in sets && sets == old(sets)[rack := sets[rack]]
      ensures rack !in old(sets) ==> !deferred && sets[rack] == Sts(rackSize, false)
      ensures rack in old(sets) && old(sets)[rack].replicas <= rackSize ==>
                && !deferred
                && sets[rack] == if patchOk then old(sets)[rack].(replicas := rackSize) else old(sets)[rack]
      ensures rack in old(sets) && old(sets)[rack].replicas > rackSize ==>
                var before := old(sets)[rack].replicas;
                var after := ShrinkTarget(before, rackSize, ScaleDownBatchSize(batch, before - rackSize));
                var allowed := check == Answer(false) && Enough(pods, after);
                && (deferred <==> !allowed)
                && sets[rack] == old(sets)[rack].(replicas := if allowed && patchOk then after else before)
                && log == if allowed && patchOk then old(log) + [Shrunk(rack, before, after, rackSize, check, pods)]
                          else old(log)
    {
      if rack !in sets {
        Create(rack, rackSize);
        return false;
      }
      if rackSize < sets[rack].replicas {
        deferred := ScaleDown(rack, rackSize, batch, check, pods, patchOk);
        return;
      }
      if (sets[rack].replicas < rackSize || templateChanged) && patchOk {
        Scale(rack, rackSize, Grown(rack, sets[rack].replicas, rackSize));
      }
      return false;
    }

    /** One batch towards a smaller size, if the checks in front of it let it. */
    method ScaleDown(
        rack: int, rackSize: nat, batch: Option<IntOrPercent>, check: MigrationCheck, pods: seq<PodView>, patchOk: bool)
      returns (deferred: bool)
      requires Valid() && rack in sets && rackSize < sets[rack].replicas
      modifies this`sets, this`log
      ensures Valid()
      ensures var before := old(sets)[rack].replicas;
              var after := ShrinkTarget(before, rackSize, ScaleDownBatchSize(batch, before - rackSize));
              var allowed := check == Answer(false) && Enough(pods, after);
              && (deferred <==> !allowed)
              && sets ==
                 (if allowed && patchOk then old(sets)[rack := old(sets)[rack].(replicas := after)] else old(sets))
              && log == if allowed && patchOk then old(log) + [Shrunk(rack, before, after, rackSize, check, pods)]
                        else old(log)
    {
      var before := sets[rack].replicas;
      if check != Answer(false) {
        return true;
      }
      var target := ShrinkTarget(before, rackSize, ScaleDownBatchSize(batch, before - rackSize));
      deferred := CheckScaleDownReadiness(pods, target);
      if deferred {
        return true;
      }
      if patchOk {
        Scale(rack, target, Shrunk(rack, before, target, rackSize, check, pods));
      }
      return false;
    }

    /** One batch towards zero; the rack counts as drained only when it was at zero already. */
    method DrainRemovedRack(
        rack: int, batch: Option<IntOrPercent>, check: MigrationCheck, pods: seq<PodView>, patchOk: bool)
      returns (drained: bool, failed: bool)
      requires Valid() && rack in sets
      requires sets[rack].replicas > 0 ==> check == Answer(false)
      modifies this`sets, this`log
      ensures Valid()
      ensures drained <==> old(sets)[rack].replicas == 0
      ensures drained ==> sets == old(sets) && log == old(log) && !failed
      ensures old(sets)[rack].replicas > 0 ==>
                var before := old(sets)[rack].replicas;
                var after := ShrinkTarget(before, 0, ScaleDownBatchSize(batch, before));
                var allowed := Enough(pods, after);
                && failed == (allowed && !patchOk)
                && sets ==
                   (if allowed && patchOk then old(sets)[rack := old(sets)[rack].(replicas := after)] else old(sets))
                && log == if allowed && patchOk then old(log) + [Shrunk(rack, before, after, 0, check, pods)]
                          else old(log)
    {
      var before := sets[rack].replicas;
      if before == 0 {
        return true, false;
      }
      var target := ShrinkTarget(before, 0, ScaleDownBatchSize(batch, before));
      var deferred := CheckScaleDownReadiness(pods, target);
      if deferred {
        return false, false;
      }
      if !patchOk {
        return false, true;
      }
      Scale(rack, target, Shrunk(rack, before, target, 0, check, pods));
      return false, false;
    }

    /** One removed rack in one pass: drain, or delete, then let go of its claims. */
    method TearDown(rack: int, batch: Option<IntOrPercent>, check: MigrationCheck, blocked: bool, api: Api)
      returns (deferred: bool, failed: bool)
      requires Valid() && rack in sets
      requires Live(sets[rack]) && !blocked ==> check == Answer(false)
      modifies this`sets, this`claims, this`log
      ensures Valid() && old(log) <= log && old(claims) - {rack} <= claims <= old(claims)
      ensures rack in sets && sets == old(sets)[rack := sets[rack]]
      ensures deferred == (Live(old(sets)[rack]) && !failed)
      ensures !failed ==> sets[rack] == Torn(old(sets)[rack], batch, blocked, api.pods)
      ensures failed ==> sets == old(sets) && claims == old(claims)
      ensures rack in old(claims) && rack !in claims ==>
                !Live(old(sets)[rack]) && sets[rack].deleting && api.podsLater == Some([])
    {
      if !sets[rack].deleting && sets[rack].replicas > 0 {
        if blocked {
          return true, false;
        }
        var drained;
        drained, failed := DrainRemovedRack(rack, batch, check, api.pods, api.patchOk);
        return !failed, failed;
      }
      if !sets[rack].deleting {
        if !api.deleteOk {
          return false, true;
        }
        Delete(rack);
      }
      if api.podsLater.None? || api.podsLater.value != [] {
        return false, false;
      }
      DeleteClaims(rack, api.podsLater.value);
      return false, false;
    }

    /** The listed racks that left the spec, and whether one of them still runs pods. */
    method RemovedRacks(listed: seq<int>, current: set<int>) returns (removed: seq<int>, needsDrain: bool)
      requires NoDup(listed) && forall r :: r in listed ==> r in sets
      ensures NoDup(removed) && forall r :: r in removed <==> r in listed && r !in current
      ensures needsDrain <==> exists r :: r in removed && Live(sets[r])
    {
      removed, needsDrain := [], false;
      for i := 0 to |listed|
        invariant NoDup(removed) && forall r :: r in removed <==> r in listed[..i] && r !in current
        invariant needsDrain <==> SomeLive(sets, removed)
      {
        assert listed[..i+1] == listed[..i] + [listed[i]];
        assert listed[i] in listed;
        if listed[i] in current {
          continue;
        }
        OneMoreLive(sets, removed, listed[i]);
        removed := removed + [listed[i]];
        if Live(sets[listed[i]]) {
          needsDrain := true;
        }
      }
      assert listed[..|listed|] == listed;
      SomeLiveExactly(sets, removed);
    }

    /**
      One teardown pass over every rack that left the spec. Racks of the spec are not
      touched; each removed rack takes exactly one step towards deletion, judged by the
      replica count it entered the pass with.
     */
    method CleanupRemovedRacks(
        listed: seq<int>, current: set<int>, batch: Option<IntOrPercent>, check: MigrationCheck, api: int -> Api)
      returns (deferred: bool, failed: bool)
      requires Valid()
      requires NoDup(listed) && forall r :: r in listed <==> r in sets
      modifies this
      ensures Valid() && old(log) <= log && sets.Keys == old(sets).Keys
      ensures forall r :: r in sets && r in current ==> sets[r] == old(sets)[r]
      ensures claims <= old(claims)
      ensures forall r :: r in old(claims) && r !in claims ==>
                r in old(sets) && r !in current && ClaimsMayGo(old(sets)[r], sets[r], api(r))
      ensures forall r :: r in sets && r !in current ==>
                sets[r] == old(sets)[r] || sets[r] == Torn(old(sets)[r], batch, check != Answer(false), api(r).pods)
      ensures !failed ==> forall r :: r in sets && r !in current ==>
                sets[r] == Torn(old(sets)[r], batch, check != Answer(false), api(r).pods)
      ensures !failed ==> (deferred <==> exists r :: r in old(sets) && r !in current && Live(old(sets)[r]))
    {
      var removed, needsDrain := RemovedRacks(listed, current);
      var blocked := needsDrain && check != Answer(false);
      ghost var was := World(sets, claims);
      ghost var plan := map r | r in removed :: Torn(sets[r], batch, blocked, api(r).pods);
      ghost var done;
      deferred, failed, done := TearDownAll(removed, batch, check, blocked, api, plan);
      TornsMeans(was, World(sets, claims), plan, removed, done, api);
      SomeLiveExactly(was.sets, removed);
      forall r | r in removed ensures plan[r] == Torn(was.sets[r], batch, check != Answer(false), api(r).pods) {}
    }

    /** The next removed rack's step of the pass that began in `was`. */
    method TearDownNext(
        removed: seq<int>, i: nat, batch: Option<IntOrPercent>, check: MigrationCheck, blocked: bool, api: int -> Api,
        ghost was: World, ghost plan: map<int, Sts>)
      returns (deferred: bool, failed: bool)
      requires i < |removed| && NoDup(removed) && Planned(was.sets, plan, removed, batch, blocked, api)
      requires Valid() && Torns(was, World(sets, claims), plan, removed, i, api)
      requires Live(was.sets[removed[i]]) && !blocked ==> check == Answer(false)
      modifies this`sets, this`claims, this`log
      ensures Valid() && old(log) <= log
      ensures Torns(was, World(sets, claims), plan, removed, if failed then i else i + 1, api)
      ensures !failed ==> deferred == Live(was.sets[removed[i]])
    {
      assert removed[i] in removed;
      TornNext(was.sets, plan, removed, i);
      TornShape(was.sets, plan, removed, i);
      ghost var mid := World(sets, claims);
      deferred, failed := TearDown(removed[i], batch, check, blocked, api(removed[i]));
      if !failed { TornsNext(was, mid, World(sets, claims), plan, removed, i, api); }
    }

    method TearDownAll(
        removed: seq<int>, batch: Option<IntOrPercent>, check: MigrationCheck, blocked: bool, api: int -> Api,
        ghost plan: map<int, Sts>)
      returns (deferred: bool, failed: bool, ghost done: nat)
      requires Valid()
      requires NoDup(removed) && Planned(sets, plan, removed, batch, blocked, api)
      requires SomeLive(sets, removed) && !blocked ==> check == Answer(false)
      modifies this
      ensures Valid() && old(log) <= log && done <= |removed| && (!failed ==> done == |removed|)
      ensures Torns(World(old(sets), old(claims)), World(sets, claims), plan, removed, done, api)
      ensures !failed ==> (deferred <==> SomeLive(old(sets), removed))
    {
      ghost var was := World(sets, claims);
      deferred, failed, done := false, false, 0;
      TornShape(sets, plan, removed, 0);
      for i := 0 to |removed|
        invariant Valid() && old(log) <= log && !failed && done == i
        invariant Torns(was, World(sets, claims), plan, removed, i, api)
        invariant deferred <==> SomeLive(was.sets, removed[..i])
      {
        assert removed[i] in removed;
        TornNext(was.sets, plan, removed, i);
        var later;
        later, failed := TearDownNext(removed, i, batch, check, blocked, api, was, plan);
        if failed {
          return;
        }
        deferred, done := deferred || later, i + 1;
      }
      assert removed[..|removed|] == removed;
    }
  }

  /** The step each removed rack is to take, from the sets the pass began with. */
  ghost predicate Planned(
      sets: map<int, Sts>, plan: map<int, Sts>, removed: seq<int>, batch: Option<IntOrPercent>, blocked: bool,
      api: int -> Api)
  {
    forall r :: r in removed ==> r in plan && r in sets && plan[r] == Torn(sets[r], batch, blocked, api(r).pods)
  }

  /** The first n removed racks have taken their step, and claims went only where they may. */
  ghost predicate Torns(was: World, now: World, plan: map<int, Sts>, removed: seq<int>, n: nat, api: int -> Api)
    requires n <= |removed| && forall r :: r in removed ==> r in plan && r in was.sets
  {
    && now.sets == TornFirst(was.sets, plan, removed, n) && now.claims <= was.claims
    && forall x :: x in was.claims && x !in now.claims ==>
         x in removed[..n] && ClaimsMayGo(was.sets[x], plan[x], api(x))
  }

  /** What that says of each rack. */
  lemma TornsMeans(was: World, now: World, plan: map<int, Sts>, removed: seq<int>, n: nat, api: int -> Api)
    requires n <= |removed| && (forall r :: r in removed ==> r in plan && r in was.sets)
    requires Torns(was, now, plan, removed, n, api)
    ensures now.sets.Keys == was.sets.Keys && now.claims <= was.claims
    ensures forall r :: r in was.sets && r !in removed ==> now.sets[r] == was.sets[r]
    ensures forall r :: r in removed ==> now.sets[r] == was.sets[r] || now.sets[r] == plan[r]
    ensures n == |removed| ==> forall r :: r in removed ==> now.sets[r] == plan[r]
    ensures forall x :: x in was.claims && x !in now.claims ==>
              x in removed && ClaimsMayGo(was.sets[x], now.sets[x], api(x))
  {
    TornShape(was.sets, plan, removed, n);
    assert forall r :: r in removed[..n] ==> r in removed && now.sets[r] == plan[r];
  }

  lemma TornsNext(was: World, mid: World, now: World, plan: map<int, Sts>, removed: seq<int>, i: nat, api: int -> Api)
    requires i < |removed| && NoDup(removed) && forall r :: r in removed ==> r in plan && r in was.sets
    requires Torns(was, mid, plan, removed, i, api)
    requires now.sets == mid.sets[removed[i] := plan[removed[i]]]
    requires mid.claims - {removed[i]} <= now.claims <= mid.claims
    requires removed[i] in mid.claims && removed[i] !in now.claims ==>
               ClaimsMayGo(was.sets[removed[i]], plan[removed[i]], api(removed[i]))
    ensures Torns(was, now, plan, removed, i + 1, api)
  {
    TornNext(was.sets, plan, removed, i);
    assert removed[..i+1] == removed[..i] + [removed[i]];
  }

  /** A rack's claims go only once its set is being deleted from zero replicas and a fresh list shows no pod. */
  ghost predicate ClaimsMayGo(before: Sts, after: Sts, api: Api) {
    !Live(before) && after.deleting && api.podsLater == Some([])
  }

  ghost predicate SomeLive(sets: map<int, Sts>, racks: seq<int>) {
    exists r :: r in racks && r in sets && Live(sets[r])
  }

  lemma OneMoreLive(sets: map<int, Sts>, racks: seq<int>, r: int)
    requires r in sets
    ensures SomeLive(sets, racks + [r]) <==> SomeLive(sets, racks) || Live(sets[r])
  {
    assert r in racks + [r];
    assert forall x :: x in racks + [r] <==> x in racks || x == r;
  }

  lemma SomeLiveExactly(sets: map<int, Sts>, racks: seq<int>)
    requires forall r :: r in racks ==> r in sets
    ensures SomeLive(sets, racks) <==> exists r :: r in racks && Live(sets[r])
  {
    if r :| r in racks && Live(sets[r]) { assert r in sets; }
  }

  /** The sets once the first n removed racks have taken their step. */
  ghost function TornFirst(sets: map<int, Sts>, plan: map<int, Sts>, removed: seq<int>, n: nat): map<int, Sts>
    requires n <= |removed| && forall r :: r in removed ==> r in plan
  {
    map r | r in sets :: if r in removed[..n] then plan[r] else sets[r]
  }

  lemma TornShape(sets: map<int, Sts>, plan: map<int, Sts>, removed: seq<int>, n: nat)
    requires n <= |removed| && forall r :: r in removed ==> r in plan && r in sets
    ensures var t := TornFirst(sets, plan, removed, n);
            && t.Keys == sets.Keys && (n == 0 ==> t == sets)
            && (forall r :: r in sets && r !in removed ==> t[r] == sets[r])
            && (n == |removed| ==> forall r :: r in removed ==> t[r] == plan[r])
  {
    assert removed[..|removed|] == removed;
    assert forall r :: r in removed[..n] ==> r in removed;
  }

  lemma TornNext(sets: map<int, Sts>, plan: map<int, Sts>, removed: seq<int>, i: nat)
    requires i < |removed| && NoDup(removed) && forall r :: r in removed ==> r in plan && r in sets
    ensures var t, r := TornFirst(sets, plan, removed, i), removed[i];
            && r in t && t[r] == sets[r] && r in plan
            && t[r := plan[r]] == TornFirst(sets, plan, removed, i + 1) && t[r := t[r]] == t
    ensures SomeLive(sets, removed[..i+1]) <==> SomeLive(sets, removed[..i]) || Live(sets[removed[i]])
  {
    var r := removed[i];
    assert r in removed;
    assert r !in removed[..i];
    assert removed[..i+1] == removed[..i] + [r];
    var t, u := TornFirst(sets, plan, removed, i)[r := plan[r]], TornFirst(sets, plan, removed, i + 1);
    assert t.Keys == u.Keys;
    forall x | x in t ensures t[x] == u[x] {}
  }

  /** What the API answers about one rack: the pods before and after, and whether writes succeed. */
  datatype Api = Api(pods: seq<PodView>, patchOk: bool, deleteOk: bool, podsLater: Option<seq<PodView>>)

  /** A rack that still runs pods of its own accord. */
  predicate Live(s: Sts) { !s.deleting && s.replicas > 0 }

  ghost function Torn(s: Sts, batch: Option<IntOrPercent>, blocked: bool, pods: seq<PodView>): Sts {
    if s.deleting then s
    else if s.replicas == 0 then s.(deleting := true)
    else
      var after := ShrinkTarget(s.replicas, 0, ScaleDownBatchSize(batch, s.replicas));
      if blocked || !Enough(pods, after) then s else s.(replicas := after)
  }

  // ---- Descent -----------------------------------------------------------------------------

  /** The replica count after n passes that were allowed to shrink. */
  function Descend(before: nat, floor: nat, batch: Option<IntOrPercent>, n: nat): nat
    requires floor <= before
    decreases n
  {
    if n == 0 || before == floor then before
    else Descend(ShrinkTarget(before, floor, ScaleDownBatchSize(batch, before - floor)), floor, batch, n - 1)
  }

  /** Allowed passes never undershoot the floor, make progress each time, and finish. */
  lemma {:induction false} DescentFinishes(before: nat, floor: nat, batch: Option<IntOrPercent>, n: nat)
    requires floor <= before
    ensures floor <= Descend(before, floor, batch, n) <= before
    ensures n > 0 && before > floor ==> Descend(before, floor, batch, n) < before
    ensures n >= before - floor ==> Descend(before, floor, batch, n) == floor
    ensures n > 0 && batch.None? ==> Descend(before, floor, batch, n) == floor
    decreases n
  {
    if n > 0 && before > floor {
      DescentFinishes(ShrinkTarget(before, floor, ScaleDownBatchSize(batch, before - floor)), floor, batch, n - 1);
    }
  }
}
