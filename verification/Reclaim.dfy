/**
  Reclaiming the volumes a scale-down leaves behind. Deleting the claim of a pod that
  still exists destroys data, and the rack's pod list can be incomplete, so a claim may
  go only when the StatefulSet's own count and the list together prove the pod gone.
 */
module Reclaim {
  import opened Text
  import opened Collections
  import opened PvcNames

  datatype StatefulSet = StatefulSet(
    name: string, uid: string, replicas: Option<int>, generation: int,
    observedGeneration: int, statusReplicas: int, templates: seq<string>)

  datatype Volume = Volume(name: string, persistent: bool, cascadeDelete: bool)

  datatype Claim = Claim(name: string, labels: map<string, string>, owners: seq<string>)

  datatype Deletion = Deleted | NotFound | Error

  function LabelsForCluster(cluster: string): map<string, string> {
    map["app.kubernetes.io/name" := "aerospike-cluster",
        "app.kubernetes.io/instance" := cluster,
        "app.kubernetes.io/component" := "database",
        "app.kubernetes.io/managed-by" := "aerospike-ce-kubernetes-operator"]
  }

  predicate Labelled(c: Claim, cluster: string) {
    forall k :: k in LabelsForCluster(cluster) ==> k in c.labels && c.labels[k] == LabelsForCluster(cluster)[k]
  }

  predicate OwnedByUID(c: Claim, uid: string) { c.owners == [] || uid in c.owners }

  function CascadeVolumes(volumes: seq<Volume>): set<string> {
    set v | v in volumes && v.persistent && v.cascadeDelete :: v.name
  }

  predicate InVolumes(c: Claim, sts: StatefulSet, volumes: set<string>) {
    VolumeOf(c.name, sts.name).Some? && VolumeOf(c.name, sts.name).value in volumes
  }

  ghost predicate Orphan(c: Claim, sts: StatefulSet, cluster: string, replicas: int) {
    && Labelled(c, cluster)
    && OrdinalOf(c.name, sts.name).Some? && OrdinalOf(c.name, sts.name).value >= replicas
    && InVolumes(c, sts, set t | t in sts.templates)
    && OwnedByUID(c, sts.uid)
  }

  ghost predicate Reclaimable(c: Claim, sts: StatefulSet, cluster: string, replicas: int, volumes: seq<Volume>) {
    Orphan(c, sts, cluster, replicas) && InVolumes(c, sts, CascadeVolumes(volumes))
  }

  // ---- The same on a claim's own fields ----------------------------------------------------

  /** Stamped with all four labels of the cluster, and without owners or owned by this very StatefulSet. */
  ghost predicate Ours(c: Claim, sts: StatefulSet, cluster: string) {
    && "app.kubernetes.io/name" in c.labels && c.labels["app.kubernetes.io/name"] == "aerospike-cluster"
    && "app.kubernetes.io/instance" in c.labels && c.labels["app.kubernetes.io/instance"] == cluster
    && "app.kubernetes.io/component" in c.labels && c.labels["app.kubernetes.io/component"] == "database"
    && "app.kubernetes.io/managed-by" in c.labels
    && c.labels["app.kubernetes.io/managed-by"] == "aerospike-ce-kubernetes-operator"
    && (c.owners == [] || sts.uid in c.owners)
  }

  /** Named after a volume template of the StatefulSet and an ordinal at or above the replicas. */
  ghost predicate NamedFor(c: Claim, sts: StatefulSet, replicas: int, volume: string, digits: string) {
    && c.name == volume + "-" + sts.name + "-" + digits && digits != "" && AllDigits(digits)
    && replicas <= DigitsValue(digits) <= INT32_MAX
    && volume != "" && volume in sts.templates
  }

  ghost predicate Candidate(c: Claim, sts: StatefulSet, cluster: string, replicas: int) {
    Ours(c, sts, cluster) && exists volume, digits :: NamedFor(c, sts, replicas, volume, digits)
  }

  /** A candidate whose volume the spec marks persistent and cascade-delete. */
  ghost predicate LeftBehind(c: Claim, sts: StatefulSet, cluster: string, replicas: int, volumes: seq<Volume>) {
    && Ours(c, sts, cluster)
    && exists volume, digits ::
         && NamedFor(c, sts, replicas, volume, digits)
         && exists v :: v in volumes && v.name == volume && v.persistent && v.cascadeDelete
  }

  lemma OursExactly(c: Claim, sts: StatefulSet, cluster: string)
    ensures Ours(c, sts, cluster) <==> Labelled(c, cluster) && OwnedByUID(c, sts.uid)
  {
    if Labelled(c, cluster) {
      var labels := LabelsForCluster(cluster);
      assert forall k :: k in labels ==> k in c.labels && c.labels[k] == labels[k];
      assert "app.kubernetes.io/name" in labels;
      assert "app.kubernetes.io/instance" in labels;
      assert "app.kubernetes.io/component" in labels;
      assert "app.kubernetes.io/managed-by" in labels;
    }
  }

  lemma NameParts(c: Claim, sts: StatefulSet, volume: string, digits: string)
    ensures c.name == volume + "-" + sts.name + "-" + digits <==> c.name == volume + Pattern(sts.name) + digits
  {
    assert volume + "-" + sts.name + "-" + digits == volume + Pattern(sts.name) + digits;
  }

  lemma NamedReads(c: Claim, sts: StatefulSet, replicas: int, volume: string, digits: string)
    requires NamedFor(c, sts, replicas, volume, digits)
    ensures OrdinalOf(c.name, sts.name) == Some(DigitsValue(digits)) && VolumeOf(c.name, sts.name) == Some(volume)
  {
    NameParts(c, sts, volume, digits);
    SplitReads(c.name, Pattern(sts.name), volume, digits);
  }

  lemma ReadsNamed(c: Claim, sts: StatefulSet, cluster: string, replicas: int) returns (volume: string, digits: string)
    requires Orphan(c, sts, cluster, replicas)
    ensures NamedFor(c, sts, replicas, volume, digits) && VolumeOf(c.name, sts.name) == Some(volume)
  {
    volume, digits := ReadSplits(c.name, Pattern(sts.name));
    SplitReads(c.name, Pattern(sts.name), volume, digits);
    NameParts(c, sts, volume, digits);
  }

  lemma CandidateExactly(c: Claim, sts: StatefulSet, cluster: string, replicas: int)
    ensures Orphan(c, sts, cluster, replicas) <==> Candidate(c, sts, cluster, replicas)
  {
    OursExactly(c, sts, cluster);
    if Orphan(c, sts, cluster, replicas) { var volume, digits := ReadsNamed(c, sts, cluster, replicas); }
    if volume, digits :| NamedFor(c, sts, replicas, volume, digits) { NamedReads(c, sts, replicas, volume, digits); }
  }

  /** The parsers, the label selector and the owner check together pick exactly the claims left behind. */
  lemma LeftBehindExactly(c: Claim, sts: StatefulSet, cluster: string, replicas: int, volumes: seq<Volume>)
    ensures Reclaimable(c, sts, cluster, replicas, volumes) <==> LeftBehind(c, sts, cluster, replicas, volumes)
  {
    CandidateExactly(c, sts, cluster, replicas);
    if Reclaimable(c, sts, cluster, replicas, volumes) {
      var volume, digits := ReadsNamed(c, sts, cluster, replicas);
      assert volume in CascadeVolumes(volumes);
    }
    if LeftBehind(c, sts, cluster, replicas, volumes) {
      var volume, digits :|
        && NamedFor(c, sts, replicas, volume, digits)
        && exists v :: v in volumes && v.name == volume && v.persistent && v.cascadeDelete;
      NamedReads(c, sts, replicas, volume, digits);
    }
  }

  /** The number after the last dash; unreadable names are not guessed at. */
  function RackPodOrdinal(pod: string): Option<int> {
    var i := LastIndex(pod, "-");
    if i < 0 then None
    else
      match ParseInt(pod[i+1..], INT64_MAX)
      case None => None
      case Some(n) => if n < 0 then None else Some(n)
  }

  predicate OrdinalBelow(pod: string, n: int) { RackPodOrdinal(pod).Some? && RackPodOrdinal(pod).value < n }

  /** Every gate in front of the deletion. `listed` is the rack's pod list, when listing succeeds. */
  ghost predicate MayReclaim(sts: StatefulSet, rackSize: int, volumes: seq<Volume>, listed: Option<seq<string>>) {
    && CascadeVolumes(volumes) != {}
    && sts.replicas.Some? && sts.replicas.value >= 1 && sts.replicas.value >= rackSize
    && sts.observedGeneration == sts.generation && sts.statusReplicas == sts.replicas.value
    && listed.Some? && |listed.value| == sts.replicas.value
    && forall p :: p in listed.value ==> OrdinalBelow(p, sts.replicas.value)
  }

  class ClaimStore {
    var claims: set<Claim>

    method OwnedOrphanCandidates(sts: StatefulSet, cluster: string, replicas: int) returns (matched: set<Claim>)
      ensures forall c :: c in matched <==> c in claims && Candidate(c, sts, cluster, replicas)
    {
      matched := {};
      forall c ensures Orphan(c, sts, cluster, replicas) <==> Candidate(c, sts, cluster, replicas) {
        CandidateExactly(c, sts, cluster, replicas);
      }
      if sts.templates == [] {
        return;
      }
      var todo := claims;
      while todo != {}
        invariant todo <= claims
        invariant forall c :: c in matched <==> c in claims - todo && Orphan(c, sts, cluster, replicas)
        decreases |todo|
      {
        var c :| c in todo;
        todo := todo - {c};
        if !Labelled(c, cluster) {
          continue;
        }
        var ordinal := ExtractOrdinal(c.name, sts.name);
        if ordinal.None? || ordinal.value < replicas {
          continue;
        }
        if !InVolumes(c, sts, set t | t in sts.templates) {
          continue;
        }
        if !OwnedByUID(c, sts.uid) {
          continue;
        }
        matched := matched + {c};
      }
    }

    /** Deletes the wanted candidates one by one, carrying on past refusals. */
    method DeleteEach(candidates: set<Claim>, wanted: Claim -> bool, api: string -> Deletion)
      returns (deleted: nat, errors: set<Claim>)
      requires candidates <= claims
      modifies this
      ensures claims <= old(claims) && deleted == |old(claims) - claims|
      ensures forall c :: c in old(claims) - claims <==> c in candidates && wanted(c) && api(c.name).Deleted?
      ensures forall c :: c in errors <==> c in candidates && wanted(c) && api(c.name).Error?
    {
      deleted, errors := 0, {};
      var todo := candidates;
      ghost var gone: set<Claim> := {};
      while todo != {}
        invariant todo <= candidates <= old(claims)
        invariant claims == old(claims) - gone && gone <= old(claims) && deleted == |gone|
        invariant forall c :: c in gone <==> c in candidates - todo && wanted(c) && api(c.name).Deleted?
        invariant forall c :: c in errors <==> c in candidates - todo && wanted(c) && api(c.name).Error?
        decreases |todo|
      {
        var c :| c in todo;
        todo := todo - {c};
        if !wanted(c) {
          continue;
        }
        match api(c.name) {
          case NotFound =>
          case Error => errors := errors + {c};
          case Deleted =>
            gone := gone + {c};
            claims := claims - {c};
            deleted := deleted + 1;
        }
      }
      assert old(claims) - claims == gone;
    }

    /** Deletes every reclaimable claim the API lets go, and nothing else; `errors` holds the refusals. */
    method DeleteOrphanedCascadeDeletePVCs(
        sts: StatefulSet, cluster: string, replicas: int, volumes: seq<Volume>, api: string -> Deletion)
      returns (deleted: nat, errors: set<Claim>)
      modifies this
      ensures claims <= old(claims) && deleted == |old(claims) - claims|
      ensures forall c :: c in old(claims) - claims <==>
                c in old(claims) && LeftBehind(c, sts, cluster, replicas, volumes) && api(c.name).Deleted?
      ensures forall c :: c in errors <==>
                c in old(claims) && LeftBehind(c, sts, cluster, replicas, volumes) && api(c.name).Error?
    {
      forall c
        ensures Orphan(c, sts, cluster, replicas) <==> Candidate(c, sts, cluster, replicas)
        ensures Reclaimable(c, sts, cluster, replicas, volumes) <==> LeftBehind(c, sts, cluster, replicas, volumes)
      {
        CandidateExactly(c, sts, cluster, replicas);
        LeftBehindExactly(c, sts, cluster, replicas, volumes);
      }
      var cascade := CascadeVolumes(volumes);
      if cascade == {} {
        assert old(claims) - claims == {};
        return 0, {};
      }
      var candidates := OwnedOrphanCandidates(sts, cluster, replicas);
      deleted, errors := DeleteEach(candidates, (c: Claim) => InVolumes(c, sts, cascade), api);
    }

    method ReclaimOrphanedRackPVCs(
        sts: StatefulSet, cluster: string, rackSize: int, volumes: seq<Volume>, listed: Option<seq<string>>,
        api: string -> Deletion)
      modifies this
      ensures claims <= old(claims)
      ensures forall c :: c in old(claims) - claims <==>
                && c in old(claims) && MayReclaim(sts, rackSize, volumes, listed)
                && LeftBehind(c, sts, cluster, sts.replicas.value, volumes) && api(c.name).Deleted?
      ensures forall c :: c in old(claims) && c.owners != [] && sts.uid !in c.owners ==> c in claims
      ensures claims != old(claims) ==>
                && sts.replicas.Some? && sts.replicas.value >= 1 && sts.replicas.value >= rackSize
                && sts.observedGeneration == sts.generation && sts.statusReplicas == sts.replicas.value
                && listed.Some? && |listed.value| == sts.replicas.value
    {
      var allowed := CheckReclaim(sts, rackSize, volumes, listed);
      if !allowed {
        return;
      }
      var _, _ := DeleteOrphanedCascadeDeletePVCs(sts, cluster, sts.replicas.value, volumes, api);
    }
  }

  /** The gates in the order they are tried. */
  method CheckReclaim(sts: StatefulSet, rackSize: int, volumes: seq<Volume>, listed: Option<seq<string>>)
    returns (allowed: bool)
    ensures allowed <==> MayReclaim(sts, rackSize, volumes, listed)
  {
    if CascadeVolumes(volumes) == {} || sts.replicas.None? {
      return false;
    }
    var replicas := sts.replicas.value;
    if replicas < 1 || replicas < rackSize {
      return false;
    }
    if sts.observedGeneration != sts.generation || sts.statusReplicas != replicas {
      return false;
    }
    if listed.None? || |listed.value| != replicas {
      return false;
    }
    allowed := OrdinalsBelow(listed.value, replicas);
  }

  method OrdinalsBelow(pods: seq<string>, replicas: int) returns (all: bool)
    ensures all <==> forall p :: p in pods ==> OrdinalBelow(p, replicas)
  {
    for i := 0 to |pods|
      invariant forall j :: 0 <= j < i ==> OrdinalBelow(pods[j], replicas)
    {
      if !OrdinalBelow(pods[i], replicas) {
        assert pods[i] in pods;
        return false;
      }
    }
    return true;
  }

  // ---- Safety ------------------------------------------------------------------------

  function PodName(sts: string, ordinal: nat): string { sts + "-" + Itoa(ordinal) }

  lemma PodOrdinalRoundTrip(sts: string, ordinal: nat)
    requires ordinal <= INT64_MAX
    ensures RackPodOrdinal(PodName(sts, ordinal)) == Some(ordinal)
  {
    var name := PodName(sts, ordinal);
    assert Splits(name, "-", sts, Itoa(ordinal));
    LastIndexAtSplit(name, "-", sts, Itoa(ordinal));
    assert name[|sts|+1..] == Itoa(ordinal);
    ParseDigits(Itoa(ordinal), INT64_MAX);
  }

  lemma {:induction false} DistinctCount(names: seq<string>)
    requires NoDup(names)
    ensures |set n | n in names| == |names|
  {
    if names != [] {
      var rest := names[..|names|-1];
      DistinctCount(rest);
      assert (set n | n in names) == (set n | n in rest) + {names[|names|-1]};
    }
  }

  /**
    What the cluster guarantees about a snapshot: once the controller has observed the
    spec, status.replicas counts the owned pods, terminating ones included; the list
    holds each pod once, but it may miss owned pods and hold strangers.
   */
  ghost predicate Snapshot(sts: StatefulSet, owned: set<string>, listed: Option<seq<string>>) {
    && (sts.observedGeneration == sts.generation ==> |owned| == sts.statusReplicas)
    && (listed.Some? ==> NoDup(listed.value))
  }

  /** Every listed pod is one the StatefulSet owns. */
  ghost predicate NoStrangers(owned: set<string>, listed: seq<string>) { forall p :: p in listed ==> p in owned }

  lemma DifferencesMatch(a: set<string>, b: set<string>)
    requires |a| == |b|
    ensures |a - b| == |b - a|
  {
    assert a == (a - b) + (a * b) && b == (b - a) + (a * b);
  }

  /**
    Once the gates pass, as many owned pods were missed as strangers were listed: the list is
    complete if and only if it holds no stranger.
   */
  lemma ListIsComplete(
      sts: StatefulSet, rackSize: int, volumes: seq<Volume>, owned: set<string>, listed: Option<seq<string>>)
    requires Snapshot(sts, owned, listed) && MayReclaim(sts, rackSize, volumes, listed)
    ensures var seen := set p | p in listed.value;
            |owned - seen| == |seen - owned| && (owned <= seen <==> NoStrangers(owned, listed.value))
  {
    var seen := set p | p in listed.value;
    DistinctCount(listed.value);
    DifferencesMatch(owned, seen);
    if owned <= seen {
      SubsetOfSameSize(owned, seen);
    } else if NoStrangers(owned, listed.value) {
      SubsetOfSameSize(seen, owned);
    }
  }

  /**
    A claim that reclamation takes carries the cluster's labels, names no owner or this StatefulSet,
    and belongs to an ordinal at or above the running replica count and the wanted rack size; and no
    pod of that ordinal exists, unless a stranger was listed.
   */
  lemma ReclaimSafe(
      c: Claim, sts: StatefulSet, cluster: string, rackSize: int, volumes: seq<Volume>,
      owned: set<string>, listed: Option<seq<string>>)
    requires Snapshot(sts, owned, listed) && MayReclaim(sts, rackSize, volumes, listed)
    requires Reclaimable(c, sts, cluster, sts.replicas.value, volumes)
    ensures Ours(c, sts, cluster)
    ensures exists volume: string, digits: string ::
              && Splits(c.name, Pattern(sts.name), volume, digits)
              && volume in sts.templates && volume in CascadeVolumes(volumes)
              && DigitsValue(digits) >= sts.replicas.value >= rackSize
              && (NoStrangers(owned, listed.value) ==> PodName(sts.name, DigitsValue(digits)) !in owned)
  {
    var volume, digits := ReadSplits(c.name, Pattern(sts.name));
    SplitReads(c.name, Pattern(sts.name), volume, digits);
    OursExactly(c, sts, cluster);
    ListIsComplete(sts, rackSize, volumes, owned, listed);
    PodOrdinalRoundTrip(sts.name, DigitsValue(digits));
  }

  /** The claim of a pod the StatefulSet still owns is reclaimable only if a stranger was listed in its place. */
  lemma MountedClaimStays(
      volume: string, ordinal: nat, c: Claim, sts: StatefulSet, cluster: string, rackSize: int, volumes: seq<Volume>,
      owned: set<string>, listed: Option<seq<string>>)
    requires Snapshot(sts, owned, listed) && MayReclaim(sts, rackSize, volumes, listed)
    requires volume != "" && ordinal <= INT32_MAX && PodName(sts.name, ordinal) in owned
    requires c.name == PvcName(volume, sts.name, ordinal)
    ensures Reclaimable(c, sts, cluster, sts.replicas.value, volumes) ==> !NoStrangers(owned, listed.value)
  {
    RoundTrip(volume, sts.name, ordinal);
    ListIsComplete(sts, rackSize, volumes, owned, listed);
    PodOrdinalRoundTrip(sts.name, ordinal);
  }

  /**
    One stranger under the rack's label is enough: the last pod of a rack scaled to one is missed
    and its claim goes.
   */
  lemma StrangerHidesPod(volume: string, name: string, other: string, cluster: string)
    requires volume != "" && name != other
    ensures var sts := StatefulSet(name, "uid", Some(1), 1, 1, 1, [volume]);
            var owned, listed := {PodName(name, 1)}, Some([PodName(other, 0)]);
            var volumes := [Volume(volume, true, true)];
            && Snapshot(sts, owned, listed) && MayReclaim(sts, 1, volumes, listed)
            && Reclaimable(Claim(PvcName(volume, name, 1), LabelsForCluster(cluster), []), sts, cluster, 1, volumes)
  {
    RoundTrip(volume, name, 1);
    PodOrdinalRoundTrip(other, 0);
    assert Volume(volume, true, true) in [Volume(volume, true, true)];
    assert volume in CascadeVolumes([Volume(volume, true, true)]);
  }
}
