/**
  What reaches the reconciler: the cluster webhook fills in defaults before it validates, and
  templates are validated when they are stored. So only one default of a template can still
  spoil a config that was admitted: the replication factor.
 */
module Admission {
  import opened Text
  import opened ConfigTree
  import opened ConfigMerge
  import opened Template
  import opened CeRules

  const PORT := "port"
  const CLUSTER_NAME := "cluster-name"
  const PROTO_FD_MAX := "proto-fd-max"
  const DEFAULT_PROTO_FD_MAX := 15000
  const SERVICE_PORT := 3000
  const HEARTBEAT_PORT := 3002
  const FABRIC_PORT := 3001

  // ---- The defaulter -------------------------------------------------------------------------

  /** A key that holds something other than a map is an error; an absent one starts empty. */
  predicate SectionOk(m: Section, k: string) { k in m ==> m[k].Map? }

  /** Network defaults: a port in each endpoint stanza, and mesh heartbeats. */
  function NetworkDefaults(network: Section): Section {
    var a := network[SERVICE := Map(Fill(Subsection(network, SERVICE), PORT, true, WholeNumber(SERVICE_PORT)))];
    var beat := Fill(Subsection(a, HEARTBEAT), PORT, true, WholeNumber(HEARTBEAT_PORT));
    var b := a[HEARTBEAT := Map(Fill(beat, MODE, true, Str(MESH)))];
    b[FABRIC := Map(Fill(Subsection(b, FABRIC), PORT, true, WholeNumber(FABRIC_PORT)))]
  }

  function ServiceDefaults(service: Section, cluster: string): Section {
    Fill(Fill(service, CLUSTER_NAME, true, Str(cluster)), PROTO_FD_MAX, true, WholeNumber(DEFAULT_PROTO_FD_MAX))
  }

  predicate Defaultable(cfg: Section) {
    && SectionOk(cfg, SERVICE) && SectionOk(cfg, NETWORK)
    && SectionOk(Subsection(cfg, NETWORK), SERVICE) && SectionOk(Subsection(cfg, NETWORK), HEARTBEAT)
    && SectionOk(Subsection(cfg, NETWORK), FABRIC)
  }

  function Defaulted(cfg: Section, cluster: string): Section {
    var service := ServiceDefaults(Subsection(cfg, SERVICE), cluster);
    cfg[SERVICE := Map(service)][NETWORK := Map(NetworkDefaults(Subsection(cfg, NETWORK)))]
  }

  class Defaulter {
    /** The config of the cluster under admission; None while it has none. */
    var config: Option<Section>

    static method DefaultServiceConfig(service: Section, cluster: string) returns (r: Section)
      ensures r == ServiceDefaults(service, cluster)
    {
      r := service;
      if CLUSTER_NAME !in r { r := r[CLUSTER_NAME := Str(cluster)]; }
      if PROTO_FD_MAX !in r { r := r[PROTO_FD_MAX := WholeNumber(DEFAULT_PROTO_FD_MAX)]; }
    }

    static method DefaultNetworkConfig(network: Section) returns (r: Section)
      ensures r == NetworkDefaults(network)
    {
      var endpoint := Subsection(network, SERVICE);
      if PORT !in endpoint { endpoint := endpoint[PORT := WholeNumber(SERVICE_PORT)]; }
      r := network[SERVICE := Map(endpoint)];
      endpoint := Subsection(r, HEARTBEAT);
      if PORT !in endpoint { endpoint := endpoint[PORT := WholeNumber(HEARTBEAT_PORT)]; }
      if MODE !in endpoint { endpoint := endpoint[MODE := Str(MESH)]; }
      r := r[HEARTBEAT := Map(endpoint)];
      endpoint := Subsection(r, FABRIC);
      if PORT !in endpoint { endpoint := endpoint[PORT := WholeNumber(FABRIC_PORT)]; }
      r := r[FABRIC := Map(endpoint)];
    }

    /** Fills in defaults where nothing is set, and fails on a section that is no map. */
    method Default(cluster: string) returns (ok: bool)
      modifies this
      ensures var was := if old(config).Some? then old(config).value else map[];
              (ok <==> Defaultable(was)) && (ok ==> config == Some(Defaulted(was, cluster)))
    {
      var cfg := if config.Some? then config.value else map[];
      config := Some(cfg);
      if !SectionOk(cfg, SERVICE) { return false; }
      var service := DefaultServiceConfig(Subsection(cfg, SERVICE), cluster);
      config := Some(cfg[SERVICE := Map(service)]);
      if !SectionOk(cfg, NETWORK) { return false; }
      var network := Subsection(cfg, NETWORK);
      if !SectionOk(network, SERVICE) || !SectionOk(network, HEARTBEAT) || !SectionOk(network, FABRIC) { return false; }
      network := DefaultNetworkConfig(network);
      config := Some(cfg[SERVICE := Map(service)][NETWORK := Map(network)]);
      return true;
    }
  }

  lemma NetworkDefaultsAt(network: Section)
    ensures var r := NetworkDefaults(network);
            && r.Keys == network.Keys + {SERVICE, HEARTBEAT, FABRIC}
            && (forall k :: k in network && k !in {SERVICE, HEARTBEAT, FABRIC} ==> r[k] == network[k])
            && Subsection(r, SERVICE) == Fill(Subsection(network, SERVICE), PORT, true, WholeNumber(SERVICE_PORT))
            && Subsection(r, HEARTBEAT) ==
               Fill(Fill(Subsection(network, HEARTBEAT), PORT, true, WholeNumber(HEARTBEAT_PORT)), MODE, true,
                    Str(MESH))
            && Subsection(r, FABRIC) == Fill(Subsection(network, FABRIC), PORT, true, WholeNumber(FABRIC_PORT))
  {
  }

  /** Whatever was written, a defaulted config has a heartbeat mode of its own. */
  lemma DefaultedHasMode(cfg: Section, cluster: string)
    ensures MODE in Subsection(Subsection(Defaulted(cfg, cluster), NETWORK), HEARTBEAT)
  {
    NetworkDefaultsAt(Subsection(cfg, NETWORK));
  }

  lemma PlainKeys()
    ensures !(TLS_PREFIX <= PORT) && !(TLS_PREFIX <= MODE)
  {
    assert PORT[0] == 'p' && MODE[0] == 'm' && TLS_PREFIX[0] == 't';
  }

  /** Filling in defaults never decides whether a config is admitted. */
  lemma DefaultsKeepVerdict(cfg: Section, cluster: string)
    requires Defaultable(cfg)
    ensures Admissible(Defaulted(cfg, cluster)) <==> Admissible(cfg)
  {
    var network := Subsection(cfg, NETWORK);
    NetworkDefaultsAt(network);
    PlainKeys();
    FillKeepsTls(Subsection(network, SERVICE), PORT, WholeNumber(SERVICE_PORT));
    FillKeepsTls(Subsection(network, HEARTBEAT), PORT, WholeNumber(HEARTBEAT_PORT));
    FillKeepsTls(Fill(Subsection(network, HEARTBEAT), PORT, true, WholeNumber(HEARTBEAT_PORT)), MODE, Str(MESH));
    FillKeepsTls(Subsection(network, FABRIC), PORT, WholeNumber(FABRIC_PORT));
    assert NetworkTlsFree(Defaulted(cfg, cluster)) <==> NetworkTlsFree(cfg);
    assert ModeOk(Defaulted(cfg, cluster)) <==> ModeOk(cfg);
  }

  lemma FillKeepsTls(m: Section, k: string, v: Val)
    requires !(TLS_PREFIX <= k)
    ensures FreeOfTlsKeys(Fill(m, k, true, v)) <==> FreeOfTlsKeys(m)
  {
    forall x | x in m ensures x in Fill(m, k, true, v) {}
  }

  // ---- Admission --------------------------------------------------------------------------------

  /** A stored template: no banned key, and mesh heartbeats if any mode is given. */
  predicate TemplateAdmitted(t: TemplateConfig) {
    TemplateOk(t) && (t.heartbeat.Some? ==> t.heartbeat.value.mode in {"", MESH})
  }

  /** Overrides on a cluster: no banned key; their heartbeat mode is not looked at. */
  predicate OverridesAdmitted(o: Option<TemplateConfig>) { o.Some? ==> TemplateOk(o.value) }

  /** A cluster's config: defaults filled in, then validated. */
  ghost predicate ClusterAdmitted(cfg: Section, cluster: string) {
    Admissible(cfg) && exists raw :: Defaultable(raw) && cfg == Defaulted(raw, cluster)
  }

  /**
    The check made after a template is applied always passes, and is weaker than admission: the
    applied config is admissible if and only if the default replication factor of template and
    overrides is in range or every namespace sets its own. Their heartbeat mode never matters.
   */
  lemma AppliedAdmissibleExactly(t: TemplateConfig, o: Option<TemplateConfig>, cfg: Section, cluster: string)
    requires TemplateAdmitted(t) && OverridesAdmitted(o) && ClusterAdmitted(cfg, cluster)
    ensures var m := MergeTemplates(t, o);
            && MergedOk(Resolved(m, cfg))
            && (Admissible(Resolved(m, cfg)) <==> FactorCovered(m.namespaceDefaults, cfg))
  {
    var raw :| Defaultable(raw) && cfg == Defaulted(raw, cluster);
    TemplatePassesSecondCheck(t, o, cfg);
    DefaultsFree(t, o);
    DefaultedHasMode(raw, cluster);
    ResolvedExactly(MergeTemplates(t, o), cfg);
  }

  // ---- The failing case ----------------------------------------------------------------------------

  const NINE := TemplateConfig(map[REPLICATION_FACTOR := WholeNumber(9)], map[], None)

  const PLAIN := map[NAMESPACES := List([Map(map[NAME := Str("test")])])]

  lemma NineAdmitted()
    ensures TemplateAdmitted(NINE)
  {
    assert REPLICATION_FACTOR[0] == 'r' && TLS_PREFIX[0] == 't';
    assert forall k :: k in NINE.namespaceDefaults ==> k == REPLICATION_FACTOR;
  }

  lemma PlainAdmitted(cluster: string)
    ensures ClusterAdmitted(Defaulted(PLAIN, cluster), cluster)
  {
    assert NamespaceOk(PLAIN[NAMESPACES].items[0]) by {
      assert PLAIN[NAMESPACES].items[0].entries.Keys == {NAME};
    }
    assert PLAIN.Keys == {NAMESPACES};
    assert Admissible(PLAIN);
    DefaultsKeepVerdict(PLAIN, cluster);
  }

  lemma NineUncovered(cfg: Section)
    requires NAMESPACES in cfg && cfg[NAMESPACES] == PLAIN[NAMESPACES]
    ensures !FactorCovered(NINE.namespaceDefaults, cfg)
  {
    var entry := cfg[NAMESPACES].items[0];
    assert entry.entries.Keys == {NAME};
  }

  /** Factor 9 as a namespace default is admitted, passes the second check, and ends up in the config. */
  lemma FactorNineGetsThrough(cluster: string)
    ensures var cfg := Defaulted(PLAIN, cluster);
            && TemplateAdmitted(NINE) && ClusterAdmitted(cfg, cluster)
            && MergedOk(Resolved(NINE, cfg)) && !Admissible(Resolved(NINE, cfg))
  {
    var cfg := Defaulted(PLAIN, cluster);
    NineAdmitted();
    PlainAdmitted(cluster);
    AppliedAdmissibleExactly(NINE, None, cfg, cluster);
    NineUncovered(cfg);
  }

  // ---- What the defaulter fills in --------------------------------------------------------------

  ghost function PortOnly(port: int): Section { map["port" := Num(Number(Int, port as real))] }

  ghost function NetworkTree(): Section {
    map["service" := Map(PortOnly(3000)),
        "heartbeat" := Map(PortOnly(3002) + map["mode" := Str("mesh")]),
        "fabric" := Map(PortOnly(3001))]
  }

  ghost function ServiceTree(cluster: string): Section {
    map["cluster-name" := Str(cluster), "proto-fd-max" := Num(Number(Int, 15000.0))]
  }

  /** The defaults as a config of their own. */
  ghost function DefaultTree(cluster: string): Section {
    map["service" := Map(ServiceTree(cluster)), "network" := Map(NetworkTree())]
  }

  lemma ServiceFilled(service: Section, cluster: string)
    ensures ServiceDefaults(service, cluster) == MergeSections(ServiceTree(cluster), service)
  {
    var r, m := ServiceDefaults(service, cluster), MergeSections(ServiceTree(cluster), service);
    forall k ensures Entry(r, k) == Entry(m, k) { MergeEntry(ServiceTree(cluster), service, k); }
    SameEntries(r, m);
  }

  lemma PortFilled(m: Section, port: int)
    ensures Fill(m, PORT, true, WholeNumber(port)) == MergeSections(PortOnly(port), m)
  {
    var r, t := Fill(m, PORT, true, WholeNumber(port)), MergeSections(PortOnly(port), m);
    forall k ensures Entry(r, k) == Entry(t, k) { MergeEntry(PortOnly(port), m, k); }
    SameEntries(r, t);
  }

  lemma BeatFilled(m: Section)
    ensures Fill(Fill(m, PORT, true, WholeNumber(HEARTBEAT_PORT)), MODE, true, Str(MESH)) ==
            MergeSections(PortOnly(3002) + map["mode" := Str("mesh")], m)
  {
    var r := Fill(Fill(m, PORT, true, WholeNumber(HEARTBEAT_PORT)), MODE, true, Str(MESH));
    var base := PortOnly(3002) + map["mode" := Str("mesh")];
    forall k ensures Entry(r, k) == Entry(MergeSections(base, m), k) { MergeEntry(base, m, k); }
    SameEntries(r, MergeSections(base, m));
  }

  lemma MergeNothingIn(m: Section)
    ensures MergeSections(m, map[]) == m
  {
  }

  lemma NetworkEntry(network: Section, k: string)
    requires SectionOk(network, SERVICE) && SectionOk(network, HEARTBEAT) && SectionOk(network, FABRIC)
    ensures Entry(NetworkDefaults(network), k) == Entry(MergeSections(NetworkTree(), network), k)
  {
    NetworkDefaultsAt(network);
    MergeEntry(NetworkTree(), network, k);
    if k == SERVICE {
      PortFilled(Subsection(network, SERVICE), 3000);
      MergeNothingIn(PortOnly(3000));
    } else if k == HEARTBEAT {
      BeatFilled(Subsection(network, HEARTBEAT));
      MergeNothingIn(PortOnly(3002) + map["mode" := Str("mesh")]);
    } else if k == FABRIC {
      PortFilled(Subsection(network, FABRIC), 3001);
      MergeNothingIn(PortOnly(3001));
    }
  }

  lemma NetworkFilled(network: Section)
    requires SectionOk(network, SERVICE) && SectionOk(network, HEARTBEAT) && SectionOk(network, FABRIC)
    ensures NetworkDefaults(network) == MergeSections(NetworkTree(), network)
  {
    forall k ensures Entry(NetworkDefaults(network), k) == Entry(MergeSections(NetworkTree(), network), k) {
      NetworkEntry(network, k);
    }
    SameEntries(NetworkDefaults(network), MergeSections(NetworkTree(), network));
  }

  /**
    Defaulting lays the tree of defaults under the config: whatever the config says stays, and where it
    says nothing the default stands.
   */
  lemma DefaultsLaidUnder(cfg: Section, cluster: string, p: seq<string>)
    requires Defaultable(cfg)
    ensures Defaulted(cfg, cluster) == MergeSections(DefaultTree(cluster), cfg)
    ensures LaidOver(Map(DefaultTree(cluster)), Map(cfg), Map(Defaulted(cfg, cluster)), p)
  {
    ServiceFilled(Subsection(cfg, SERVICE), cluster);
    NetworkFilled(Subsection(cfg, NETWORK));
    MergeNothingIn(ServiceTree(cluster));
    MergeNothingIn(NetworkTree());
    var r, m := Defaulted(cfg, cluster), MergeSections(DefaultTree(cluster), cfg);
    forall k ensures Entry(r, k) == Entry(m, k) { MergeEntry(DefaultTree(cluster), cfg, k); }
    SameEntries(r, m);
    MergeAnswers(Map(DefaultTree(cluster)), Map(cfg), p);
  }

  /** A template that was admitted lays no heartbeat mode but mesh under a config. */
  lemma AdmittedModeIsMesh(t: TemplateConfig, beat: Section)
    requires TemplateAdmitted(t) && t.heartbeat.Some? && MODE !in beat
    ensures var filled := FillHeartbeat(beat, t.heartbeat.value); MODE in filled ==> filled[MODE] == Str("mesh")
  {
  }
}
