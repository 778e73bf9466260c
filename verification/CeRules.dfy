/**
  The Community Edition rules for a config, checked at admission on each input and again on
  the merged result: every merge of admissible inputs is admissible.
 */
module CeRules {
  import opened Text
  import opened ConfigTree
  import opened ConfigMerge
  import opened Template

  const NAME := "name"
  const TLS := "tls"
  const TLS_PREFIX := "tls-"
  const XDR := "xdr"
  const SECURITY := "security"
  const LOGGING := "logging"
  const FABRIC := "fabric"
  const REPLICATION_FACTOR := "replication-factor"
  const MESH := "mesh"
  const MAX_NAMESPACES := 2

  const ENTERPRISE_NAMESPACE_KEYS := {
    "compression", "compression-level", "durable-delete", "fast-restart", "index-type", "sindex-type", "rack-id",
    "strong-consistency", "tomb-raider-eligible-age", "tomb-raider-period"
  }

  const ENTERPRISE_SECURITY_KEYS := {"tls", "ldap", "log", "syslog"}

  const ENTERPRISE_LOGGING_CONTEXTS := {
    "audit", "report-data-op", "report-data-op-user", "report-data-op-role", "report-sys-admin", "report-user-admin",
    "report-violation", "report-authentication"
  }

  predicate FreeOf(m: Section, banned: set<string>) { forall k :: k in m ==> k !in banned }

  predicate FreeOfTlsKeys(m: Section) { forall k :: k in m ==> !(TLS_PREFIX <= k) }

  /** No `tls` stanza under network and no tls- key in its endpoint stanzas. */
  predicate NetworkTlsFree(cfg: Section) {
    var network := Subsection(cfg, NETWORK);
    && TLS !in network
    && FreeOfTlsKeys(Subsection(network, SERVICE))
    && FreeOfTlsKeys(Subsection(network, HEARTBEAT))
    && FreeOfTlsKeys(Subsection(network, FABRIC))
  }

  predicate ReplicationFactorOk(m: Section) {
    REPLICATION_FACTOR in m ==>
      var rf := m[REPLICATION_FACTOR];
      rf.Num? && rf.number.kind in {Int, Int32, Int64, Float64} && 1.0 <= rf.number.value <= 4.0
  }

  predicate NamespaceOk(entry: Val) {
    entry.Map? && NAME in entry.entries && FreeOf(entry.entries, ENTERPRISE_NAMESPACE_KEYS)
    && ReplicationFactorOk(entry.entries)
  }

  /** The name by which an entry can collide with another. */
  function NameOf(entry: Val): string {
    if entry.Map? && NAME in entry.entries && entry.entries[NAME].Str? then entry.entries[NAME].text else ""
  }

  predicate NamesDistinct(list: seq<Val>) {
    forall i, j :: 0 <= i < j < |list| && NameOf(list[i]) != "" ==> NameOf(list[i]) != NameOf(list[j])
  }

  predicate NamespacesOk(v: Val) {
    v.List? && |v.items| <= MAX_NAMESPACES && (forall i :: 0 <= i < |v.items| ==> NamespaceOk(v.items[i]))
    && NamesDistinct(v.items)
  }

  predicate SinkOk(entry: Val) {
    entry.Map? && NameOf(entry) != "" && FreeOf(entry.entries, ENTERPRISE_LOGGING_CONTEXTS)
  }

  predicate LoggingOk(v: Val) { v.List? && forall i :: 0 <= i < |v.items| ==> SinkOk(v.items[i]) }

  predicate SecurityOk(v: Val) { v.Map? && FreeOf(v.entries, ENTERPRISE_SECURITY_KEYS) }

  predicate ModeOk(cfg: Section) {
    var beat := Subsection(Subsection(cfg, NETWORK), HEARTBEAT);
    MODE in beat && beat[MODE].Str? ==> beat[MODE].text == MESH
  }

  /** What admission asks of a cluster's or a rack's config. */
  predicate Admissible(cfg: Section) {
    && XDR !in cfg && TLS !in cfg && NetworkTlsFree(cfg) && ModeOk(cfg)
    && (NAMESPACES in cfg ==> NamespacesOk(cfg[NAMESPACES]))
    && (SECURITY in cfg ==> SecurityOk(cfg[SECURITY]))
    && (LOGGING in cfg ==> LoggingOk(cfg[LOGGING]))
    && (SERVICE in cfg ==> cfg[SERVICE].Map?)
    && (NETWORK in cfg ==> cfg[NETWORK].Map?)
  }

  // ---- Merging a rack's config over the cluster's --------------------------------------------

  lemma SubsectionMerge(a: Section, b: Section, k: string)
    ensures var s := Subsection(MergeSections(a, b), k);
            || s == Subsection(a, k) || s == Subsection(b, k) || s == MergeSections(Subsection(a, k), Subsection(b, k))
  {
    var m := MergeSections(a, b);
    if k in m { assert m[k] == MergedAt(a, b, k); }
  }

  /** A key that is a plain value or a list in the override is taken whole. */
  lemma TakenWhole(a: Section, b: Section, k: string)
    requires k in MergeSections(a, b) && (k in a ==> !a[k].Map?)
    ensures MergeSections(a, b)[k] == if k in b then b[k] else a[k]
  {
    assert MergeSections(a, b)[k] == MergedAt(a, b, k);
  }

  lemma NetworkMerges(a: Section, b: Section)
    requires NetworkTlsFree(a) && NetworkTlsFree(b) && ModeOk(a) && ModeOk(b)
    ensures NetworkTlsFree(MergeSections(a, b)) && ModeOk(MergeSections(a, b))
  {
    var x, y := Subsection(a, NETWORK), Subsection(b, NETWORK);
    SubsectionMerge(a, b, NETWORK);
    SubsectionMerge(x, y, SERVICE);
    SubsectionMerge(x, y, HEARTBEAT);
    SubsectionMerge(x, y, FABRIC);
    var p, q := Subsection(x, HEARTBEAT), Subsection(y, HEARTBEAT);
    if MODE in MergeSections(p, q) { assert MergeSections(p, q)[MODE] == MergedAt(p, q, MODE); }
  }

  /** Where both sides have sections, so has the merge, with no key neither had. */
  lemma MapsMerge(a: Section, b: Section, k: string)
    requires k in MergeSections(a, b) && (k in a ==> a[k].Map?) && (k in b ==> b[k].Map?)
    ensures var v := MergeSections(a, b)[k];
            v.Map? && forall x :: x in v.entries ==> x in Subsection(a, k) || x in Subsection(b, k)
  {
    assert MergeSections(a, b)[k] == MergedAt(a, b, k);
    if k in a && k in b { assert Merge(a[k], b[k]) == Map(MergeSections(a[k].entries, b[k].entries)); }
  }

  lemma ListsMerge(a: Section, b: Section)
    requires Admissible(a) && Admissible(b)
    ensures var m := MergeSections(a, b);
            (NAMESPACES in m ==> NamespacesOk(m[NAMESPACES])) && (LOGGING in m ==> LoggingOk(m[LOGGING]))
  {
    var m := MergeSections(a, b);
    if NAMESPACES in m { TakenWhole(a, b, NAMESPACES); }
    if LOGGING in m { TakenWhole(a, b, LOGGING); }
  }

  lemma SectionsMerge(a: Section, b: Section)
    requires Admissible(a) && Admissible(b)
    ensures var m := MergeSections(a, b);
            && (SECURITY in m ==> SecurityOk(m[SECURITY]))
            && (SERVICE in m ==> m[SERVICE].Map?) && (NETWORK in m ==> m[NETWORK].Map?)
  {
    var m := MergeSections(a, b);
    if SECURITY in m { MapsMerge(a, b, SECURITY); }
    if SERVICE in m { MapsMerge(a, b, SERVICE); }
    if NETWORK in m { MapsMerge(a, b, NETWORK); }
  }

  /** If the cluster's and the rack's configs are admissible, so is what the rack's pods get. */
  lemma RackMergeAdmissible(a: Section, b: Section)
    requires Admissible(a) && Admissible(b)
    ensures Admissible(MergeSections(a, b))
  {
    NetworkMerges(a, b);
    ListsMerge(a, b);
    SectionsMerge(a, b);
  }

  // ---- The validator --------------------------------------------------------------------------

  method ValidateNamespaces(v: Val) returns (errors: seq<string>)
    ensures errors == [] <==> NamespacesOk(v)
  {
    if !v.List? { return ["namespaces must be a list"]; }
    var list := v.items;
    errors := if |list| > MAX_NAMESPACES then ["too many namespaces"] else [];
    var seen: set<string> := {};
    for i := 0 to |list|
      invariant forall n :: n in seen <==> n != "" && exists j :: 0 <= j < i && NameOf(list[j]) == n
      invariant errors == [] <==>
                  && |list| <= MAX_NAMESPACES && (forall j :: 0 <= j < i ==> NamespaceOk(list[j]))
                  && NamesDistinct(list[..i])
    {
      NamesDistinctNext(list, i);
      if !list[i].Map? {
        errors := errors + ["namespace must be a map"];
      } else {
        var entry := list[i].entries;
        if NAME !in entry {
          errors := errors + ["namespace is missing its name"];
        } else if entry[NAME].Str? && entry[NAME].text != "" {
          if entry[NAME].text in seen { errors := errors + ["duplicate namespace name"]; }
          seen := seen + {entry[NAME].text};
        }
        if !FreeOf(entry, ENTERPRISE_NAMESPACE_KEYS) { errors := errors + ["enterprise-only namespace key"]; }
        if !ReplicationFactorOk(entry) { errors := errors + ["replication-factor out of range"]; }
      }
    }
    assert list[..|list|] == list;
  }

  lemma NamesDistinctNext(list: seq<Val>, i: nat)
    requires i < |list|
    ensures NamesDistinct(list[..i+1]) <==>
            NamesDistinct(list[..i])
            && (NameOf(list[i]) != "" ==> forall j :: 0 <= j < i ==> NameOf(list[j]) != NameOf(list[i]))
  {
    var a, b := list[..i], list[..i+1];
    if NamesDistinct(b) {
      forall j, k | 0 <= j < k < |a| && NameOf(a[j]) != ""
        ensures NameOf(a[j]) != NameOf(a[k])
      {
        assert a[j] == b[j] && a[k] == b[k];
      }
      if NameOf(list[i]) != "" {
        forall j | 0 <= j < i ensures NameOf(list[j]) != NameOf(list[i]) { assert b[j] == list[j] && b[i] == list[i]; }
      }
    }
    if NamesDistinct(a) && (NameOf(list[i]) != "" ==> forall j :: 0 <= j < i ==> NameOf(list[j]) != NameOf(list[i])) {
      forall j, k | 0 <= j < k < |b| && NameOf(b[j]) != "" ensures NameOf(b[j]) != NameOf(b[k]) {
        if k < i { assert a[j] == b[j] && a[k] == b[k]; }
      }
    }
  }

  method ValidateLogging(v: Val) returns (errors: seq<string>)
    ensures errors == [] <==> LoggingOk(v)
  {
    if !v.List? { return ["logging must be a list"]; }
    errors := [];
    for i := 0 to |v.items|
      invariant errors == [] <==> forall j :: 0 <= j < i ==> SinkOk(v.items[j])
    {
      if !v.items[i].Map? {
        errors := errors + ["logging sink must be a map"];
      } else {
        if NameOf(v.items[i]) == "" { errors := errors + ["logging sink needs a name"]; }
        if !FreeOf(v.items[i].entries, ENTERPRISE_LOGGING_CONTEXTS) {
          errors := errors + ["enterprise-only logging context"];
        }
      }
    }
  }

  /** No error is reported exactly for admissible configs. */
  method ValidateAerospikeConfig(cfg: Section) returns (errors: seq<string>)
    ensures errors == [] <==> Admissible(cfg)
  {
    errors := [];
    if XDR in cfg { errors := errors + ["xdr is enterprise-only"]; }
    if TLS in cfg { errors := errors + ["tls is enterprise-only"]; }
    if !NetworkTlsFree(cfg) { errors := errors + ["network tls is enterprise-only"]; }
    if NAMESPACES in cfg {
      var found := ValidateNamespaces(cfg[NAMESPACES]);
      errors := errors + found;
    }
    if SECURITY in cfg && !SecurityOk(cfg[SECURITY]) { errors := errors + ["security section"]; }
    if SERVICE in cfg && !cfg[SERVICE].Map? { errors := errors + ["service must be a map"]; }
    if NETWORK in cfg && !cfg[NETWORK].Map? { errors := errors + ["network must be a map"]; }
    if LOGGING in cfg {
      var found := ValidateLogging(cfg[LOGGING]);
      errors := errors + found;
    }
    if !ModeOk(cfg) { errors := errors + ["heartbeat mode must be mesh"]; }
  }

  // ---- Templates ----------------------------------------------------------------------------------

  /** What admission asks of a template's or an override's config map. */
  predicate TemplateMapOk(m: Section, isDefaults: bool) {
    && XDR !in m && TLS !in m && FreeOfTlsKeys(m) && NetworkTlsFree(m)
    && (SECURITY in m ==> SecurityOk(m[SECURITY]))
    && (isDefaults ==> FreeOf(m, ENTERPRISE_NAMESPACE_KEYS))
  }

  predicate TemplateOk(t: TemplateConfig) {
    TemplateMapOk(t.namespaceDefaults, true) && TemplateMapOk(t.service, false)
  }

  /** What is checked again on the cluster's config once the template is applied. */
  predicate MergedOk(cfg: Section) {
    && XDR !in cfg && TLS !in cfg && NetworkTlsFree(cfg)
    && (SECURITY in cfg && cfg[SECURITY].Map? ==> FreeOf(cfg[SECURITY].entries, ENTERPRISE_SECURITY_KEYS))
    && (NAMESPACES in cfg && cfg[NAMESPACES].List? ==>
          forall i :: 0 <= i < |cfg[NAMESPACES].items| && cfg[NAMESPACES].items[i].Map? ==>
            FreeOf(cfg[NAMESPACES].items[i].entries, ENTERPRISE_NAMESPACE_KEYS))
  }

  lemma DefaultsFree(t: TemplateConfig, o: Option<TemplateConfig>)
    requires TemplateOk(t) && (o.Some? ==> TemplateOk(o.value))
    ensures FreeOf(MergeTemplates(t, o).namespaceDefaults, ENTERPRISE_NAMESPACE_KEYS)
  {
  }

  /** The parts of a config a template touches. */
  lemma ResolvedShape(t: TemplateConfig, cfg: Section)
    ensures var r := Resolved(t, cfg);
            && (forall k :: k != SERVICE && k != NETWORK && k != NAMESPACES ==>
                  (k in r <==> k in cfg) && (k in r ==> r[k] == cfg[k]))
            && (NAMESPACES in r <==> NAMESPACES in cfg)
            && (NETWORK in r ==> r[NETWORK] == WithHeartbeat(cfg, t.heartbeat)[NETWORK])
            && (NETWORK in r <==> NETWORK in WithHeartbeat(cfg, t.heartbeat))
  {
  }

  lemma HeartbeatTlsFree(cfg: Section, hb: Option<Heartbeat>)
    requires NetworkTlsFree(cfg)
    ensures NetworkTlsFree(WithHeartbeat(cfg, hb))
  {
    if hb.Some? {
      var r := WithHeartbeat(cfg, hb);
      var network := Subsection(cfg, NETWORK);
      var beat := Subsection(network, HEARTBEAT);
      assert Subsection(r, NETWORK) == network[HEARTBEAT := Map(FillHeartbeat(beat, hb.value))];
      assert !(TLS_PREFIX <= MODE) && !(TLS_PREFIX <= INTERVAL) && !(TLS_PREFIX <= TIMEOUT) by {
        assert MODE[0] == 'm' && INTERVAL[0] == 'i' && TIMEOUT[1] == 'i' && TLS_PREFIX[0] == 't'
               && TLS_PREFIX[1] == 'l';
      }
      assert FreeOfTlsKeys(FillHeartbeat(beat, hb.value));
    }
  }

  lemma NamespacesFree(cfg: Section, defaults: Section)
    requires NAMESPACES in cfg ==> NamespacesOk(cfg[NAMESPACES])
    requires FreeOf(defaults, ENTERPRISE_NAMESPACE_KEYS)
    ensures var r := WithNamespaceDefaults(cfg, defaults);
            NAMESPACES in r ==> r[NAMESPACES].List? && forall i :: 0 <= i < |r[NAMESPACES].items| ==>
              r[NAMESPACES].items[i].Map? && FreeOf(r[NAMESPACES].items[i].entries, ENTERPRISE_NAMESPACE_KEYS)
  {
    if NAMESPACES in cfg && defaults != map[] {
      var list := cfg[NAMESPACES].items;
      forall i | 0 <= i < |list| ensures FreeOf(WithDefaults(list[i], defaults).entries, ENTERPRISE_NAMESPACE_KEYS) {
        assert NamespaceOk(list[i]);
      }
    }
  }

  /** If template, overrides and cluster config were admitted, the applied config passes the second check. */
  lemma TemplatePassesSecondCheck(t: TemplateConfig, o: Option<TemplateConfig>, cfg: Section)
    requires TemplateOk(t) && (o.Some? ==> TemplateOk(o.value)) && Admissible(cfg)
    ensures !Refuses(MergeTemplates(t, o), cfg) && MergedOk(Resolved(MergeTemplates(t, o), cfg))
  {
    var m := MergeTemplates(t, o);
    var r := Resolved(m, cfg);
    DefaultsFree(t, o);
    ResolvedShape(m, cfg);
    HeartbeatTlsFree(cfg, m.heartbeat);
    assert Subsection(r, NETWORK) == Subsection(WithHeartbeat(cfg, m.heartbeat), NETWORK);
    var before := WithHeartbeat(WithService(cfg, m.service), m.heartbeat);
    assert NAMESPACES in before ==> before[NAMESPACES] == cfg[NAMESPACES];
    NamespacesFree(before, m.namespaceDefaults);
  }

  // ---- What applying a template does to a config -------------------------------------------------------

  /** The template's heartbeat mode is mesh, or the cluster's own mode hides it. */
  predicate ModeCovered(hb: Option<Heartbeat>, cfg: Section) {
    hb.None? || hb.value.mode in {"", MESH} || MODE in Subsection(Subsection(cfg, NETWORK), HEARTBEAT)
  }

  /** The default replication factor is in range, or every namespace sets its own. */
  predicate FactorCovered(defaults: Section, cfg: Section) {
    || ReplicationFactorOk(defaults)
    || (NAMESPACES in cfg && cfg[NAMESPACES].List? ==>
          forall i :: 0 <= i < |cfg[NAMESPACES].items| && cfg[NAMESPACES].items[i].Map? ==>
            REPLICATION_FACTOR in cfg[NAMESPACES].items[i].entries)
  }

  lemma ModeExactly(cfg: Section, hb: Option<Heartbeat>)
    requires ModeOk(cfg)
    ensures ModeOk(WithHeartbeat(cfg, hb)) <==> ModeCovered(hb, cfg)
  {
    if hb.Some? {
      var network := Subsection(cfg, NETWORK);
      var beat := Subsection(network, HEARTBEAT);
      assert Subsection(WithHeartbeat(cfg, hb), NETWORK) == network[HEARTBEAT := Map(FillHeartbeat(beat, hb.value))];
      assert Subsection(Subsection(WithHeartbeat(cfg, hb), NETWORK), HEARTBEAT) == FillHeartbeat(beat, hb.value);
      assert MODE in FillHeartbeat(beat, hb.value) <==> MODE in beat || hb.value.mode != "";
    }
  }

  lemma EntryExactly(entry: Val, defaults: Section)
    requires NamespaceOk(entry) && FreeOf(defaults, ENTERPRISE_NAMESPACE_KEYS)
    ensures NameOf(WithDefaults(entry, defaults)) == NameOf(entry)
    ensures NamespaceOk(WithDefaults(entry, defaults)) <==>
            REPLICATION_FACTOR in entry.entries || ReplicationFactorOk(defaults)
  {
    var e := entry.entries;
    var m := MergeSections(defaults, e);
    assert m[NAME] == MergedAt(defaults, e, NAME);
    if REPLICATION_FACTOR in m { assert m[REPLICATION_FACTOR] == MergedAt(defaults, e, REPLICATION_FACTOR); }
    assert FreeOf(m, ENTERPRISE_NAMESPACE_KEYS);
  }

  lemma ListExactly(list: seq<Val>, done: seq<Val>, defaults: Section)
    requires NamespacesOk(List(list)) && FreeOf(defaults, ENTERPRISE_NAMESPACE_KEYS)
    requires |done| == |list| && forall i :: 0 <= i < |list| ==> done[i] == WithDefaults(list[i], defaults)
    ensures NamespacesOk(List(done)) <==>
            forall i :: 0 <= i < |list| ==> REPLICATION_FACTOR in list[i].entries || ReplicationFactorOk(defaults)
  {
    forall i | 0 <= i < |list|
      ensures NameOf(done[i]) == NameOf(list[i])
      ensures NamespaceOk(done[i]) <==> REPLICATION_FACTOR in list[i].entries || ReplicationFactorOk(defaults)
    {
      EntryExactly(list[i], defaults);
    }
    assert NamesDistinct(done);
  }

  lemma FactorExactly(cfg: Section, defaults: Section)
    requires (NAMESPACES in cfg ==> NamespacesOk(cfg[NAMESPACES])) && FreeOf(defaults, ENTERPRISE_NAMESPACE_KEYS)
    ensures var r := WithNamespaceDefaults(cfg, defaults);
            (NAMESPACES in r ==> NamespacesOk(r[NAMESPACES])) <==> FactorCovered(defaults, cfg)
  {
    if NAMESPACES in cfg && defaults != map[] {
      ListExactly(cfg[NAMESPACES].items, WithNamespaceDefaults(cfg, defaults)[NAMESPACES].items, defaults);
      assert forall i :: 0 <= i < |cfg[NAMESPACES].items| ==> NamespaceOk(cfg[NAMESPACES].items[i]);
    }
  }

  lemma ResolvedSections(t: TemplateConfig, cfg: Section)
    requires (SERVICE in cfg ==> cfg[SERVICE].Map?) && (NETWORK in cfg ==> cfg[NETWORK].Map?)
    ensures var r, before := Resolved(t, cfg), WithHeartbeat(WithService(cfg, t.service), t.heartbeat);
            && (SERVICE in r ==> r[SERVICE].Map?) && (NETWORK in r ==> r[NETWORK].Map?)
            && Subsection(r, NETWORK) == Subsection(WithHeartbeat(cfg, t.heartbeat), NETWORK)
            && (NAMESPACES in before <==> NAMESPACES in cfg)
            && (NAMESPACES in before ==> before[NAMESPACES] == cfg[NAMESPACES])
  {
  }

  /** A config a template was applied to is admissible exactly when mode and factor are covered. */
  lemma ResolvedExactly(t: TemplateConfig, cfg: Section)
    requires Admissible(cfg) && FreeOf(t.namespaceDefaults, ENTERPRISE_NAMESPACE_KEYS)
    ensures Admissible(Resolved(t, cfg)) <==> ModeCovered(t.heartbeat, cfg) && FactorCovered(t.namespaceDefaults, cfg)
  {
    ResolvedShape(t, cfg);
    ResolvedSections(t, cfg);
    ModeExactly(cfg, t.heartbeat);
    FactorExactly(WithHeartbeat(WithService(cfg, t.service), t.heartbeat), t.namespaceDefaults);
    HeartbeatTlsFree(cfg, t.heartbeat);
  }
}
