/**
  Template defaults laid under a cluster's config: the template-with-overrides merge, its
  application to the cluster, and why applying it again changes nothing.
 */
module Template {
  import opened Text
  import opened ConfigTree
  import opened ConfigMerge

  const SERVICE := "service"
  const NETWORK := "network"
  const HEARTBEAT := "heartbeat"
  const NAMESPACES := "namespaces"
  const MODE := "mode"
  const INTERVAL := "interval"
  const TIMEOUT := "timeout"

  /** Zero values mean unset. */
  datatype Heartbeat = Heartbeat(mode: string, interval: int, timeout: int)

  /** An absent map and an empty one are treated alike. */
  datatype TemplateConfig = TemplateConfig(namespaceDefaults: Section, service: Section, heartbeat: Option<Heartbeat>)

  function MergeHeartbeats(base: Option<Heartbeat>, over: Option<Heartbeat>): Option<Heartbeat> {
    if over.None? then base
    else if base.None? then over
    else Some(Heartbeat(if over.value.mode != "" then over.value.mode else base.value.mode,
                        if over.value.interval != 0 then over.value.interval else base.value.interval,
                        if over.value.timeout != 0 then over.value.timeout else base.value.timeout))
  }

  /** Overrides laid over the template's own settings. */
  function MergeTemplates(base: TemplateConfig, over: Option<TemplateConfig>): TemplateConfig {
    if over.None? then base
    else
      TemplateConfig(
        if over.value.namespaceDefaults == map[] then base.namespaceDefaults
        else MergeSections(base.namespaceDefaults, over.value.namespaceDefaults),
        if over.value.service == map[] then base.service else MergeSections(base.service, over.value.service),
        MergeHeartbeats(base.heartbeat, over.value.heartbeat))
  }

  // ---- Applying a template ----------------------------------------------------------------

  function Subsection(m: Section, k: string): Section { if k in m && m[k].Map? then m[k].entries else map[] }

  function Fill(m: Section, k: string, given: bool, v: Val): Section { if given && k !in m then m[k := v] else m }

  function WholeNumber(n: int): Val { Num(Number(Int, n as real)) }

  function FillHeartbeat(m: Section, hb: Heartbeat): Section {
    Fill(Fill(Fill(m, MODE, hb.mode != "", Str(hb.mode)),
              INTERVAL, hb.interval > 0, WholeNumber(hb.interval)),
         TIMEOUT, hb.timeout > 0, WholeNumber(hb.timeout))
  }

  function WithService(cfg: Section, service: Section): Section {
    if service == map[] then cfg else cfg[SERVICE := Map(MergeSections(service, Subsection(cfg, SERVICE)))]
  }

  function WithHeartbeat(cfg: Section, hb: Option<Heartbeat>): Section {
    if hb.None? then cfg
    else
      var network := Subsection(cfg, NETWORK);
      cfg[NETWORK := Map(network[HEARTBEAT := Map(FillHeartbeat(Subsection(network, HEARTBEAT), hb.value))])]
  }

  function WithDefaults(entry: Val, defaults: Section): Val {
    if entry.Map? then Map(MergeSections(defaults, entry.entries)) else entry
  }

  function WithNamespaceDefaults(cfg: Section, defaults: Section): Section {
    if defaults == map[] || NAMESPACES !in cfg || !cfg[NAMESPACES].List? then cfg
    else
      var list := cfg[NAMESPACES].items;
      cfg[NAMESPACES := List(seq(|list|, i requires 0 <= i < |list| => WithDefaults(list[i], defaults)))]
  }

  /** A service section that is no map is refused rather than overwritten. */
  predicate Refuses(t: TemplateConfig, cfg: Section) {
    t.service != map[] && SERVICE in cfg && !cfg[SERVICE].Map?
  }

  function Resolved(t: TemplateConfig, cfg: Section): Section {
    WithNamespaceDefaults(WithHeartbeat(WithService(cfg, t.service), t.heartbeat), t.namespaceDefaults)
  }

  // ---- Applying it again ----------------------------------------------------------------------

  lemma DefaultsAgain(entry: Val, defaults: Section)
    ensures WithDefaults(WithDefaults(entry, defaults), defaults) == WithDefaults(entry, defaults)
  {
    if entry.Map? { MergeLaws(defaults, entry.entries); }
  }

  lemma NamespacesAgain(cfg: Section, defaults: Section)
    ensures var c := WithNamespaceDefaults(cfg, defaults); WithNamespaceDefaults(c, defaults) == c
  {
    var c := WithNamespaceDefaults(cfg, defaults);
    if defaults != map[] && NAMESPACES in cfg && cfg[NAMESPACES].List? {
      var list := cfg[NAMESPACES].items;
      forall i | 0 <= i < |list| ensures WithDefaults(c[NAMESPACES].items[i], defaults) == c[NAMESPACES].items[i] {
        DefaultsAgain(list[i], defaults);
      }
      assert WithNamespaceDefaults(c, defaults)[NAMESPACES].items == c[NAMESPACES].items;
      assert WithNamespaceDefaults(c, defaults) == c;
    }
  }

  lemma HeartbeatAgain(cfg: Section, hb: Option<Heartbeat>)
    ensures var c := WithHeartbeat(cfg, hb); WithHeartbeat(c, hb) == c
  {
    if hb.Some? {
      var c := WithHeartbeat(cfg, hb);
      var network := Subsection(c, NETWORK);
      var beat := Subsection(network, HEARTBEAT);
      assert FillHeartbeat(beat, hb.value) == beat;
      assert network[HEARTBEAT := Map(beat)] == network;
      assert c[NETWORK := Map(network)] == c;
    }
  }

  lemma ServiceAgain(cfg: Section, service: Section)
    ensures var c := WithService(cfg, service); WithService(c, service) == c
  {
    if service != map[] {
      MergeLaws(service, Subsection(cfg, SERVICE));
      var c := WithService(cfg, service);
      assert c[SERVICE := c[SERVICE]] == c;
    }
  }

  /** A resolved template is a fixed point: re-applying it after a status write changes nothing. */
  lemma ReapplyingChangesNothing(t: TemplateConfig, cfg: Section)
    requires !Refuses(t, cfg)
    ensures !Refuses(t, Resolved(t, cfg)) && Resolved(t, Resolved(t, cfg)) == Resolved(t, cfg)
  {
    var c1 := WithService(cfg, t.service);
    var c2 := WithHeartbeat(c1, t.heartbeat);
    var c3 := WithNamespaceDefaults(c2, t.namespaceDefaults);
    ServiceAgain(cfg, t.service);
    HeartbeatAgain(c1, t.heartbeat);
    NamespacesAgain(c2, t.namespaceDefaults);
    assert WithService(c3, t.service) == c3 by {
      if t.service != map[] {
        assert c3[SERVICE] == c1[SERVICE];
        assert c3[SERVICE := c3[SERVICE]] == c3;
      }
    }
    assert WithHeartbeat(c3, t.heartbeat) == c3 by {
      if t.heartbeat.Some? {
        assert c3[NETWORK] == c2[NETWORK];
        assert c3[NETWORK := c3[NETWORK]] == c3;
      }
    }
  }
}
