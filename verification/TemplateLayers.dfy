/**
  Who decides a setting once a template is resolved: the cluster, then the overrides, then the
  template, path by path. A resolved config is the deep merge of the template's own tree under the
  cluster's, except that a network section of the wrong type is overwritten, not refused.
 */
module TemplateLayers {
  import opened Text
  import opened ConfigTree
  import opened ConfigMerge
  import opened Template

  ghost function HeartbeatTree(hb: Heartbeat): Section {
    (if hb.mode != "" then map["mode" := Str(hb.mode)] else map[])
    + (if hb.interval > 0 then map["interval" := Num(Number(Int, hb.interval as real))] else map[])
    + (if hb.timeout > 0 then map["timeout" := Num(Number(Int, hb.timeout as real))] else map[])
  }

  /** What a template says about a config, namespaces aside, as a config of its own. */
  ghost function TemplateTree(t: TemplateConfig): Section {
    (if t.service != map[] then map["service" := Map(t.service)] else map[])
    + (if t.heartbeat.Some? then map["network" := Map(map["heartbeat" := Map(HeartbeatTree(t.heartbeat.value))])]
       else map[])
  }

  /** Where the template sets a heartbeat, network and network.heartbeat are sections or absent. */
  ghost predicate Fits(t: TemplateConfig, cfg: Section) {
    t.heartbeat.Some? && "network" in cfg ==>
      cfg["network"].Map? && ("heartbeat" in cfg["network"].entries ==> cfg["network"].entries["heartbeat"].Map?)
  }

  ghost function Plain(cfg: Section): Section { cfg - {"namespaces"} }

  // ---- Outside the namespaces ------------------------------------------------------------

  lemma FillIsMerge(beat: Section, hb: Heartbeat)
    ensures FillHeartbeat(beat, hb) == MergeSections(HeartbeatTree(hb), beat)
  {
    var r, m := FillHeartbeat(beat, hb), MergeSections(HeartbeatTree(hb), beat);
    forall k ensures Entry(r, k) == Entry(m, k) { FilledEntry(beat, hb, k); }
    SameEntries(r, m);
  }

  lemma FilledEntry(beat: Section, hb: Heartbeat, k: string)
    ensures Entry(FillHeartbeat(beat, hb), k) == Entry(MergeSections(HeartbeatTree(hb), beat), k)
  {
    MergeEntry(HeartbeatTree(hb), beat, k);
    assert k in HeartbeatTree(hb) ==> !HeartbeatTree(hb)[k].Map?;
  }

  lemma MergeNothing(m: Section)
    ensures MergeSections(map[], m) == m && MergeSections(m, map[]) == m
  {
  }

  /** The heartbeat as the template lays it into a network section. */
  ghost function BeatAlone(hb: Heartbeat): Section { map["heartbeat" := Map(HeartbeatTree(hb))] }

  lemma NetworkMerged(network: Section, hb: Heartbeat)
    requires HEARTBEAT in network ==> network[HEARTBEAT].Map?
    ensures network[HEARTBEAT := Map(FillHeartbeat(Subsection(network, HEARTBEAT), hb))] ==
            MergeSections(BeatAlone(hb), network)
  {
    var r := network[HEARTBEAT := Map(FillHeartbeat(Subsection(network, HEARTBEAT), hb))];
    FillIsMerge(Subsection(network, HEARTBEAT), hb);
    MergeNothing(HeartbeatTree(hb));
    forall k ensures Entry(r, k) == Entry(MergeSections(BeatAlone(hb), network), k) {
      MergeEntry(BeatAlone(hb), network, k);
    }
    SameEntries(r, MergeSections(BeatAlone(hb), network));
  }

  /** A heartbeat of the wrong type is overwritten where a merge would keep it. */
  lemma BeatOverwritten(network: Section, hb: Heartbeat)
    requires HEARTBEAT in network && !network[HEARTBEAT].Map?
    ensures network[HEARTBEAT := Map(FillHeartbeat(Subsection(network, HEARTBEAT), hb))] !=
            MergeSections(BeatAlone(hb), network)
  {
    MergeEntry(BeatAlone(hb), network, HEARTBEAT);
  }

  /** What applying a template puts under each key. */
  lemma ResolvedEntry(t: TemplateConfig, cfg: Section, k: string)
    requires k != NAMESPACES
    ensures Entry(Resolved(t, cfg), k) ==
            if k == SERVICE && t.service != map[] then Some(Map(MergeSections(t.service, Subsection(cfg, SERVICE))))
            else if k == NETWORK && t.heartbeat.Some? then
              var network := Subsection(cfg, NETWORK);
              Some(Map(network[HEARTBEAT := Map(FillHeartbeat(Subsection(network, HEARTBEAT), t.heartbeat.value))]))
            else Entry(cfg, k)
  {
  }

  lemma TreeEntry(t: TemplateConfig, k: string)
    ensures Entry(TemplateTree(t), k) ==
            if k == SERVICE && t.service != map[] then Some(Map(t.service))
            else if k == NETWORK && t.heartbeat.Some? then Some(Map(BeatAlone(t.heartbeat.value)))
            else None
  {
  }

  lemma MergedEntry(t: TemplateConfig, cfg: Section, k: string)
    requires !Refuses(t, cfg) && k != NAMESPACES && (k == NETWORK ==> t.heartbeat.None?)
    ensures Entry(Resolved(t, cfg), k) == Entry(MergeSections(TemplateTree(t), Plain(cfg)), k)
  {
    ResolvedEntry(t, cfg, k);
    TreeEntry(t, k);
    MergeEntry(TemplateTree(t), Plain(cfg), k);
    MergeNothing(t.service);
    assert Entry(Plain(cfg), k) == Entry(cfg, k);
  }

  lemma MergedNetwork(t: TemplateConfig, cfg: Section)
    requires t.heartbeat.Some?
    ensures Entry(Resolved(t, cfg), NETWORK) == Entry(MergeSections(TemplateTree(t), Plain(cfg)), NETWORK) <==>
            Fits(t, cfg)
  {
    var hb, network := t.heartbeat.value, Subsection(cfg, NETWORK);
    ResolvedEntry(t, cfg, NETWORK);
    TreeEntry(t, NETWORK);
    MergeEntry(TemplateTree(t), Plain(cfg), NETWORK);
    MergeNothing(BeatAlone(hb));
    assert Entry(Plain(cfg), NETWORK) == Entry(cfg, NETWORK);
    if HEARTBEAT in network && !network[HEARTBEAT].Map? { BeatOverwritten(network, hb); }
    else { NetworkMerged(network, hb); }
  }

  /**
    Namespaces aside, the resolved config is the template's tree merged under the cluster's if and
    only if the network sections the heartbeat goes into are sections.
   */
  lemma ResolvedMergesExactly(t: TemplateConfig, cfg: Section)
    requires !Refuses(t, cfg)
    ensures Plain(Resolved(t, cfg)) == MergeSections(TemplateTree(t), Plain(cfg)) <==> Fits(t, cfg)
  {
    var r, m := Plain(Resolved(t, cfg)), MergeSections(TemplateTree(t), Plain(cfg));
    if t.heartbeat.Some? { MergedNetwork(t, cfg); }
    if Fits(t, cfg) {
      forall k ensures Entry(r, k) == Entry(m, k) { PlainEntry(t, cfg, k); }
      SameEntries(r, m);
    } else {
      assert Entry(r, NETWORK) == Entry(Resolved(t, cfg), NETWORK) != Entry(m, NETWORK);
    }
  }

  lemma PlainEntry(t: TemplateConfig, cfg: Section, k: string)
    requires !Refuses(t, cfg) && Fits(t, cfg)
    ensures Entry(Plain(Resolved(t, cfg)), k) == Entry(MergeSections(TemplateTree(t), Plain(cfg)), k)
  {
    if k == NAMESPACES {
      TreeEntry(t, k);
      MergeEntry(TemplateTree(t), Plain(cfg), k);
    } else if k == NETWORK && t.heartbeat.Some? {
      MergedNetwork(t, cfg);
    } else {
      MergedEntry(t, cfg, k);
    }
  }

  /** The cluster decides every path it says anything about, and the template every other. */
  ghost predicate ClusterDecides(t: TemplateConfig, cfg: Section, r: Section) {
    && (forall p :: LaidOver(Map(TemplateTree(t)), Map(Plain(cfg)), Map(Plain(r)), p))
    && ("namespaces" in r <==> "namespaces" in cfg)
    && ("namespaces" in cfg && !cfg["namespaces"].List? ==> r["namespaces"] == cfg["namespaces"])
    && ("namespaces" in cfg && cfg["namespaces"].List? ==>
          && r["namespaces"].List?
          && EntriesDecide(t.namespaceDefaults, cfg["namespaces"].items, r["namespaces"].items))
  }

  /** Each namespace entry decides its own paths, and the defaults every other. */
  ghost predicate EntriesDecide(defaults: Section, list: seq<Val>, result: seq<Val>) {
    && |result| == |list|
    && forall i :: 0 <= i < |list| ==>
         if list[i].Map? then forall p :: LaidOver(Map(defaults), list[i], result[i], p) else result[i] == list[i]
  }

  lemma EntryDecides(defaults: Section, entry: Val)
    requires entry.Map?
    ensures forall p :: LaidOver(Map(defaults), entry, WithDefaults(entry, defaults), p)
    ensures forall p :: LaidOver(Map(map[]), entry, entry, p)
  {
    forall p ensures LaidOver(Map(defaults), entry, WithDefaults(entry, defaults), p) {
      MergeAnswers(Map(defaults), entry, p);
    }
    MergeNothing(entry.entries);
    forall p ensures LaidOver(Map(map[]), entry, entry, p) { MergeAnswers(Map(map[]), entry, p); }
  }

  lemma NamespacesDecide(t: TemplateConfig, cfg: Section)
    requires "namespaces" in cfg && cfg["namespaces"].List?
    ensures "namespaces" in Resolved(t, cfg) && Resolved(t, cfg)["namespaces"].List?
    ensures EntriesDecide(t.namespaceDefaults, cfg["namespaces"].items, Resolved(t, cfg)["namespaces"].items)
  {
    var list, result := cfg["namespaces"].items, Resolved(t, cfg)["namespaces"].items;
    forall i | 0 <= i < |list|
      ensures if list[i].Map? then forall p :: LaidOver(Map(t.namespaceDefaults), list[i], result[i], p)
              else result[i] == list[i]
    {
      if list[i].Map? { EntryDecides(t.namespaceDefaults, list[i]); }
    }
  }

  /** The law of a resolved template. */
  lemma ResolvedPathwise(t: TemplateConfig, cfg: Section)
    requires !Refuses(t, cfg) && Fits(t, cfg)
    ensures ClusterDecides(t, cfg, Resolved(t, cfg))
  {
    var r := Resolved(t, cfg);
    ResolvedMergesExactly(t, cfg);
    forall p ensures LaidOver(Map(TemplateTree(t)), Map(Plain(cfg)), Map(Plain(r)), p) {
      MergeAnswers(Map(TemplateTree(t)), Map(Plain(cfg)), p);
    }
    if "namespaces" in cfg && cfg["namespaces"].List? { NamespacesDecide(t, cfg); }
  }

  class ClusterSpec {
    /** None while the cluster has no config of its own. */
    var config: Option<Section>

    method ApplyAerospikeConfig(t: Option<TemplateConfig>) returns (ok: bool)
      modifies this
      ensures t.None? ==> ok && config == old(config)
      ensures t.Some? ==>
                var was := if old(config).Some? then old(config).value else map[];
                && (ok <==> !Refuses(t.value, was))
                && config == Some(if ok then Resolved(t.value, was) else was)
                && (ok && Fits(t.value, was) ==> ClusterDecides(t.value, was, config.value))
    {
      if t.None? { return true; }
      var cfg := if config.Some? then config.value else map[];
      config := Some(cfg);
      ghost var was := cfg;
      if t.value.service != map[] {
        if SERVICE in cfg && !cfg[SERVICE].Map? { return false; }
        var merged := DeepMergeMapBaseFirst(t.value.service, Subsection(cfg, SERVICE));
        cfg := cfg[SERVICE := Map(merged)];
      }
      if t.value.heartbeat.Some? {
        var network := Subsection(cfg, NETWORK);
        var beat := Subsection(network, HEARTBEAT);
        var hb := t.value.heartbeat.value;
        if hb.mode != "" && MODE !in beat { beat := beat[MODE := Str(hb.mode)]; }
        if hb.interval > 0 && INTERVAL !in beat { beat := beat[INTERVAL := WholeNumber(hb.interval)]; }
        if hb.timeout > 0 && TIMEOUT !in beat { beat := beat[TIMEOUT := WholeNumber(hb.timeout)]; }
        cfg := cfg[NETWORK := Map(network[HEARTBEAT := Map(beat)])];
      }
      cfg := ApplyNamespaceDefaults(cfg, t.value.namespaceDefaults);
      config := Some(cfg);
      if Fits(t.value, was) { ResolvedPathwise(t.value, was); }
      return true;
    }

    static method ApplyNamespaceDefaults(cfg: Section, defaults: Section) returns (r: Section)
      ensures r == WithNamespaceDefaults(cfg, defaults)
    {
      if defaults == map[] || NAMESPACES !in cfg || !cfg[NAMESPACES].List? { return cfg; }
      var list := cfg[NAMESPACES].items;
      var done: seq<Val> := [];
      for i := 0 to |list|
        invariant |done| == i && forall j :: 0 <= j < i ==> done[j] == WithDefaults(list[j], defaults)
      {
        if list[i].Map? {
          var merged := DeepMergeMapBaseFirst(defaults, list[i].entries);
          done := done + [Map(merged)];
        } else {
          done := done + [list[i]];
        }
      }
      assert done == seq(|list|, i requires 0 <= i < |list| => WithDefaults(list[i], defaults));
      r := cfg[NAMESPACES := List(done)];
    }
  }

  /** The gap: a network setting of the wrong type is lost to a template that sets a heartbeat. */
  lemma NetworkOverwritten(text: string)
    ensures var t := TemplateConfig(map[], map[], Some(Heartbeat("mesh", 0, 0)));
            var cfg: Section := map["network" := Str(text)];
            && !Refuses(t, cfg)
            && Ask(Map(cfg), ["network"]) == Setting(Str(text))
            && Ask(Map(Resolved(t, cfg)), ["network"]) == Inner
  {
    var t := TemplateConfig(map[], map[], Some(Heartbeat("mesh", 0, 0)));
    var cfg: Section := map["network" := Str(text)];
    assert Resolved(t, cfg)["network"].Map?;
    assert ["network"][1..] == [];
  }

  // ---- Overrides over the template -------------------------------------------------------------

  /** A negative override hides the template's value and sets none itself. */
  ghost predicate Hides(base: int, over: int) { over < 0 && base > 0 }

  ghost predicate HeartbeatHidden(base: TemplateConfig, over: TemplateConfig) {
    && base.heartbeat.Some? && over.heartbeat.Some?
    && (Hides(base.heartbeat.value.interval, over.heartbeat.value.interval)
        || Hides(base.heartbeat.value.timeout, over.heartbeat.value.timeout))
  }

  lemma HeartbeatTreeMerged(base: Heartbeat, over: Heartbeat)
    ensures HeartbeatTree(MergeHeartbeats(Some(base), Some(over)).value) ==
            MergeSections(HeartbeatTree(base), HeartbeatTree(over)) <==>
            !Hides(base.interval, over.interval) && !Hides(base.timeout, over.timeout)
  {
    var m, r := HeartbeatTree(MergeHeartbeats(Some(base), Some(over)).value),
                MergeSections(HeartbeatTree(base), HeartbeatTree(over));
    forall k ensures Entry(m, k) == Entry(r, k) <==> !(k == "interval" && Hides(base.interval, over.interval))
                                                     && !(k == "timeout" && Hides(base.timeout, over.timeout)) {
      BeatEntry(base, over, k);
    }
    if !Hides(base.interval, over.interval) && !Hides(base.timeout, over.timeout) { SameEntries(m, r); }
    else { assert Entry(m, "interval") != Entry(r, "interval") || Entry(m, "timeout") != Entry(r, "timeout"); }
  }

  lemma BeatEntry(base: Heartbeat, over: Heartbeat, k: string)
    ensures var m, r := HeartbeatTree(MergeHeartbeats(Some(base), Some(over)).value),
                        MergeSections(HeartbeatTree(base), HeartbeatTree(over));
            Entry(m, k) == Entry(r, k) <==> !(k == "interval" && Hides(base.interval, over.interval))
                                            && !(k == "timeout" && Hides(base.timeout, over.timeout))
  {
    MergeEntry(HeartbeatTree(base), HeartbeatTree(over), k);
    assert k in HeartbeatTree(over) ==> !HeartbeatTree(over)[k].Map?;
  }

  /** Overrides win over the template, path by path, in namespace defaults and service settings. */
  lemma OverridesWin(base: TemplateConfig, over: TemplateConfig, p: seq<string>)
    ensures var m := MergeTemplates(base, Some(over));
            && LaidOver(Map(base.service), Map(over.service), Map(m.service), p)
            && LaidOver(Map(base.namespaceDefaults), Map(over.namespaceDefaults), Map(m.namespaceDefaults), p)
  {
    MergeNothing(base.service);
    MergeNothing(base.namespaceDefaults);
    MergeAnswers(Map(base.service), Map(over.service), p);
    MergeAnswers(Map(base.namespaceDefaults), Map(over.namespaceDefaults), p);
  }

  /**
    So a template with overrides says what the overrides' tree merged over the template's says,
    if and only if no negative override hides a heartbeat setting.
   */
  lemma LayersExactly(base: TemplateConfig, over: TemplateConfig)
    ensures TemplateTree(MergeTemplates(base, Some(over))) == MergeSections(TemplateTree(base), TemplateTree(over)) <==>
            !HeartbeatHidden(base, over)
  {
    var m, r := TemplateTree(MergeTemplates(base, Some(over))), MergeSections(TemplateTree(base), TemplateTree(over));
    HeartbeatLayer(base, over);
    if HeartbeatHidden(base, over) {
      assert Entry(m, NETWORK) != Entry(r, NETWORK);
    } else {
      forall k ensures Entry(m, k) == Entry(r, k) {
        if k != NETWORK { ServiceLayer(base, over, k); }
      }
      SameEntries(m, r);
    }
  }

  lemma ServiceLayer(base: TemplateConfig, over: TemplateConfig, k: string)
    requires k != NETWORK
    ensures Entry(TemplateTree(MergeTemplates(base, Some(over))), k) ==
            Entry(MergeSections(TemplateTree(base), TemplateTree(over)), k)
  {
    MergeEntry(TemplateTree(base), TemplateTree(over), k);
    TreeEntry(base, k);
    TreeEntry(over, k);
    TreeEntry(MergeTemplates(base, Some(over)), k);
    MergeNothing(over.service);
    if over.service != map[] { StillThere(base.service, over.service); }
  }

  lemma StillThere(base: Section, over: Section)
    requires over != map[] || base != map[]
    ensures MergeSections(base, over) != map[]
  {
    if over != map[] {
      var k :| k in over;
      MergeEntry(base, over, k);
    } else {
      MergeNothing(base);
    }
  }

  ghost function NetworkOf(hb: Option<Heartbeat>): Option<Val> {
    if hb.Some? then Some(Map(BeatAlone(hb.value))) else None
  }

  ghost function MergeOptions(a: Option<Val>, b: Option<Val>): Option<Val> {
    if b.None? then a else if a.None? then b else Some(Merge(a.value, b.value))
  }

  lemma NetworkLayer(a: Option<Heartbeat>, b: Option<Heartbeat>)
    ensures NetworkOf(MergeHeartbeats(a, b)) == MergeOptions(NetworkOf(a), NetworkOf(b)) <==>
            !(&& a.Some? && b.Some?
              && (Hides(a.value.interval, b.value.interval) || Hides(a.value.timeout, b.value.timeout)))
  {
    if a.Some? && b.Some? { BeatsMergeExactly(a.value, b.value); }
  }

  lemma HeartbeatLayer(base: TemplateConfig, over: TemplateConfig)
    ensures !HeartbeatHidden(base, over) <==>
            Entry(TemplateTree(MergeTemplates(base, Some(over))), NETWORK) ==
            Entry(MergeSections(TemplateTree(base), TemplateTree(over)), NETWORK)
  {
    NetworkLayer(base.heartbeat, over.heartbeat);
    NetworkEntry(base);
    NetworkEntry(over);
    NetworkEntry(MergeTemplates(base, Some(over)));
    OptionEntry(TemplateTree(base), TemplateTree(over), NETWORK);
  }

  lemma NetworkEntry(t: TemplateConfig)
    ensures Entry(TemplateTree(t), NETWORK) == NetworkOf(t.heartbeat)
  {
    TreeEntry(t, NETWORK);
  }

  lemma OptionEntry(base: Section, over: Section, k: string)
    ensures Entry(MergeSections(base, over), k) == MergeOptions(Entry(base, k), Entry(over, k))
  {
    MergeEntry(base, over, k);
  }

  lemma BeatsMergeExactly(a: Heartbeat, b: Heartbeat)
    ensures BeatAlone(MergeHeartbeats(Some(a), Some(b)).value) == MergeSections(BeatAlone(a), BeatAlone(b)) <==>
            !Hides(a.interval, b.interval) && !Hides(a.timeout, b.timeout)
  {
    var merged := MergeHeartbeats(Some(a), Some(b)).value;
    HeartbeatTreeMerged(a, b);
    BeatsMerged(a, b);
    assert BeatAlone(merged)["heartbeat"] == Map(HeartbeatTree(merged));
  }

  lemma BeatsMerged(a: Heartbeat, b: Heartbeat)
    ensures MergeSections(BeatAlone(a), BeatAlone(b)) ==
            map["heartbeat" := Map(MergeSections(HeartbeatTree(a), HeartbeatTree(b)))]
  {
    var m := MergeSections(BeatAlone(a), BeatAlone(b));
    MergeEntry(BeatAlone(a), BeatAlone(b), "heartbeat");
    assert m.Keys == {"heartbeat"};
  }
}
