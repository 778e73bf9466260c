/**
  The Community Edition rules said path by path: which settings a config may not answer for, what
  shape its sections have, and what a namespace or a log sink may hold.
 */
module CePaths {
  import opened Text
  import opened ConfigTree
  import opened ConfigMerge
  import opened Template
  import opened CeRules

  /** The config has a setting or a section at the path. */
  ghost predicate Says(cfg: Section, p: seq<string>) { Ask(Map(cfg), p).Setting? || Ask(Map(cfg), p).Inner? }

  /** Enterprise settings outside namespaces and logging. */
  ghost predicate Forbidden(p: seq<string>) {
    || p == ["xdr"] || p == ["tls"] || p == ["network", "tls"]
    || (|p| == 3 && p[0] == "network" && p[1] in {"service", "heartbeat", "fabric"} && "tls-" <= p[2])
    || (|p| == 2 && p[0] == "security" && p[1] in {"tls", "ldap", "log", "syslog"})
  }

  ghost predicate NoneForbidden(cfg: Section) { forall p :: Forbidden(p) ==> !Says(cfg, p) }

  ghost predicate SectionOrAbsent(cfg: Section, k: string) { k in cfg ==> cfg[k].Map? }

  /** A heartbeat mode that is text says mesh. */
  ghost predicate MeshOnly(cfg: Section) {
    forall text :: Ask(Map(cfg), ["network", "heartbeat", "mode"]) == Setting(Str(text)) ==> text == "mesh"
  }

  /** A named map without the ten enterprise keys, its factor a number of a known type from one to four. */
  ghost predicate CommunityNamespace(v: Val) {
    && v.Map? && "name" in v.entries
    && (forall k :: k in v.entries ==> k !in {
          "compression", "compression-level", "durable-delete", "fast-restart", "index-type", "sindex-type", "rack-id",
          "strong-consistency", "tomb-raider-eligible-age", "tomb-raider-period"})
    && ("replication-factor" in v.entries ==>
          var rf := v.entries["replication-factor"];
          rf.Num? && rf.number.kind in {Int, Int32, Int64, Float64} && 1.0 <= rf.number.value <= 4.0)
  }

  /** Two namespace entries that carry the same nonempty text as their name. */
  ghost predicate SameName(a: Val, b: Val) {
    && a.Map? && b.Map? && "name" in a.entries && "name" in b.entries && a.entries["name"].Str?
    && a.entries["name"] == b.entries["name"] && a.entries["name"].text != ""
  }

  ghost predicate CommunityNamespaces(v: Val) {
    && v.List? && |v.items| <= 2 && (forall i :: 0 <= i < |v.items| ==> CommunityNamespace(v.items[i]))
    && forall i, j :: 0 <= i < j < |v.items| ==> !SameName(v.items[i], v.items[j])
  }

  /** A sink with a name and none of the audit contexts. */
  ghost predicate CommunitySink(v: Val) {
    && v.Map? && "name" in v.entries && v.entries["name"].Str? && v.entries["name"].text != ""
    && forall k :: k in v.entries ==> k !in {
         "audit", "report-data-op", "report-data-op-user", "report-data-op-role", "report-sys-admin",
         "report-user-admin", "report-violation", "report-authentication"}
  }

  ghost predicate CommunityLogging(v: Val) { v.List? && forall i :: 0 <= i < |v.items| ==> CommunitySink(v.items[i]) }

  // ---- Answers at short paths ------------------------------------------------------------------

  lemma SaysOne(cfg: Section, k: string)
    ensures Says(cfg, [k]) <==> k in cfg
  {
    assert [k][1..] == [];
    if k in cfg { assert Ask(Map(cfg), [k]) == Ask(cfg[k], []); }
  }

  lemma SaysTwo(cfg: Section, k: string, l: string)
    ensures Says(cfg, [k, l]) <==> l in Subsection(cfg, k)
  {
    assert [k, l][1..] == [l];
    if k in cfg {
      assert Ask(Map(cfg), [k, l]) == Ask(cfg[k], [l]);
      if cfg[k].Map? { SaysOne(cfg[k].entries, l); }
    }
  }

  lemma SaysThree(cfg: Section, k: string, l: string, m: string)
    ensures Says(cfg, [k, l, m]) <==> m in Subsection(Subsection(cfg, k), l)
  {
    assert [k, l, m][1..] == [l, m];
    if k in cfg {
      assert Ask(Map(cfg), [k, l, m]) == Ask(cfg[k], [l, m]);
      if cfg[k].Map? { SaysTwo(cfg[k].entries, l, m); }
    }
  }

  lemma AskMode(cfg: Section, v: Val)
    requires !v.Map?
    ensures Ask(Map(cfg), ["network", "heartbeat", "mode"]) == Setting(v) <==>
            var beat := Subsection(Subsection(cfg, "network"), "heartbeat"); "mode" in beat && beat["mode"] == v
  {
    assert ["network", "heartbeat", "mode"][1..] == ["heartbeat", "mode"];
    assert ["heartbeat", "mode"][1..] == ["mode"] && ["mode"][1..] == [];
  }

  // ---- The rules ------------------------------------------------------------------------------------

  lemma ModeExactly(cfg: Section)
    ensures ModeOk(cfg) <==> MeshOnly(cfg)
  {
    forall text: string { AskMode(cfg, Str(text)); }
    var beat := Subsection(Subsection(cfg, NETWORK), HEARTBEAT);
    if MODE in beat && beat[MODE].Str? {
      AskMode(cfg, beat[MODE]);
      assert beat[MODE] == Str(beat[MODE].text);
    }
  }

  lemma EndpointExactly(cfg: Section, k: string)
    ensures FreeOfTlsKeys(Subsection(Subsection(cfg, "network"), k)) <==>
            forall m :: "tls-" <= m ==> !Says(cfg, ["network", k, m])
  {
    forall m ensures Says(cfg, ["network", k, m]) <==> m in Subsection(Subsection(cfg, "network"), k) {
      SaysThree(cfg, "network", k, m);
    }
  }

  lemma SecurityKeysExactly(cfg: Section)
    ensures FreeOf(Subsection(cfg, "security"), ENTERPRISE_SECURITY_KEYS) <==>
            forall m :: m in {"tls", "ldap", "log", "syslog"} ==> !Says(cfg, ["security", m])
  {
    forall m ensures Says(cfg, ["security", m]) <==> m in Subsection(cfg, "security") { SaysTwo(cfg, "security", m); }
  }

  ghost predicate Kept(cfg: Section) {
    && "xdr" !in cfg && "tls" !in cfg && NetworkTlsFree(cfg)
    && FreeOf(Subsection(cfg, "security"), ENTERPRISE_SECURITY_KEYS)
  }

  lemma KeptSaysNothing(cfg: Section, p: seq<string>)
    requires Kept(cfg) && Forbidden(p)
    ensures !Says(cfg, p)
  {
    SaysOne(cfg, "xdr");
    SaysOne(cfg, "tls");
    SaysTwo(cfg, "network", "tls");
    EndpointExactly(cfg, "service");
    EndpointExactly(cfg, "heartbeat");
    EndpointExactly(cfg, "fabric");
    SecurityKeysExactly(cfg);
    if |p| == 3 { assert p == [p[0], p[1], p[2]]; }
    if |p| == 2 { assert p == [p[0], p[1]]; }
  }

  lemma SilentIsKept(cfg: Section)
    requires NoneForbidden(cfg)
    ensures Kept(cfg)
  {
    SaysOne(cfg, "xdr");
    SaysOne(cfg, "tls");
    SaysTwo(cfg, "network", "tls");
    assert Forbidden(["xdr"]) && Forbidden(["tls"]) && Forbidden(["network", "tls"]);
    forall k, m | k in {"service", "heartbeat", "fabric"} && "tls-" <= m ensures !Says(cfg, ["network", k, m]) {
      assert Forbidden(["network", k, m]);
    }
    EndpointExactly(cfg, "service");
    EndpointExactly(cfg, "heartbeat");
    EndpointExactly(cfg, "fabric");
    forall m | m in {"tls", "ldap", "log", "syslog"} ensures !Says(cfg, ["security", m]) {
      assert Forbidden(["security", m]);
    }
    SecurityKeysExactly(cfg);
  }

  lemma ForbiddenExactly(cfg: Section)
    ensures NoneForbidden(cfg) <==> Kept(cfg)
  {
    if NoneForbidden(cfg) { SilentIsKept(cfg); }
    if Kept(cfg) {
      forall p | Forbidden(p) ensures !Says(cfg, p) { KeptSaysNothing(cfg, p); }
    }
  }

  lemma NamespacesExactly(v: Val)
    ensures NamespacesOk(v) <==> CommunityNamespaces(v)
  {
    if v.List? {
      forall i | 0 <= i < |v.items| ensures NamespaceOk(v.items[i]) <==> CommunityNamespace(v.items[i]) {}
      forall i, j | 0 <= i < j < |v.items|
        ensures SameName(v.items[i], v.items[j]) <==>
                NameOf(v.items[i]) != "" && NameOf(v.items[i]) == NameOf(v.items[j])
      {
      }
    }
  }

  lemma LoggingExactly(v: Val)
    ensures LoggingOk(v) <==> CommunityLogging(v)
  {
    if v.List? {
      forall i | 0 <= i < |v.items| ensures SinkOk(v.items[i]) <==> CommunitySink(v.items[i]) {}
    }
  }

  /**
    A config is admitted exactly when it answers for no enterprise path, its service, network and
    security are sections where present, its heartbeat mode is mesh, and its namespaces and sinks are
    ones the Community Edition has.
   */
  lemma AdmissibleExactly(cfg: Section)
    ensures Admissible(cfg) <==>
            && NoneForbidden(cfg) && MeshOnly(cfg)
            && SectionOrAbsent(cfg, "service") && SectionOrAbsent(cfg, "network") && SectionOrAbsent(cfg, "security")
            && ("namespaces" in cfg ==> CommunityNamespaces(cfg["namespaces"]))
            && ("logging" in cfg ==> CommunityLogging(cfg["logging"]))
  {
    ForbiddenExactly(cfg);
    ModeExactly(cfg);
    if "namespaces" in cfg { NamespacesExactly(cfg["namespaces"]); }
    if "logging" in cfg { LoggingExactly(cfg["logging"]); }
  }

  // ---- Templates and the second check -----------------------------------------------------------------

  ghost predicate NoEnterpriseKey(m: Section) {
    forall k :: k in m ==> k !in {
      "compression", "compression-level", "durable-delete", "fast-restart", "index-type", "sindex-type", "rack-id",
      "strong-consistency", "tomb-raider-eligible-age", "tomb-raider-period"}
  }

  ghost predicate CommunityMap(m: Section) {
    NoneForbidden(m) && (forall k :: k in m ==> !("tls-" <= k)) && SectionOrAbsent(m, "security")
  }

  /**
    A template's maps are held to the same paths and to no tls- key of their own, and its namespace
    defaults to no enterprise key.
   */
  lemma TemplateExactly(t: TemplateConfig)
    ensures TemplateOk(t) <==>
            CommunityMap(t.service) && CommunityMap(t.namespaceDefaults) && NoEnterpriseKey(t.namespaceDefaults)
  {
    ForbiddenExactly(t.service);
    ForbiddenExactly(t.namespaceDefaults);
  }

  /** The second check asks for the same paths and for no enterprise key in a namespace, and for no shape. */
  lemma MergedExactly(cfg: Section)
    ensures MergedOk(cfg) <==>
            && NoneForbidden(cfg)
            && ("namespaces" in cfg && cfg["namespaces"].List? ==>
                  forall i :: 0 <= i < |cfg["namespaces"].items| && cfg["namespaces"].items[i].Map? ==>
                    NoEnterpriseKey(cfg["namespaces"].items[i].entries))
  {
    ForbiddenExactly(cfg);
    if "namespaces" in cfg && cfg["namespaces"].List? {
      forall i | 0 <= i < |cfg["namespaces"].items| && cfg["namespaces"].items[i].Map?
        ensures NoEnterpriseKey(cfg["namespaces"].items[i].entries) <==>
                FreeOf(cfg["namespaces"].items[i].entries, ENTERPRISE_NAMESPACE_KEYS)
      {
      }
    }
  }
}
