/**
  What the two lists of a diff hold, said place by place. A place where the configs part is
  reported once, as dynamic exactly when the new config has a value there and the path is
  registered; a removed key, a new namespace and a removed namespace are static.
 */
module DiffClasses {
  import opened ConfigTree
  import opened ConfigDiff
  import opened DiffSoundness

  /** No section holds a nested `namespaces` key; keys are otherwise free. */
  ghost predicate Plain(m: Section)
    decreases Map(m)
  {
    NAMESPACES !in m && forall k :: k in m && m[k].Map? ==> Plain(m[k].entries)
  }

  ghost predicate Has(m: Section, p: Path)
    decreases |p|
  {
    p != [] && p[0] in m && (|p| == 1 || (m[p[0]].Map? && Has(m[p[0]].entries, p[1..])))
  }

  // ---- Sections ---------------------------------------------------------------------------

  /** The one report on a path of two sections below `pre`. */
  ghost function Report(live: Registry, pre: Path, was: Section, now: Section, p: Path): Finding {
    var path := Join(pre + p);
    Finding(SectionChange(path, OldAt(was, p), OldAt(now, p)), Has(now, p) && live(path))
  }

  lemma StepDown(live: Registry, pre: Path, was: Section, now: Section, k: string, rest: Path)
    requires k in was && k in now && BothMaps(was, now, k) && rest != []
    ensures Differs(was, now, [k] + rest) <==> Differs(was[k].entries, now[k].entries, rest)
    ensures Report(live, pre, was, now, [k] + rest) ==
            Report(live, pre + [k], was[k].entries, now[k].entries, rest)
  {
    PrefixOne(pre, k, rest);
  }

  lemma ReportAtKey(live: Registry, pre: Path, was: Section, now: Section, k: string)
    ensures Report(live, pre, was, now, [k]) ==
            Finding(SectionChange(JoinPath(Join(pre), k), Get(was, k), Get(now, k)),
                    k in now && live(JoinPath(Join(pre), k)))
  {
    JoinOne(pre, k);
  }

  /** Whatever a section's diff reports is the report on a path where the sections part. */
  lemma {:induction false} EveryReport(live: Registry, pre: Path, was: Section, now: Section, f: Finding)
    returns (p: Path)
    requires Plain(was) && Plain(now) && f in SectionFindings(live, Join(pre), was, now)
    ensures Differs(was, now, p) && f == Report(live, pre, was, now, p)
    decreases Map(now)
  {
    if f in Removed(Join(pre), was, was.Keys - now.Keys - {NAMESPACES}) {
      var k :| k in was && k !in now && f == Finding(SectionChange(JoinPath(Join(pre), k), was[k], Nil), false);
      ReportAtKey(live, pre, was, now, k);
      p := [k];
    } else {
      var k :| k in now && f in KeyFindings(live, Join(pre), was, now, k);
      if k in was && BothMaps(was, now, k) {
        JoinOne(pre, k);
        var rest := EveryReport(live, pre + [k], was[k].entries, now[k].entries, f);
        StepDown(live, pre, was, now, k, rest);
        p := [k] + rest;
      } else {
        ReportAtKey(live, pre, was, now, k);
        p := [k];
      }
    }
  }

  lemma KeyReported(live: Registry, pre: Path, was: Section, now: Section, k: string)
    requires Plain(was) && Plain(now) && Differs(was, now, [k]) && !(k in was && k in now && BothMaps(was, now, k))
    ensures Report(live, pre, was, now, [k]) in SectionFindings(live, Join(pre), was, now)
  {
    ReportAtKey(live, pre, was, now, k);
    var f := Report(live, pre, was, now, [k]);
    if k in now {
      KeyIsReported(live, Join(pre), was, now, k, f);
    } else {
      assert f in Removed(Join(pre), was, was.Keys - now.Keys - {NAMESPACES});
    }
  }

  /** And every path where they part is reported. */
  lemma {:induction false} EveryPath(live: Registry, pre: Path, was: Section, now: Section, p: Path)
    requires Plain(was) && Plain(now) && Differs(was, now, p)
    ensures Report(live, pre, was, now, p) in SectionFindings(live, Join(pre), was, now)
    decreases |p|
  {
    var k := p[0];
    if k in was && k in now && BothMaps(was, now, k) {
      assert p == [k] + p[1..];
      EveryPath(live, pre + [k], was[k].entries, now[k].entries, p[1..]);
      StepDown(live, pre, was, now, k, p[1..]);
      JoinOne(pre, k);
      InnerIsReported(live, Join(pre), was, now, k, Report(live, pre, was, now, p));
    } else {
      assert p == [k];
      KeyReported(live, pre, was, now, k);
    }
  }

  // ---- Whole configs ------------------------------------------------------------------------

  ghost function PathOf(spot: Spot): string {
    match spot
    case InSection(p) => Join(p)
    case InSpace(_, k) => "namespace." + k
  }

  /** The value a config has at a place, nil where it has none. */
  ghost function ValueAt(cfg: Section, spot: Spot): Val {
    match spot
    case InSection(p) => OldAt(cfg - {NAMESPACES}, p)
    case InSpace(a, k) => if a in Spaces(cfg) then Get(Spaces(cfg)[a], k) else Nil
  }

  ghost predicate HasValue(cfg: Section, spot: Spot) {
    match spot
    case InSection(p) => Has(cfg - {NAMESPACES}, p)
    case InSpace(a, k) => a in Spaces(cfg) && k in Spaces(cfg)[a]
  }

  /** The one change that says what became of a place. */
  ghost function ChangeAt(was: Section, now: Section, spot: Spot): Change {
    match spot
    case InSection(p) => SectionChange(Join(p), ValueAt(was, spot), ValueAt(now, spot))
    case InSpace(a, k) => ParamChange(a, k, ValueAt(was, spot), ValueAt(now, spot))
  }

  ghost predicate Parts(was: Section, now: Section, spot: Spot) { Off(Loaded(was), Loaded(now), spot) }

  ghost predicate PlainConfig(cfg: Section) { Plain(cfg - {NAMESPACES}) }

  /** A namespace that only one of the two configs lists, seen once the new one lists any. */
  ghost predicate LoneNamespace(was: Section, now: Section, c: Change) {
    NAMESPACES in now && exists a ::
      || (a in Spaces(now) && a !in Spaces(was) && c == WholeNamespace(a, Nil, Map(Spaces(now)[a])))
      || (a in Spaces(was) && a !in Spaces(now) && c == WholeNamespace(a, Map(Spaces(was)[a]), Nil))
  }

  ghost predicate AtPlace(live: Registry, was: Section, now: Section, f: Finding, spot: Spot) {
    && Parts(was, now, spot) && f.change == ChangeAt(was, now, spot)
    && (f.dynamic <==> HasValue(now, spot) && live(PathOf(spot)))
  }

  lemma ParamFound(live: Registry, was: Section, now: Section, f: Finding, a: string) returns (spot: Spot)
    requires a in Spaces(was) && a in Spaces(now) && f in SpaceFindings(live, Spaces(was), Spaces(now), a)
    ensures AtPlace(live, was, now, f, spot)
  {
    var x, y := Spaces(was)[a], Spaces(now)[a];
    if f in ParamFindings(live, a, x, y, y.Keys) {
      var k :| k in y && ParamDiffers(x, y, k)
               && f == Finding(ParamChange(a, k, Get(x, k), Get(y, k)), live("namespace." + k));
      spot := InSpace(a, k);
    } else {
      var k :| k in x && k !in y && k != NAME && f == Finding(ParamChange(a, k, Get(x, k), Nil), false);
      spot := InSpace(a, k);
    }
  }

  lemma SpaceFound(live: Registry, was: Section, now: Section, f: Finding) returns (spot: Spot)
    requires NAMESPACES in now && f in NamespaceFindings(live, Spaces(was), Spaces(now))
    ensures (!f.dynamic && LoneNamespace(was, now, f.change)) || AtPlace(live, was, now, f, spot)
  {
    spot := InSection([]);
    if f !in RemovedSpaces(Spaces(was), Spaces(was).Keys - Spaces(now).Keys) {
      var a :| a in Spaces(now) && f in SpaceFindings(live, Spaces(was), Spaces(now), a);
      if a in Spaces(was) { spot := ParamFound(live, was, now, f, a); }
    }
  }

  lemma SpaceListed(live: Registry, was: Section, now: Section, a: string, k: string)
    requires Parts(was, now, InSpace(a, k))
    ensures var spot := InSpace(a, k);
            Finding(ChangeAt(was, now, spot), HasValue(now, spot) && live(PathOf(spot)))
            in NamespaceFindings(live, Spaces(was), Spaces(now))
  {
    var spot, old', new' := InSpace(a, k), Spaces(was), Spaces(now);
    var f := Finding(ChangeAt(was, now, spot), HasValue(now, spot) && live(PathOf(spot)));
    if k in new'[a] {
      assert f in ParamFindings(live, a, old'[a], new'[a], new'[a].Keys);
    } else {
      assert f in RemovedParams(a, old'[a], old'[a].Keys - new'[a].Keys);
    }
    assert f in SpaceFindings(live, old', new', a);
  }

  lemma LoneListed(live: Registry, was: Section, now: Section, c: Change)
    requires LoneNamespace(was, now, c)
    ensures Finding(c, false) in NamespaceFindings(live, Spaces(was), Spaces(now))
  {
    var old', new' := Spaces(was), Spaces(now);
    var a :| || (a in new' && a !in old' && c == WholeNamespace(a, Nil, Map(new'[a])))
             || (a in old' && a !in new' && c == WholeNamespace(a, Map(old'[a]), Nil));
    if a in new' {
      assert Finding(c, false) in SpaceFindings(live, old', new', a);
    } else {
      assert Finding(c, false) in RemovedSpaces(old', old'.Keys - new'.Keys);
    }
  }

  lemma Found(live: Registry, was: Section, now: Section, f: Finding) returns (spot: Spot)
    requires PlainConfig(was) && PlainConfig(now) && f in SectionFindings(live, "", was, now)
    ensures (!f.dynamic && LoneNamespace(was, now, f.change)) || AtPlace(live, was, now, f, spot)
  {
    TopLevel(live, was, now, f);
    if f in SectionFindings(live, "", was - {NAMESPACES}, now - {NAMESPACES}) {
      assert Join([]) == "";
      var p := EveryReport(live, [], was - {NAMESPACES}, now - {NAMESPACES}, f);
      assert [] + p == p;
      spot := InSection(p);
    } else {
      spot := SpaceFound(live, was, now, f);
    }
  }

  lemma Listed(live: Registry, was: Section, now: Section, f: Finding, spot: Spot)
    requires PlainConfig(was) && PlainConfig(now) && AtPlace(live, was, now, f, spot)
    ensures f in SectionFindings(live, "", was, now)
  {
    TopLevel(live, was, now, f);
    match spot
    case InSection(p) =>
      assert Join([]) == "" && [] + p == p;
      EveryPath(live, [], was - {NAMESPACES}, now - {NAMESPACES}, p);
    case InSpace(a, k) =>
      SpaceListed(live, was, now, a, k);
  }

  /** The findings of two configs are exactly one per place where they part and one per lone namespace. */
  lemma FindingsExactly(live: Registry, was: Section, now: Section, f: Finding)
    requires PlainConfig(was) && PlainConfig(now)
    ensures f in SectionFindings(live, "", was, now) <==>
            (!f.dynamic && LoneNamespace(was, now, f.change)) || exists spot :: AtPlace(live, was, now, f, spot)
  {
    if f in SectionFindings(live, "", was, now) { var spot := Found(live, was, now, f); }
    if !f.dynamic && LoneNamespace(was, now, f.change) {
      LoneListed(live, was, now, f.change);
      TopLevel(live, was, now, f);
    }
    if spot :| AtPlace(live, was, now, f, spot) { Listed(live, was, now, f, spot); }
  }

  /** In a well-formed config a place is determined by its change. */
  lemma PlaceOfChange(was: Section, now: Section, a: Spot, b: Spot)
    requires WellFormed(was) && WellFormed(now) && Parts(was, now, a) && Parts(was, now, b)
    requires ChangeAt(was, now, a) == ChangeAt(was, now, b)
    ensures a == b
  {
    if a.InSection? && b.InSection? {
      CleanAlong(was - {NAMESPACES}, now - {NAMESPACES}, a.path);
      CleanAlong(was - {NAMESPACES}, now - {NAMESPACES}, b.path);
      SplitJoin(a.path);
      SplitJoin(b.path);
    }
  }

  lemma {:induction false} CleanAlong(was: Section, now: Section, p: Path)
    requires Clean(was) && Clean(now) && Differs(was, now, p)
    ensures p != [] && CleanPath(p)
    decreases |p|
  {
    if p[0] in was && p[0] in now && BothMaps(was, now, p[0]) {
      DiffersDown(was, now, p);
      CleanAlong(was[p[0]].entries, now[p[0]].entries, p[1..]);
    } else {
      assert p == [p[0]];
    }
  }

  lemma {:induction false} CleanIsPlain(m: Section)
    requires Clean(m)
    ensures Plain(m)
    decreases Map(m)
  {
    forall k | k in m && m[k].Map? ensures Plain(m[k].entries) { CleanIsPlain(m[k].entries); }
  }

  /**
    At a place where well-formed configs part, the one change reported is dynamic if and only if the
    new config has a value there and the path is registered, and static otherwise.
   */
  lemma PlaceExactly(live: Registry, was: Section, now: Section, spot: Spot)
    requires WellFormed(was) && WellFormed(now) && Parts(was, now, spot)
    ensures var c, found := ChangeAt(was, now, spot), SectionFindings(live, "", was, now);
            && (Finding(c, true) in found <==> HasValue(now, spot) && live(PathOf(spot)))
            && (Finding(c, false) in found <==> !HasValue(now, spot) || !live(PathOf(spot)))
  {
    CleanIsPlain(was - {NAMESPACES});
    CleanIsPlain(now - {NAMESPACES});
    forall dynamic: bool
      ensures Finding(ChangeAt(was, now, spot), dynamic) in SectionFindings(live, "", was, now) <==>
              dynamic == (HasValue(now, spot) && live(PathOf(spot)))
    {
      var f := Finding(ChangeAt(was, now, spot), dynamic);
      if dynamic == (HasValue(now, spot) && live(PathOf(spot))) {
        assert AtPlace(live, was, now, f, spot);
        Listed(live, was, now, f, spot);
      }
      if f in SectionFindings(live, "", was, now) {
        var other := Found(live, was, now, f);
        NotLone(was, now, spot);
        PlaceOfChange(was, now, spot, other);
      }
    }
  }

  /** A change at a place is never mistaken for one about a whole namespace. */
  lemma NotLone(was: Section, now: Section, spot: Spot)
    requires WellFormed(was) && WellFormed(now) && Parts(was, now, spot)
    ensures !LoneNamespace(was, now, ChangeAt(was, now, spot))
  {
    match spot
    case InSection(p) =>
      CleanAlong(was - {NAMESPACES}, now - {NAMESPACES}, p);
      SplitJoin(p);
    case InSpace(_, _) =>
  }

  /**
    The whole diff. Its dynamic list holds exactly the changes at places with a new value and a
    registered path, its static list those at the other places and those of lone namespaces; and in
    well-formed configs no place is reported in both.
   */
  method Diff(live: Registry, was: Section, now: Section) returns (dynamic: seq<Change>, fixed: seq<Change>)
    ensures forall c :: c in dynamic <==> Finding(c, true) in SectionFindings(live, "", was, now)
    ensures forall c :: c in fixed <==> Finding(c, false) in SectionFindings(live, "", was, now)
    ensures PlainConfig(was) && PlainConfig(now) ==> forall c ::
              && (c in dynamic <==> exists spot :: AtPlace(live, was, now, Finding(c, true), spot))
              && (c in fixed <==>
                  LoneNamespace(was, now, c) || exists spot :: AtPlace(live, was, now, Finding(c, false), spot))
    ensures WellFormed(was) && WellFormed(now) ==> forall spot :: Parts(was, now, spot) ==>
              && (ChangeAt(was, now, spot) in dynamic <==> HasValue(now, spot) && live(PathOf(spot)))
              && (ChangeAt(was, now, spot) in fixed <==> !HasValue(now, spot) || !live(PathOf(spot)))
    ensures WellFormed(was) && WellFormed(now) ==>
              forall c :: LoneNamespace(was, now, c) ==> c in fixed && c !in dynamic
  {
    var r := new DiffResult();
    r.DiffSection(live, "", was, now);
    dynamic, fixed := r.dynamic, r.fixed;
    assert forall c :: Finding(c, true) in r.found <==> c in dynamic;
    assert forall c :: Finding(c, false) in r.found <==> c in fixed;
    if PlainConfig(was) && PlainConfig(now) {
      forall f ensures f in SectionFindings(live, "", was, now) <==>
                       || (!f.dynamic && LoneNamespace(was, now, f.change))
                       || exists spot :: AtPlace(live, was, now, f, spot) {
        FindingsExactly(live, was, now, f);
      }
    }
    if WellFormed(was) && WellFormed(now) {
      forall spot | Parts(was, now, spot)
        ensures Finding(ChangeAt(was, now, spot), true) in SectionFindings(live, "", was, now) <==>
                HasValue(now, spot) && live(PathOf(spot))
        ensures Finding(ChangeAt(was, now, spot), false) in SectionFindings(live, "", was, now) <==>
                !HasValue(now, spot) || !live(PathOf(spot))
      {
        PlaceExactly(live, was, now, spot);
      }
      forall c | LoneNamespace(was, now, c)
        ensures Finding(c, false) in SectionFindings(live, "", was, now)
        ensures Finding(c, true) !in SectionFindings(live, "", was, now)
      {
        LoneIsStatic(live, was, now, c);
      }
    }
  }

  lemma LoneIsStatic(live: Registry, was: Section, now: Section, c: Change)
    requires WellFormed(was) && WellFormed(now) && LoneNamespace(was, now, c)
    ensures Finding(c, false) in SectionFindings(live, "", was, now)
    ensures Finding(c, true) !in SectionFindings(live, "", was, now)
  {
    LoneListed(live, was, now, c);
    TopLevel(live, was, now, Finding(c, false));
    CleanIsPlain(was - {NAMESPACES});
    CleanIsPlain(now - {NAMESPACES});
    if Finding(c, true) in SectionFindings(live, "", was, now) {
      var spot := Found(live, was, now, Finding(c, true));
      NotLone(was, now, spot);
    }
  }

  // ---- When nothing is reported -----------------------------------------------------------------

  /** Equal, reading numbers by value, except inside lists. */
  ghost predicate Alike(a: Val, b: Val)
    decreases a
  {
    if a.Map? && b.Map? then
      a.entries.Keys == b.entries.Keys && forall k :: k in a.entries ==> Alike(a.entries[k], b.entries[k])
    else if a.Num? && b.Num? then a.number.value == b.number.value
    else a == b
  }

  lemma {:induction false} AlikeNowhere(was: Section, now: Section, p: Path)
    requires Alike(Map(was), Map(now))
    ensures !Differs(was, now, p)
    decreases |p|
  {
    if p != [] && p[0] in was && BothMaps(was, now, p[0]) {
      AlikeNowhere(was[p[0]].entries, now[p[0]].entries, p[1..]);
    }
  }

  lemma {:induction false} NowhereAlike(was: Section, now: Section)
    requires forall p :: !Differs(was, now, p)
    ensures Alike(Map(was), Map(now))
    decreases Map(was)
  {
    forall k ensures k in was <==> k in now { assert !Differs(was, now, [k]); }
    forall k | k in was ensures Alike(was[k], now[k]) {
      assert !Differs(was, now, [k]);
      if BothMaps(was, now, k) {
        forall p ensures !Differs(was[k].entries, now[k].entries, p) {
          assert ([k] + p)[1..] == p;
          assert !Differs(was, now, [k] + p);
        }
        NowhereAlike(was[k].entries, now[k].entries);
      }
    }
  }

  /** The same parameters besides the name, each equal or the same number; maps are not looked into. */
  ghost predicate SameParams(was: Section, now: Section) {
    forall k :: k != NAME ==>
      && (k in was <==> k in now)
      && (k in was ==> was[k] == now[k] || (was[k].Num? && now[k].Num? && was[k].number.value == now[k].number.value))
  }

  lemma SpacesQuiet(was: Section, now: Section)
    ensures (forall a, k :: !Parts(was, now, InSpace(a, k))) <==>
            forall a :: a in Spaces(was) && a in Spaces(now) ==> SameParams(Spaces(was)[a], Spaces(now)[a])
  {
    if forall a, k :: !Parts(was, now, InSpace(a, k)) {
      forall a | a in Spaces(was) && a in Spaces(now) ensures SameParams(Spaces(was)[a], Spaces(now)[a]) {
        forall k | k != NAME
          ensures (k in Spaces(was)[a] <==> k in Spaces(now)[a])
          ensures k in Spaces(was)[a] ==> ValuesEqual(Spaces(was)[a][k], Spaces(now)[a][k])
        {
          assert !Parts(was, now, InSpace(a, k));
        }
      }
    }
  }

  lemma LoneExactly(was: Section, now: Section)
    ensures (exists c :: LoneNamespace(was, now, c)) <==> NAMESPACES in now && Spaces(was).Keys != Spaces(now).Keys
  {
    if NAMESPACES in now && Spaces(was).Keys != Spaces(now).Keys {
      var a :| (a in Spaces(now) && a !in Spaces(was)) || (a in Spaces(was) && a !in Spaces(now));
      assert a in Spaces(now) ==> LoneNamespace(was, now, WholeNamespace(a, Nil, Map(Spaces(now)[a])));
      assert a in Spaces(was) ==> LoneNamespace(was, now, WholeNamespace(a, Map(Spaces(was)[a]), Nil));
    }
  }

  /**
    No phantom changes and none missed: the diff reports nothing exactly when the sections are alike,
    numbers read by value, and the new config has no namespaces key or lists the same namespaces with
    the same parameters.
   */
  lemma QuietExactly(live: Registry, was: Section, now: Section)
    requires PlainConfig(was) && PlainConfig(now)
    ensures SectionFindings(live, "", was, now) == {} <==>
            && Alike(Map(was - {NAMESPACES}), Map(now - {NAMESPACES}))
            && (NAMESPACES in now ==>
                  && Spaces(was).Keys == Spaces(now).Keys
                  && forall a :: a in Spaces(now) ==> SameParams(Spaces(was)[a], Spaces(now)[a]))
  {
    var s, n := was - {NAMESPACES}, now - {NAMESPACES};
    NothingFound(live, was, now);
    LoneExactly(was, now);
    SpacesQuiet(was, now);
    if Alike(Map(s), Map(n)) {
      forall p ensures !Parts(was, now, InSection(p)) { AlikeNowhere(s, n, p); }
    }
    if forall p :: !Parts(was, now, InSection(p)) {
      forall p ensures !Differs(s, n, p) { assert !Parts(was, now, InSection(p)); }
      NowhereAlike(s, n);
    }
    if NAMESPACES !in now { assert Spaces(now) == map[]; }
  }

  lemma NothingFound(live: Registry, was: Section, now: Section)
    requires PlainConfig(was) && PlainConfig(now)
    ensures SectionFindings(live, "", was, now) == {} <==>
            && (forall p :: !Parts(was, now, InSection(p))) && (forall a, k :: !Parts(was, now, InSpace(a, k)))
            && !exists c :: LoneNamespace(was, now, c)
  {
    if SectionFindings(live, "", was, now) == {} {
      forall spot ensures !Parts(was, now, spot) {
        if Parts(was, now, spot) { PlaceFound(live, was, now, spot); }
      }
      forall c ensures !LoneNamespace(was, now, c) {
        if LoneNamespace(was, now, c) { LoneFound(live, was, now, c); }
      }
    } else {
      SomethingFound(live, was, now);
    }
  }

  lemma SomethingFound(live: Registry, was: Section, now: Section)
    requires PlainConfig(was) && PlainConfig(now) && SectionFindings(live, "", was, now) != {}
    ensures || (exists p :: Parts(was, now, InSection(p))) || (exists a, k :: Parts(was, now, InSpace(a, k)))
            || exists c :: LoneNamespace(was, now, c)
  {
    var f :| f in SectionFindings(live, "", was, now);
    var spot := Found(live, was, now, f);
    assert LoneNamespace(was, now, f.change) || Parts(was, now, spot);
    if spot.InSection? { assert spot == InSection(spot.path); } else { assert spot == InSpace(spot.name, spot.key); }
  }

  lemma LoneFound(live: Registry, was: Section, now: Section, c: Change)
    requires LoneNamespace(was, now, c)
    ensures SectionFindings(live, "", was, now) != {}
  {
    LoneListed(live, was, now, c);
    TopLevel(live, was, now, Finding(c, false));
    assert Finding(c, false) in SectionFindings(live, "", was, now);
  }

  lemma PlaceFound(live: Registry, was: Section, now: Section, spot: Spot)
    requires PlainConfig(was) && PlainConfig(now) && Parts(was, now, spot)
    ensures SectionFindings(live, "", was, now) != {}
  {
    var f := Finding(ChangeAt(was, now, spot), HasValue(now, spot) && live(PathOf(spot)));
    assert AtPlace(live, was, now, f, spot);
    Listed(live, was, now, f, spot);
  }
}
