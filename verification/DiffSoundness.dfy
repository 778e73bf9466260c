/**
  Why the dynamic changes of a diff can be sent one by one: each addresses one spot of the
  config tree, setting it to the new value removes exactly that spot from the difference,
  and a config with no differing spot is the new one up to number types.
 */
module DiffSoundness {
  import opened Text
  import opened SetConfigCommand
  import opened ConfigTree
  import opened ConfigDiff

  type Path = seq<string>

  // ---- Paths and their text -------------------------------------------------------------

  predicate CleanKey(k: string) { k != "" && '.' !in k && k != NAMESPACES }

  /** No section holds an empty, dotted or nested `namespaces` key. */
  ghost predicate Clean(m: Section)
    decreases Map(m)
  {
    forall k :: k in m ==> CleanKey(k) && (m[k].Map? ==> Clean(m[k].entries))
  }

  ghost predicate CleanPath(p: Path) { forall i :: 0 <= i < |p| ==> CleanKey(p[i]) }

  ghost function Join(p: Path): string {
    if p == [] then "" else JoinPath(Join(p[..|p|-1]), p[|p|-1])
  }

  lemma JoinOne(p: Path, k: string)
    ensures Join(p + [k]) == JoinPath(Join(p), k)
  {
    assert (p + [k])[..|p|] == p;
  }

  lemma {:induction false} SplitLast(s: string, k: string)
    requires '.' !in k
    ensures SplitOn(s + "." + k, '.') == SplitOn(s, '.') + [k]
    decreases |s|
  {
    var i := IndexOf(s, '.');
    if i == |s| {
      assert s[..i] == s;
      SplitFirst(s, '.', k);
      IndexOfAbsent(k, '.');
    } else {
      var rest := s[i+1..];
      DotRegroup(s, i, k);
      SplitFirst(s[..i], '.', rest + "." + k);
      SplitLast(rest, k);
      SplitFirst(s[..i], '.', rest);
    }
  }

  lemma DotRegroup(s: string, i: nat, k: string)
    requires i < |s| && s[i] == '.'
    ensures s == s[..i] + "." + s[i+1..] && s + "." + k == s[..i] + "." + (s[i+1..] + "." + k)
  {
  }

  lemma {:induction false} SplitJoin(p: Path)
    requires p != [] && CleanPath(p)
    ensures Join(p) != "" && SplitOn(Join(p), '.') == p
  {
    var front, k := p[..|p|-1], p[|p|-1];
    if front == [] {
      assert p == [k];
      SplitJoinOne(k);
    } else {
      SplitJoin(front);
      SplitLast(Join(front), k);
      assert p == front + [k];
    }
  }

  lemma SplitJoinOne(k: string)
    requires CleanKey(k)
    ensures Join([k]) == k && k != "" && SplitOn(k, '.') == [k]
  {
    assert [k][..0] == [];
    assert Join([]) == "";
    IndexOfAbsent(k, '.');
  }

  // ---- The node's side -------------------------------------------------------------------

  /** What a node runs: plain sections, and namespaces by name. */
  datatype NodeConfig = NodeConfig(sections: Section, namespaces: map<string, Section>)

  ghost function Loaded(cfg: Section): NodeConfig { NodeConfig(cfg - {NAMESPACES}, Spaces(cfg)) }

  function SetAt(m: Section, p: Path, v: Val): Section
    requires p != []
    decreases |p|
  {
    if |p| == 1 then m[p[0] := v]
    else m[p[0] := Map(SetAt(if p[0] in m && m[p[0]].Map? then m[p[0]].entries else map[], p[1..], v))]
  }

  /** The path a (context, key) address names. */
  function Segments(c: Change): Path { SplitOn(c.context + "." + c.key, '.') }

  function Applied(s: NodeConfig, c: Change): NodeConfig {
    if c.namespace != "" then
      var params := if c.namespace in s.namespaces then s.namespaces[c.namespace] else map[];
      s.(namespaces := s.namespaces[c.namespace := params[c.key := c.newValue]])
    else s.(sections := SetAt(s.sections, Segments(c), c.newValue))
  }

  function ApplyAll(s: NodeConfig, cs: seq<Change>): NodeConfig
    decreases |cs|
  {
    if cs == [] then s else ApplyAll(Applied(s, cs[0]), cs[1..])
  }

  ghost predicate Agree(s: NodeConfig, n: NodeConfig) {
    && Same(Map(s.sections), Map(n.sections)) && s.namespaces.Keys == n.namespaces.Keys
    && forall a :: a in n.namespaces ==> Same(Map(s.namespaces[a]), Map(n.namespaces[a]))
  }

  // ---- Differing spots of a section ------------------------------------------------------------

  /** The two sections part exactly at p. */
  ghost predicate Differs(was: Section, now: Section, p: Path)
    decreases |p|
  {
    p != [] &&
    if p[0] !in was && p[0] !in now then false
    else if p[0] in was && p[0] in now then
      if BothMaps(was, now, p[0]) then Differs(was[p[0]].entries, now[p[0]].entries, p[1..])
      else |p| == 1 && !ValuesEqual(was[p[0]], now[p[0]])
    else |p| == 1
  }

  /** p leads through sections of both trees to the value v of the new one. */
  ghost predicate Aims(was: Section, now: Section, p: Path, v: Val)
    decreases |p|
  {
    && p != [] && p[0] in now
    && if |p| == 1 then now[p[0]] == v
       else p[0] in was && BothMaps(was, now, p[0]) && Aims(was[p[0]].entries, now[p[0]].entries, p[1..], v)
  }

  /** The old value at a path, nil where there is none. */
  ghost function OldAt(was: Section, p: Path): Val
    decreases |p|
  {
    if p == [] then Nil
    else if |p| == 1 then Get(was, p[0])
    else if p[0] in was && was[p[0]].Map? then OldAt(was[p[0]].entries, p[1..])
    else Nil
  }

  lemma {:induction false} AimsUnique(was: Section, now: Section, p: Path, v: Val, u: Val)
    requires Aims(was, now, p, v) && Aims(was, now, p, u)
    ensures v == u
    decreases |p|
  {
    if |p| > 1 { AimsUnique(was[p[0]].entries, now[p[0]].entries, p[1..], v, u); }
  }

  lemma {:induction false} NothingDiffersFromItself(m: Section, p: Path)
    ensures !Differs(m, m, p)
    decreases |p|
  {
    if p != [] && p[0] in m && m[p[0]].Map? { NothingDiffersFromItself(m[p[0]].entries, p[1..]); }
  }

  lemma {:induction false} AimsItself(was: Section, now: Section, p: Path, v: Val)
    requires Aims(was, now, p, v)
    ensures Aims(now, now, p, v)
    decreases |p|
  {
    if |p| > 1 { AimsItself(was[p[0]].entries, now[p[0]].entries, p[1..], v); }
  }

  /** Setting the new value at p removes p from the difference and adds nothing. */
  lemma {:induction false} SetAtShrinks(s: Section, n: Section, p: Path, v: Val, q: Path)
    requires Aims(s, n, p, v) && Differs(SetAt(s, p, v), n, q)
    ensures Differs(s, n, q) && q != p
    decreases |p|
  {
    if q[0] == p[0] {
      if |p| == 1 {
        if v.Map? { NothingDiffersFromItself(v.entries, q[1..]); }
      } else {
        SetAtShrinks(s[p[0]].entries, n[p[0]].entries, p[1..], v, q[1..]);
      }
    }
  }

  /** Setting one spot leaves every other change aimed. */
  lemma {:induction false} SetAtAims(s: Section, n: Section, p: Path, v: Val, q: Path, u: Val)
    requires Aims(s, n, p, v) && Aims(s, n, q, u)
    ensures Aims(SetAt(s, p, v), n, q, u)
    decreases |p|
  {
    if q[0] == p[0] && |q| > 1 {
      if |p| == 1 {
        AimsItself(s[q[0]].entries, n[q[0]].entries, q[1..], u);
      } else {
        SetAtAims(s[p[0]].entries, n[p[0]].entries, p[1..], v, q[1..], u);
      }
    }
  }

  /** Two sections that differ nowhere are the same up to number types. */
  lemma {:induction false} NoDifferenceSame(s: Section, n: Section)
    requires forall p :: !Differs(s, n, p)
    ensures Same(Map(s), Map(n))
    decreases Map(s)
  {
    forall k ensures k in s <==> k in n { assert !Differs(s, n, [k]); }
    forall k | k in s ensures Same(s[k], n[k]) {
      assert !Differs(s, n, [k]);
      if BothMaps(s, n, k) {
        forall p ensures !Differs(s[k].entries, n[k].entries, p) {
          assert ([k] + p)[1..] == p;
          assert !Differs(s, n, [k] + p);
        }
        NoDifferenceSame(s[k].entries, n[k].entries);
      } else {
        SameSelf(s[k]);
      }
    }
  }

  // ---- The findings name exactly the differing spots -----------------------------------------------

  lemma PrefixOne(pre: Path, k: string, rest: Path)
    ensures pre + [k] + rest == pre + ([k] + rest) && ([k] + rest)[1..] == rest
  {
  }

  lemma DynamicKey(live: Registry, prefix: string, was: Section, now: Section, f: Finding) returns (k: string)
    requires f in SectionFindings(live, prefix, was, now) && f.dynamic
    ensures k in now && f in KeyFindings(live, prefix, was, now, k)
  {
    assert f in Gather(live, prefix, was, now, now.Keys);
    k :| k in now && f in KeyFindings(live, prefix, was, now, k);
  }

  lemma LeafFinding(live: Registry, prefix: string, was: Section, now: Section, k: string, f: Finding)
    requires k in now && k != NAMESPACES && !(k in was && BothMaps(was, now, k))
    requires f in KeyFindings(live, prefix, was, now, k)
    ensures f.change == SectionChange(JoinPath(prefix, k), f.change.oldValue, now[k])
    ensures (f.dynamic ==> live(f.change.path)) && Differs(was, now, [k]) && f.change.oldValue == Get(was, k)
  {
  }

  lemma AimsDeeper(was: Section, now: Section, k: string, rest: Path, v: Val)
    requires k in was && k in now && BothMaps(was, now, k) && Aims(was[k].entries, now[k].entries, rest, v)
    ensures Aims(was, now, [k] + rest, v)
    ensures (Differs(was[k].entries, now[k].entries, rest) ==> Differs(was, now, [k] + rest))
  {
    assert ([k] + rest)[1..] == rest;
  }

  /** A dynamic finding of a section carries the path and the new value of one spot. */
  lemma {:induction false} ReportedAims(live: Registry, pre: Path, was: Section, now: Section, f: Finding)
    returns (p: Path)
    requires Clean(was) && Clean(now)
    requires f in SectionFindings(live, Join(pre), was, now) && f.dynamic
    ensures p != [] && CleanPath(p) && Aims(was, now, p, f.change.newValue) && Differs(was, now, p)
    ensures f.change == SectionChange(Join(pre + p), OldAt(was, p), f.change.newValue) && live(f.change.path)
    decreases Map(now)
  {
    var k := DynamicKey(live, Join(pre), was, now, f);
    JoinOne(pre, k);
    if k in was && BothMaps(was, now, k) {
      var rest := ReportedAims(live, pre + [k], was[k].entries, now[k].entries, f);
      AimsDeeper(was, now, k, rest, f.change.newValue);
      PrefixOne(pre, k, rest);
      p := [k] + rest;
    } else {
      LeafFinding(live, Join(pre), was, now, k, f);
      p := [k];
    }
  }

  lemma KeyIsReported(live: Registry, prefix: string, was: Section, now: Section, k: string, f: Finding)
    requires k in now && f in KeyFindings(live, prefix, was, now, k)
    ensures f in SectionFindings(live, prefix, was, now)
  {
    assert f in Gather(live, prefix, was, now, now.Keys);
  }

  lemma LeafReported(live: Registry, prefix: string, was: Section, now: Section, k: string) returns (f: Finding)
    requires Clean(was) && Clean(now) && Differs(was, now, [k]) && !(k in was && k in now && BothMaps(was, now, k))
    ensures f in SectionFindings(live, prefix, was, now)
    ensures f.change == SectionChange(JoinPath(prefix, k), f.change.oldValue, f.change.newValue)
  {
    if k in now {
      f := Finding(SectionChange(JoinPath(prefix, k), Get(was, k), now[k]), live(JoinPath(prefix, k)));
      KeyIsReported(live, prefix, was, now, k, f);
    } else {
      f := Finding(SectionChange(JoinPath(prefix, k), was[k], Nil), false);
      assert f in Removed(prefix, was, was.Keys - now.Keys - {NAMESPACES});
    }
  }

  /** Every differing spot of a section is reported under its path. */
  lemma {:induction false} DifferenceReported(live: Registry, pre: Path, was: Section, now: Section, p: Path)
    returns (f: Finding)
    requires Clean(was) && Clean(now) && Differs(was, now, p)
    ensures f in SectionFindings(live, Join(pre), was, now) && CleanPath(p)
    ensures f.change == SectionChange(Join(pre + p), f.change.oldValue, f.change.newValue)
    decreases |p|
  {
    var k := p[0];
    JoinOne(pre, k);
    if k in was && k in now && BothMaps(was, now, k) {
      DiffersDown(was, now, p);
      f := DifferenceReported(live, pre + [k], was[k].entries, now[k].entries, p[1..]);
      PrefixOne(pre, k, p[1..]);
      InnerIsReported(live, Join(pre), was, now, k, f);
    } else {
      assert p == [k];
      f := LeafReported(live, Join(pre), was, now, k);
    }
  }

  lemma DiffersDown(was: Section, now: Section, p: Path)
    requires Clean(was) && Clean(now) && Differs(was, now, p) && p[0] in was && p[0] in now && BothMaps(was, now, p[0])
    ensures Clean(was[p[0]].entries) && Clean(now[p[0]].entries)
    ensures Differs(was[p[0]].entries, now[p[0]].entries, p[1..])
    ensures p == [p[0]] + p[1..] && (CleanPath(p[1..]) ==> CleanPath(p))
  {
    assert CleanKey(p[0]);
    assert forall i :: 1 <= i < |p| ==> p[i] == p[1..][i-1];
  }

  lemma InnerIsReported(live: Registry, prefix: string, was: Section, now: Section, k: string, f: Finding)
    requires k in was && k in now && BothMaps(was, now, k) && k != NAMESPACES
    requires f in SectionFindings(live, JoinPath(prefix, k), was[k].entries, now[k].entries)
    ensures f in SectionFindings(live, prefix, was, now)
  {
    KeyIsReported(live, prefix, was, now, k, f);
  }

  /** The findings of a whole config are those of its sections and those of its namespaces. */
  lemma TopLevel(live: Registry, was: Section, now: Section, f: Finding)
    ensures f in SectionFindings(live, "", was, now) <==>
            || f in SectionFindings(live, "", was - {NAMESPACES}, now - {NAMESPACES})
            || (NAMESPACES in now && f in NamespaceFindings(live, Spaces(was), Spaces(now)))
  {
    var was', now' := was - {NAMESPACES}, now - {NAMESPACES};
    forall k | k in now' ensures KeyFindings(live, "", was, now, k) == KeyFindings(live, "", was', now', k) {}
    assert was.Keys - now.Keys - {NAMESPACES} == was'.Keys - now'.Keys - {NAMESPACES};
    assert Removed("", was, was.Keys - now.Keys - {NAMESPACES}) ==
           Removed("", was', was'.Keys - now'.Keys - {NAMESPACES});
    if f in Gather(live, "", was, now, now.Keys) {
      var k :| k in now && f in KeyFindings(live, "", was, now, k);
      if k != NAMESPACES { assert k in now' && f in KeyFindings(live, "", was', now', k); }
    }
    if f in Gather(live, "", was', now', now'.Keys) {
      var k :| k in now' && f in KeyFindings(live, "", was', now', k);
      assert f in KeyFindings(live, "", was, now, k);
    }
    if NAMESPACES in now {
      assert KeyFindings(live, "", was, now, NAMESPACES) == NamespaceFindings(live, Spaces(was), Spaces(now));
    }
  }

  // ---- Spots of a whole config -------------------------------------------------------------------------

  datatype Spot = InSection(path: Path) | InSpace(name: string, key: string)

  ghost predicate Off(s: NodeConfig, n: NodeConfig, spot: Spot) {
    match spot
    case InSection(p) => Differs(s.sections, n.sections, p)
    case InSpace(a, k) =>
      && a in s.namespaces && a in n.namespaces && k != NAME
      && (k in s.namespaces[a] || k in n.namespaces[a])
      && !(k in s.namespaces[a] && k in n.namespaces[a] && ValuesEqual(s.namespaces[a][k], n.namespaces[a][k]))
  }

  ghost function SpotOf(c: Change): Spot {
    if c.namespace != "" then InSpace(c.namespace, c.key) else InSection(Segments(c))
  }

  /** c sets one spot of s to what n has there. */
  ghost predicate Aimed(s: NodeConfig, n: NodeConfig, c: Change) {
    if c.namespace != "" then
      && c.namespace in s.namespaces && c.namespace in n.namespaces && c.key != NAME
      && c.key in n.namespaces[c.namespace] && n.namespaces[c.namespace][c.key] == c.newValue
    else Aims(s.sections, n.sections, Segments(c), c.newValue)
  }

  lemma AppliedShrinks(s: NodeConfig, n: NodeConfig, c: Change, spot: Spot)
    requires Aimed(s, n, c) && Off(Applied(s, c), n, spot)
    ensures Off(s, n, spot) && spot != SpotOf(c)
  {
    if c.namespace == "" && spot.InSection? {
      SetAtShrinks(s.sections, n.sections, Segments(c), c.newValue, spot.path);
    }
  }

  lemma AppliedAims(s: NodeConfig, n: NodeConfig, c: Change, d: Change)
    requires Aimed(s, n, c) && Aimed(s, n, d)
    ensures Aimed(Applied(s, c), n, d)
  {
    if c.namespace == "" && d.namespace == "" {
      SetAtAims(s.sections, n.sections, Segments(c), c.newValue, Segments(d), d.newValue);
    }
  }

  ghost predicate Named(s: NodeConfig) {
    forall a :: a in s.namespaces ==> NAME in s.namespaces[a] && s.namespaces[a][NAME] == Str(a)
  }

  lemma AppliedNamed(s: NodeConfig, n: NodeConfig, c: Change)
    requires Named(s) && Aimed(s, n, c)
    ensures Named(Applied(s, c)) && Applied(s, c).namespaces.Keys == s.namespaces.Keys
  {
  }

  lemma TailAimed(s: NodeConfig, n: NodeConfig, cs: seq<Change>)
    requires cs != [] && forall c :: c in cs ==> Aimed(s, n, c)
    ensures Aimed(s, n, cs[0]) && forall c :: c in cs[1..] ==> Aimed(Applied(s, cs[0]), n, c)
  {
    assert cs[0] in cs;
    forall c | c in cs[1..] ensures Aimed(Applied(s, cs[0]), n, c) {
      assert c in cs;
      AppliedAims(s, n, cs[0], c);
    }
  }

  lemma HeadOrTail(cs: seq<Change>, c: Change)
    requires cs != [] && c in cs
    ensures c == cs[0] || c in cs[1..]
  {
    assert cs == [cs[0]] + cs[1..];
  }

  /** After any sequence of aimed changes, what is still off was off before and is no change's spot. */
  lemma {:induction false} ApplyAllShrinks(s: NodeConfig, n: NodeConfig, cs: seq<Change>)
    requires Named(s) && forall c :: c in cs ==> Aimed(s, n, c)
    ensures Named(ApplyAll(s, cs)) && ApplyAll(s, cs).namespaces.Keys == s.namespaces.Keys
    ensures forall spot :: Off(ApplyAll(s, cs), n, spot) ==>
              Off(s, n, spot) && forall c :: c in cs ==> SpotOf(c) != spot
    decreases |cs|
  {
    if cs != [] {
      var s' := Applied(s, cs[0]);
      TailAimed(s, n, cs);
      AppliedNamed(s, n, cs[0]);
      ApplyAllShrinks(s', n, cs[1..]);
      forall spot | Off(ApplyAll(s, cs), n, spot) ensures Off(s, n, spot) && forall c :: c in cs ==> SpotOf(c) != spot {
        AppliedShrinks(s, n, cs[0], spot);
        forall c | c in cs ensures SpotOf(c) != spot { HeadOrTail(cs, c); }
      }
    }
  }

  lemma NothingOffAgrees(s: NodeConfig, n: NodeConfig)
    requires Named(s) && Named(n) && s.namespaces.Keys == n.namespaces.Keys && forall spot :: !Off(s, n, spot)
    ensures Agree(s, n)
  {
    forall p ensures !Differs(s.sections, n.sections, p) { assert !Off(s, n, InSection(p)); }
    NoDifferenceSame(s.sections, n.sections);
    forall a | a in n.namespaces ensures Same(Map(s.namespaces[a]), Map(n.namespaces[a])) {
      var x, y := s.namespaces[a], n.namespaces[a];
      forall k ensures k in x <==> k in y { assert !Off(s, n, InSpace(a, k)); }
      forall k | k in x ensures Same(x[k], y[k]) {
        assert !Off(s, n, InSpace(a, k));
        SameSelf(x[k]);
      }
    }
  }

  // ---- The theorem ------------------------------------------------------------------------------------------

  ghost predicate WellFormed(cfg: Section) {
    Clean(cfg - {NAMESPACES}) && forall a :: a in Spaces(cfg) ==> a != ""
  }

  ghost predicate Dotted(live: Registry) { forall path :: live(path) ==> '.' in path }

  lemma DottedSegments(path: string, oldValue: Val, newValue: Val, p: Path)
    requires '.' in path && p != [] && CleanPath(p) && path == Join(p)
    ensures Segments(SectionChange(path, oldValue, newValue)) == p
  {
    SplitJoin(p);
    DottedWhole(path, IndexOf(path, '.'));
  }

  lemma DottedWhole(path: string, i: nat)
    requires i < |path| && path[i] == '.'
    ensures path[..|path|] == path && path == path[..i] + "." + path[i+1..]
  {
  }

  /** A dynamic finding is determined by its spot. */
  ghost function FindingAt(was: Section, now: Section, spot: Spot, newValue: Val): Change {
    match spot
    case InSection(p) => SectionChange(Join(p), OldAt(was - {NAMESPACES}, p), newValue)
    case InSpace(a, k) =>
      ParamChange(a, k, if a in Spaces(was) then Get(Spaces(was)[a], k) else Nil, newValue)
  }

  /** Every dynamic finding is aimed, and its spot is where the two configs differ. */
  lemma DynamicAimed(live: Registry, was: Section, now: Section, c: Change)
    requires WellFormed(was) && WellFormed(now) && Dotted(live)
    requires Finding(c, true) in SectionFindings(live, "", was, now)
    ensures Aimed(Loaded(was), Loaded(now), c) && Off(Loaded(was), Loaded(now), SpotOf(c))
    ensures c == FindingAt(was, now, SpotOf(c), c.newValue)
  {
    var f := Finding(c, true);
    TopLevel(live, was, now, f);
    if f in SectionFindings(live, "", was - {NAMESPACES}, now - {NAMESPACES}) {
      assert Join([]) == "";
      var p := ReportedAims(live, [], was - {NAMESPACES}, now - {NAMESPACES}, f);
      assert [] + p == p;
      DottedSegments(c.path, c.oldValue, c.newValue, p);
    } else {
      var a :| a in Spaces(now) && f in SpaceFindings(live, Spaces(was), Spaces(now), a);
      assert f in ParamFindings(live, a, Spaces(was)[a], Spaces(now)[a], Spaces(now)[a].Keys);
    }
  }

  /** No two dynamic findings share a spot. */
  lemma SpotsDiffer(live: Registry, was: Section, now: Section, c: Change, d: Change)
    requires WellFormed(was) && WellFormed(now) && Dotted(live)
    requires Finding(c, true) in SectionFindings(live, "", was, now)
    requires Finding(d, true) in SectionFindings(live, "", was, now)
    ensures SpotOf(c) == SpotOf(d) ==> c == d
  {
    DynamicAimed(live, was, now, c);
    DynamicAimed(live, was, now, d);
    if SpotOf(c) == SpotOf(d) && c.namespace == "" {
      AimsUnique(Loaded(was).sections, Loaded(now).sections, Segments(c), c.newValue, d.newValue);
    }
  }

  /** Every differing spot has a finding that addresses it. */
  lemma OffReported(live: Registry, was: Section, now: Section, spot: Spot) returns (c: Change)
    requires WellFormed(was) && WellFormed(now) && Dotted(live)
    requires forall f :: f in SectionFindings(live, "", was, now) ==> f.dynamic
    requires Off(Loaded(was), Loaded(now), spot)
    ensures Finding(c, true) in SectionFindings(live, "", was, now) && SpotOf(c) == spot
  {
    match spot
    case InSection(p) =>
      assert Join([]) == "" && [] + p == p;
      var f := DifferenceReported(live, [], was - {NAMESPACES}, now - {NAMESPACES}, p);
      c := f.change;
      TopLevel(live, was, now, f);
      assert f == Finding(c, true);
      var q := ReportedAims(live, [], was - {NAMESPACES}, now - {NAMESPACES}, f);
      DottedSegments(c.path, c.oldValue, c.newValue, p);
    case InSpace(a, k) =>
      var f := SpaceReported(live, Spaces(was), Spaces(now), a, k);
      c := f.change;
      TopLevel(live, was, now, f);
      assert f == Finding(c, true);
  }

  lemma SpaceReported(live: Registry, was: map<string, Section>, now: map<string, Section>, a: string, k: string)
    returns (f: Finding)
    requires a in was && a in now && k != NAME && (k in was[a] || k in now[a])
    requires !(k in was[a] && k in now[a] && ValuesEqual(was[a][k], now[a][k]))
    ensures f in NamespaceFindings(live, was, now) && f.change == ParamChange(a, k, Get(was[a], k), Get(now[a], k))
  {
    if k in now[a] {
      f := Finding(ParamChange(a, k, Get(was[a], k), Get(now[a], k)), live("namespace." + k));
      assert f in ParamFindings(live, a, was[a], now[a], now[a].Keys);
    } else {
      f := Finding(ParamChange(a, k, Get(was[a], k), Nil), false);
      assert f in RemovedParams(a, was[a], was[a].Keys - now[a].Keys);
    }
    assert f in SpaceFindings(live, was, now, a);
  }

  /** Without static findings both configs have the same namespaces, once the new one lists any. */
  lemma SameSpaces(live: Registry, was: Section, now: Section)
    requires NAMESPACES in now && forall f :: f in SectionFindings(live, "", was, now) ==> f.dynamic
    ensures Spaces(was).Keys == Spaces(now).Keys
  {
    forall a ensures a in Spaces(was) <==> a in Spaces(now) {
      if a in Spaces(was) && a !in Spaces(now) {
        var f := Finding(WholeNamespace(a, Map(Spaces(was)[a]), Nil), false);
        assert f in RemovedSpaces(Spaces(was), Spaces(was).Keys - Spaces(now).Keys);
        TopLevel(live, was, now, f);
      } else if a !in Spaces(was) && a in Spaces(now) {
        var f := Finding(WholeNamespace(a, Nil, Map(Spaces(now)[a])), false);
        assert f in SpaceFindings(live, Spaces(was), Spaces(now), a);
        TopLevel(live, was, now, f);
      }
    }
  }

  /**
    When the diff reports no static change, sending its dynamic changes in any order, even with
    repeats, turns a node running the old config into one running the new config exactly when
    the new config still has a `namespaces` key or the old one had no namespace.
   */
  lemma DiffSound(live: Registry, was: Section, now: Section, cs: seq<Change>)
    requires WellFormed(was) && WellFormed(now) && Dotted(live)
    requires forall f :: f in SectionFindings(live, "", was, now) ==> f.dynamic
    requires forall c :: c in cs <==> Finding(c, true) in SectionFindings(live, "", was, now)
    ensures Agree(ApplyAll(Loaded(was), cs), Loaded(now)) <==> NAMESPACES in now || Spaces(was) == map[]
  {
    var s, n := Loaded(was), Loaded(now);
    forall c | c in cs ensures Aimed(s, n, c) { DynamicAimed(live, was, now, c); }
    ApplyAllShrinks(s, n, cs);
    var end := ApplyAll(s, cs);
    if NAMESPACES in now { SameSpaces(live, was, now); }
    if NAMESPACES in now || Spaces(was) == map[] {
      forall spot ensures !Off(end, n, spot) {
        if Off(end, n, spot) {
          var _ := OffReported(live, was, now, spot);
        }
      }
      NothingOffAgrees(end, n);
    } else {
      assert end.namespaces.Keys == Spaces(was).Keys;
      assert Spaces(was).Keys != {};
    }
  }

  /** The gap: a config that loses its whole `namespaces` key looks unchanged. */
  lemma DroppedNamespaces(live: Registry, name: string)
    requires name != ""
    ensures var was := map[NAMESPACES := List([Map(map[NAME := Str(name)])])];
            && SectionFindings(live, "", was, map[]) == {}
            && !Agree(Loaded(was), Loaded(map[]))
  {
    var was: Section := map[NAMESPACES := List([Map(map[NAME := Str(name)])])];
    var now: Section := map[];
    assert Gather(live, "", was, now, now.Keys) == {};
    assert was.Keys - now.Keys - {NAMESPACES} == {};
    var list := was[NAMESPACES].items;
    assert list[..0] == [] && ByName(list[..0]) == map[];
    assert name in ByName(list);
  }
}
