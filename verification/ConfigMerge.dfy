/** The deep merge of config trees, its two implementations, and the laws that make re-applying it harmless. */
module ConfigMerge {
  import opened Text
  import opened ConfigTree

  /** Maps merge key by key; anything else in the override replaces the base. */
  function Merge(base: Val, over: Val): Val
    decreases over, 2
  {
    if base.Map? && over.Map? then Map(MergeSections(base.entries, over.entries)) else over
  }

  function MergeSections(base: Section, over: Section): (r: Section)
    decreases Map(over), 1
  {
    map k | k in base.Keys + over.Keys :: MergedAt(base, over, k)
  }

  function MergedAt(base: Section, over: Section, k: string): Val
    requires k in base || k in over
    decreases Map(over), 0
  {
    if k !in over then base[k] else if k in base then Merge(base[k], over[k]) else over[k]
  }

  // ---- The two implementations -----------------------------------------------------------

  /** A merge that has yet to take the keys `todo` of the override. */
  ghost function Taken(base: Section, over: Section, todo: set<string>): Section {
    map k | k in base.Keys + (over.Keys - todo) ::
      if k in over && k !in todo then MergedAt(base, over, k) else base[k]
  }

  lemma TakenNext(base: Section, over: Section, todo: set<string>, k: string)
    requires todo <= over.Keys && k in todo
    ensures Taken(base, over, todo)[k := MergedAt(base, over, k)] == Taken(base, over, todo - {k})
    ensures k in Taken(base, over, todo) <==> k in base
    ensures k in base ==> Taken(base, over, todo)[k] == base[k]
  {
  }

  lemma TakenEnds(base: Section, over: Section)
    ensures Taken(base, over, over.Keys) == base && Taken(base, over, {}) == MergeSections(base, over)
  {
  }

  method Copy(base: Section) returns (r: Section)
    ensures r == base
  {
    r := map[];
    var left := base.Keys;
    while left != {}
      invariant left <= base.Keys && r.Keys == base.Keys - left && forall k :: k in r ==> r[k] == base[k]
      decreases |left|
    {
      var k :| k in left;
      r := r[k := base[k]];
      left := left - {k};
    }
  }

  /** Copies the base, then folds the override in; used for rack overrides. */
  method DeepMerge(base: Section, over: Section) returns (r: Section)
    ensures r == MergeSections(base, over)
    decreases Map(over)
  {
    r := Copy(base);
    TakenEnds(base, over);
    var todo := over.Keys;
    while todo != {}
      invariant todo <= over.Keys && r == Taken(base, over, todo)
      decreases |todo|
    {
      var k :| k in todo;
      TakenNext(base, over, todo, k);
      if k !in r {
        r := r[k := over[k]];
      } else if r[k].Map? && over[k].Map? {
        var merged := DeepMerge(r[k].entries, over[k].entries);
        r := r[k := Map(merged)];
      } else {
        r := r[k := over[k]];
      }
      todo := todo - {k};
    }
  }

  /** Starts from the whole base and recurses where both sides are maps; used for templates. */
  method DeepMergeMapBaseFirst(base: Section, over: Section) returns (r: Section)
    ensures r == MergeSections(base, over)
    decreases Map(over), 1
  {
    r := base;
    TakenEnds(base, over);
    var todo := over.Keys;
    while todo != {}
      invariant todo <= over.Keys && r == Taken(base, over, todo)
      decreases |todo|
    {
      var k :| k in todo;
      TakenNext(base, over, todo, k);
      var v := BaseFirstAt(r, over, k);
      r := r[k := v];
      todo := todo - {k};
    }
  }

  method BaseFirstAt(r: Section, over: Section, k: string) returns (v: Val)
    requires k in over
    ensures v == if k in r then Merge(r[k], over[k]) else over[k]
    decreases Map(over), 0
  {
    if k in r && r[k].Map? && over[k].Map? {
      var merged := DeepMergeMapBaseFirst(r[k].entries, over[k].entries);
      return Map(merged);
    }
    return over[k];
  }

  // ---- The laws ------------------------------------------------------------------------------

  lemma {:induction false} MergeSelf(a: Val)
    ensures Merge(a, a) == a
    decreases a
  {
    if a.Map? {
      forall k | k in a.entries
        ensures MergeSections(a.entries, a.entries)[k] == a.entries[k]
      {
        MergeSelf(a.entries[k]);
      }
      assert MergeSections(a.entries, a.entries) == a.entries;
    }
  }

  /** Re-applying the base to a merged config changes nothing. */
  lemma {:induction false} MergeAgain(a: Val, b: Val)
    ensures Merge(a, Merge(a, b)) == Merge(a, b)
    decreases b
  {
    if a.Map? && b.Map? {
      var x, y := a.entries, b.entries;
      var m := MergeSections(x, y);
      forall k | k in m ensures MergedAt(x, m, k) == m[k] {
        assert m[k] == MergedAt(x, y, k);
        if k in x && k in y { MergeAgain(x[k], y[k]); }
        else if k in x { MergeSelf(x[k]); }
      }
      assert MergeSections(x, m) == m;
    }
  }

  /** The override is already in force in a merged config. */
  lemma {:induction false} MergeOverAgain(a: Val, b: Val)
    ensures Merge(Merge(a, b), b) == Merge(a, b)
    decreases b
  {
    if a.Map? && b.Map? {
      var x, y := a.entries, b.entries;
      var m := MergeSections(x, y);
      forall k | k in m ensures MergedAt(m, y, k) == m[k] {
        assert m[k] == MergedAt(x, y, k);
        if k in x && k in y { MergeOverAgain(x[k], y[k]); }
        else if k in y { MergeSelf(y[k]); }
      }
      assert MergeSections(m, y) == m;
    } else {
      MergeSelf(b);
    }
  }

  /** The laws on whole configs. */
  lemma MergeLaws(a: Section, b: Section)
    ensures MergeSections(a, a) == a
    ensures MergeSections(a, MergeSections(a, b)) == MergeSections(a, b) == MergeSections(MergeSections(a, b), b)
  {
    MergeSelf(Map(a));
    MergeAgain(Map(a), Map(b));
    MergeOverAgain(Map(a), Map(b));
  }

  // ---- What a merge means at every path -----------------------------------------------------------

  /** The setting at a path: the value there, if it is no section. */
  ghost function Leaf(v: Val, p: seq<string>): Option<Val>
    decreases |p|
  {
    if p == [] then (if v.Map? then None else Some(v))
    else if v.Map? && p[0] in v.entries then Leaf(v.entries[p[0]], p[1..])
    else None
  }

  /** How a tree answers for a path: with a setting, a section, a setting above it, or not at all. */
  datatype Answer = Setting(value: Val) | Inner | Cut | Missing

  ghost function Ask(v: Val, p: seq<string>): Answer
    decreases |p|
  {
    if !v.Map? then (if p == [] then Setting(v) else Cut)
    else if p == [] then Inner
    else if p[0] in v.entries then Ask(v.entries[p[0]], p[1..])
    else Missing
  }

  /** The override decides every path it says anything about; the base decides the rest. */
  lemma {:induction false} MergePathwise(a: Val, b: Val, p: seq<string>)
    ensures Leaf(Merge(a, b), p) ==
            match Ask(b, p) { case Setting(v) => Some(v) case Missing => Leaf(a, p) case _ => None }
    decreases |p|
  {
    if p != [] && a.Map? && b.Map? {
      var m := MergeSections(a.entries, b.entries);
      if p[0] in m {
        assert m[p[0]] == MergedAt(a.entries, b.entries, p[0]);
        if p[0] in b.entries {
          if p[0] in a.entries { MergePathwise(a.entries[p[0]], b.entries[p[0]], p[1..]); }
          else { LeafOfAnswer(b.entries[p[0]], p[1..]); }
        }
      }
    } else {
      LeafOfAnswer(b, p);
    }
  }

  lemma {:induction false} LeafOfAnswer(v: Val, p: seq<string>)
    ensures Leaf(v, p) == match Ask(v, p) { case Setting(x) => Some(x) case _ => None }
    decreases |p|
  {
    if p != [] && v.Map? && p[0] in v.entries { LeafOfAnswer(v.entries[p[0]], p[1..]); }
  }

  /**
    At p the result answers as the override does wherever that answers at all, and as the base does
    elsewhere, save that a setting of the base above p gives way to a section of the override.
   */
  ghost predicate LaidOver(base: Val, over: Val, result: Val, p: seq<string>) {
    if !Ask(over, p).Missing? then Ask(result, p) == Ask(over, p)
    else Ask(result, p) == Ask(base, p) || (Ask(base, p).Cut? && Ask(result, p).Missing?)
  }

  lemma {:induction false} MergeAnswers(a: Val, b: Val, p: seq<string>)
    ensures LaidOver(a, b, Merge(a, b), p)
    decreases |p|
  {
    if p != [] && a.Map? && b.Map? {
      MergeEntry(a.entries, b.entries, p[0]);
      if p[0] in a.entries && p[0] in b.entries { MergeAnswers(a.entries[p[0]], b.entries[p[0]], p[1..]); }
    }
  }

  ghost function Entry(m: Section, k: string): Option<Val> { if k in m then Some(m[k]) else None }

  /** One entry of a merge, from the two entries under its key. */
  lemma MergeEntry(base: Section, over: Section, k: string)
    ensures Entry(MergeSections(base, over), k) ==
            if k !in over then Entry(base, k) else Some(if k in base then Merge(base[k], over[k]) else over[k])
  {
    if k in base || k in over { assert MergeSections(base, over)[k] == MergedAt(base, over, k); }
  }

  lemma SameEntries(a: Section, b: Section)
    requires forall k :: Entry(a, k) == Entry(b, k)
    ensures a == b
  {
    assert forall k :: k in a <==> Entry(a, k).Some?;
    assert forall k :: k in b <==> Entry(b, k).Some?;
    assert forall k :: k in a ==> Entry(a, k) == Some(a[k]);
    assert forall k :: k in b ==> Entry(b, k) == Some(b[k]);
  }
}
