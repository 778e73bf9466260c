/**
  The structural diff of two configs and its promise: when it reports no static change,
  sending its dynamic changes to a node running the old config, in any order, makes the
  node run the new one. `live` is the registry of parameters that can be set at runtime.
 */
module ConfigDiff {
  import opened Text
  import opened SetConfigCommand
  import opened ConfigTree

  const NAMESPACES := "namespaces"
  const NAME := "name"

  type Registry = string -> bool

  /** Absent values are nil, as in the source. */
  datatype Change = Change(path: string, context: string, key: string, oldValue: Val, newValue: Val, namespace: string)

  datatype Finding = Finding(change: Change, dynamic: bool)

  function JoinPath(prefix: string, key: string): string {
    if prefix == "" then key else prefix + "." + key
  }

  function FirstSegment(path: string): string { path[..IndexOf(path, '.')] }

  function KeyWithinContext(path: string): string {
    var i := IndexOf(path, '.');
    if i == |path| then path else path[i+1..]
  }

  function SectionChange(path: string, oldValue: Val, newValue: Val): Change {
    Change(path, FirstSegment(path), KeyWithinContext(path), oldValue, newValue, "")
  }

  predicate ValuesEqual(a: Val, b: Val) {
    if a.Num? then b.Num? && a.number.value == b.number.value else a == b
  }

  function AsSlice(v: Val): seq<Val> { if v.List? then v.items else [] }

  /** Later entries win; entries that are no map or have no string name are skipped. */
  function ByName(list: seq<Val>): (r: map<string, Section>)
    ensures forall n :: n in r ==> NAME in r[n] && r[n][NAME] == Str(n)
  {
    if list == [] then map[]
    else
      var rest, last := ByName(list[..|list|-1]), list[|list|-1];
      if last.Map? && NAME in last.entries && last.entries[NAME].Str? then rest[last.entries[NAME].text := last.entries]
      else rest
  }

  ghost predicate NamedAt(list: seq<Val>, i: nat, name: string) {
    i < |list| && list[i].Map? && NAME in list[i].entries && list[i].entries[NAME] == Str(name)
  }

  /** Under a name stands the last entry that carries it, and nothing when no entry does. */
  lemma {:induction false} ByNameExactly(list: seq<Val>, name: string)
    ensures name in ByName(list) <==> exists i: nat :: NamedAt(list, i, name)
    ensures name in ByName(list) ==>
              exists i: nat :: NamedAt(list, i, name) && ByName(list)[name] == list[i].entries
                               && forall j: nat :: j > i ==> !NamedAt(list, j, name)
  {
    if list != [] {
      var rest, n := list[..|list|-1], |list| - 1;
      ByNameExactly(rest, name);
      assert forall i: nat :: i < n ==> (NamedAt(rest, i, name) <==> NamedAt(list, i, name));
      if NamedAt(list, n, name) {
        assert forall j: nat :: j > n ==> !NamedAt(list, j, name);
      } else {
        assert forall i: nat :: NamedAt(list, i, name) ==> i < n;
      }
    }
  }

  function Spaces(cfg: Section): map<string, Section> { ByName(AsSlice(Get(cfg, NAMESPACES))) }

  // ---- What the diff reports ----------------------------------------------------------

  predicate BothMaps(was: Section, now: Section, k: string)
    requires k in was && k in now
  {
    was[k].Map? && now[k].Map?
  }

  /** The findings for one key of the new section. */
  ghost function KeyFindings(live: Registry, prefix: string, was: Section, now: Section, k: string): set<Finding>
    requires k in now
    decreases Map(now), 0
  {
    var path := JoinPath(prefix, k);
    if k == NAMESPACES then NamespaceFindings(live, ByName(AsSlice(Get(was, k))), ByName(AsSlice(now[k])))
    else if k !in was then {Finding(SectionChange(path, Nil, now[k]), live(path))}
    else if BothMaps(was, now, k) then SectionFindings(live, path, was[k].entries, now[k].entries)
    else if ValuesEqual(was[k], now[k]) then {}
    else {Finding(SectionChange(path, was[k], now[k]), live(path))}
  }

  ghost function Gather(live: Registry, prefix: string, was: Section, now: Section, keys: set<string>): set<Finding>
    requires keys <= now.Keys
    decreases Map(now), 1
  {
    set k, f | k in keys && f in KeyFindings(live, prefix, was, now, k) :: f
  }

  ghost function Removed(prefix: string, was: Section, keys: set<string>): set<Finding>
    requires keys <= was.Keys
  {
    set k | k in keys :: Finding(SectionChange(JoinPath(prefix, k), was[k], Nil), false)
  }

  ghost function SectionFindings(live: Registry, prefix: string, was: Section, now: Section): set<Finding>
    decreases Map(now), 2
  {
    Gather(live, prefix, was, now, now.Keys) + Removed(prefix, was, was.Keys - now.Keys - {NAMESPACES})
  }

  function ParamChange(name: string, key: string, oldValue: Val, newValue: Val): Change {
    Change("namespace." + key, "namespace", key, oldValue, newValue, name)
  }

  function WholeNamespace(name: string, oldValue: Val, newValue: Val): Change {
    Change("namespaces." + name, "namespace", name, oldValue, newValue, "")
  }

  predicate ParamDiffers(was: Section, now: Section, k: string) {
    k != NAME && k in now && (k !in was || !ValuesEqual(was[k], now[k]))
  }

  ghost function ParamFindings(
      live: Registry, name: string, was: Section, now: Section, keys: set<string>): set<Finding>
  {
    set k | k in keys && ParamDiffers(was, now, k) ::
      Finding(ParamChange(name, k, Get(was, k), Get(now, k)), live("namespace." + k))
  }

  ghost function ParamFinding(live: Registry, name: string, was: Section, now: Section, k: string): set<Finding> {
    if ParamDiffers(was, now, k) then {Finding(ParamChange(name, k, Get(was, k), Get(now, k)), live("namespace." + k))}
    else {}
  }

  ghost function RemovedParams(name: string, was: Section, keys: set<string>): set<Finding> {
    set k | k in keys && k != NAME :: Finding(ParamChange(name, k, Get(was, k), Nil), false)
  }

  /** The findings for one namespace of the new config. */
  ghost function SpaceFindings(
      live: Registry, was: map<string, Section>, now: map<string, Section>, name: string): set<Finding>
    requires name in now
  {
    if name !in was then {Finding(WholeNamespace(name, Nil, Map(now[name])), false)}
    else
      ParamFindings(live, name, was[name], now[name], now[name].Keys)
      + RemovedParams(name, was[name], was[name].Keys - now[name].Keys)
  }

  ghost function GatherSpaces(
      live: Registry, was: map<string, Section>, now: map<string, Section>, names: set<string>): set<Finding>
    requires names <= now.Keys
  {
    set n, f | n in names && f in SpaceFindings(live, was, now, n) :: f
  }

  ghost function RemovedSpaces(was: map<string, Section>, names: set<string>): set<Finding>
    requires names <= was.Keys
  {
    set n | n in names :: Finding(WholeNamespace(n, Map(was[n]), Nil), false)
  }

  ghost function NamespaceFindings(live: Registry, was: map<string, Section>, now: map<string, Section>): set<Finding> {
    GatherSpaces(live, was, now, now.Keys) + RemovedSpaces(was, was.Keys - now.Keys)
  }

  // ---- The imperative form ---------------------------------------------------------------

  class DiffResult {
    var dynamic: seq<Change>
    var fixed: seq<Change>

    /** Both lists as one set, each change marked with the list it is in. */
    ghost var found: set<Finding>

    ghost predicate Valid()
      reads this
    {
      forall f :: f in found <==> f.change in if f.dynamic then dynamic else fixed
    }

    constructor ()
      ensures Valid() && found == {}
    {
      dynamic, fixed, found := [], [], {};
    }

    method Add(change: Change, toDynamic: bool)
      requires Valid()
      modifies this
      ensures Valid() && found == old(found) + {Finding(change, toDynamic)}
    {
      if toDynamic { dynamic := dynamic + [change]; } else { fixed := fixed + [change]; }
      found := found + {Finding(change, toDynamic)};
    }

    method DiffSection(live: Registry, prefix: string, was: Section, now: Section)
      requires Valid()
      modifies this
      ensures Valid() && found == old(found) + SectionFindings(live, prefix, was, now)
      decreases Map(now), 2
    {
      DiffKeys(live, prefix, was, now);
      DiffRemoved(prefix, was, was.Keys - now.Keys - {NAMESPACES});
      Regroup(old(found), Gather(live, prefix, was, now, now.Keys),
              Removed(prefix, was, was.Keys - now.Keys - {NAMESPACES}));
    }

    method DiffKeys(live: Registry, prefix: string, was: Section, now: Section)
      requires Valid()
      modifies this
      ensures Valid() && found == old(found) + Gather(live, prefix, was, now, now.Keys)
      decreases Map(now), 1
    {
      ghost var done: set<string> := {};
      var todo := now.Keys;
      while todo != {}
        invariant Valid() && done <= now.Keys && todo == now.Keys - done
        invariant found == old(found) + Gather(live, prefix, was, now, done)
        decreases |todo|
      {
        var k :| k in todo;
        DiffKey(live, prefix, was, now, k);
        GatherOne(live, prefix, was, now, old(found), done, k);
        done, todo := done + {k}, todo - {k};
      }
      assert done == now.Keys;
    }

    method DiffKey(live: Registry, prefix: string, was: Section, now: Section, k: string)
      requires Valid() && k in now
      modifies this
      ensures Valid() && found == old(found) + KeyFindings(live, prefix, was, now, k)
      decreases Map(now), 0
    {
      var path := JoinPath(prefix, k);
      if k == NAMESPACES {
        DiffNamespaces(live, ByName(AsSlice(Get(was, k))), ByName(AsSlice(now[k])));
      } else if k !in was {
        Add(SectionChange(path, Nil, now[k]), live(path));
      } else if BothMaps(was, now, k) {
        DiffSection(live, path, was[k].entries, now[k].entries);
      } else if !ValuesEqual(was[k], now[k]) {
        Add(SectionChange(path, was[k], now[k]), live(path));
      }
    }

    method DiffRemoved(prefix: string, was: Section, gone: set<string>)
      requires Valid() && gone <= was.Keys
      modifies this
      ensures Valid() && found == old(found) + Removed(prefix, was, gone)
    {
      ghost var done: set<string> := {};
      var todo := gone;
      while todo != {}
        invariant Valid() && done <= gone && todo == gone - done
        invariant found == old(found) + Removed(prefix, was, done)
        decreases |todo|
      {
        var k :| k in todo;
        Add(SectionChange(JoinPath(prefix, k), was[k], Nil), false);
        RemovedOne(prefix, was, old(found), done, k);
        done, todo := done + {k}, todo - {k};
      }
      assert done == gone;
    }

    method DiffNamespaces(live: Registry, was: map<string, Section>, now: map<string, Section>)
      requires Valid()
      modifies this
      ensures Valid() && found == old(found) + NamespaceFindings(live, was, now)
    {
      DiffSpaces(live, was, now);
      DiffRemovedSpaces(was, was.Keys - now.Keys);
      Regroup(old(found), GatherSpaces(live, was, now, now.Keys), RemovedSpaces(was, was.Keys - now.Keys));
    }

    method DiffSpaces(live: Registry, was: map<string, Section>, now: map<string, Section>)
      requires Valid()
      modifies this
      ensures Valid() && found == old(found) + GatherSpaces(live, was, now, now.Keys)
    {
      ghost var done: set<string> := {};
      var todo := now.Keys;
      while todo != {}
        invariant Valid() && done <= now.Keys && todo == now.Keys - done
        invariant found == old(found) + GatherSpaces(live, was, now, done)
        decreases |todo|
      {
        var n :| n in todo;
        if n in was {
          DiffParams(live, n, was[n], now[n]);
          DiffRemovedParams(n, was[n], was[n].Keys - now[n].Keys);
          Regroup(old(found) + GatherSpaces(live, was, now, done),
                  ParamFindings(live, n, was[n], now[n], now[n].Keys),
                  RemovedParams(n, was[n], was[n].Keys - now[n].Keys));
        } else {
          Add(WholeNamespace(n, Nil, Map(now[n])), false);
        }
        GatherSpace(live, was, now, old(found), done, n);
        done, todo := done + {n}, todo - {n};
      }
      assert done == now.Keys;
    }

    method DiffRemovedSpaces(was: map<string, Section>, gone: set<string>)
      requires Valid() && gone <= was.Keys
      modifies this
      ensures Valid() && found == old(found) + RemovedSpaces(was, gone)
    {
      ghost var done: set<string> := {};
      var todo := gone;
      while todo != {}
        invariant Valid() && done <= gone && todo == gone - done
        invariant found == old(found) + RemovedSpaces(was, done)
        decreases |todo|
      {
        var n :| n in todo;
        Add(WholeNamespace(n, Map(was[n]), Nil), false);
        RemovedSpace(was, old(found), done, n);
        done, todo := done + {n}, todo - {n};
      }
      assert done == gone;
    }

    method DiffParams(live: Registry, name: string, was: Section, now: Section)
      requires Valid()
      modifies this
      ensures Valid() && found == old(found) + ParamFindings(live, name, was, now, now.Keys)
    {
      ghost var done: set<string> := {};
      var todo := now.Keys;
      while todo != {}
        invariant Valid() && done <= now.Keys && todo == now.Keys - done
        invariant found == old(found) + ParamFindings(live, name, was, now, done)
        decreases |todo|
      {
        var k :| k in todo;
        DiffParam(live, name, was, now, k);
        ParamOne(live, name, was, now, old(found), done, k);
        done, todo := done + {k}, todo - {k};
      }
      assert done == now.Keys;
    }

    method DiffParam(live: Registry, name: string, was: Section, now: Section, k: string)
      requires Valid()
      modifies this
      ensures Valid() && found == old(found) + ParamFinding(live, name, was, now, k)
    {
      if ParamDiffers(was, now, k) {
        Add(ParamChange(name, k, Get(was, k), Get(now, k)), live("namespace." + k));
      }
    }

    method DiffRemovedParams(name: string, was: Section, gone: set<string>)
      requires Valid()
      modifies this
      ensures Valid() && found == old(found) + RemovedParams(name, was, gone)
    {
      ghost var done: set<string> := {};
      var todo := gone;
      while todo != {}
        invariant Valid() && done <= gone && todo == gone - done
        invariant found == old(found) + RemovedParams(name, was, done)
        decreases |todo|
      {
        var k :| k in todo;
        if k != NAME { Add(ParamChange(name, k, Get(was, k), Nil), false); }
        RemovedParam(name, was, old(found), done, k);
        done, todo := done + {k}, todo - {k};
      }
      assert done == gone;
    }
  }

  lemma Regroup(a: set<Finding>, b: set<Finding>, c: set<Finding>)
    ensures a + b + c == a + (b + c)
  {
  }

  lemma GatherOne(
      live: Registry, prefix: string, was: Section, now: Section, base: set<Finding>, keys: set<string>, k: string)
    requires keys <= now.Keys && k in now
    ensures base + Gather(live, prefix, was, now, keys + {k})
            == base + Gather(live, prefix, was, now, keys) + KeyFindings(live, prefix, was, now, k)
  {
  }

  lemma RemovedOne(prefix: string, was: Section, base: set<Finding>, keys: set<string>, k: string)
    requires keys <= was.Keys && k in was
    ensures base + Removed(prefix, was, keys + {k})
            == base + Removed(prefix, was, keys) + {Finding(SectionChange(JoinPath(prefix, k), was[k], Nil), false)}
  {
  }

  lemma GatherSpace(
      live: Registry, was: map<string, Section>, now: map<string, Section>, base: set<Finding>, names: set<string>,
      n: string)
    requires names <= now.Keys && n in now
    ensures base + GatherSpaces(live, was, now, names + {n})
            == base + GatherSpaces(live, was, now, names) + SpaceFindings(live, was, now, n)
  {
  }

  lemma RemovedSpace(was: map<string, Section>, base: set<Finding>, names: set<string>, n: string)
    requires names <= was.Keys && n in was
    ensures base + RemovedSpaces(was, names + {n})
            == base + RemovedSpaces(was, names) + {Finding(WholeNamespace(n, Map(was[n]), Nil), false)}
  {
  }

  lemma ParamOne(
      live: Registry, name: string, was: Section, now: Section, base: set<Finding>, keys: set<string>, k: string)
    ensures base + ParamFindings(live, name, was, now, keys + {k}) ==
            base + ParamFindings(live, name, was, now, keys) + ParamFinding(live, name, was, now, k)
  {
  }

  lemma RemovedParam(name: string, was: Section, base: set<Finding>, keys: set<string>, k: string)
    ensures base + RemovedParams(name, was, keys + {k}) ==
            base + RemovedParams(name, was, keys) +
            if k != NAME then {Finding(ParamChange(name, k, Get(was, k), Nil), false)} else {}
  {
  }
}
