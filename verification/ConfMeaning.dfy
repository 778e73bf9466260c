/**
  What a reader of aerospike.conf finds in the stanzas with a syntax of their own: the
  namespaces with all their parameters, in order, and the seeds of the mesh.
 */
module ConfMeaning {
  import opened Text
  import opened SetConfigCommand
  import opened ConfigTree
  import opened ConfText
  import opened KeyOrder
  import opened Printer
  import opened ConfRoundTrip

  const NAMESPACE := "namespace "
  const SEED := MESH_SEED + " "

  // ---- The reader -------------------------------------------------------------------------

  /** A namespace as read: its name and, under each key, the occurrences of the key. */
  datatype Namespace = Namespace(name: string, params: map<string, seq<Tree>>)

  function Collect<T>(items: seq<Item>, f: Item -> seq<T>): seq<T> {
    if items == [] then [] else Collect(items[..|items|-1], f) + f(items[|items|-1])
  }

  function NamespaceOf(item: Item): seq<Namespace> {
    if item.Block? && NAMESPACE <= item.head then [Namespace(item.head[|NAMESPACE|..], Rebuild(item.body))] else []
  }

  function SeedOf(item: Item): seq<string> {
    if item.Line? && SEED <= item.text then [item.text[|SEED|..]] else []
  }

  function HeartbeatSeeds(item: Item): seq<string> {
    if item.Block? && item.head == HEARTBEAT then Collect(item.body, SeedOf) else []
  }

  function NetworkSeeds(item: Item): seq<string> {
    if item.Block? && item.head == "network" then Collect(item.body, HeartbeatSeeds) else []
  }

  lemma {:induction false} CollectBoth<T>(a: seq<Item>, b: seq<Item>, f: Item -> seq<T>)
    ensures Collect(a + b, f) == Collect(a, f) + Collect(b, f)
    decreases |b|
  {
    if b == [] {
      assert a + b == a;
    } else {
      var front, last := b[..|b|-1], b[|b|-1];
      CollectBoth(a, front, f);
      assert (a + b)[..|a + b|-1] == a + front;
      assert (Collect(a, f) + Collect(front, f)) + f(last) == Collect(a, f) + (Collect(front, f) + f(last));
    }
  }

  lemma CollectOne<T>(item: Item, f: Item -> seq<T>)
    ensures Collect([item], f) == f(item)
  {
    assert [item][..0] == [];
    assert [] + f(item) == f(item);
  }

  // ---- What a namespace says -----------------------------------------------------------------

  /** The key a parameter is read back under: the storage engine's type is part of its head. */
  function ParamKey(k: string, v: Val): string {
    if k == STORAGE_ENGINE && v.Map? && v.entries.Keys - {TYPE} != {} then STORAGE_ENGINE + " " + StorageType(v.entries)
    else k
  }

  ghost function ParamTrees(show: Show, k: string, v: Val): seq<Tree>
    decreases v, 4
  {
    if k == STORAGE_ENGINE then [StorageTree(show, v)]
    else
      match v
      case Map(e) => [Node(ParamsOn(show, e, SortedKeys(e.Keys)))]
      case List(xs) => ParamOccurrences(show, xs, |xs|)
      case _ => [Leaf(FormatValue(show, v))]
  }

  ghost function StorageTree(show: Show, v: Val): Tree
    decreases v, 3
  {
    if !v.Map? then Leaf(FormatValue(show, v))
    else if v.entries.Keys - {TYPE} == {} then Leaf(StorageType(v.entries))
    else Node(ParamsOn(show, v.entries, SortedKeys(v.entries.Keys - {TYPE})))
  }

  ghost function ParamOccurrences(show: Show, xs: seq<Val>, n: nat): seq<Tree>
    requires n <= |xs|
    decreases List(xs), 1, n
  {
    if n == 0 then [] else ParamOccurrences(show, xs, n - 1) + [ElementTree(show, xs[n-1])]
  }

  ghost function ElementTree(show: Show, x: Val): Tree
    decreases x, 4
  {
    if x.Map? then Node(ParamsOn(show, x.entries, SortedKeys(x.entries.Keys))) else Leaf(FormatValue(show, x))
  }

  ghost function ParamsOn(show: Show, m: Section, ks: seq<string>): map<string, seq<Tree>>
    requires forall k :: k in ks ==> k in m
    decreases Map(m), 1, |ks|
  {
    if ks == [] then map[]
    else Grow(ParamsOn(show, m, ks[..|ks|-1]), ParamKey(ks[|ks|-1], m[ks[|ks|-1]]),
              ParamTrees(show, ks[|ks|-1], m[ks[|ks|-1]]))
  }

  lemma ParamKeysDiffer(k: string, v: Val, l: string, w: Val)
    requires k != l && ' ' !in k && ' ' !in l
    ensures ParamKey(k, v) != ParamKey(l, w)
  {
    if ParamKey(k, v) != k { assert ParamKey(k, v)[|STORAGE_ENGINE|] == ' '; }
    if ParamKey(l, w) != l { assert ParamKey(l, w)[|STORAGE_ENGINE|] == ' '; }
  }

  /** Nothing is lost or mixed up: each parameter's occurrences stand under its own key. */
  lemma {:induction false} ParamAt(show: Show, m: Section, ks: seq<string>, k: string)
    requires Sorted(ks) && (forall x :: x in ks ==> x in m && ' ' !in x) && k in m && ' ' !in k
    ensures var r, key := ParamsOn(show, m, ks), ParamKey(k, m[k]);
            && (key in r <==> k in ks && ParamTrees(show, k, m[k]) != [])
            && (key in r ==> r[key] == ParamTrees(show, k, m[k]))
  {
    if ks != [] {
      var front, last := ks[..|ks|-1], ks[|ks|-1];
      ParamAt(show, m, front, k);
      LastOnce(ks, k);
      if last != k { ParamKeysDiffer(k, m[k], last, m[last]); }
      GrowAt(ParamsOn(show, m, front), ParamKey(last, m[last]), ParamTrees(show, last, m[last]), ParamKey(k, m[k]));
    }
  }

  lemma GrowAt(m: map<string, seq<Tree>>, k: string, trees: seq<Tree>, q: string)
    ensures var r := Grow(m, k, trees);
            && (q != k ==> (q in r <==> q in m) && (q in r ==> r[q] == m[q]))
            && (k !in m ==> (k in r <==> trees != []) && (k in r ==> r[k] == trees))
  {
    assert [] + trees == trees;
  }

  // ---- The printed parameters read back ----------------------------------------------------------

  lemma StorageLine(kind: string)
    ensures KeyOf(Line(STORAGE_ENGINE + " " + kind)) == STORAGE_ENGINE
    ensures TreeOf(Line(STORAGE_ENGINE + " " + kind)) == Leaf(kind)
  {
    var text := STORAGE_ENGINE + " " + kind;
    assert ' ' !in STORAGE_ENGINE;
    IndexOfSplit(STORAGE_ENGINE, ' ', kind);
    assert text == STORAGE_ENGINE + [' '] + kind;
    assert text[..|STORAGE_ENGINE|] == STORAGE_ENGINE && text[|STORAGE_ENGINE|+1..] == kind;
  }

  lemma {:induction false} StorageReads(show: Show, a: seq<Item>, v: Val)
    requires SpaceFree(v)
    ensures Rebuild(a + [StorageItem(show, v)]) == Grow(Rebuild(a), ParamKey(STORAGE_ENGINE, v), [StorageTree(show, v)])
    decreases v, 3
  {
    RebuildOne(a, StorageItem(show, v));
    if !v.Map? {
      StorageLine(FormatValue(show, v));
    } else if v.entries.Keys - {TYPE} == {} {
      StorageLine(StorageType(v.entries));
    } else {
      ParamsRead(show, v.entries, SortedKeys(v.entries.Keys - {TYPE}));
    }
  }

  lemma {:induction false} ParamReads(show: Show, a: seq<Item>, k: string, v: Val)
    requires ' ' !in k && SpaceFree(v)
    ensures Rebuild(a + ParamItems(show, k, v)) == Grow(Rebuild(a), ParamKey(k, v), ParamTrees(show, k, v))
    decreases v, 4
  {
    if k == STORAGE_ENGINE {
      StorageReads(show, a, v);
    } else {
      match v
      case Map(e) =>
        ParamsRead(show, e, SortedKeys(e.Keys));
        RebuildOne(a, Block(k, ParamsFrom(show, e, SortedKeys(e.Keys))));
      case List(xs) =>
        ElementsRead(show, xs, |xs|);
        OccurrencesRead(show, a, k, xs, |xs|);
      case _ =>
        EntryReads(show, k, v);
        RebuildOne(a, Entry(show, k, v));
    }
  }

  lemma {:induction false} ElementsRead(show: Show, xs: seq<Val>, n: nat)
    requires n <= |xs| && forall i :: 0 <= i < |xs| ==> SpaceFree(xs[i])
    ensures StanzasRead(show, xs, n)
    decreases List(xs), 1, n
  {
    if n > 0 {
      ElementsRead(show, xs, n - 1);
      if xs[n-1].Map? { ParamsRead(show, xs[n-1].entries, SortedKeys(xs[n-1].entries.Keys)); }
    }
  }

  /** The element's own stanza, if it has one, reads back. */
  ghost predicate StanzaReads(show: Show, x: Val) {
    x.Map? ==>
      var ks := SortedKeys(x.entries.Keys);
      Rebuild(ParamsFrom(show, x.entries, ks)) == ParamsOn(show, x.entries, ks)
  }

  lemma ElementReads(show: Show, a: seq<Item>, k: string, x: Val)
    requires ' ' !in k && StanzaReads(show, x)
    ensures Rebuild(a + [ParamElement(show, k, x)]) == Grow(Rebuild(a), k, [ElementTree(show, x)])
  {
    RebuildOne(a, ParamElement(show, k, x));
    if !x.Map? { EntryReads(show, k, x); }
  }

  lemma NoOccurrence(show: Show, a: seq<Item>, k: string, xs: seq<Val>)
    ensures Rebuild(a + ParamList(show, k, xs, 0)) == Grow(Rebuild(a), k, ParamOccurrences(show, xs, 0))
  {
    assert a + [] == a;
  }

  lemma OneMoreOccurrence(show: Show, a: seq<Item>, k: string, xs: seq<Val>, n: nat)
    requires ' ' !in k && 0 < n <= |xs| && StanzaReads(show, xs[n-1])
    requires Rebuild(a + ParamList(show, k, xs, n - 1)) == Grow(Rebuild(a), k, ParamOccurrences(show, xs, n - 1))
    ensures Rebuild(a + ParamList(show, k, xs, n)) == Grow(Rebuild(a), k, ParamOccurrences(show, xs, n))
  {
    var items, trees := ParamList(show, k, xs, n - 1), ParamOccurrences(show, xs, n - 1);
    ElementReads(show, a + items, k, xs[n-1]);
    RebuildChain(a, items, ParamElement(show, k, xs[n-1]), k, trees, ElementTree(show, xs[n-1]));
    assert ParamList(show, k, xs, n) == items + [ParamElement(show, k, xs[n-1])];
    assert ParamOccurrences(show, xs, n) == trees + [ElementTree(show, xs[n-1])];
  }

  ghost predicate StanzasRead(show: Show, xs: seq<Val>, n: nat)
    requires n <= |xs|
  {
    n == 0 || (StanzasRead(show, xs, n - 1) && StanzaReads(show, xs[n-1]))
  }

  lemma {:induction false} OccurrencesRead(show: Show, a: seq<Item>, k: string, xs: seq<Val>, n: nat)
    requires ' ' !in k && n <= |xs| && StanzasRead(show, xs, n)
    ensures Rebuild(a + ParamList(show, k, xs, n)) == Grow(Rebuild(a), k, ParamOccurrences(show, xs, n))
  {
    if n == 0 {
      NoOccurrence(show, a, k, xs);
    } else {
      OccurrencesRead(show, a, k, xs, n - 1);
      OneMoreOccurrence(show, a, k, xs, n);
    }
  }

  lemma {:induction false} ParamsRead(show: Show, m: Section, ks: seq<string>)
    requires (forall k :: k in ks ==> k in m) && SpaceFree(Map(m))
    ensures Rebuild(ParamsFrom(show, m, ks)) == ParamsOn(show, m, ks)
    decreases Map(m), 1, |ks|
  {
    if ks != [] {
      var front, k := ks[..|ks|-1], ks[|ks|-1];
      ParamsRead(show, m, front);
      ParamReads(show, ParamsFrom(show, m, front), k, m[k]);
    }
  }

  // ---- The namespaces of a file ------------------------------------------------------------------

  ghost function Named(show: Show, list: seq<Val>): seq<Namespace>
    requires forall i :: 0 <= i < |list| ==> list[i].Map?
  {
    if list == [] then []
    else
      var last := list[|list|-1];
      Named(show, list[..|list|-1]) +
      [Namespace(NameOf(last), ParamsOn(show, last.entries, SortedKeys(last.entries.Keys - {NAME})))]
  }

  lemma {:induction false} NamespacesAreMaps(show: Show, list: seq<Val>)
    requires NamespaceItems(show, list).Some?
    ensures forall i :: 0 <= i < |list| ==> list[i].Map?
  {
    if list != [] { NamespacesAreMaps(show, list[..|list|-1]); }
  }

  lemma {:induction false} NamespacesRead(show: Show, list: seq<Val>)
    requires NamespaceItems(show, list).Some? && (forall i :: 0 <= i < |list| ==> SpaceFree(list[i]) && list[i].Map?)
    ensures Collect(NamespaceItems(show, list).value, NamespaceOf) == Named(show, list)
    ensures Collect(NamespaceItems(show, list).value, NetworkSeeds) == []
  {
    if list != [] {
      var front, last := list[..|list|-1], list[|list|-1];
      NamespacesRead(show, front);
      var item := Block(NAMESPACE + NameOf(last),
                        ParamsFrom(show, last.entries, SortedKeys(last.entries.Keys - {NAME})));
      ParamsRead(show, last.entries, SortedKeys(last.entries.Keys - {NAME}));
      NamespaceHead(NameOf(last));
      var items := NamespaceItems(show, front).value;
      assert (items + [item])[..|items|] == items;
    }
  }

  lemma NamespaceHead(name: string)
    ensures NAMESPACE <= NAMESPACE + name && (NAMESPACE + name)[|NAMESPACE|..] == name && NAMESPACE + name != "network"
  {
    assert (NAMESPACE + name)[1] == 'a' && "network"[1] == 'e';
  }

  lemma NamespaceHasSpace(k: string)
    requires NAMESPACE <= k
    ensures ' ' in k
  {
    assert k[9] == NAMESPACE[9] == ' ';
  }

  lemma SpaceFreeHead(k: string)
    requires ' ' !in k
    ensures !(NAMESPACE <= k)
  {
    if NAMESPACE <= k { NamespaceHasSpace(k); }
  }

  // ---- The seeds of a file -----------------------------------------------------------------------

  lemma FirstWord(k: string, s: string)
    requires ' ' !in k
    ensures var text := k + " " + s; IndexOf(text, ' ') == |k| && text[..|k|] == k && text[|k|+1..] == s
  {
    IndexOfSplit(k, ' ', s);
    assert k + " " + s == k + [' '] + s;
  }

  lemma SeedWord(text: string)
    ensures SEED <= text <==> exists s :: text == MESH_SEED + " " + s
  {
    if SEED <= text { assert text == MESH_SEED + " " + text[|SEED|..]; }
  }

  /** Only a line under the seed key reads as a seed, and it reads as what was written. */
  lemma SeedPrefix(k: string, s: string)
    requires ' ' !in k
    ensures SEED <= k + " " + s <==> k == MESH_SEED
    ensures k == MESH_SEED ==> (k + " " + s)[|SEED|..] == s
  {
    FirstWord(k, s);
    SeedWord(k + " " + s);
    SeedIsWord();
    if rest :| k + " " + s == MESH_SEED + " " + rest { FirstWord(MESH_SEED, rest); }
  }

  lemma FlatHoldsNoSeed(show: Show, k: string, v: Val)
    requires ' ' !in k && k != MESH_SEED
    ensures SeedOf(FlatItem(show, k, v)) == []
  {
    SeedPrefix(k, FormatValue(show, v));
  }

  lemma {:induction false} FlatsHoldNoSeed(show: Show, m: Section, ks: seq<string>)
    requires (forall k :: k in ks ==> k in m) && (forall k :: k in m ==> ' ' !in k) && MESH_SEED !in ks
    ensures Collect(FlatFrom(show, m, ks), SeedOf) == []
  {
    if ks != [] {
      var front, k := ks[..|ks|-1], ks[|ks|-1];
      assert k in ks;
      FlatsHoldNoSeed(show, m, front);
      FlatHoldsNoSeed(show, k, m[k]);
      CollectMore(FlatFrom(show, m, front), FlatItem(show, k, m[k]), SeedOf);
    }
  }

  lemma {:induction false} SeedsRead(seeds: seq<string>)
    ensures Collect(SeedItems(seeds), SeedOf) == seeds
  {
    if seeds != [] {
      var front, last := seeds[..|seeds|-1], seeds[|seeds|-1];
      SeedsRead(front);
      SeedReads(last);
      CollectMore(SeedItems(front), Line(MESH_SEED + " " + last), SeedOf);
    }
  }

  lemma SeedReads(s: string)
    ensures SeedOf(Line(MESH_SEED + " " + s)) == [s]
  {
    SeedIsWord();
    SeedPrefix(MESH_SEED, s);
  }

  lemma SeedIsWord()
    ensures ' ' !in MESH_SEED
  {
  }

  lemma HeartbeatReads(show: Show, v: Val, seeds: seq<string>)
    requires SpaceFree(v)
    ensures HeartbeatSeeds(HeartbeatItem(show, v, seeds)) == seeds
  {
    var m := if v.Map? then v.entries else map[];
    var ks := SortedKeys(m.Keys - {MESH_SEED});
    FlatsHoldNoSeed(show, m, ks);
    SeedsRead(seeds);
    CollectBoth(FlatFrom(show, m, ks), SeedItems(seeds), SeedOf);
    assert [] + seeds == seeds;
  }

  ghost function NetworkItem(show: Show, k: string, v: Val, seeds: seq<string>): Item {
    if k == HEARTBEAT then HeartbeatItem(show, v, seeds) else FlatItem(show, k, v)
  }

  lemma NetworkItemReads(show: Show, k: string, v: Val, seeds: seq<string>)
    requires SpaceFree(v)
    ensures HeartbeatSeeds(NetworkItem(show, k, v, seeds)) == if k == HEARTBEAT then seeds else []
  {
    if k == HEARTBEAT { HeartbeatReads(show, v, seeds); }
  }

  lemma CollectMore<T>(items: seq<Item>, item: Item, f: Item -> seq<T>)
    ensures Collect(items + [item], f) == Collect(items, f) + f(item)
  {
    assert (items + [item])[..|items|] == items;
  }

  lemma LastOnce(ks: seq<string>, x: string)
    requires ks != [] && Sorted(ks)
    ensures ks[|ks|-1] !in ks[..|ks|-1] && (x in ks <==> x in ks[..|ks|-1] || x == ks[|ks|-1])
  {
    NotBeforeItself(ks[|ks|-1]);
    assert ks == ks[..|ks|-1] + [ks[|ks|-1]];
  }

  lemma {:induction false} NetworkReads(show: Show, m: Section, ks: seq<string>, seeds: seq<string>)
    requires Sorted(ks) && forall k :: k in ks ==> k in m && SpaceFree(m[k])
    ensures Collect(NetworkFrom(show, m, ks, seeds), HeartbeatSeeds) == if HEARTBEAT in ks then seeds else []
  {
    if ks != [] {
      var front, k := ks[..|ks|-1], ks[|ks|-1];
      LastOnce(ks, HEARTBEAT);
      NetworkItemReads(show, k, m[k], seeds);
      CollectMore(NetworkFrom(show, m, front, seeds), NetworkItem(show, k, m[k], seeds), HeartbeatSeeds);
      NetworkReads(show, m, front, seeds);
    }
  }

  // ---- The whole file --------------------------------------------------------------------------------

  ghost function NamespacesAt(show: Show, k: string, v: Val): seq<Namespace>
    requires k == "namespaces" && v.List? ==> forall i :: 0 <= i < |v.items| ==> v.items[i].Map?
  {
    if k == "namespaces" && v.List? then Named(show, v.items) else []
  }

  function SeedsAt(k: string, v: Val, seeds: seq<string>): seq<string> {
    if k == "network" && v.Map? && HEARTBEAT in v.entries then seeds else []
  }

  lemma SectionShape(show: Show, k: string, v: Val, seeds: seq<string>)
    requires SectionItems(show, k, v, seeds).Some? && k == "namespaces" && v.List?
    ensures forall i :: 0 <= i < |v.items| ==> v.items[i].Map?
  {
    NamespacesAreMaps(show, v.items);
  }

  lemma NetworkSection(show: Show, m: Section, seeds: seq<string>)
    requires SpaceFree(Map(m))
    ensures var item := Block("network", NetworkFrom(show, m, SortedKeys(m.Keys), seeds));
            NamespaceOf(item) == [] && NetworkSeeds(item) == if HEARTBEAT in m then seeds else []
  {
    NetworkReads(show, m, SortedKeys(m.Keys), seeds);
    SpaceFreeHead("network");
  }

  /** Any other item of its own key is neither a namespace nor the network. */
  lemma OtherItem(item: Item, k: string)
    requires ' ' !in k && k != "network" && (item.Line? || item.head == k)
    ensures NamespaceOf(item) == [] && NetworkSeeds(item) == []
  {
    SpaceFreeHead(k);
  }

  lemma SectionReads(show: Show, k: string, v: Val, seeds: seq<string>)
    requires SectionItems(show, k, v, seeds).Some? && ' ' !in k && SpaceFree(v)
    requires k == "namespaces" && v.List? ==> forall i :: 0 <= i < |v.items| ==> v.items[i].Map?
    ensures var items := SectionItems(show, k, v, seeds).value;
            Collect(items, NamespaceOf) == NamespacesAt(show, k, v)
            && Collect(items, NetworkSeeds) == SeedsAt(k, v, seeds)
  {
    var items := SectionItems(show, k, v, seeds).value;
    if v.Nil? || k == "security" {
      assert items == [];
    } else if k == "namespaces" {
      NamespacesRead(show, v.items);
    } else {
      CollectOne(items[0], NamespaceOf);
      CollectOne(items[0], NetworkSeeds);
      if k == "network" { NetworkSection(show, v.entries, seeds); } else { OtherItem(items[0], k); }
    }
  }

  /** The namespaces the config lists, when it lists any. */
  ghost function NamespacesOf(show: Show, cfg: Section, ks: seq<string>): seq<Namespace>
    requires "namespaces" in ks ==> "namespaces" in cfg
    requires "namespaces" in cfg && cfg["namespaces"].List? ==>
               forall i :: 0 <= i < |cfg["namespaces"].items| ==> cfg["namespaces"].items[i].Map?
  {
    if "namespaces" in ks then NamespacesAt(show, "namespaces", cfg["namespaces"]) else []
  }

  function SeedsOf(cfg: Section, ks: seq<string>, seeds: seq<string>): seq<string>
    requires "network" in ks ==> "network" in cfg
  {
    if "network" in ks then SeedsAt("network", cfg["network"], seeds) else []
  }

  ghost predicate NamespacesAreMapsIn(cfg: Section) {
    "namespaces" in cfg && cfg["namespaces"].List? ==>
      forall i :: 0 <= i < |cfg["namespaces"].items| ==> cfg["namespaces"].items[i].Map?
  }

  lemma {:induction false} FileNamespaces(show: Show, cfg: Section, ks: seq<string>, seeds: seq<string>)
    requires Sorted(ks) && (forall k :: k in ks ==> k in cfg) && SpaceFree(Map(cfg)) && NamespacesAreMapsIn(cfg)
    requires FileItems(show, cfg, ks, seeds).Some?
    ensures Collect(FileItems(show, cfg, ks, seeds).value, NamespaceOf) == NamespacesOf(show, cfg, ks)
  {
    if ks != [] {
      var front, k := ks[..|ks|-1], ks[|ks|-1];
      LastOnce(ks, "namespaces");
      SectionReads(show, k, cfg[k], seeds);
      CollectBoth(FileItems(show, cfg, front, seeds).value, SectionItems(show, k, cfg[k], seeds).value, NamespaceOf);
      FileNamespaces(show, cfg, front, seeds);
    }
  }

  lemma {:induction false} FileSeeds(show: Show, cfg: Section, ks: seq<string>, seeds: seq<string>)
    requires Sorted(ks) && (forall k :: k in ks ==> k in cfg) && SpaceFree(Map(cfg)) && NamespacesAreMapsIn(cfg)
    requires FileItems(show, cfg, ks, seeds).Some?
    ensures Collect(FileItems(show, cfg, ks, seeds).value, NetworkSeeds) == SeedsOf(cfg, ks, seeds)
  {
    if ks != [] {
      var front, k := ks[..|ks|-1], ks[|ks|-1];
      LastOnce(ks, "network");
      SectionReads(show, k, cfg[k], seeds);
      CollectBoth(FileItems(show, cfg, front, seeds).value, SectionItems(show, k, cfg[k], seeds).value, NetworkSeeds);
      FileSeeds(show, cfg, front, seeds);
    }
  }

  lemma {:induction false} RenderedNamespacesAreMaps(show: Show, cfg: Section, ks: seq<string>, seeds: seq<string>)
    requires (forall k :: k in ks ==> k in cfg) && FileItems(show, cfg, ks, seeds).Some? && "namespaces" in ks
    ensures NamespacesAreMapsIn(cfg)
  {
    var k := ks[|ks|-1];
    if k == "namespaces" {
      if cfg[k].List? { SectionShape(show, k, cfg[k], seeds); }
    } else {
      RenderedNamespacesAreMaps(show, cfg, ks[..|ks|-1], seeds);
    }
  }

  lemma ItemsMeanConfig(show: Show, cfg: Section, seeds: seq<string>)
    requires SpaceFree(Map(cfg)) && FileItems(show, cfg, SortedKeys(cfg.Keys), seeds).Some?
    ensures NamespacesAreMapsIn(cfg)
    ensures var items := FileItems(show, cfg, SortedKeys(cfg.Keys), seeds).value;
            && Collect(items, NamespaceOf) ==
               (if "namespaces" in cfg && cfg["namespaces"].List? then Named(show, cfg["namespaces"].items) else [])
            && Collect(items, NetworkSeeds) ==
               (if "network" in cfg && cfg["network"].Map? && HEARTBEAT in cfg["network"].entries then seeds else [])
  {
    var ks := SortedKeys(cfg.Keys);
    if "namespaces" in cfg { RenderedNamespacesAreMaps(show, cfg, ks, seeds); }
    FileNamespaces(show, cfg, ks, seeds);
    FileSeeds(show, cfg, ks, seeds);
  }

  /**
    From the text of any clean config the reader recovers the namespaces with their names and
    parameters in the order they were listed, and as seeds exactly the injected ones, whatever
    seeds were written by hand.
   */
  lemma FileMeansConfig(show: Show, cfg: Section, seeds: seq<string>)
    requires CleanTree(show, Map(cfg)) && SpaceFree(Map(cfg)) && CleanSeeds(seeds)
    requires FileItems(show, cfg, SortedKeys(cfg.Keys), seeds).Some?
    ensures NamespacesAreMapsIn(cfg)
    ensures var read := ConfText.Read(Render(FileItems(show, cfg, SortedKeys(cfg.Keys), seeds).value, 0));
            && read.Some?
            && Collect(read.value, NamespaceOf) ==
               (if "namespaces" in cfg && cfg["namespaces"].List? then Named(show, cfg["namespaces"].items) else [])
            && Collect(read.value, NetworkSeeds) ==
               (if "network" in cfg && cfg["network"].Map? && HEARTBEAT in cfg["network"].entries then seeds else [])
  {
    ItemsMeanConfig(show, cfg, seeds);
    FileReadsBack(show, cfg, seeds);
  }
}
