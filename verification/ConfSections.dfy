/**
  The rest of aerospike.conf as a reader finds it: under every top-level key of the config stands
  exactly what the config says there, with seeds injected into the heartbeat and security left out.
 */
module ConfSections {
  import opened Text
  import opened SetConfigCommand
  import opened ConfigTree
  import opened ConfText
  import opened KeyOrder
  import opened Printer
  import opened ConfRoundTrip
  import ConfMeaning

  // ---- What the config says under a key -----------------------------------------------------

  /** A section, or one setting in its text form; lists are shown whole. */
  ghost function FlatTree(show: Show, v: Val): Tree {
    if v.Map? then Node(NormalMap(show, v.entries)) else Leaf(FormatValue(show, v))
  }

  ghost function FlatTrees(show: Show, m: Section, keys: set<string>): map<string, seq<Tree>> {
    map k | k in m && k in keys :: [FlatTree(show, m[k])]
  }

  ghost function Leaves(texts: seq<string>): (r: seq<Tree>)
    ensures |r| == |texts| && forall i :: 0 <= i < |r| ==> r[i] == Leaf(texts[i])
  {
    seq(|texts|, i requires 0 <= i < |texts| => Leaf(texts[i]))
  }

  /** The heartbeat's own settings, and one seed per pod in place of any written by hand. */
  ghost function HeartbeatTree(show: Show, v: Val, seeds: seq<string>): Tree {
    var m := if v.Map? then v.entries else map[];
    Node(Grow(FlatTrees(show, m, m.Keys - {"mesh-seed-address-port"}), "mesh-seed-address-port", Leaves(seeds)))
  }

  ghost function NetworkTree(show: Show, k: string, v: Val, seeds: seq<string>): Tree {
    if k == "heartbeat" then HeartbeatTree(show, v, seeds) else FlatTree(show, v)
  }

  ghost function NetworkTrees(show: Show, m: Section, keys: set<string>, seeds: seq<string>): map<string, seq<Tree>> {
    map k | k in m && k in keys :: [NetworkTree(show, k, m[k], seeds)]
  }

  /** A sink's contexts, each with its level. */
  ghost function SinkTree(show: Show, m: Section): Tree { Node(ContextTrees(show, m, m.Keys - {"name"})) }

  ghost function ContextTrees(show: Show, m: Section, keys: set<string>): map<string, seq<Tree>> {
    map k | k in m && k in keys :: [Leaf(FormatValue(show, m[k]))]
  }

  /** The sinks under their heads, in order. */
  ghost function SinkTrees(show: Show, list: seq<Val>): map<string, seq<Tree>> {
    if list == [] then map[]
    else
      var last := list[|list|-1];
      Grow(SinkTrees(show, list[..|list|-1]), SinkHead(NameOf(last)),
           [SinkTree(show, if last.Map? then last.entries else map[])])
  }

  ghost function SectionTrees(show: Show, k: string, v: Val, seeds: seq<string>): seq<Tree> {
    if v.Nil? || k == "security" then []
    else if k == "network" && v.Map? then [Node(NetworkTrees(show, v.entries, v.entries.Keys, seeds))]
    else if k == "logging" && v.List? then [Node(SinkTrees(show, v.items))]
    else [FlatTree(show, v)]
  }

  // ---- Reading the items of a section -----------------------------------------------------------

  lemma FlatReads(show: Show, k: string, v: Val)
    requires ' ' !in k && SpaceFree(v)
    ensures KeyOf(FlatItem(show, k, v)) == k && TreeOf(FlatItem(show, k, v)) == FlatTree(show, v)
  {
    if v.Map? { RebuildMap(show, v.entries); } else { EntryReads(show, k, v); }
  }

  ghost function Listed(ks: seq<string>): set<string> { set k | k in ks }

  lemma KeySet(ks: seq<string>)
    requires ks != [] && Sorted(ks)
    ensures ks[|ks|-1] !in ks[..|ks|-1]
    ensures Listed(ks) == Listed(ks[..|ks|-1]) + {ks[|ks|-1]}
  {
    ConfMeaning.LastOnce(ks, ks[|ks|-1]);
    assert ks == ks[..|ks|-1] + [ks[|ks|-1]];
  }

  lemma GrowNew(m: map<string, seq<Tree>>, k: string, t: Tree)
    requires k !in m
    ensures Grow(m, k, [t]) == m[k := [t]]
  {
    assert [] + [t] == [t];
  }

  lemma {:induction false} FlatsRead(show: Show, m: Section, ks: seq<string>)
    requires Sorted(ks) && forall k :: k in ks ==> k in m && ' ' !in k && SpaceFree(m[k])
    ensures Rebuild(FlatFrom(show, m, ks)) == FlatTrees(show, m, Listed(ks))
  {
    if ks != [] {
      var front, k := ks[..|ks|-1], ks[|ks|-1];
      FlatsRead(show, m, front);
      KeySet(ks);
      FlatReads(show, k, m[k]);
      RebuildOne(FlatFrom(show, m, front), FlatItem(show, k, m[k]));
      GrowNew(FlatTrees(show, m, Listed(front)), k, FlatTree(show, m[k]));
    }
  }

  lemma SeedReads(seed: string)
    ensures KeyOf(Line(MESH_SEED + " " + seed)) == MESH_SEED && TreeOf(Line(MESH_SEED + " " + seed)) == Leaf(seed)
  {
    var text := MESH_SEED + " " + seed;
    IndexOfSplit(MESH_SEED, ' ', seed);
    assert text[..|MESH_SEED|] == MESH_SEED && text[|MESH_SEED|+1..] == seed;
  }

  lemma OneMoreUnder(a: seq<Item>, b: seq<Item>, line: Item, k: string, trees: seq<Tree>)
    requires Rebuild(a + b) == Grow(Rebuild(a), k, trees) && KeyOf(line) == k
    ensures Rebuild(a + (b + [line])) == Grow(Rebuild(a), k, trees + [TreeOf(line)])
  {
    RebuildOne(a + b, line);
    RebuildChain(a, b, line, k, trees, TreeOf(line));
  }

  lemma {:induction false} SeedsRead(a: seq<Item>, seeds: seq<string>)
    ensures Rebuild(a + SeedItems(seeds)) == Grow(Rebuild(a), MESH_SEED, Leaves(seeds))
  {
    if seeds == [] {
      assert a + [] == a;
    } else {
      var front, seed := seeds[..|seeds|-1], seeds[|seeds|-1];
      SeedsRead(a, front);
      SeedReads(seed);
      OneMoreUnder(a, SeedItems(front), Line(MESH_SEED + " " + seed), MESH_SEED, Leaves(front));
      LeavesLast(seeds);
    }
  }

  lemma LeavesLast(texts: seq<string>)
    requires texts != []
    ensures Leaves(texts) == Leaves(texts[..|texts|-1]) + [Leaf(texts[|texts|-1])]
  {
  }

  lemma HeartbeatReads(show: Show, v: Val, seeds: seq<string>)
    requires SpaceFree(v)
    ensures KeyOf(HeartbeatItem(show, v, seeds)) == "heartbeat"
    ensures TreeOf(HeartbeatItem(show, v, seeds)) == HeartbeatTree(show, v, seeds)
  {
    var m := if v.Map? then v.entries else map[];
    var ks := SortedKeys(m.Keys - {MESH_SEED});
    FlatsRead(show, m, ks);
    SeedsRead(FlatFrom(show, m, ks), seeds);
    assert Listed(ks) == m.Keys - {MESH_SEED};
  }

  lemma NetworkItemReads(show: Show, k: string, v: Val, seeds: seq<string>) returns (item: Item)
    requires ' ' !in k && SpaceFree(v)
    ensures item == ConfMeaning.NetworkItem(show, k, v, seeds)
    ensures KeyOf(item) == k && TreeOf(item) == NetworkTree(show, k, v, seeds)
  {
    item := ConfMeaning.NetworkItem(show, k, v, seeds);
    if k == HEARTBEAT { HeartbeatReads(show, v, seeds); } else { FlatReads(show, k, v); }
  }

  lemma NetworkTreesNext(show: Show, m: Section, keys: set<string>, k: string, seeds: seq<string>)
    requires k in m && k !in keys
    ensures NetworkTrees(show, m, keys + {k}, seeds) ==
            Grow(NetworkTrees(show, m, keys, seeds), k, [NetworkTree(show, k, m[k], seeds)])
  {
    GrowNew(NetworkTrees(show, m, keys, seeds), k, NetworkTree(show, k, m[k], seeds));
  }

  lemma {:induction false} NetworkReads(show: Show, m: Section, ks: seq<string>, seeds: seq<string>)
    requires Sorted(ks) && forall k :: k in ks ==> k in m && ' ' !in k && SpaceFree(m[k])
    ensures Rebuild(NetworkFrom(show, m, ks, seeds)) == NetworkTrees(show, m, Listed(ks), seeds)
  {
    if ks != [] {
      var front, k := ks[..|ks|-1], ks[|ks|-1];
      NetworkReads(show, m, front, seeds);
      KeySet(ks);
      var item := NetworkItemReads(show, k, m[k], seeds);
      RebuildOne(NetworkFrom(show, m, front, seeds), item);
      NetworkTreesNext(show, m, Listed(front), k, seeds);
    }
  }

  lemma {:induction false} ContextsRead(show: Show, m: Section, ks: seq<string>)
    requires Sorted(ks) && forall k :: k in ks ==> k in m && ' ' !in k
    ensures Rebuild(EntriesFrom(show, m, ks)) == ContextTrees(show, m, Listed(ks))
  {
    if ks != [] {
      var front, k := ks[..|ks|-1], ks[|ks|-1];
      ContextsRead(show, m, front);
      KeySet(ks);
      EntryReads(show, k, m[k]);
      RebuildOne(EntriesFrom(show, m, front), Entry(show, k, m[k]));
      GrowNew(ContextTrees(show, m, Listed(front)), k, Leaf(FormatValue(show, m[k])));
    }
  }

  lemma SinkReads(show: Show, m: Section)
    requires SpaceFree(Map(m))
    ensures Node(Rebuild(EntriesFrom(show, m, SortedKeys(m.Keys - {NAME})))) == SinkTree(show, m)
  {
    var ks := SortedKeys(m.Keys - {NAME});
    ContextsRead(show, m, ks);
    assert Listed(ks) == m.Keys - {"name"};
  }

  lemma {:induction false} SinksRead(show: Show, list: seq<Val>)
    requires SinkItems(show, list).Some? && forall i :: 0 <= i < |list| ==> SpaceFree(list[i])
    ensures Rebuild(SinkItems(show, list).value) == SinkTrees(show, list)
  {
    if list != [] {
      var front, last := list[..|list|-1], list[|list|-1];
      SinksRead(show, front);
      SinkReads(show, last.entries);
      var contexts := SortedKeys(last.entries.Keys - {NAME});
      var item := Block(SinkHead(NameOf(last)), EntriesFrom(show, last.entries, contexts));
      RebuildOne(SinkItems(show, front).value, item);
    }
  }

  /** Each section but the namespaces is nothing, or one item under its own key that holds its tree. */
  lemma SectionReads(show: Show, k: string, v: Val, seeds: seq<string>)
    requires SectionItems(show, k, v, seeds).Some? && ' ' !in k && SpaceFree(v) && k != "namespaces"
    ensures var items, trees := SectionItems(show, k, v, seeds).value, SectionTrees(show, k, v, seeds);
            && |items| == |trees| <= 1
            && (items != [] ==> KeyOf(items[0]) == k && TreeOf(items[0]) == trees[0])
  {
    if v.Nil? || k == "security" {
    } else if k == "logging" {
      SinksRead(show, v.items);
    } else if k == "network" {
      NetworkReads(show, v.entries, SortedKeys(v.entries.Keys), seeds);
      assert Listed(SortedKeys(v.entries.Keys)) == v.entries.Keys;
    } else {
      FlatReads(show, k, v);
    }
  }

  lemma RebuildSection(show: Show, a: seq<Item>, k: string, v: Val, seeds: seq<string>)
    requires SectionItems(show, k, v, seeds).Some? && ' ' !in k && SpaceFree(v) && k != "namespaces"
    ensures Rebuild(a + SectionItems(show, k, v, seeds).value) == Grow(Rebuild(a), k, SectionTrees(show, k, v, seeds))
  {
    SectionReads(show, k, v, seeds);
    var items, trees := SectionItems(show, k, v, seeds).value, SectionTrees(show, k, v, seeds);
    if items == [] {
      assert a + items == a;
    } else {
      assert items == [items[0]] && trees == [trees[0]];
      RebuildOne(a, items[0]);
    }
  }

  // ---- The whole file --------------------------------------------------------------------------------

  ghost function At(m: map<string, seq<Tree>>, k: string): seq<Tree> { if k in m then m[k] else [] }

  /** Namespace stanzas leave every key without a blank alone. */
  lemma {:induction false} NamespacesElsewhere(show: Show, a: seq<Item>, list: seq<Val>, x: string)
    requires NamespaceItems(show, list).Some? && ' ' !in x
    ensures At(Rebuild(a + NamespaceItems(show, list).value), x) == At(Rebuild(a), x)
  {
    if list == [] {
      assert a + [] == a;
    } else {
      var front, last := list[..|list|-1], list[|list|-1];
      NamespacesElsewhere(show, a, front, x);
      var item := Block("namespace " + NameOf(last),
                        ParamsFrom(show, last.entries, SortedKeys(last.entries.Keys - {NAME})));
      var items := NamespaceItems(show, front).value;
      RebuildOne(a + items, item);
      assert a + (items + [item]) == a + items + [item];
      assert ("namespace " + NameOf(last))[9] == ' ';
    }
  }

  /** One more key adds its own trees under itself and touches no other. */
  lemma SectionAt(show: Show, a: seq<Item>, k: string, v: Val, seeds: seq<string>, x: string)
    requires SectionItems(show, k, v, seeds).Some? && ' ' !in k && ' ' !in x && SpaceFree(v) && x != "namespaces"
    ensures At(Rebuild(a + SectionItems(show, k, v, seeds).value), x) ==
            At(Rebuild(a), x) + if k == x then SectionTrees(show, k, v, seeds) else []
  {
    if k == "namespaces" {
      if v.Nil? { assert a + [] == a; } else { NamespacesElsewhere(show, a, v.items, x); }
    } else {
      RebuildSection(show, a, k, v, seeds);
    }
  }

  lemma {:induction false} FileAt(show: Show, cfg: Section, ks: seq<string>, seeds: seq<string>, x: string)
    requires Sorted(ks) && (forall k :: k in ks ==> k in cfg) && SpaceFree(Map(cfg)) && ' ' !in x && x != "namespaces"
    requires FileItems(show, cfg, ks, seeds).Some?
    ensures At(Rebuild(FileItems(show, cfg, ks, seeds).value), x) ==
            if x in ks then SectionTrees(show, x, cfg[x], seeds) else []
  {
    if ks != [] {
      var front, k := ks[..|ks|-1], ks[|ks|-1];
      FileAt(show, cfg, front, seeds, x);
      ConfMeaning.LastOnce(ks, x);
      SectionAt(show, FileItems(show, cfg, front, seeds).value, k, cfg[k], seeds, x);
    }
  }

  /**
    From the text of any clean config the reader recovers, under every key but the namespaces', what
    the config says there: the whole service section, the network with the injected seeds, the log
    sinks with their contexts in order, any other section or setting, and nothing for security, a nil
    value or a key the config does not have.
   */
  lemma FileKeepsSections(show: Show, cfg: Section, seeds: seq<string>, x: string)
    requires CleanTree(show, Map(cfg)) && SpaceFree(Map(cfg)) && CleanSeeds(seeds) && ' ' !in x && x != "namespaces"
    requires FileItems(show, cfg, SortedKeys(cfg.Keys), seeds).Some?
    ensures var read := ConfText.Read(Render(FileItems(show, cfg, SortedKeys(cfg.Keys), seeds).value, 0));
            read.Some? && At(Rebuild(read.value), x) == if x in cfg then SectionTrees(show, x, cfg[x], seeds) else []
  {
    FileReadsBack(show, cfg, seeds);
    FileAt(show, cfg, SortedKeys(cfg.Keys), seeds, x);
  }

  /** And a config renders at all exactly when its special sections have the shape they need. */
  lemma {:induction false} RendersExactly(show: Show, cfg: Section, ks: seq<string>, seeds: seq<string>)
    requires forall k :: k in ks ==> k in cfg
    ensures FileItems(show, cfg, ks, seeds).Some? <==> forall k :: k in ks ==> Renderable(k, cfg[k])
  {
    if ks != [] {
      var front, k := ks[..|ks|-1], ks[|ks|-1];
      RendersExactly(show, cfg, front, seeds);
      assert ks == front + [k];
      SectionRenders(show, k, cfg[k], seeds);
    }
  }

  lemma SectionRenders(show: Show, k: string, v: Val, seeds: seq<string>)
    ensures SectionItems(show, k, v, seeds).Some? <==> Renderable(k, v)
  {
    if v.List? {
      NamespacesRender(show, v.items);
      SinksRender(show, v.items);
    }
  }

  /** An entry that is a map and carries a nonempty name. */
  ghost predicate HasName(v: Val) {
    v.Map? && "name" in v.entries && v.entries["name"].Str? && v.entries["name"].text != ""
  }

  ghost predicate AllNamed(list: seq<Val>) { forall i :: 0 <= i < |list| ==> HasName(list[i]) }

  ghost predicate Renderable(k: string, v: Val) {
    !v.Nil? ==>
    && (k in {"service", "network"} ==> v.Map?)
    && (k in {"namespaces", "logging"} ==> v.List? && AllNamed(v.items))
  }

  lemma AllNamedLast(list: seq<Val>)
    requires list != []
    ensures AllNamed(list) <==> AllNamed(list[..|list|-1]) && NameOf(list[|list|-1]) != ""
  {
    var front, last := list[..|list|-1], list[|list|-1];
    assert HasName(last) <==> NameOf(last) != "";
    if AllNamed(front) && HasName(last) {
      forall i | 0 <= i < |list| ensures HasName(list[i]) {
        if i < |front| { assert list[i] == front[i]; }
      }
    }
  }

  lemma {:induction false} NamespacesRender(show: Show, list: seq<Val>)
    ensures NamespaceItems(show, list).Some? <==> AllNamed(list)
  {
    if list != [] {
      NamespacesRender(show, list[..|list|-1]);
      AllNamedLast(list);
    }
  }

  lemma {:induction false} SinksRender(show: Show, list: seq<Val>)
    ensures SinkItems(show, list).Some? <==> AllNamed(list)
  {
    if list != [] {
      SinksRender(show, list[..|list|-1]);
      AllNamedLast(list);
    }
  }
}
