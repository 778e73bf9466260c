/**
  Reading a rendered config back. For clean configs of any depth the strict reader accepts
  the whole file, and for generic stanzas the tree itself comes back, up to nil values,
  empty lists, one-element lists and the text form of scalars.
 */
module ConfRoundTrip {
  import opened Text
  import opened SetConfigCommand
  import opened ConfigTree
  import opened ConfText
  import opened KeyOrder
  import opened Printer

  // ---- Clean configs render to clean items -------------------------------------------------

  predicate CleanChars(s: string) { '\n' !in s && '{' !in s && '}' !in s }

  /** Keys and scalars hold no line end and no brace, and no key starts with a tab. */
  ghost predicate CleanTree(show: Show, v: Val)
    decreases v
  {
    && CleanChars(FormatValue(show, v))
    && (v.Map? ==> forall k :: k in v.entries ==> CleanText(k) && CleanTree(show, v.entries[k]))
    && (v.List? ==> forall i :: 0 <= i < |v.items| ==> CleanTree(show, v.items[i]))
  }

  lemma TwoWords(k: string, s: string)
    requires CleanText(k) && CleanChars(s)
    ensures CleanText(k + " " + s)
  {
    if k != "" { assert (k + " " + s)[0] == k[0]; } else { assert (k + " " + s)[0] == ' '; }
  }

  lemma CleanBoth(a: seq<Item>, b: seq<Item>)
    requires CleanItems(a) && CleanItems(b)
    ensures CleanItems(a + b)
  {
  }

  lemma {:induction false} KeyItemsClean(show: Show, k: string, v: Val)
    requires CleanText(k) && CleanTree(show, v)
    ensures CleanItems(KeyItems(show, k, v))
    decreases v, 3
  {
    match v
    case Nil =>
    case Map(e) => ItemsFromClean(show, e, SortedKeys(e.Keys));
    case List(xs) => ListItemsClean(show, k, xs, |xs|);
    case _ => TwoWords(k, FormatValue(show, v));
  }

  lemma {:induction false} ListItemsClean(show: Show, k: string, xs: seq<Val>, n: nat)
    requires CleanText(k) && n <= |xs| && forall i :: 0 <= i < |xs| ==> CleanTree(show, xs[i])
    ensures CleanItems(ListItems(show, k, xs, n))
    decreases List(xs), 1, n
  {
    if n > 0 {
      ListItemsClean(show, k, xs, n - 1);
      ElementClean(show, k, xs[n-1]);
      CleanBoth(ListItems(show, k, xs, n - 1), [Element(show, k, xs[n-1])]);
    }
  }

  lemma {:induction false} ElementClean(show: Show, k: string, x: Val)
    requires CleanText(k) && CleanTree(show, x)
    ensures CleanItem(Element(show, k, x))
    decreases x, 4
  {
    if x.Map? { ItemsFromClean(show, x.entries, SortedKeys(x.entries.Keys)); }
    else { TwoWords(k, FormatValue(show, x)); }
  }

  lemma {:induction false} ItemsFromClean(show: Show, m: Section, ks: seq<string>)
    requires (forall k :: k in ks ==> k in m) && forall k :: k in m ==> CleanText(k) && CleanTree(show, m[k])
    ensures CleanItems(ItemsFrom(show, m, ks))
    decreases Map(m), 1, |ks|
  {
    if ks != [] {
      var k := ks[|ks|-1];
      ItemsFromClean(show, m, ks[..|ks|-1]);
      KeyItemsClean(show, k, m[k]);
      CleanBoth(ItemsFrom(show, m, ks[..|ks|-1]), KeyItems(show, k, m[k]));
    }
  }

  lemma StorageTypeClean(show: Show, m: Section)
    requires CleanTree(show, Map(m))
    ensures CleanChars(StorageType(m))
  {
    if TYPE in m { assert CleanTree(show, m[TYPE]); }
  }

  lemma StorageWord()
    ensures CleanText(STORAGE_ENGINE)
  {
  }

  lemma StorageHeadClean(show: Show, m: Section)
    requires CleanTree(show, Map(m))
    ensures CleanText(STORAGE_ENGINE + " " + StorageType(m))
  {
    StorageTypeClean(show, m);
    StorageWord();
    TwoWords(STORAGE_ENGINE, StorageType(m));
  }

  lemma {:induction false} ParamItemsClean(show: Show, k: string, v: Val)
    requires CleanText(k) && CleanTree(show, v)
    ensures CleanItems(ParamItems(show, k, v))
    decreases v, 4
  {
    TwoWords(k, FormatValue(show, v));
    if k == STORAGE_ENGINE {
      if v.Map? {
        StorageHeadClean(show, v.entries);
        ParamsFromClean(show, v.entries, SortedKeys(v.entries.Keys - {TYPE}));
      }
    } else {
      match v
      case Map(e) => ParamsFromClean(show, e, SortedKeys(e.Keys));
      case List(xs) => ParamListClean(show, k, xs, |xs|);
      case _ =>
    }
  }

  lemma {:induction false} ParamListClean(show: Show, k: string, xs: seq<Val>, n: nat)
    requires CleanText(k) && n <= |xs| && forall i :: 0 <= i < |xs| ==> CleanTree(show, xs[i])
    ensures CleanItems(ParamList(show, k, xs, n))
    decreases List(xs), 1, n
  {
    if n > 0 {
      ParamElementClean(show, k, xs[n-1]);
      ParamListClean(show, k, xs, n - 1);
      CleanBoth(ParamList(show, k, xs, n - 1), [ParamElement(show, k, xs[n-1])]);
    }
  }

  lemma {:induction false} ParamElementClean(show: Show, k: string, x: Val)
    requires CleanText(k) && CleanTree(show, x)
    ensures CleanItem(ParamElement(show, k, x))
    decreases x, 4
  {
    if x.Map? { ParamsFromClean(show, x.entries, SortedKeys(x.entries.Keys)); }
    else { TwoWords(k, FormatValue(show, x)); }
  }

  lemma {:induction false} ParamsFromClean(show: Show, m: Section, ks: seq<string>)
    requires (forall k :: k in ks ==> k in m) && forall k :: k in m ==> CleanText(k) && CleanTree(show, m[k])
    ensures CleanItems(ParamsFrom(show, m, ks))
    decreases Map(m), 1, |ks|
  {
    if ks != [] {
      var k := ks[|ks|-1];
      ParamsFromClean(show, m, ks[..|ks|-1]);
      ParamItemsClean(show, k, m[k]);
      CleanBoth(ParamsFrom(show, m, ks[..|ks|-1]), ParamItems(show, k, m[k]));
    }
  }

  lemma NameClean(show: Show, v: Val)
    requires CleanTree(show, v)
    ensures CleanChars(NameOf(v))
  {
    if v.Map? && NAME in v.entries { assert CleanTree(show, v.entries[NAME]); }
  }

  lemma Prefixed(word: string, s: string)
    requires word != "" && CleanText(word) && CleanChars(s)
    ensures CleanText(word + s)
  {
    assert (word + s)[0] == word[0];
  }

  lemma {:induction false} NamespacesClean(show: Show, list: seq<Val>)
    requires NamespaceItems(show, list).Some? && forall i :: 0 <= i < |list| ==> CleanTree(show, list[i])
    ensures CleanItems(NamespaceItems(show, list).value)
  {
    if list != [] {
      NamespacesClean(show, list[..|list|-1]);
      NamespaceClean(show, list[|list|-1]);
    }
  }

  lemma NamespaceClean(show: Show, v: Val)
    requires v.Map? && CleanTree(show, v)
    ensures CleanItem(Block("namespace " + NameOf(v), ParamsFrom(show, v.entries, SortedKeys(v.entries.Keys - {NAME}))))
  {
    NameClean(show, v);
    NamespaceWord();
    Prefixed("namespace ", NameOf(v));
    ParamsFromClean(show, v.entries, SortedKeys(v.entries.Keys - {NAME}));
  }

  lemma NamespaceWord()
    ensures CleanText("namespace ")
  {
  }

  lemma {:induction false} EntriesClean(show: Show, m: Section, ks: seq<string>)
    requires (forall k :: k in ks ==> k in m) && forall k :: k in m ==> CleanText(k) && CleanTree(show, m[k])
    ensures CleanItems(EntriesFrom(show, m, ks))
  {
    if ks != [] {
      EntriesClean(show, m, ks[..|ks|-1]);
      TwoWords(ks[|ks|-1], FormatValue(show, m[ks[|ks|-1]]));
    }
  }

  lemma SinkWords()
    ensures CleanText("console") && CleanText("syslog") && CleanText("file ")
  {
  }

  lemma SinkHeadClean(show: Show, v: Val)
    requires CleanTree(show, v)
    ensures CleanText(SinkHead(NameOf(v)))
  {
    NameClean(show, v);
    SinkWords();
    if SinkHead(NameOf(v)) != "console" && SinkHead(NameOf(v)) != "syslog" { Prefixed("file ", NameOf(v)); }
  }

  lemma {:induction false} SinksClean(show: Show, list: seq<Val>)
    requires SinkItems(show, list).Some? && forall i :: 0 <= i < |list| ==> CleanTree(show, list[i])
    ensures CleanItems(SinkItems(show, list).value)
  {
    if list != [] {
      var last := list[|list|-1];
      SinksClean(show, list[..|list|-1]);
      SinkHeadClean(show, last);
      EntriesClean(show, last.entries, SortedKeys(last.entries.Keys - {NAME}));
    }
  }

  lemma FlatClean(show: Show, k: string, v: Val)
    requires CleanText(k) && CleanTree(show, v)
    ensures CleanItem(FlatItem(show, k, v))
  {
    if v.Map? { ItemsFromClean(show, v.entries, SortedKeys(v.entries.Keys)); }
    else { TwoWords(k, FormatValue(show, v)); }
  }

  lemma {:induction false} FlatsClean(show: Show, m: Section, ks: seq<string>)
    requires (forall k :: k in ks ==> k in m) && forall k :: k in m ==> CleanText(k) && CleanTree(show, m[k])
    ensures CleanItems(FlatFrom(show, m, ks))
  {
    if ks != [] {
      FlatsClean(show, m, ks[..|ks|-1]);
      FlatClean(show, ks[|ks|-1], m[ks[|ks|-1]]);
    }
  }

  ghost predicate CleanSeeds(seeds: seq<string>) { forall i :: 0 <= i < |seeds| ==> CleanChars(seeds[i]) }

  lemma {:induction false} SeedsClean(seeds: seq<string>)
    requires CleanSeeds(seeds)
    ensures CleanItems(SeedItems(seeds))
  {
    if seeds != [] {
      SeedsClean(seeds[..|seeds|-1]);
      TwoWords(MESH_SEED, seeds[|seeds|-1]);
    }
  }

  lemma HeartbeatClean(show: Show, v: Val, seeds: seq<string>)
    requires CleanTree(show, v) && CleanSeeds(seeds)
    ensures CleanItem(HeartbeatItem(show, v, seeds))
  {
    var m := if v.Map? then v.entries else map[];
    FlatsClean(show, m, SortedKeys(m.Keys - {MESH_SEED}));
    SeedsClean(seeds);
    CleanBoth(FlatFrom(show, m, SortedKeys(m.Keys - {MESH_SEED})), SeedItems(seeds));
  }

  lemma {:induction false} NetworkClean(show: Show, m: Section, ks: seq<string>, seeds: seq<string>)
    requires (forall k :: k in ks ==> k in m) && (forall k :: k in m ==> CleanText(k) && CleanTree(show, m[k]))
    requires CleanSeeds(seeds)
    ensures CleanItems(NetworkFrom(show, m, ks, seeds))
  {
    if ks != [] {
      var k := ks[|ks|-1];
      NetworkClean(show, m, ks[..|ks|-1], seeds);
      if k == HEARTBEAT { HeartbeatClean(show, m[k], seeds); } else { FlatClean(show, k, m[k]); }
    }
  }

  lemma SectionClean(show: Show, k: string, v: Val, seeds: seq<string>)
    requires CleanText(k) && CleanTree(show, v) && CleanSeeds(seeds) && SectionItems(show, k, v, seeds).Some?
    ensures CleanItems(SectionItems(show, k, v, seeds).value)
  {
    if v.Nil? || k == "security" {
    } else if k == "namespaces" {
      NamespacesClean(show, v.items);
    } else if k == "logging" {
      SinksClean(show, v.items);
    } else if k == "network" {
      NetworkClean(show, v.entries, SortedKeys(v.entries.Keys), seeds);
    } else {
      FlatClean(show, k, v);
    }
  }

  lemma {:induction false} FileClean(show: Show, cfg: Section, ks: seq<string>, seeds: seq<string>)
    requires (forall k :: k in ks ==> k in cfg) && (forall k :: k in cfg ==> CleanText(k) && CleanTree(show, cfg[k]))
    requires CleanSeeds(seeds) && FileItems(show, cfg, ks, seeds).Some?
    ensures CleanItems(FileItems(show, cfg, ks, seeds).value)
  {
    if ks != [] {
      var k := ks[|ks|-1];
      FileClean(show, cfg, ks[..|ks|-1], seeds);
      SectionClean(show, k, cfg[k], seeds);
      CleanBoth(FileItems(show, cfg, ks[..|ks|-1], seeds).value, SectionItems(show, k, cfg[k], seeds).value);
    }
  }

  /** Every clean config that renders at all renders to text the strict reader accepts and reads back. */
  lemma FileReadsBack(show: Show, cfg: Section, seeds: seq<string>)
    requires CleanTree(show, Map(cfg)) && CleanSeeds(seeds) && FileItems(show, cfg, SortedKeys(cfg.Keys), seeds).Some?
    ensures var items := FileItems(show, cfg, SortedKeys(cfg.Keys), seeds).value;
            ConfText.Read(Render(items, 0)) == Some(items)
  {
    FileClean(show, cfg, SortedKeys(cfg.Keys), seeds);
    ReadRender(FileItems(show, cfg, SortedKeys(cfg.Keys), seeds).value);
  }

  // ---- Generic stanzas give their tree back ------------------------------------------------------

  /** A tree in which each key has its occurrences in order. */
  datatype Tree = Leaf(value: string) | Node(children: map<string, seq<Tree>>)

  /** What a reader can know of a value: its occurrences under its key. */
  ghost function Normal(show: Show, v: Val): seq<Tree>
    decreases v, 3
  {
    match v
    case Nil => []
    case Map(e) => [Node(NormalMap(show, e))]
    case List(xs) => NormalList(show, xs, |xs|)
    case _ => [Leaf(FormatValue(show, v))]
  }

  ghost function NormalList(show: Show, xs: seq<Val>, n: nat): seq<Tree>
    requires n <= |xs|
    decreases List(xs), 1, n
  {
    if n == 0 then [] else NormalList(show, xs, n - 1) + [NormalElement(show, xs[n-1])]
  }

  ghost function NormalElement(show: Show, x: Val): Tree
    decreases x, 4
  {
    if x.Map? then Node(NormalMap(show, x.entries)) else Leaf(FormatValue(show, x))
  }

  ghost function NormalMap(show: Show, m: Section): map<string, seq<Tree>>
    decreases Map(m), 1
  {
    map k | k in m && Normal(show, m[k]) != [] :: Normal(show, m[k])
  }

  function KeyOf(item: Item): string {
    match item
    case Line(text) => text[..IndexOf(text, ' ')]
    case Block(head, _) => head
  }

  function Grow(m: map<string, seq<Tree>>, k: string, trees: seq<Tree>): map<string, seq<Tree>> {
    if trees == [] then m else m[k := (if k in m then m[k] else []) + trees]
  }

  function TreeOf(item: Item): Tree
    decreases item
  {
    match item
    case Line(text) =>
      var i := IndexOf(text, ' ');
      Leaf(if i == |text| then "" else text[i+1..])
    case Block(_, body) => Node(Rebuild(body))
  }

  /** Collects the items of a stanza under their keys. */
  function Rebuild(items: seq<Item>): map<string, seq<Tree>>
    decreases items
  {
    if items == [] then map[]
    else Grow(Rebuild(items[..|items|-1]), KeyOf(items[|items|-1]), [TreeOf(items[|items|-1])])
  }

  ghost predicate SpaceFree(v: Val)
    decreases v
  {
    && (v.Map? ==> forall k :: k in v.entries ==> ' ' !in k && SpaceFree(v.entries[k]))
    && (v.List? ==> forall i :: 0 <= i < |v.items| ==> SpaceFree(v.items[i]))
  }

  lemma EntryReads(show: Show, k: string, v: Val)
    requires ' ' !in k
    ensures KeyOf(Entry(show, k, v)) == k && TreeOf(Entry(show, k, v)) == Leaf(FormatValue(show, v))
  {
    var text := k + " " + FormatValue(show, v);
    IndexOfSplit(k, ' ', FormatValue(show, v));
    assert text == k + [' '] + FormatValue(show, v);
    assert text[..|k|] == k && text[|k|+1..] == FormatValue(show, v);
  }

  lemma RebuildOne(a: seq<Item>, item: Item)
    ensures Rebuild(a + [item]) == Grow(Rebuild(a), KeyOf(item), [TreeOf(item)])
  {
    assert (a + [item])[..|a|] == a;
  }

  lemma GrowTwice(m: map<string, seq<Tree>>, k: string, a: seq<Tree>, b: seq<Tree>)
    ensures Grow(Grow(m, k, a), k, b) == Grow(m, k, a + b)
  {
    if a == [] {
      assert a + b == b;
    } else if b == [] {
      assert a + b == a;
    } else {
      var old' := if k in m then m[k] else [];
      assert old' + a + b == old' + (a + b);
    }
  }

  lemma {:induction false} RebuildKey(show: Show, a: seq<Item>, k: string, v: Val)
    requires ' ' !in k && SpaceFree(v)
    ensures Rebuild(a + KeyItems(show, k, v)) == Grow(Rebuild(a), k, Normal(show, v))
    decreases v, 3
  {
    match v
    case Nil => assert a + [] == a;
    case Map(e) =>
      RebuildMap(show, e);
      RebuildOne(a, Block(k, ItemsOf(show, e)));
    case List(xs) =>
      RebuildInner(show, xs, |xs|);
      RebuildList(show, a, k, xs, |xs|);
    case _ =>
      EntryReads(show, k, v);
      RebuildOne(a, Entry(show, k, v));
  }

  lemma RebuildElement(show: Show, a: seq<Item>, k: string, x: Val)
    requires ' ' !in k && (x.Map? ==> Rebuild(ItemsOf(show, x.entries)) == NormalMap(show, x.entries))
    ensures Rebuild(a + [Element(show, k, x)]) == Grow(Rebuild(a), k, [NormalElement(show, x)])
  {
    if !x.Map? { EntryReads(show, k, x); }
    RebuildOne(a, Element(show, k, x));
  }

  lemma RebuildChain(a: seq<Item>, b: seq<Item>, e: Item, k: string, trees: seq<Tree>, tree: Tree)
    requires Rebuild(a + b) == Grow(Rebuild(a), k, trees) && Rebuild(a + b + [e]) == Grow(Rebuild(a + b), k, [tree])
    ensures Rebuild(a + (b + [e])) == Grow(Rebuild(a), k, trees + [tree])
  {
    assert a + (b + [e]) == a + b + [e];
    GrowTwice(Rebuild(a), k, trees, [tree]);
  }

  lemma RebuildNone(show: Show, a: seq<Item>, k: string, xs: seq<Val>)
    ensures Rebuild(a + ListItems(show, k, xs, 0)) == Grow(Rebuild(a), k, NormalList(show, xs, 0))
  {
    assert a + [] == a;
  }

  lemma RebuildLonger(show: Show, a: seq<Item>, k: string, xs: seq<Val>, n: nat)
    requires ' ' !in k && 0 < n <= |xs|
    requires xs[n-1].Map? ==> Rebuild(ItemsOf(show, xs[n-1].entries)) == NormalMap(show, xs[n-1].entries)
    requires Rebuild(a + ListItems(show, k, xs, n - 1)) == Grow(Rebuild(a), k, NormalList(show, xs, n - 1))
    ensures Rebuild(a + ListItems(show, k, xs, n)) == Grow(Rebuild(a), k, NormalList(show, xs, n))
  {
    var items, trees := ListItems(show, k, xs, n - 1), NormalList(show, xs, n - 1);
    var item, tree := Element(show, k, xs[n-1]), NormalElement(show, xs[n-1]);
    RebuildElement(show, a + items, k, xs[n-1]);
    RebuildChain(a, items, item, k, trees, tree);
    assert ListItems(show, k, xs, n) == items + [item];
    assert NormalList(show, xs, n) == trees + [tree];
  }

  /** The own stanzas of the first n elements read back. */
  ghost predicate InnerRebuilt(show: Show, xs: seq<Val>, n: nat)
    requires n <= |xs|
  {
    n == 0 || (InnerRebuilt(show, xs, n - 1)
               && (xs[n-1].Map? ==> Rebuild(ItemsOf(show, xs[n-1].entries)) == NormalMap(show, xs[n-1].entries)))
  }

  lemma {:induction false} RebuildInner(show: Show, xs: seq<Val>, n: nat)
    requires n <= |xs| && forall i :: 0 <= i < |xs| ==> SpaceFree(xs[i])
    ensures InnerRebuilt(show, xs, n)
    decreases List(xs), 1, n
  {
    if n > 0 {
      RebuildInner(show, xs, n - 1);
      if xs[n-1].Map? { RebuildMap(show, xs[n-1].entries); }
    }
  }

  lemma {:induction false} RebuildList(show: Show, a: seq<Item>, k: string, xs: seq<Val>, n: nat)
    requires ' ' !in k && n <= |xs| && InnerRebuilt(show, xs, n)
    ensures Rebuild(a + ListItems(show, k, xs, n)) == Grow(Rebuild(a), k, NormalList(show, xs, n))
  {
    if n == 0 {
      RebuildNone(show, a, k, xs);
    } else {
      RebuildList(show, a, k, xs, n - 1);
      RebuildLonger(show, a, k, xs, n);
    }
  }

  /** The part of the normal form under the keys ks. */
  ghost function NormalOn(show: Show, m: Section, ks: seq<string>): map<string, seq<Tree>> {
    map k | k in m && k in ks && Normal(show, m[k]) != [] :: Normal(show, m[k])
  }

  lemma NormalOnNext(show: Show, m: Section, ks: seq<string>)
    requires ks != [] && Sorted(ks) && ks[|ks|-1] in m
    ensures NormalOn(show, m, ks) == Grow(NormalOn(show, m, ks[..|ks|-1]), ks[|ks|-1], Normal(show, m[ks[|ks|-1]]))
  {
    var front, k := ks[..|ks|-1], ks[|ks|-1];
    assert k !in front by { NotBeforeItself(k); }
    assert ks == front + [k];
    assert [] + Normal(show, m[k]) == Normal(show, m[k]);
  }

  lemma {:induction false} RebuildFrom(show: Show, m: Section, ks: seq<string>)
    requires Sorted(ks) && (forall k :: k in ks ==> k in m) && SpaceFree(Map(m))
    ensures Rebuild(ItemsFrom(show, m, ks)) == NormalOn(show, m, ks)
    decreases Map(m), 1, |ks|
  {
    if ks != [] {
      var front, k := ks[..|ks|-1], ks[|ks|-1];
      RebuildFrom(show, m, front);
      RebuildKey(show, ItemsFrom(show, m, front), k, m[k]);
      NormalOnNext(show, m, ks);
    }
  }

  lemma {:induction false} RebuildMap(show: Show, m: Section)
    requires SpaceFree(Map(m))
    ensures Rebuild(ItemsOf(show, m)) == NormalMap(show, m)
    decreases Map(m), 2
  {
    RebuildFrom(show, m, SortedKeys(m.Keys));
    assert NormalOn(show, m, SortedKeys(m.Keys)) == NormalMap(show, m);
  }

  /** Reading the text of a generic stanza recovers its tree. */
  lemma StanzaRoundTrip(show: Show, m: Section)
    requires CleanTree(show, Map(m)) && SpaceFree(Map(m))
    ensures var read := ConfText.Read(Render(ItemsOf(show, m), 0));
            read.Some? && Rebuild(read.value) == NormalMap(show, m)
  {
    ItemsFromClean(show, m, SortedKeys(m.Keys));
    ReadRender(ItemsOf(show, m));
    RebuildMap(show, m);
  }
}
