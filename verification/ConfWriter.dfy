/** The writers: each appends to the builder exactly the rendering of its part of the config. */
module ConfWriter {
  import opened Text
  import opened ConfigTree
  import opened ConfText
  import opened KeyOrder
  import opened Printer

  lemma {:induction false} JoinConcat(a: seq<string>, b: seq<string>)
    ensures Join(a + b) == Join(a) + Join(b)
  {
    if a == [] {
      assert a + b == b;
    } else {
      JoinConcat(a[1..], b);
      assert (a + b)[1..] == a[1..] + b;
      assert a[0] + ['\n'] + (Join(a[1..]) + Join(b)) == a[0] + ['\n'] + Join(a[1..]) + Join(b);
    }
  }

  lemma {:induction false} LinesConcat(a: seq<Item>, b: seq<Item>, depth: nat)
    ensures Lines(a + b, depth) == Lines(a, depth) + Lines(b, depth)
    decreases |b|
  {
    if b == [] {
      assert a + b == a;
    } else {
      var front, last := b[..|b|-1], b[|b|-1];
      assert (a + b)[..|a + b|-1] == a + front && (a + b)[|a + b|-1] == last;
      LinesConcat(a, front, depth);
      Associate(Lines(a, depth), Lines(front, depth), LinesOf(last, depth));
    }
  }

  lemma Associate(a: seq<string>, b: seq<string>, c: seq<string>)
    ensures a + b + c == a + (b + c)
  {
  }

  lemma RenderConcat(a: seq<Item>, b: seq<Item>, depth: nat)
    ensures Render(a + b, depth) == Render(a, depth) + Render(b, depth)
  {
    LinesConcat(a, b, depth);
    JoinConcat(Lines(a, depth), Lines(b, depth));
  }

  lemma RenderOne(item: Item, depth: nat)
    ensures Render([item], depth) == Join(LinesOf(item, depth))
  {
    assert [item][..0] == [];
    assert Lines([item], depth) == [] + LinesOf(item, depth) == LinesOf(item, depth);
  }

  lemma JoinOne(line: string)
    ensures Join([line]) == line + "\n"
  {
    assert [line][1..] == [];
    assert line + ['\n'] + "" == line + "\n";
  }

  lemma RenderLine(text: string, depth: nat)
    ensures Render([Line(text)], depth) == Tabs(depth) + text + "\n"
  {
    RenderOne(Line(text), depth);
    JoinOne(Tabs(depth) + text);
  }

  lemma RenderBlock(head: string, body: seq<Item>, depth: nat)
    ensures Render([Block(head, body)], depth) ==
            Tabs(depth) + head + " {" + "\n" + Render(body, depth + 1) + (Tabs(depth) + "}" + "\n")
  {
    var open, close := Tabs(depth) + head + " {", Tabs(depth) + "}";
    RenderOne(Block(head, body), depth);
    JoinConcat([open] + Lines(body, depth + 1), [close]);
    JoinConcat([open], Lines(body, depth + 1));
    JoinOne(open);
    JoinOne(close);
  }

  lemma Append(text: string, a: seq<Item>, b: seq<Item>, depth: nat)
    ensures text + Render(a, depth) + Render(b, depth) == text + Render(a + b, depth)
  {
    RenderConcat(a, b, depth);
  }

  lemma KeysOf(m: Section, keys: seq<string>)
    requires forall k :: k in keys ==> k in m
    ensures forall i, k :: 0 <= i <= |keys| && k in keys[..i] ==> k in m
    ensures forall i :: 0 <= i < |keys| ==> keys[i] in m
  {
  }

  lemma NextKey(show: Show, m: Section, keys: seq<string>, i: nat)
    requires i < |keys| && forall k :: k in keys ==> k in m
    ensures (forall k :: k in keys[..i+1] ==> k in m) && keys[i] in m
    ensures ItemsFrom(show, m, keys[..i+1]) == ItemsFrom(show, m, keys[..i]) + KeyItems(show, keys[i], m[keys[i]])
  {
    assert keys[..i+1][..i] == keys[..i];
  }

  class Builder {
    var text: string

    constructor ()
      ensures text == ""
    {
      text := "";
    }

    method WriteString(s: string)
      modifies this
      ensures text == old(text) + s
    {
      text := text + s;
    }

    /** One `key value` line. */
    method WriteEntry(show: Show, k: string, v: Val, depth: nat)
      modifies this
      ensures text == old(text) + Render([Entry(show, k, v)], depth)
    {
      WriteLine(k + " " + FormatValue(show, v), depth);
    }

    method WriteLine(line: string, depth: nat)
      modifies this
      ensures text == old(text) + Render([Line(line)], depth)
    {
      WriteString(Tabs(depth));
      WriteString(line);
      WriteString("\n");
      RenderLine(line, depth);
    }

    method Open(head: string, depth: nat)
      modifies this
      ensures text == old(text) + (Tabs(depth) + head + " {" + "\n")
    {
      WriteString(Tabs(depth));
      WriteString(head);
      WriteString(" {");
      WriteString("\n");
    }

    /** Ends a stanza base when the text was `before` and filled with `body` since. */
    method Close(ghost before: string, head: string, ghost body: seq<Item>, depth: nat)
      requires text == before + (Tabs(depth) + head + " {" + "\n") + Render(body, depth + 1)
      modifies this
      ensures text == before + Render([Block(head, body)], depth)
    {
      WriteString(Tabs(depth));
      WriteString("}");
      WriteString("\n");
      RenderBlock(head, body, depth);
      assert text == before + (Tabs(depth) + head + " {" + "\n" + Render(body, depth + 1) + (Tabs(depth) + "}" + "\n"));
    }

    method WriteBlock(show: Show, k: string, inner: Section, depth: nat)
      modifies this
      ensures text == old(text) + Render([Block(k, ItemsOf(show, inner))], depth)
      decreases Map(inner), 2
    {
      Open(k, depth);
      WriteMapEntries(show, inner, depth + 1);
      Close(old(text), k, ItemsOf(show, inner), depth);
    }

    method WriteMapEntries(show: Show, m: Section, depth: nat)
      modifies this
      ensures text == old(text) + Render(ItemsOf(show, m), depth)
      decreases Map(m), 1
    {
      var keys := SortKeys(m.Keys);
      NothingYet(text, depth);
      KeysOf(m, keys);
      for i := 0 to |keys|
        invariant text == old(text) + Render(ItemsFrom(show, m, keys[..i]), depth)
      {
        NextKey(show, m, keys, i);
        WriteKey(show, keys[i], m[keys[i]], depth);
        Append(old(text), ItemsFrom(show, m, keys[..i]), KeyItems(show, keys[i], m[keys[i]]), depth);
      }
      assert keys[..|keys|] == keys;
    }

    method WriteKey(show: Show, k: string, v: Val, depth: nat)
      modifies this
      ensures text == old(text) + Render(KeyItems(show, k, v), depth)
      decreases v, 3
    {
      NothingYet(text, depth);
      match v {
        case Nil =>
        case Map(e) => WriteBlock(show, k, e, depth);
        case List(xs) =>
          for n := 0 to |xs|
            invariant text == old(text) + Render(ListItems(show, k, xs, n), depth)
          {
            if xs[n].Map? {
              WriteBlock(show, k, xs[n].entries, depth);
              Append(old(text), ListItems(show, k, xs, n), [Block(k, ItemsOf(show, xs[n].entries))], depth);
            } else {
              WriteEntry(show, k, xs[n], depth);
              Append(old(text), ListItems(show, k, xs, n), [Entry(show, k, xs[n])], depth);
            }
          }
        case _ => WriteEntry(show, k, v, depth);
      }
    }

    // ---- Namespaces ------------------------------------------------------------------------

    method WriteNamespaceEntry(show: Show, k: string, v: Val, depth: nat)
      modifies this
      ensures text == old(text) + Render(ParamItems(show, k, v), depth)
      decreases v, 4
    {
      NothingYet(text, depth);
      if k == STORAGE_ENGINE {
        WriteStorageEngine(show, v, depth);
        return;
      }
      match v {
        case Map(e) => WriteParamBlock(show, k, e, {}, depth);
        case List(xs) =>
          for n := 0 to |xs|
            invariant text == old(text) + Render(ParamList(show, k, xs, n), depth)
          {
            if xs[n].Map? {
              WriteParamBlock(show, k, xs[n].entries, {}, depth);
              Append(old(text), ParamList(show, k, xs, n),
                     [Block(k, ParamsFrom(show, xs[n].entries, SortedKeys(xs[n].entries.Keys)))], depth);
            } else {
              WriteEntry(show, k, xs[n], depth);
              Append(old(text), ParamList(show, k, xs, n), [Entry(show, k, xs[n])], depth);
            }
          }
        case _ => WriteEntry(show, k, v, depth);
      }
    }

    /** A stanza of parameters, without the keys its head already tells. */
    method WriteParamBlock(show: Show, head: string, m: Section, told: set<string>, depth: nat)
      modifies this
      ensures text == old(text) + Render([Block(head, ParamsFrom(show, m, SortedKeys(m.Keys - told)))], depth)
      ensures told == {} ==> text == old(text) + Render([Block(head, ParamsFrom(show, m, SortedKeys(m.Keys)))], depth)
      decreases Map(m), 2
    {
      Open(head, depth);
      var keys := SortKeys(m.Keys - told);
      WriteParams(show, m, keys, depth + 1);
      Close(old(text), head, ParamsFrom(show, m, keys), depth);
      assert told == {} ==> m.Keys - told == m.Keys;
    }

    method WriteParams(show: Show, m: Section, keys: seq<string>, depth: nat)
      requires forall k :: k in keys ==> k in m
      modifies this
      ensures text == old(text) + Render(ParamsFrom(show, m, keys), depth)
      decreases Map(m), 1
    {
      NothingYet(text, depth);
      for i := 0 to |keys|
        invariant text == old(text) + Render(ParamsFrom(show, m, keys[..i]), depth)
      {
        assert keys[i] in keys && keys[..i+1][..i] == keys[..i];
        WriteNamespaceEntry(show, keys[i], m[keys[i]], depth);
        Append(old(text), ParamsFrom(show, m, keys[..i]), ParamItems(show, keys[i], m[keys[i]]), depth);
      }
      assert keys[..|keys|] == keys;
    }

    method WriteStorageEngine(show: Show, v: Val, depth: nat)
      modifies this
      ensures text == old(text) + Render([StorageItem(show, v)], depth)
      decreases v, 3
    {
      if !v.Map? {
        WriteLine(STORAGE_ENGINE + " " + FormatValue(show, v), depth);
      } else if v.entries.Keys - {TYPE} == {} {
        WriteLine(STORAGE_ENGINE + " " + StorageType(v.entries), depth);
      } else {
        WriteParamBlock(show, STORAGE_ENGINE + " " + StorageType(v.entries), v.entries, {TYPE}, depth);
      }
    }

    method GenerateNamespaceSections(show: Show, list: seq<Val>) returns (ok: bool)
      modifies this
      ensures ok <==> NamespaceItems(show, list).Some?
      ensures ok ==> text == old(text) + Render(NamespaceItems(show, list).value, 0)
    {
      NothingYet(text, 0);
      for i := 0 to |list|
        invariant NamespaceItems(show, list[..i]).Some?
        invariant text == old(text) + Render(NamespaceItems(show, list[..i]).value, 0)
      {
        assert list[..i+1][..i] == list[..i];
        if NameOf(list[i]) == "" {
          NamespaceRefused(show, list, i);
          return false;
        }
        WriteParamBlock(show, "namespace " + NameOf(list[i]), list[i].entries, {NAME}, 0);
        Append(old(text), NamespaceItems(show, list[..i]).value,
               [Block("namespace " + NameOf(list[i]),
                      ParamsFrom(show, list[i].entries, SortedKeys(list[i].entries.Keys - {NAME})))], 0);
      }
      assert list[..|list|] == list;
      return true;
    }

    // ---- Logging -----------------------------------------------------------------------------

    method WriteSink(show: Show, name: string, m: Section, depth: nat)
      modifies this
      ensures text ==
              old(text) + Render([Block(SinkHead(name), EntriesFrom(show, m, SortedKeys(m.Keys - {NAME})))], depth)
    {
      Open(SinkHead(name), depth);
      var keys := SortKeys(m.Keys - {NAME});
      WriteEntries(show, m, keys, depth + 1);
      Close(old(text), SinkHead(name), EntriesFrom(show, m, keys), depth);
    }

    method WriteEntries(show: Show, m: Section, keys: seq<string>, depth: nat)
      requires forall k :: k in keys ==> k in m
      modifies this
      ensures text == old(text) + Render(EntriesFrom(show, m, keys), depth)
    {
      NothingYet(text, depth);
      for i := 0 to |keys|
        invariant text == old(text) + Render(EntriesFrom(show, m, keys[..i]), depth)
      {
        assert keys[i] in keys && keys[..i+1][..i] == keys[..i];
        WriteEntry(show, keys[i], m[keys[i]], depth);
        Append(old(text), EntriesFrom(show, m, keys[..i]), [Entry(show, keys[i], m[keys[i]])], depth);
      }
      assert keys[..|keys|] == keys;
    }

    method GenerateLoggingSection(show: Show, list: seq<Val>) returns (ok: bool)
      modifies this
      ensures ok <==> SinkItems(show, list).Some?
      ensures ok ==> text == old(text) + Render([Block("logging", SinkItems(show, list).value)], 0)
    {
      ok := WriteSinkBlock(show, "logging", list, 0);
    }

    method WriteSinkBlock(show: Show, head: string, list: seq<Val>, depth: nat) returns (ok: bool)
      modifies this
      ensures ok <==> SinkItems(show, list).Some?
      ensures ok ==> text == old(text) + Render([Block(head, SinkItems(show, list).value)], depth)
    {
      Open(head, depth);
      ok := WriteSinks(show, list, depth + 1);
      if !ok { return; }
      Close(old(text), head, SinkItems(show, list).value, depth);
    }

    method WriteSinks(show: Show, list: seq<Val>, depth: nat) returns (ok: bool)
      modifies this
      ensures ok <==> SinkItems(show, list).Some?
      ensures ok ==> text == old(text) + Render(SinkItems(show, list).value, depth)
    {
      NothingYet(text, depth);
      for i := 0 to |list|
        invariant SinkItems(show, list[..i]).Some?
        invariant text == old(text) + Render(SinkItems(show, list[..i]).value, depth)
      {
        assert list[..i+1][..i] == list[..i];
        if NameOf(list[i]) == "" {
          SinkRefused(show, list, i);
          return false;
        }
        WriteSink(show, NameOf(list[i]), list[i].entries, depth);
        Append(old(text), SinkItems(show, list[..i]).value,
               [Block(SinkHead(NameOf(list[i])),
                      EntriesFrom(show, list[i].entries, SortedKeys(list[i].entries.Keys - {NAME})))], depth);
      }
      assert list[..|list|] == list;
      return true;
    }

    // ---- Network --------------------------------------------------------------------------------

    method WriteFlat(show: Show, k: string, v: Val, depth: nat)
      modifies this
      ensures text == old(text) + Render([FlatItem(show, k, v)], depth)
    {
      if v.Map? { WriteBlock(show, k, v.entries, depth); } else { WriteEntry(show, k, v, depth); }
    }

    method GenerateHeartbeatSubsection(show: Show, v: Val, seeds: seq<string>, depth: nat)
      modifies this
      ensures text == old(text) + Render([HeartbeatItem(show, v, seeds)], depth)
    {
      var m := if v.Map? then v.entries else map[];
      Open(HEARTBEAT, depth);
      ghost var base := text;
      var keys := SortKeys(m.Keys - {MESH_SEED});
      WriteFlats(show, m, keys, depth + 1);
      WriteSeeds(seeds, depth + 1);
      Append(base, FlatFrom(show, m, keys), SeedItems(seeds), depth + 1);
      Close(old(text), HEARTBEAT, FlatFrom(show, m, keys) + SeedItems(seeds), depth);
    }

    method WriteFlats(show: Show, m: Section, keys: seq<string>, depth: nat)
      requires forall k :: k in keys ==> k in m
      modifies this
      ensures text == old(text) + Render(FlatFrom(show, m, keys), depth)
    {
      NothingYet(text, depth);
      for i := 0 to |keys|
        invariant text == old(text) + Render(FlatFrom(show, m, keys[..i]), depth)
      {
        assert keys[i] in keys && keys[..i+1][..i] == keys[..i];
        WriteFlat(show, keys[i], m[keys[i]], depth);
        Append(old(text), FlatFrom(show, m, keys[..i]), [FlatItem(show, keys[i], m[keys[i]])], depth);
      }
      assert keys[..|keys|] == keys;
    }

    method WriteSeeds(seeds: seq<string>, depth: nat)
      modifies this
      ensures text == old(text) + Render(SeedItems(seeds), depth)
    {
      NothingYet(text, depth);
      for i := 0 to |seeds|
        invariant text == old(text) + Render(SeedItems(seeds[..i]), depth)
      {
        assert seeds[..i+1][..i] == seeds[..i];
        WriteLine(MESH_SEED + " " + seeds[i], depth);
        Append(old(text), SeedItems(seeds[..i]), [Line(MESH_SEED + " " + seeds[i])], depth);
      }
      assert seeds[..|seeds|] == seeds;
    }

    method GenerateNetworkSection(show: Show, m: Section, seeds: seq<string>)
      modifies this
      ensures text == old(text) + Render([Block("network", NetworkFrom(show, m, SortedKeys(m.Keys), seeds))], 0)
    {
      Open("network", 0);
      var keys := SortKeys(m.Keys);
      WriteNetwork(show, m, keys, seeds, 1);
      Close(old(text), "network", NetworkFrom(show, m, keys, seeds), 0);
    }

    method WriteNetwork(show: Show, m: Section, keys: seq<string>, seeds: seq<string>, depth: nat)
      requires forall k :: k in keys ==> k in m
      modifies this
      ensures text == old(text) + Render(NetworkFrom(show, m, keys, seeds), depth)
    {
      NothingYet(text, depth);
      for i := 0 to |keys|
        invariant text == old(text) + Render(NetworkFrom(show, m, keys[..i], seeds), depth)
      {
        assert keys[i] in keys && keys[..i+1][..i] == keys[..i];
        if keys[i] == HEARTBEAT {
          GenerateHeartbeatSubsection(show, m[keys[i]], seeds, depth);
          Append(old(text), NetworkFrom(show, m, keys[..i], seeds), [HeartbeatItem(show, m[keys[i]], seeds)], depth);
        } else {
          WriteFlat(show, keys[i], m[keys[i]], depth);
          Append(old(text), NetworkFrom(show, m, keys[..i], seeds), [FlatItem(show, keys[i], m[keys[i]])], depth);
        }
      }
      assert keys[..|keys|] == keys;
    }

    // ---- The whole file ---------------------------------------------------------------------------

    method WriteSection(show: Show, k: string, v: Val, seeds: seq<string>) returns (ok: bool)
      modifies this
      ensures ok <==> SectionItems(show, k, v, seeds).Some?
      ensures ok ==> text == old(text) + Render(SectionItems(show, k, v, seeds).value, 0)
    {
      NothingYet(text, 0);
      if v.Nil? { return true; }
      if k == "namespaces" {
        if !v.List? { return false; }
        ok := GenerateNamespaceSections(show, v.items);
      } else if k == "logging" {
        if !v.List? { return false; }
        ok := GenerateLoggingSection(show, v.items);
      } else if k == "security" {
        return true;
      } else if k == "service" {
        if !v.Map? { return false; }
        WriteBlock(show, k, v.entries, 0);
        ok := true;
      } else if k == "network" {
        if !v.Map? { return false; }
        GenerateNetworkSection(show, v.entries, seeds);
        ok := true;
      } else {
        WriteFlat(show, k, v, 0);
        ok := true;
      }
    }

    method WriteSections(show: Show, cfg: Section, keys: seq<string>, seeds: seq<string>) returns (ok: bool)
      requires text == "" && forall k :: k in keys ==> k in cfg
      modifies this
      ensures ok <==> FileItems(show, cfg, keys, seeds).Some?
      ensures ok ==> text == Render(FileItems(show, cfg, keys, seeds).value, 0)
    {
      for i := 0 to |keys|
        invariant FileItems(show, cfg, keys[..i], seeds).Some?
        invariant text == Render(FileItems(show, cfg, keys[..i], seeds).value, 0)
      {
        assert keys[i] in keys && keys[..i+1][..i] == keys[..i];
        ok := WriteSection(show, keys[i], cfg[keys[i]], seeds);
        if !ok {
          FileRefused(show, cfg, keys, i, seeds);
          return;
        }
        RenderConcat(FileItems(show, cfg, keys[..i], seeds).value,
                     SectionItems(show, keys[i], cfg[keys[i]], seeds).value, 0);
      }
      assert keys[..|keys|] == keys;
      return true;
    }
  }

  /** The conf of a config, with one mesh seed per pod; None where a section has the wrong shape. */
  method GenerateConfForPod(show: Show, cfg: Section, seeds: seq<string>) returns (r: Option<string>)
    ensures var items := FileItems(show, cfg, SortedKeys(cfg.Keys), seeds);
            r == if items.Some? then Some(Render(items.value, 0)) else None
  {
    var b := new Builder();
    var keys := SortKeys(cfg.Keys);
    var ok := b.WriteSections(show, cfg, keys, seeds);
    return if ok then Some(b.text) else None;
  }

  lemma {:induction false} NamespaceRefused(show: Show, list: seq<Val>, i: nat)
    requires i < |list| && NameOf(list[i]) == ""
    ensures NamespaceItems(show, list).None?
  {
    if i < |list| - 1 { NamespaceRefused(show, list[..|list|-1], i); }
  }

  lemma {:induction false} SinkRefused(show: Show, list: seq<Val>, i: nat)
    requires i < |list| && NameOf(list[i]) == ""
    ensures SinkItems(show, list).None?
  {
    if i < |list| - 1 { SinkRefused(show, list[..|list|-1], i); }
  }

  lemma {:induction false} FileRefused(show: Show, cfg: Section, ks: seq<string>, i: nat, seeds: seq<string>)
    requires i < |ks| && (forall k :: k in ks ==> k in cfg) && SectionItems(show, ks[i], cfg[ks[i]], seeds).None?
    ensures FileItems(show, cfg, ks, seeds).None?
  {
    if i < |ks| - 1 { FileRefused(show, cfg, ks[..|ks|-1], i, seeds); }
  }

  lemma NothingYet(text: string, depth: nat)
    ensures text == text + Render([], depth)
  {
  }
}
