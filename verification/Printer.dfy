/**
  Rendering a config tree as aerospike.conf: what stanzas each part of the config becomes,
  and the writers that append them to a text. `show` stands for Go's %v and %g verbs.
 */
module Printer {
  import opened Text
  import opened ConfigTree
  import opened ConfText
  import opened KeyOrder

  type Show = Val -> string

  const NAME := "name"
  const TYPE := "type"
  const STORAGE_ENGINE := "storage-engine"
  const HEARTBEAT := "heartbeat"
  const MESH_SEED := "mesh-seed-address-port"

  function Signed(n: int): string { if n < 0 then "-" + Itoa(0 - n) else Itoa(n) }

  /** Whole numbers lose their decimal point, whatever type they arrived as. */
  function FormatValue(show: Show, v: Val): string {
    match v
    case Nil => ""
    case Bool(b) => if b then "true" else "false"
    case Str(text) => text
    case Num(n) =>
      if n.kind !in {Uint, Uint32, Uint64} && n.value.Floor as real == n.value then Signed(n.value.Floor) else show(v)
    case _ => show(v)
  }

  /** A whole number as a node reads it. */
  function ReadWhole(s: string): Option<int> {
    if s != "" && AllDigits(s) then Some(DigitsValue(s))
    else if |s| > 1 && s[0] == '-' && AllDigits(s[1..]) then Some(0 - DigitsValue(s[1..]))
    else None
  }

  function ReadBool(s: string): Option<bool> {
    if s == "true" then Some(true) else if s == "false" then Some(false) else None
  }

  /**
    Booleans and whole numbers are recovered from their text, and neither reads as the other; other
    numbers are left to the verb, and text stands for itself.
   */
  lemma ScalarReadsBack(show: Show, v: Val)
    ensures v.Bool? ==> ReadBool(FormatValue(show, v)).Some? && v == Bool(ReadBool(FormatValue(show, v)).value)
                        && ReadWhole(FormatValue(show, v)).None?
    ensures v.Num? && v.number.kind in {Kind.Int, Int32, Int64, Float32, Float64}
            && v.number.value.Floor as real == v.number.value ==>
              && ReadWhole(FormatValue(show, v)).Some?
              && v.number.value == ReadWhole(FormatValue(show, v)).value as real
              && ReadBool(FormatValue(show, v)).None?
    ensures v.Num? && v.number.value.Floor as real != v.number.value ==> FormatValue(show, v) == show(v)
    ensures v.Str? ==> FormatValue(show, v) == v.text
  {
    match v
    case Bool(b) =>
      assert !IsDigit("true"[0]) && !IsDigit("false"[0]);
    case Num(n) => WholeReadsBack(n.value.Floor);
    case _ =>
  }

  lemma WholeReadsBack(n: int)
    ensures ReadWhole(Signed(n)) == Some(n) && ReadBool(Signed(n)).None?
  {
    if n < 0 {
      var digits := Itoa(0 - n);
      assert Signed(n)[1..] == digits && !IsDigit(Signed(n)[0]);
    } else {
      assert IsDigit(Itoa(n)[0]);
    }
  }

  function Entry(show: Show, k: string, v: Val): Item { Line(k + " " + FormatValue(show, v)) }

  // ---- Generic stanzas -----------------------------------------------------------------

  ghost function KeyItems(show: Show, k: string, v: Val): seq<Item>
    decreases v, 3
  {
    match v
    case Nil => []
    case Map(e) => [Block(k, ItemsOf(show, e))]
    case List(xs) => ListItems(show, k, xs, |xs|)
    case _ => [Entry(show, k, v)]
  }

  /** A list repeats its key once per element. */
  ghost function ListItems(show: Show, k: string, xs: seq<Val>, n: nat): seq<Item>
    requires n <= |xs|
    decreases List(xs), 1, n
  {
    if n == 0 then [] else ListItems(show, k, xs, n - 1) + [Element(show, k, xs[n-1])]
  }

  ghost function Element(show: Show, k: string, x: Val): Item
    decreases x, 4
  {
    if x.Map? then Block(k, ItemsOf(show, x.entries)) else Entry(show, k, x)
  }

  ghost function ItemsFrom(show: Show, m: Section, ks: seq<string>): seq<Item>
    requires forall k :: k in ks ==> k in m
    decreases Map(m), 1, |ks|
  {
    if ks == [] then [] else ItemsFrom(show, m, ks[..|ks|-1]) + KeyItems(show, ks[|ks|-1], m[ks[|ks|-1]])
  }

  ghost function ItemsOf(show: Show, m: Section): seq<Item>
    decreases Map(m), 2
  {
    ItemsFrom(show, m, SortedKeys(m.Keys))
  }

  // ---- Namespaces -------------------------------------------------------------------------

  /** The storage engine's own type, or the one its keys imply. */
  function StorageType(m: Section): string {
    if TYPE in m && m[TYPE].Str? then m[TYPE].text
    else if "file" in m || "device" in m then "device"
    else "memory"
  }

  /** A type that is written wins; failing that, naming a file or a device makes the engine a device. */
  lemma StorageTypeExactly(m: Section)
    ensures "type" in m && m["type"].Str? ==> StorageType(m) == m["type"].text
    ensures !("type" in m && m["type"].Str?) ==>
              && (StorageType(m) == "device" <==> {"file", "device"} * m.Keys != {})
              && StorageType(m) in {"device", "memory"}
  {
    if "file" in m { assert "file" in {"file", "device"} * m.Keys; }
    if "device" in m { assert "device" in {"file", "device"} * m.Keys; }
  }

  ghost function StorageItem(show: Show, v: Val): Item
    decreases v, 3
  {
    if !v.Map? then Line(STORAGE_ENGINE + " " + FormatValue(show, v))
    else if v.entries.Keys - {TYPE} == {} then Line(STORAGE_ENGINE + " " + StorageType(v.entries))
    else Block(STORAGE_ENGINE + " " + StorageType(v.entries),
               ParamsFrom(show, v.entries, SortedKeys(v.entries.Keys - {TYPE})))
  }

  /** Inside a namespace the storage engine has a syntax of its own and nil values are kept. */
  ghost function ParamItems(show: Show, k: string, v: Val): seq<Item>
    decreases v, 4
  {
    if k == STORAGE_ENGINE then [StorageItem(show, v)]
    else
      match v
      case Map(e) => [Block(k, ParamsFrom(show, e, SortedKeys(e.Keys)))]
      case List(xs) => ParamList(show, k, xs, |xs|)
      case _ => [Entry(show, k, v)]
  }

  ghost function ParamList(show: Show, k: string, xs: seq<Val>, n: nat): seq<Item>
    requires n <= |xs|
    decreases List(xs), 1, n
  {
    if n == 0 then [] else ParamList(show, k, xs, n - 1) + [ParamElement(show, k, xs[n-1])]
  }

  ghost function ParamElement(show: Show, k: string, x: Val): Item
    decreases x, 4
  {
    if x.Map? then Block(k, ParamsFrom(show, x.entries, SortedKeys(x.entries.Keys))) else Entry(show, k, x)
  }

  ghost function ParamsFrom(show: Show, m: Section, ks: seq<string>): seq<Item>
    requires forall k :: k in ks ==> k in m
    decreases Map(m), 1, |ks|
  {
    if ks == [] then [] else ParamsFrom(show, m, ks[..|ks|-1]) + ParamItems(show, ks[|ks|-1], m[ks[|ks|-1]])
  }

  /** A namespace or log sink needs a nonempty name. */
  function NameOf(v: Val): string {
    if v.Map? && NAME in v.entries && v.entries[NAME].Str? then v.entries[NAME].text else ""
  }

  ghost function NamespaceItems(show: Show, list: seq<Val>): Option<seq<Item>> {
    if list == [] then Some([])
    else
      var front, last := NamespaceItems(show, list[..|list|-1]), list[|list|-1];
      if front.None? || NameOf(last) == "" then None
      else Some(front.value + [Block("namespace " + NameOf(last),
                                     ParamsFrom(show, last.entries, SortedKeys(last.entries.Keys - {NAME})))])
  }

  // ---- Logging and network -------------------------------------------------------------------

  ghost function EntriesFrom(show: Show, m: Section, ks: seq<string>): seq<Item>
    requires forall k :: k in ks ==> k in m
  {
    if ks == [] then [] else EntriesFrom(show, m, ks[..|ks|-1]) + [Entry(show, ks[|ks|-1], m[ks[|ks|-1]])]
  }

  function SinkHead(name: string): string {
    if name == "console" || name == "stderr" then "console" else if name == "syslog" then "syslog" else "file " + name
  }

  datatype Sink = Console | Syslog | LogFile(path: string)

  /** A sink's stanza head as a node reads it. */
  function ReadSink(head: string): Option<Sink> {
    if head == "console" then Some(Console)
    else if head == "syslog" then Some(Syslog)
    else if "file " <= head then Some(LogFile(head[|"file "|..]))
    else None
  }

  /** Every sink is read back as what its name stands for. */
  lemma SinkReadsBack(name: string)
    ensures ReadSink(SinkHead(name)) ==
            Some(if name == "console" || name == "stderr" then Console
                 else if name == "syslog" then Syslog
                 else LogFile(name))
  {
    assert ("file " + name)[|"file "|..] == name;
    assert ("file " + name)[0] == 'f' && "console"[0] == 'c' && "syslog"[0] == 's';
  }

  ghost function SinkItems(show: Show, list: seq<Val>): Option<seq<Item>> {
    if list == [] then Some([])
    else
      var front, last := SinkItems(show, list[..|list|-1]), list[|list|-1];
      if front.None? || NameOf(last) == "" then None
      else Some(front.value + [Block(SinkHead(NameOf(last)),
                                     EntriesFrom(show, last.entries, SortedKeys(last.entries.Keys - {NAME})))])
  }

  /** Lists under network and heartbeat are shown whole, not repeated. */
  ghost function FlatItem(show: Show, k: string, v: Val): Item {
    if v.Map? then Block(k, ItemsOf(show, v.entries)) else Entry(show, k, v)
  }

  ghost function FlatFrom(show: Show, m: Section, ks: seq<string>): seq<Item>
    requires forall k :: k in ks ==> k in m
  {
    if ks == [] then [] else FlatFrom(show, m, ks[..|ks|-1]) + [FlatItem(show, ks[|ks|-1], m[ks[|ks|-1]])]
  }

  ghost function SeedItems(seeds: seq<string>): seq<Item> {
    if seeds == [] then [] else SeedItems(seeds[..|seeds|-1]) + [Line(MESH_SEED + " " + seeds[|seeds|-1])]
  }

  /** Seeds written by hand give way to one seed per pod. */
  ghost function HeartbeatItem(show: Show, v: Val, seeds: seq<string>): Item {
    var m := if v.Map? then v.entries else map[];
    Block(HEARTBEAT, FlatFrom(show, m, SortedKeys(m.Keys - {MESH_SEED})) + SeedItems(seeds))
  }

  ghost function NetworkFrom(show: Show, m: Section, ks: seq<string>, seeds: seq<string>): seq<Item>
    requires forall k :: k in ks ==> k in m
  {
    if ks == [] then []
    else
      var k := ks[|ks|-1];
      NetworkFrom(show, m, ks[..|ks|-1], seeds) +
      [if k == HEARTBEAT then HeartbeatItem(show, m[k], seeds) else FlatItem(show, k, m[k])]
  }

  // ---- The whole file ----------------------------------------------------------------------------

  /** What one top-level key becomes; None where its shape is refused. */
  ghost function SectionItems(show: Show, k: string, v: Val, seeds: seq<string>): Option<seq<Item>> {
    if v.Nil? || (k == "security") then Some([])
    else if k == "namespaces" then (if v.List? then NamespaceItems(show, v.items) else None)
    else if k == "logging" then
      (if !v.List? || SinkItems(show, v.items).None? then None
       else Some([Block("logging", SinkItems(show, v.items).value)]))
    else if k == "service" then (if v.Map? then Some([Block(k, ItemsOf(show, v.entries))]) else None)
    else if k == "network" then
      (if v.Map? then Some([Block(k, NetworkFrom(show, v.entries, SortedKeys(v.entries.Keys), seeds))]) else None)
    else Some([FlatItem(show, k, v)])
  }

  ghost function FileItems(show: Show, cfg: Section, ks: seq<string>, seeds: seq<string>): Option<seq<Item>>
    requires forall k :: k in ks ==> k in cfg
  {
    if ks == [] then Some([])
    else
      var front, last := FileItems(show, cfg, ks[..|ks|-1], seeds),
                         SectionItems(show, ks[|ks|-1], cfg[ks[|ks|-1]], seeds);
      if front.None? || last.None? then None else Some(front.value + last.value)
  }
}
