/**
  aerospike.conf as nested stanzas, how they are laid out as text, and a strict reader: it
  accepts only text whose brackets match and whose every line is indented by its depth.
 */
module ConfText {
  import opened Text
  import opened SetConfigCommand

  datatype Item = Line(text: string) | Block(head: string, body: seq<Item>)

  function Tabs(n: nat): string { seq(n, _ => '\t') }

  /** The lines of a sequence of items, without their line ends. */
  function Lines(items: seq<Item>, depth: nat): seq<string>
    decreases items
  {
    if items == [] then [] else Lines(items[..|items|-1], depth) + LinesOf(items[|items|-1], depth)
  }

  function LinesOf(item: Item, depth: nat): seq<string>
    decreases item
  {
    match item
    case Line(text) => [Tabs(depth) + text]
    case Block(head, body) => [Tabs(depth) + head + " {"] + Lines(body, depth + 1) + [Tabs(depth) + "}"]
  }

  function Join(lines: seq<string>): string {
    if lines == [] then "" else lines[0] + ['\n'] + Join(lines[1..])
  }

  function Render(items: seq<Item>, depth: nat): string { Join(Lines(items, depth)) }

  // ---- The reader ---------------------------------------------------------------------------

  /** A stanza being read: its head and the items completed inside it. */
  datatype Frame = Frame(head: string, done: seq<Item>)

  function TabCount(line: string): (r: nat)
    ensures r <= |line|
  {
    if line == "" || line[0] != '\t' then 0 else 1 + TabCount(line[1..])
  }

  function Add(stack: seq<Frame>, items: seq<Item>): (r: seq<Frame>)
    requires stack != []
    ensures |r| == |stack|
  {
    stack[|stack|-1 := stack[|stack|-1].(done := stack[|stack|-1].done + items)]
  }

  function Feed(stack: seq<Frame>, line: string): (r: Option<seq<Frame>>)
    requires stack != []
    ensures r.Some? ==> r.value != []
  {
    var tabs, top := TabCount(line), |stack| - 1;
    var body := line[tabs..];
    if body == "}" then
      if top == 0 || tabs != top - 1 then None
      else Some(Add(stack[..top], [Block(stack[top].head, stack[top].done)]))
    else if tabs != top then None
    else if |body| >= 2 && body[|body|-2..] == " {" then Some(stack + [Frame(body[..|body|-2], [])])
    else Some(Add(stack, [Line(body)]))
  }

  function FeedAll(stack: seq<Frame>, lines: seq<string>): (r: Option<seq<Frame>>)
    requires stack != []
    ensures r.Some? ==> r.value != []
    decreases |lines|
  {
    if lines == [] then Some(stack)
    else
      var next := Feed(stack, lines[0]);
      if next.None? then None else FeedAll(next.value, lines[1..])
  }

  function Read(text: string): Option<seq<Item>> {
    var parts := SplitOn(text, '\n');
    if parts[|parts|-1] != "" then None
    else
      var end := FeedAll([Frame("", [])], parts[..|parts|-1]);
      if end.None? || |end.value| != 1 then None else Some(end.value[0].done)
  }

  // ---- Reading back what was rendered ----------------------------------------------------------

  predicate CleanText(s: string) { '\n' !in s && '{' !in s && '}' !in s && (s != "" ==> s[0] != '\t') }

  ghost predicate CleanItem(item: Item)
    decreases item
  {
    match item
    case Line(text) => CleanText(text)
    case Block(head, body) => CleanText(head) && CleanItems(body)
  }

  ghost predicate CleanItems(items: seq<Item>)
    decreases items
  {
    forall i :: 0 <= i < |items| ==> CleanItem(items[i])
  }

  lemma {:induction false} TabCountTabs(n: nat, rest: string)
    requires rest != "" ==> rest[0] != '\t'
    ensures TabCount(Tabs(n) + rest) == n && (Tabs(n) + rest)[n..] == rest
  {
    if n > 0 {
      assert (Tabs(n) + rest)[1..] == Tabs(n - 1) + rest;
      TabCountTabs(n - 1, rest);
    } else {
      assert Tabs(0) + rest == rest;
    }
  }

  lemma {:induction false} FeedConcat(stack: seq<Frame>, a: seq<string>, b: seq<string>)
    requires stack != [] && FeedAll(stack, a).Some?
    ensures FeedAll(stack, a + b) == FeedAll(FeedAll(stack, a).value, b)
    decreases |a|
  {
    if a == [] {
      assert a + b == b;
    } else {
      assert (a + b)[1..] == a[1..] + b;
      FeedConcat(Feed(stack, a[0]).value, a[1..], b);
    }
  }

  lemma FeedOne(stack: seq<Frame>, line: string)
    requires stack != []
    ensures FeedAll(stack, [line]) == Feed(stack, line)
  {
  }

  lemma FeedText(stack: seq<Frame>, text: string)
    requires stack != [] && CleanText(text)
    ensures Feed(stack, Tabs(|stack| - 1) + text) == Some(Add(stack, [Line(text)]))
  {
    TabCountTabs(|stack| - 1, text);
    if |text| >= 2 { assert text[|text|-1] in text; }
  }

  lemma FeedOpen(stack: seq<Frame>, head: string)
    requires stack != [] && CleanText(head)
    ensures Feed(stack, Tabs(|stack| - 1) + head + " {") == Some(stack + [Frame(head, [])])
  {
    var body := head + " {";
    assert Tabs(|stack| - 1) + head + " {" == Tabs(|stack| - 1) + body;
    TabCountTabs(|stack| - 1, body);
    assert body[|head|] == ' ' && body[|body|-2..] == " {" && body[..|body|-2] == head;
  }

  lemma FeedClose(stack: seq<Frame>, head: string, body: seq<Item>)
    requires stack != []
    ensures Feed(stack + [Frame(head, body)], Tabs(|stack| - 1) + "}") == Some(Add(stack, [Block(head, body)]))
  {
    TabCountTabs(|stack| - 1, "}");
    assert (stack + [Frame(head, body)])[..|stack|] == stack;
  }

  lemma AddTwice(stack: seq<Frame>, a: seq<Item>, b: seq<Item>)
    requires stack != []
    ensures Add(Add(stack, a), b) == Add(stack, a + b)
  {
    assert stack[|stack|-1].done + a + b == stack[|stack|-1].done + (a + b);
  }

  lemma AddNothing(stack: seq<Frame>)
    requires stack != []
    ensures Add(stack, []) == stack
  {
    assert stack[|stack|-1].done + [] == stack[|stack|-1].done;
  }

  lemma AddInside(stack: seq<Frame>, head: string, body: seq<Item>)
    ensures Add(stack + [Frame(head, [])], body) == stack + [Frame(head, body)]
  {
    assert [] + body == body;
  }

  lemma {:induction false} FeedItem(stack: seq<Frame>, item: Item)
    requires stack != [] && CleanItem(item)
    ensures FeedAll(stack, LinesOf(item, |stack| - 1)) == Some(Add(stack, [item]))
    decreases item
  {
    var depth := |stack| - 1;
    match item
    case Line(text) =>
      FeedText(stack, text);
      FeedOne(stack, Tabs(depth) + text);
    case Block(head, body) =>
      var open, close, inner := [Tabs(depth) + head + " {"], [Tabs(depth) + "}"], Lines(body, depth + 1);
      var inside := stack + [Frame(head, [])];
      FeedOpen(stack, head);
      FeedOne(stack, open[0]);
      FeedItems(inside, body);
      AddInside(stack, head, body);
      FeedConcat(stack, open, inner);
      FeedClose(stack, head, body);
      FeedOne(stack + [Frame(head, body)], close[0]);
      FeedConcat(stack, open + inner, close);
  }

  /** Fed the lines of some items, the reader adds exactly those items. */
  lemma {:induction false} FeedItems(stack: seq<Frame>, items: seq<Item>)
    requires stack != [] && CleanItems(items)
    ensures FeedAll(stack, Lines(items, |stack| - 1)) == Some(Add(stack, items))
    decreases items
  {
    if items == [] {
      AddNothing(stack);
    } else {
      var front, last := items[..|items|-1], items[|items|-1];
      FeedItems(stack, front);
      FeedItem(Add(stack, front), last);
      FeedConcat(stack, Lines(front, |stack| - 1), LinesOf(last, |stack| - 1));
      AddTwice(stack, front, [last]);
      assert items == front + [last];
    }
  }

  ghost predicate OneLine(lines: seq<string>) { forall line :: line in lines ==> '\n' !in line }

  lemma {:induction false} SplitJoined(lines: seq<string>)
    requires OneLine(lines)
    ensures SplitOn(Join(lines), '\n') == lines + [""]
  {
    if lines == [] {
      SplitEmpty();
    } else {
      OneLineTail(lines);
      SplitJoined(lines[1..]);
      SplitFirst(lines[0], '\n', Join(lines[1..]));
      Regroup(lines);
    }
  }

  lemma SplitEmpty()
    ensures SplitOn("", '\n') == [""]
  {
  }

  lemma OneLineTail(lines: seq<string>)
    requires lines != [] && OneLine(lines)
    ensures OneLine(lines[1..]) && '\n' !in lines[0]
  {
    assert lines[0] in lines;
  }

  lemma Regroup(lines: seq<string>)
    requires lines != []
    ensures [lines[0]] + (lines[1..] + [""]) == lines + [""]
  {
  }

  lemma NoLineEnd(depth: nat, text: string)
    requires '\n' !in text
    ensures '\n' !in Tabs(depth) + text
  {
  }

  lemma {:induction false} ItemIsOneLine(item: Item, depth: nat)
    requires CleanItem(item)
    ensures OneLine(LinesOf(item, depth))
    decreases item
  {
    match item
    case Line(text) => NoLineEnd(depth, text);
    case Block(head, body) =>
      NoLineEnd(depth, head + " {");
      assert Tabs(depth) + head + " {" == Tabs(depth) + (head + " {");
      NoLineEnd(depth, "}");
      ItemsAreOneLine(body, depth + 1);
  }

  lemma {:induction false} ItemsAreOneLine(items: seq<Item>, depth: nat)
    requires CleanItems(items)
    ensures OneLine(Lines(items, depth))
    decreases items
  {
    if items != [] {
      ItemsAreOneLine(items[..|items|-1], depth);
      ItemIsOneLine(items[|items|-1], depth);
    }
  }

  /** The strict reader accepts every rendering and returns exactly what was rendered. */
  lemma ReadRender(items: seq<Item>)
    requires CleanItems(items)
    ensures Read(Render(items, 0)) == Some(items)
  {
    var lines := Lines(items, 0);
    ItemsAreOneLine(items, 0);
    SplitJoined(lines);
    assert (lines + [""])[..|lines|] == lines;
    FeedItems([Frame("", [])], items);
    assert Add([Frame("", [])], items)[0].done == items;
  }
}
