/**
  The asinfo set-config command: building it from a change, and reading it the way a
  node does. The character checks in front of the builder are what makes the reading
  return exactly the change that was built.
 */
module SetConfigCommand {
  import opened Text

  /** Where a parameter lives on a node. */
  datatype Address = Address(context: string, namespace: string, key: string)

  predicate BareKeyChar(c: char) {
    'A' <= c <= 'Z' || 'a' <= c <= 'z' || '0' <= c <= '9' || c == '_' || c == '.' || c == '-'
  }

  predicate BareKey(s: string) { s != "" && forall i :: 0 <= i < |s| ==> BareKeyChar(s[i]) }

  predicate IsControl(c: char) { c < ' ' || '\U{007f}' <= c <= '\U{009f}' }

  predicate IsSpace(c: char) {
    || '\U{0009}' <= c <= '\U{000d}' || c == ' ' || c == '\U{0085}' || c == '\U{00a0}' || c == '\U{1680}'
    || '\U{2000}' <= c <= '\U{200a}' || c == '\U{2028}' || c == '\U{2029}' || c == '\U{202f}' || c == '\U{205f}'
    || c == '\U{3000}'
  }

  predicate SafeValue(s: string) {
    && (forall i :: 0 <= i < |s| ==> s[i] != ';' && s[i] != ':' && s[i] != '=' && !IsControl(s[i]))
    && (s != "" ==> !IsSpace(s[0]) && !IsSpace(s[|s|-1]))
  }

  const PREFIX := "set-config:context="
  const NAMESPACE := "namespace"
  const ID := "id="

  /** None when a field could break the command apart. */
  function Build(context: string, namespace: string, key: string, value: string): Option<string> {
    if !BareKey(key) || !SafeValue(context) || !SafeValue(namespace) || !SafeValue(value) then None
    else if namespace != "" then Some(PREFIX + (NAMESPACE + ";" + (ID + namespace) + ";" + (key + "=" + value)))
    else Some(PREFIX + (context + ";" + (key + "=" + value)))
  }

  // ---- The reading side --------------------------------------------------------------

  function IndexOf(s: string, c: char): (r: nat)
    ensures r <= |s| && c !in s[..r] && (r < |s| ==> s[r] == c)
  {
    if s == "" || s[0] == c then 0
    else
      var r := IndexOf(s[1..], c);
      assert s[..r+1] == [s[0]] + s[1..][..r];
      r + 1
  }

  function SplitOn(s: string, c: char): seq<string>
    decreases |s|
  {
    var i := IndexOf(s, c);
    if i == |s| then [s] else [s[..i]] + SplitOn(s[i+1..], c)
  }

  datatype Assignment = Assignment(address: Address, value: string)

  function ReadAssignment(context: string, namespace: string, field: string): Option<Assignment> {
    var eq := IndexOf(field, '=');
    if eq == |field| then None
    else Some(Assignment(Address(context, namespace, field[..eq]), field[eq+1..]))
  }

  function ReadFields(fields: seq<string>): Option<Assignment> {
    if |fields| == 2 then ReadAssignment(fields[0], "", fields[1])
    else if |fields| == 3 && ID <= fields[1] then ReadAssignment(fields[0], fields[1][|ID|..], fields[2])
    else None
  }

  /** `context=c;key=value`, or `context=c;id=ns;key=value` for a namespace parameter. */
  function Read(cmd: string): Option<Assignment> {
    if PREFIX <= cmd then ReadFields(SplitOn(cmd[|PREFIX|..], ';')) else None
  }

  lemma {:induction false} IndexOfSplit(a: string, c: char, b: string)
    requires c !in a
    ensures IndexOf(a + [c] + b, c) == |a|
  {
    if a != "" {
      assert (a + [c] + b)[1..] == a[1..] + [c] + b;
      IndexOfSplit(a[1..], c, b);
    }
  }

  lemma {:induction false} IndexOfAbsent(a: string, c: char)
    requires c !in a
    ensures IndexOf(a, c) == |a|
  {
    if a != "" { IndexOfAbsent(a[1..], c); }
  }

  lemma SplitFirst(a: string, c: char, b: string)
    requires c !in a
    ensures SplitOn(a + [c] + b, c) == [a] + SplitOn(b, c)
  {
    IndexOfSplit(a, c, b);
    assert (a + [c] + b)[..|a|] == a && (a + [c] + b)[|a|+1..] == b;
  }

  lemma SplitTwo(a: string, b: string)
    requires ';' !in a && ';' !in b
    ensures SplitOn(a + ";" + b, ';') == [a, b]
  {
    SplitFirst(a, ';', b);
    IndexOfAbsent(b, ';');
  }

  lemma SplitThree(a: string, b: string, c: string)
    requires ';' !in a && ';' !in b && ';' !in c
    ensures SplitOn(a + ";" + b + ";" + c, ';') == [a, b, c]
  {
    assert a + ";" + b + ";" + c == a + ";" + (b + ";" + c);
    SplitFirst(a, ';', b + ";" + c);
    SplitTwo(b, c);
  }

  lemma ReadField(context: string, namespace: string, key: string, value: string)
    requires BareKey(key) && SafeValue(value)
    ensures ';' !in key + "=" + value
    ensures ReadAssignment(context, namespace, key + "=" + value) ==
            Some(Assignment(Address(context, namespace, key), value))
  {
    IndexOfSplit(key, '=', value);
    var f := key + "=" + value;
    assert f[..|key|] == key && f[|key|+1..] == value;
  }

  lemma Strip(prefix: string, rest: string)
    ensures prefix <= prefix + rest && (prefix + rest)[|prefix|..] == rest
  {
  }

  /** A command that is built is read back as exactly the change it was built from. */
  lemma ReadBuild(context: string, namespace: string, key: string, value: string)
    requires Build(context, namespace, key, value).Some?
    ensures Read(Build(context, namespace, key, value).value) ==
            Some(Assignment(Address(if namespace != "" then NAMESPACE else context, namespace, key), value))
  {
    var field := key + "=" + value;
    if namespace != "" {
      ReadField(NAMESPACE, namespace, key, value);
      Strip(ID, namespace);
      Strip(PREFIX, NAMESPACE + ";" + (ID + namespace) + ";" + field);
      SplitThree(NAMESPACE, ID + namespace, field);
    } else {
      ReadField(context, "", key, value);
      Strip(PREFIX, context + ";" + field);
      SplitTwo(context, field);
    }
  }

  // ---- What is sent, and what can be ---------------------------------------------------------

  /** No colon and no control character. */
  ghost predicate OneLine(s: string) {
    forall i :: 0 <= i < |s| ==> s[i] != ':' && s[i] >= ' ' && !('\U{007f}' <= s[i] <= '\U{009f}')
  }

  lemma OneLineJoin(a: string, b: string)
    requires OneLine(a) && OneLine(b)
    ensures OneLine(a + b)
  {
  }

  lemma OneLineAssignment(key: string, value: string)
    requires BareKey(key) && SafeValue(value)
    ensures OneLine(key + "=" + value)
  {
    assert forall i :: 0 <= i < |key| ==> BareKeyChar(key[i]);
    OneLineJoin(key, "=");
    OneLineJoin(key + "=", value);
  }

  /** Behind its prefix a command is one directive on one line, whatever the fields hold. */
  lemma OneDirective(context: string, namespace: string, key: string, value: string, cmd: string)
    requires Build(context, namespace, key, value) == Some(cmd)
    ensures PREFIX <= cmd && OneLine(cmd[|PREFIX|..])
  {
    OneLineAssignment(key, value);
    var head := if namespace != "" then NAMESPACE + ";" + (ID + namespace) + ";" else context + ";";
    assert cmd[|PREFIX|..] == head + (key + "=" + value);
    if namespace != "" {
      OneLineJoin(ID, namespace);
      OneLineJoin(NAMESPACE + ";", ID + namespace);
      OneLineJoin(NAMESPACE + ";" + (ID + namespace), ";");
    } else {
      OneLineJoin(context, ";");
    }
    OneLineJoin(head, key + "=" + value);
  }

  ghost predicate Trimmed(s: string) { s != "" ==> s[0] != ' ' && s[|s|-1] != ' ' }

  /** No field that is sent begins or ends with a blank. */
  lemma NoBlankEnds(context: string, namespace: string, key: string, value: string)
    requires Build(context, namespace, key, value).Some?
    ensures Trimmed(context) && Trimmed(namespace) && Trimmed(key) && Trimmed(value)
  {
    assert BareKeyChar(key[0]) && BareKeyChar(key[|key|-1]);
  }

  /** Visible ASCII, without the characters that separate fields. */
  ghost predicate Visible(s: string) {
    forall i :: 0 <= i < |s| ==> '!' <= s[i] <= '~' && s[i] != ';' && s[i] != ':' && s[i] != '='
  }

  /** A key of letters, digits, underscores, dots and hyphens can be sent with every visible context and value. */
  lemma VisibleSends(context: string, namespace: string, key: string, value: string)
    requires Visible(context) && Visible(namespace) && Visible(value) && key != ""
    requires forall i :: 0 <= i < |key| ==>
               || 'A' <= key[i] <= 'Z' || 'a' <= key[i] <= 'z' || '0' <= key[i] <= '9'
               || key[i] == '_' || key[i] == '.' || key[i] == '-'
    ensures Build(context, namespace, key, value).Some?
  {
    assert forall i :: 0 <= i < |key| ==> BareKeyChar(key[i]);
  }

  /** Every whole number can be sent. */
  lemma NumbersAreSafe(n: nat)
    ensures SafeValue(Itoa(n)) && SafeValue("-" + Itoa(n))
  {
    var s := Itoa(n);
    assert forall i :: 0 <= i < |s| ==> IsDigit(s[i]);
  }
}
