/** Configuration values as they arrive from the API server: nested maps, lists and scalars. */
module ConfigTree {
  /** The Go types a number can be decoded as. */
  datatype Kind = Int | Int32 | Int64 | Uint | Uint32 | Uint64 | Float32 | Float64

  datatype Number = Number(kind: Kind, value: real)

  datatype Val =
    | Nil
    | Bool(bool)
    | Str(text: string)
    | Num(number: Number)
    | List(items: seq<Val>)
    | Map(entries: map<string, Val>)

  type Section = map<string, Val>

  function Get(m: Section, k: string): Val { if k in m then m[k] else Nil }

  /** Equal up to the type a number was decoded as. */
  ghost predicate Same(a: Val, b: Val)
    decreases a
  {
    match (a, b) {
      case (Num(m), Num(n)) => m.value == n.value
      case (List(x), List(y)) => |x| == |y| && forall i :: 0 <= i < |x| ==> Same(x[i], y[i])
      case (Map(x), Map(y)) => x.Keys == y.Keys && forall k :: k in x ==> Same(x[k], y[k])
      case _ => a == b
    }
  }

  lemma {:induction false} SameSelf(a: Val)
    ensures Same(a, a)
    decreases a
  {
    match a {
      case List(x) => forall i | 0 <= i < |x| ensures Same(x[i], x[i]) { SameSelf(x[i]); }
      case Map(x) => forall k | k in x ensures Same(x[k], x[k]) { SameSelf(x[k]); }
      case _ =>
    }
  }
}
