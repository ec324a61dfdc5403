/** JSON values as Python holds them. */
module Json {

  datatype Value =
    | Null
    | Bool(on: bool)
    | Number(n: int)
    | Float(x: real)
    | Text(s: string)
    | Array(items: seq<Value>)
    | Object(entries: map<string, Value>)

  predicate Numeric(v: Value) {
    v.Bool? || v.Number? || v.Float?
  }

  /** True counts as 1 and False as 0. */
  function Amount(v: Value): real
    requires Numeric(v)
  {
    match v
    case Bool(on) => if on then 1.0 else 0.0
    case Number(n) => n as real
    case Float(x) => x
  }

  /** a == b */
  predicate Equal(a: Value, b: Value) {
    match a
    case Null => b.Null?
    case Text(s) => b == a
    case Array(items) =>
      b.Array? && |items| == |b.items| && forall i :: 0 <= i < |items| ==> Equal(items[i], b.items[i])
    case Object(entries) =>
      b.Object? && entries.Keys == b.entries.Keys && forall k :: k in entries ==> Equal(entries[k], b.entries[k])
    case _ => Numeric(b) && Amount(a) == Amount(b)
  }

  /** v in vs */
  predicate Among(v: Value, vs: seq<Value>) {
    exists i :: 0 <= i < |vs| && Equal(v, vs[i])
  }

  lemma {:induction false} EqualTransitive(a: Value, b: Value, c: Value)
    requires Equal(a, b) && Equal(b, c)
    ensures Equal(a, c)
  {
    match a {
      case Array(items) =>
        forall i | 0 <= i < |items| ensures Equal(items[i], c.items[i]) {
          EqualTransitive(items[i], b.items[i], c.items[i]);
        }
      case Object(entries) =>
        forall k | k in entries ensures Equal(entries[k], c.entries[k]) {
          EqualTransitive(entries[k], b.entries[k], c.entries[k]);
        }
      case _ =>
    }
  }

  lemma {:induction false} EqualReflexive(a: Value)
    ensures Equal(a, a)
  {
    match a {
      case Array(items) =>
        forall i | 0 <= i < |items| ensures Equal(items[i], items[i]) { EqualReflexive(items[i]); }
      case Object(entries) =>
        forall k | k in entries ensures Equal(entries[k], entries[k]) { EqualReflexive(entries[k]); }
      case _ =>
    }
  }

  lemma AmongAll(v: Value, vs: seq<Value>, ws: seq<Value>)
    requires Among(v, vs) && forall i :: 0 <= i < |vs| ==> Among(vs[i], ws)
    ensures Among(v, ws)
  {
    var i :| 0 <= i < |vs| && Equal(v, vs[i]);
    var j :| 0 <= j < |ws| && Equal(vs[i], ws[j]);
    EqualTransitive(v, vs[i], ws[j]);
  }

  /** True equals 1 and False equals 0, and no other whole number. */
  lemma BooleansAreNumbers(on: bool, n: int)
    ensures Equal(Bool(on), Number(n)) <==> n == if on then 1 else 0
    ensures Equal(Number(n), Bool(on)) <==> n == if on then 1 else 0
  {
  }
}
