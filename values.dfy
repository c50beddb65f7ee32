/**
 * The JavaScript values the model handles: primitives, arrays and plain
 * objects whose own keys are listed in insertion order.
 */
module Values {

  datatype Value =
    | Undefined
    | Null
    | Bool(b: bool)
    | Num(n: int)
    | Str(s: string)
    | Arr(items: seq<Value>)
    | Obj(props: seq<(string, Value)>)

  predicate DistinctKeys(props: seq<(string, Value)>) {
    forall i, j :: 0 <= i < j < |props| ==> props[i].0 != props[j].0
  }

  /** Every object inside `v` has distinct own keys, as JavaScript objects do. */
  predicate WellFormed(v: Value) {
    match v
    case Arr(items) => forall i :: 0 <= i < |items| ==> WellFormed(items[i])
    case Obj(props) =>
      DistinctKeys(props) && forall i :: 0 <= i < |props| ==> WellFormed(props[i].1)
    case _ => true
  }
}
