/**
 * ospec's `deepEqual` over primitives, arrays and plain objects, and its
 * agreement with a reference notion of structural equality in which the
 * order of an object's keys does not matter.
 */
module DeepEqual {
  import opened Values

  /** Position of the first own key `k` in `props`, or `|props|` when absent. */
  function KeyIndex(props: seq<(string, Value)>, k: string): (j: nat)
    ensures j <= |props|
    ensures j < |props| ==> props[j].0 == k
    ensures forall i :: 0 <= i < j ==> props[i].0 != k
  {
    if props == [] then 0
    else if props[0].0 == k then 0
    else 1 + KeyIndex(props[1..], k)
  }

  /** `k in o` for a plain object without inherited keys. */
  predicate HasKey(props: seq<(string, Value)>, k: string) {
    KeyIndex(props, k) < |props|
  }

  /** The primitives, which `===` compares by value. */
  predicate Primitive(v: Value) {
    !v.Arr? && !v.Obj?
  }

  /**
   * `deepEqual(a, b)`. `a === b` is modelled on primitives only: two
   * array or object values have no identity here, and the structural
   * comparison below answers true for them whenever they would be `===`.
   */
  predicate DeepEqual(a: Value, b: Value)
    decreases a, 2, 0
  {
    if Primitive(a) && a == b then true
    else if a.Null? != b.Null? || a.Undefined? != b.Undefined? then false
    else match a
      case Obj(pa) => b.Obj? && PropsMatch(a, b.props, 0) && KeysIncluded(b.props, pa)
      case Arr(xa) => b.Arr? && |xa| == |b.items| && ItemsMatch(a, b.items, 0)
      case _ => false
  }

  /** The first loop over the keys of `a`: each is a key of `b` with a deep-equal value. */
  predicate PropsMatch(a: Value, pb: seq<(string, Value)>, i: nat)
    requires a.Obj?
    decreases a, 1, |a.props| - i
  {
    i >= |a.props| ||
    (var j := KeyIndex(pb, a.props[i].0);
     j < |pb| && DeepEqual(a.props[i].1, pb[j].1) && PropsMatch(a, pb, i + 1))
  }

  /** The second loop over the keys of `b`: each is a key of `a`. */
  predicate KeysIncluded(pb: seq<(string, Value)>, pa: seq<(string, Value)>) {
    forall j :: 0 <= j < |pb| ==> HasKey(pa, pb[j].0)
  }

  /** The loop over the indices of two arrays of equal length. */
  predicate ItemsMatch(a: Value, xb: seq<Value>, i: nat)
    requires a.Arr? && |a.items| == |xb|
    decreases a, 1, |a.items| - i
  {
    i >= |a.items| || (DeepEqual(a.items[i], xb[i]) && ItemsMatch(a, xb, i + 1))
  }

  /** The reference: a value's shape, where an object is a map from its keys. */
  datatype Shape =
    | SUndefined
    | SNull
    | SBool(b: bool)
    | SNum(n: int)
    | SStr(s: string)
    | SArr(items: seq<Shape>)
    | SObj(fields: map<string, Shape>)

  function ShapeOf(v: Value): Shape
    decreases v, 1, 0
  {
    match v
    case Undefined => SUndefined
    case Null => SNull
    case Bool(b) => SBool(b)
    case Num(n) => SNum(n)
    case Str(s) => SStr(s)
    case Arr(items) => SArr(ItemShapes(v, 0))
    case Obj(props) => SObj(Fields(v, 0))
  }

  function ItemShapes(v: Value, i: nat): (r: seq<Shape>)
    requires v.Arr? && i <= |v.items|
    ensures |r| == |v.items| - i
    ensures forall k :: 0 <= k < |r| ==> r[k] == ShapeOf(v.items[i + k])
    decreases v, 0, |v.items| - i
  {
    if i == |v.items| then [] else [ShapeOf(v.items[i])] + ItemShapes(v, i + 1)
  }

  function Fields(v: Value, i: nat): (m: map<string, Shape>)
    requires v.Obj? && i <= |v.props|
    decreases v, 0, |v.props| - i
  {
    if i == |v.props| then map[] else Fields(v, i + 1)[v.props[i].0 := ShapeOf(v.props[i].1)]
  }

  /** `Fields` maps each key to the shape of the value at its first occurrence. */
  lemma {:induction false} FieldsAt(v: Value, i: nat)
    requires v.Obj? && i <= |v.props|
    ensures forall k :: k in Fields(v, i) <==> HasKey(v.props[i..], k)
    ensures forall k :: HasKey(v.props[i..], k) ==>
      Fields(v, i)[k] == ShapeOf(v.props[i + KeyIndex(v.props[i..], k)].1)
    decreases |v.props| - i
  {
    if i < |v.props| {
      FieldsAt(v, i + 1);
      assert v.props[i..][1..] == v.props[i + 1..];
    }
  }

  lemma {:induction false} PropsMatchAll(a: Value, pb: seq<(string, Value)>, i: nat)
    requires a.Obj?
    ensures PropsMatch(a, pb, i) <==>
      forall k :: i <= k < |a.props| ==>
        HasKey(pb, a.props[k].0) && DeepEqual(a.props[k].1, pb[KeyIndex(pb, a.props[k].0)].1)
    decreases |a.props| - i
  {
    if i < |a.props| {
      PropsMatchAll(a, pb, i + 1);
    }
  }

  lemma {:induction false} ItemsMatchAll(a: Value, xb: seq<Value>, i: nat)
    requires a.Arr? && |a.items| == |xb|
    ensures ItemsMatch(a, xb, i) <==> forall k :: i <= k < |xb| ==> DeepEqual(a.items[k], xb[k])
    decreases |a.items| - i
  {
    if i < |a.items| {
      ItemsMatchAll(a, xb, i + 1);
    }
  }

  /** The pointwise claim for every pair of values under two objects' keys. */
  predicate PairwiseAgree(a: Value, b: Value)
    requires a.Obj? && b.Obj?
  {
    forall i, j :: 0 <= i < |a.props| && 0 <= j < |b.props| ==>
      (DeepEqual(a.props[i].1, b.props[j].1) <==> ShapeOf(a.props[i].1) == ShapeOf(b.props[j].1))
  }

  lemma ObjectsForward(a: Value, b: Value)
    requires a.Obj? && b.Obj?
    requires PairwiseAgree(a, b)
    requires DeepEqual(a, b)
    ensures Fields(a, 0) == Fields(b, 0)
  {
    var pa, pb := a.props, b.props;
    PropsMatchAll(a, pb, 0);
    FieldsAt(a, 0);
    FieldsAt(b, 0);
    assert pa[0..] == pa && pb[0..] == pb;
    var fa, fb := Fields(a, 0), Fields(b, 0);
    forall k | k in fa ensures k in fb && fa[k] == fb[k] {
      var i := KeyIndex(pa, k);
      assert HasKey(pb, pa[i].0);
    }
    forall k | k in fb ensures k in fa {
      var j := KeyIndex(pb, k);
      assert HasKey(pa, pb[j].0);
    }
  }

  /** Under equal fields, each key of `a` has a deep-equal value under the same key of `b`. */
  lemma PropsBackward(a: Value, b: Value)
    requires a.Obj? && b.Obj? && DistinctKeys(a.props)
    requires PairwiseAgree(a, b)
    requires Fields(a, 0) == Fields(b, 0)
    ensures PropsMatch(a, b.props, 0)
  {
    var pa, pb := a.props, b.props;
    PropsMatchAll(a, pb, 0);
    FieldsAt(a, 0);
    FieldsAt(b, 0);
    assert pa[0..] == pa && pb[0..] == pb;
    forall i | 0 <= i < |pa|
      ensures HasKey(pb, pa[i].0) && DeepEqual(pa[i].1, pb[KeyIndex(pb, pa[i].0)].1)
    {
      KeyBackward(a, b, i);
    }
  }

  /** The step of `PropsBackward` for the key at position `i` of `a`. */
  lemma KeyBackward(a: Value, b: Value, i: nat)
    requires a.Obj? && b.Obj? && DistinctKeys(a.props) && i < |a.props|
    requires PairwiseAgree(a, b)
    requires forall k :: k in Fields(a, 0) <==> HasKey(a.props, k)
    requires forall k :: k in Fields(b, 0) <==> HasKey(b.props, k)
    requires forall k :: HasKey(a.props, k) ==> Fields(a, 0)[k] == ShapeOf(a.props[KeyIndex(a.props, k)].1)
    requires forall k :: HasKey(b.props, k) ==> Fields(b, 0)[k] == ShapeOf(b.props[KeyIndex(b.props, k)].1)
    requires Fields(a, 0) == Fields(b, 0)
    ensures HasKey(b.props, a.props[i].0)
    ensures DeepEqual(a.props[i].1, b.props[KeyIndex(b.props, a.props[i].0)].1)
  {
    var k := a.props[i].0;
    assert KeyIndex(a.props, k) == i;
    assert HasKey(a.props, k);
  }

  /** Under equal fields, each key of `b` is a key of `a`. */
  lemma KeysBackward(a: Value, b: Value)
    requires a.Obj? && b.Obj?
    requires Fields(a, 0) == Fields(b, 0)
    ensures KeysIncluded(b.props, a.props)
  {
    var pa, pb := a.props, b.props;
    FieldsAt(a, 0);
    FieldsAt(b, 0);
    assert pa[0..] == pa && pb[0..] == pb;
    forall j | 0 <= j < |pb| ensures HasKey(pa, pb[j].0) {
      var k := pb[j].0;
      assert KeyIndex(pb, k) <= j;
      assert k in Fields(a, 0);
    }
  }

  lemma ObjectsBackward(a: Value, b: Value)
    requires a.Obj? && b.Obj? && DistinctKeys(a.props)
    requires PairwiseAgree(a, b)
    requires Fields(a, 0) == Fields(b, 0)
    ensures DeepEqual(a, b)
  {
    PropsBackward(a, b);
    KeysBackward(a, b);
  }

  /** The array case of `DeepEqualIsShapeEquality`, given the claim for every pair of items. */
  lemma ArraysCase(a: Value, b: Value)
    requires a.Arr? && b.Arr? && |a.items| == |b.items|
    requires forall i :: 0 <= i < |a.items| ==>
      (DeepEqual(a.items[i], b.items[i]) <==> ShapeOf(a.items[i]) == ShapeOf(b.items[i]))
    ensures DeepEqual(a, b) <==> ItemShapes(a, 0) == ItemShapes(b, 0)
  {
    var xa, xb := a.items, b.items;
    ItemsMatchAll(a, xb, 0);
    var sa, sb := ItemShapes(a, 0), ItemShapes(b, 0);
    if sa == sb {
      forall i | 0 <= i < |xa| ensures DeepEqual(xa[i], xb[i]) {
        assert sa[i] == ShapeOf(xa[0 + i]) && sb[i] == ShapeOf(xb[0 + i]);
      }
    }
    if DeepEqual(a, b) {
      assert forall i :: 0 <= i < |xa| ==> sa[i] == sb[i];
    }
  }

  /**
   * On well-formed values, `deepEqual` holds exactly when the two values have
   * the same shape: the same primitive, arrays of pairwise deep-equal items,
   * or objects with the same key set and deep-equal values under each key.
   */
  lemma {:induction false} DeepEqualIsShapeEquality(a: Value, b: Value)
    requires WellFormed(a) && WellFormed(b)
    ensures DeepEqual(a, b) <==> ShapeOf(a) == ShapeOf(b)
    decreases a
  {
    match a
    case Obj(pa) =>
      if b.Obj? {
        forall i, j | 0 <= i < |pa| && 0 <= j < |b.props|
          ensures DeepEqual(pa[i].1, b.props[j].1) <==> ShapeOf(pa[i].1) == ShapeOf(b.props[j].1)
        {
          DeepEqualIsShapeEquality(pa[i].1, b.props[j].1);
        }
        if DeepEqual(a, b) {
          ObjectsForward(a, b);
        }
        if Fields(a, 0) == Fields(b, 0) {
          ObjectsBackward(a, b);
        }
      }
    case Arr(xa) =>
      if b.Arr? && |xa| == |b.items| {
        forall i | 0 <= i < |xa|
          ensures DeepEqual(xa[i], b.items[i]) <==> ShapeOf(xa[i]) == ShapeOf(b.items[i])
        {
          DeepEqualIsShapeEquality(xa[i], b.items[i]);
        }
        ArraysCase(a, b);
      } else if b.Arr? {
        assert |ItemShapes(a, 0)| != |ItemShapes(b, 0)|;
      }
    case _ =>
  }

  lemma DeepEqualReflexive(a: Value)
    requires WellFormed(a)
    ensures DeepEqual(a, a)
  {
    DeepEqualIsShapeEquality(a, a);
  }

  lemma DeepEqualSymmetric(a: Value, b: Value)
    requires WellFormed(a) && WellFormed(b)
    ensures DeepEqual(a, b) == DeepEqual(b, a)
  {
    DeepEqualIsShapeEquality(a, b);
    DeepEqualIsShapeEquality(b, a);
  }
}
