/** numpy arrays as a shape vector plus the elements in row-major (C) order. */
module NdArrays {

  /** Number of elements of an array of the given shape. */
  function Product(shape: seq<nat>): nat
  {
    if shape == [] then 1 else shape[0] * Product(shape[1..])
  }

  datatype NdArray<T> = NdArray(shape: seq<nat>, data: seq<T>) {
    /** The flat data holds exactly one element per position of the shape. */
    predicate Valid() { |data| == Product(shape) }

    function Rank(): nat { |shape| }
  }

  /** An array of the given shape filled with one value (numpy `ones`, `zeros`, `full`). */
  function Full<T>(shape: seq<nat>, v: T): (r: NdArray<T>)
    ensures r.Valid() && r.shape == shape
    ensures forall p :: 0 <= p < |r.data| ==> r.data[p] == v
  {
    NdArray(shape, seq(Product(shape), _ => v))
  }

  /** A multi-index that addresses an element of an array of the given shape. */
  predicate InBounds(idx: seq<nat>, shape: seq<nat>)
  {
    |idx| == |shape| && forall d :: 0 <= d < |idx| ==> idx[d] < shape[d]
  }

  /** Row-major position of a multi-index. */
  function Flatten(idx: seq<nat>, shape: seq<nat>): nat
    requires |idx| == |shape|
  {
    if shape == [] then 0 else idx[0] * Product(shape[1..]) + Flatten(idx[1..], shape[1..])
  }

  /** Multi-index of a row-major position. */
  function Unflatten(p: nat, shape: seq<nat>): (idx: seq<nat>)
    ensures |idx| == |shape|
    decreases |shape|
  {
    if shape == [] then []
    else
      var r := Product(shape[1..]);
      if r == 0 then [0] + Unflatten(0, shape[1..])
      else [p / r] + Unflatten(p % r, shape[1..])
  }

  /** A matrix shape holds rows times columns elements. */
  lemma ProductPair(a: nat, b: nat)
    ensures Product([a, b]) == a * b
  {
    assert [a, b][1..] == [b] && [b][1..] == [];
    assert Product([b]) == b * Product([]) == b;
  }

  lemma MulMonotone(a: nat, b: nat, r: nat)
    requires a <= b
    ensures a * r <= b * r
  {
  }

  lemma DivModOfSum(a: nat, q: nat, r: nat)
    requires q < r
    ensures (a * r + q) / r == a && (a * r + q) % r == q
  {
    var n := a * r + q;
    var d, m := n / r, n % r;
    assert n == d * r + m && 0 <= m < r;
    if d > a {
      MulMonotone(a + 1, d, r);
      assert false;
    } else if d < a {
      MulMonotone(d + 1, a, r);
      assert false;
    }
  }

  /** Every in-bounds multi-index has a position inside the data. */
  lemma {:induction false} FlattenInRange(idx: seq<nat>, shape: seq<nat>)
    requires InBounds(idx, shape)
    ensures Flatten(idx, shape) < Product(shape)
  {
    if shape != [] {
      var r := Product(shape[1..]);
      assert InBounds(idx[1..], shape[1..]) by {
        forall d | 0 <= d < |idx| - 1 ensures idx[1..][d] < shape[1..][d] {
          assert idx[1..][d] == idx[d + 1];
        }
      }
      FlattenInRange(idx[1..], shape[1..]);
      MulMonotone(idx[0] + 1, shape[0], r);
      assert (idx[0] + 1) * r == idx[0] * r + r;
    }
  }

  /** Every position inside the data has an in-bounds multi-index. */
  lemma {:induction false} UnflattenInBounds(p: nat, shape: seq<nat>)
    requires p < Product(shape)
    ensures InBounds(Unflatten(p, shape), shape)
    decreases |shape|
  {
    if shape != [] {
      var r := Product(shape[1..]);
      assert r != 0;
      UnflattenInBounds(p % r, shape[1..]);
      if p / r >= shape[0] {
        MulMonotone(shape[0], p / r, r);
        assert false;
      }
    }
  }

  /** Unflatten is a left inverse of Flatten on the positions of the data. */
  lemma {:induction false} FlattenUnflatten(p: nat, shape: seq<nat>)
    requires p < Product(shape)
    ensures Flatten(Unflatten(p, shape), shape) == p
    decreases |shape|
  {
    if shape != [] {
      var r := Product(shape[1..]);
      assert r != 0;
      var idx := Unflatten(p, shape);
      assert idx == [p / r] + Unflatten(p % r, shape[1..]);
      FlattenUnflatten(p % r, shape[1..]);
      assert idx[1..] == Unflatten(p % r, shape[1..]);
      assert Flatten(idx, shape) == (p / r) * r + p % r;
    }
  }

  /** Flatten is a left inverse of Unflatten on in-bounds multi-indices. */
  lemma {:induction false} UnflattenFlatten(idx: seq<nat>, shape: seq<nat>)
    requires InBounds(idx, shape)
    ensures Unflatten(Flatten(idx, shape), shape) == idx
  {
    if shape != [] {
      var r := Product(shape[1..]);
      FlattenInRange(idx[1..], shape[1..]);
      var q := Flatten(idx[1..], shape[1..]);
      DivModOfSum(idx[0], q, r);
      UnflattenFlatten(idx[1..], shape[1..]);
    }
  }

  /** Two in-bounds multi-indices with one position are the same. */
  lemma FlattenInjective(i: seq<nat>, j: seq<nat>, shape: seq<nat>)
    requires InBounds(i, shape) && InBounds(j, shape)
    requires Flatten(i, shape) == Flatten(j, shape)
    ensures i == j
  {
    UnflattenFlatten(i, shape);
    UnflattenFlatten(j, shape);
  }
}
