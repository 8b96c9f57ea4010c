/** The shape transforms of nujo's autodiff (`_Reshape`, `_Transpose`,
    `_ConstPad`, `_Im2col`): their forward and backward passes on row-major
    arrays, and the construction-time checks and index tables. */
module Transform {
  import opened Wrappers
  import opened Builtins
  import opened NdArrays

  // ---------------------------------------------------------------- Reshape

  /** numpy `reshape`: the same elements, in the same row-major order, under
      a new shape; numpy refuses a shape with a different number of elements. */
  function ReshapeTo<T>(x: NdArray<T>, shape: seq<nat>): (r: Result<NdArray<T>>)
    ensures r.Ok? <==> |x.data| == Product(shape)
    ensures r.Ok? ==> r.value.Valid() && r.value.shape == shape && r.value.data == x.data
  {
    if |x.data| == Product(shape) then Ok(NdArray(shape, x.data)) else Err(ValueError)
  }

  /** numpy `reshape(*shape)`: the shape is passed as separate arguments, and
      `reshape()` with none raises TypeError. */
  function ReshapeStar<T>(x: NdArray<T>, shape: seq<nat>): (r: Result<NdArray<T>>)
    ensures shape == [] ==> r == Err(TypeError)
    ensures shape != [] ==> r == ReshapeTo(x, shape)
  {
    if shape == [] then Err(TypeError) else ReshapeTo(x, shape)
  }

  /** `_Reshape`: the target shape, and the input shape captured at construction. */
  datatype Reshape = Reshape(shape: seq<nat>, inputShape: seq<nat>)

  function NewReshape<T>(input: NdArray<T>, shape: seq<nat>): (op: Reshape)
    ensures op.shape == shape && op.inputShape == input.shape
  {
    Reshape(shape, input.shape)
  }

  function ReshapeForward<T>(op: Reshape, x: NdArray<T>): Result<NdArray<T>>
  {
    ReshapeStar(x, op.shape)
  }

  function ReshapeBackward<T>(op: Reshape, g: NdArray<T>): Result<NdArray<T>>
  {
    ReshapeStar(g, op.inputShape)
  }

  /** The forward pass succeeds exactly for a non-empty shape of the input's
      size; then the backward pass restores the input (shape and row-major
      contents) when it has at least one axis, and raises TypeError for a
      0-d input, whose empty shape unpacks to `reshape()`. */
  lemma ReshapeRoundTrip<T>(x: NdArray<T>, shape: seq<nat>)
    requires x.Valid()
    ensures var op := NewReshape(x, shape);
      var y := ReshapeForward(op, x);
      && (y.Ok? <==> shape != [] && Product(shape) == Product(x.shape))
      && (y.Ok? && x.Rank() > 0 ==> ReshapeBackward(op, y.value) == Ok(x))
      && (y.Ok? && x.Rank() == 0 ==> ReshapeBackward(op, y.value) == Err(TypeError))
  {
  }

  /** A 0-d input reshaped to `(1,)` goes forward, but its gradient cannot
      come back. */
  lemma ScalarReshapeBackwardFails(x: NdArray<int>)
    requires x == NdArray([], [7])
    ensures var op := NewReshape(x, [1]);
      && ReshapeForward(op, x) == Ok(NdArray([1], [7]))
      && ReshapeBackward(op, ReshapeForward(op, x).value) == Err(TypeError)
  {
  }

  /** Passing the shapes whole (`reshape(self.shape)`,
      `reshape(self._input_shape)`) round-trips every input, 0-d included. */
  lemma CorrectedReshapeRoundTrip<T>(x: NdArray<T>, shape: seq<nat>)
    requires x.Valid()
    ensures ReshapeTo(x, shape).Ok? <==> Product(shape) == Product(x.shape)
    ensures ReshapeTo(x, shape).Ok? ==> ReshapeTo(ReshapeTo(x, shape).value, x.shape) == Ok(x)
  {
  }

  // -------------------------------------------------------------- Transpose

  /** `p` lists each of `0 .. |p|-1` exactly once. */
  predicate IsPerm(p: seq<nat>)
  {
    && (forall i :: 0 <= i < |p| ==> p[i] < |p|)
    && (forall i, j :: 0 <= i < j < |p| ==> p[i] != p[j])
  }

  /** `[s[perm[0]], s[perm[1]], ...]`. */
  function Permute<T>(s: seq<T>, perm: seq<nat>): (r: seq<T>)
    requires forall k :: 0 <= k < |perm| ==> perm[k] < |s|
    ensures |r| == |perm| && forall k :: 0 <= k < |perm| ==> r[k] == s[perm[k]]
  {
    seq(|perm|, k requires 0 <= k < |perm| => s[perm[k]])
  }

  /** `s.index(v)`, or `|s|` when `v` does not occur. */
  function IndexOf(s: seq<nat>, v: nat): (k: nat)
    ensures k <= |s| && (k < |s| ==> s[k] == v)
    ensures forall j :: 0 <= j < k ==> s[j] != v
  {
    if s == [] then 0 else if s[0] == v then 0 else 1 + IndexOf(s[1..], v)
  }

  /** Insert index `i` into `s` after every index whose key is not greater:
      one step of a stable sort of indices by key. */
  function InsertByKey(s: seq<nat>, i: nat, key: seq<int>): (r: seq<nat>)
    requires i < |key| && forall k :: 0 <= k < |s| ==> s[k] < |key|
    ensures |r| == |s| + 1 && forall k :: 0 <= k < |r| ==> r[k] < |key|
    ensures forall v :: v in r <==> v == i || v in s
  {
    if s == [] then [i]
    else if key[i] < key[s[0]] then [i] + s
    else [s[0]] + InsertByKey(s[1..], i, key)
  }

  /** The first `n` indices sorted stably by key. */
  function SortIndices(key: seq<int>, n: nat): (r: seq<nat>)
    requires n <= |key|
    ensures |r| == n && forall k :: 0 <= k < n ==> r[k] < |key|
  {
    if n == 0 then [] else InsertByKey(SortIndices(key, n - 1), n - 1, key)
  }

  /** `sorted(range(len(dims)), key=lambda idx: dims[idx])`. */
  function ArgSort(dims: seq<int>): (r: seq<nat>)
    ensures |r| == |dims| && forall k :: 0 <= k < |r| ==> r[k] < |dims|
  {
    SortIndices(dims, |dims|)
  }

  predicate SortedByKey(s: seq<nat>, key: seq<int>)
    requires forall k :: 0 <= k < |s| ==> s[k] < |key|
  {
    forall a, b :: 0 <= a < b < |s| ==> key[s[a]] <= key[s[b]]
  }

  predicate Distinct(s: seq<nat>)
  {
    forall a, b :: 0 <= a < b < |s| ==> s[a] != s[b]
  }

  lemma {:induction false} InsertByKeySorted(s: seq<nat>, i: nat, key: seq<int>)
    requires i < |key| && forall k :: 0 <= k < |s| ==> s[k] < |key|
    requires SortedByKey(s, key)
    ensures SortedByKey(InsertByKey(s, i, key), key)
  {
    if s != [] && key[i] >= key[s[0]] {
      var t := InsertByKey(s[1..], i, key);
      InsertByKeySorted(s[1..], i, key);
      var r := [s[0]] + t;
      forall a, b | 0 <= a < b < |r|
        ensures key[r[a]] <= key[r[b]]
      {
        if a == 0 {
          assert r[b] in t;
          assert r[b] == i || r[b] in s[1..];
        }
      }
    }
  }

  lemma {:induction false} InsertByKeyDistinct(s: seq<nat>, i: nat, key: seq<int>)
    requires i < |key| && forall k :: 0 <= k < |s| ==> s[k] < |key|
    requires Distinct(s) && i !in s
    ensures Distinct(InsertByKey(s, i, key))
  {
    if s != [] && key[i] >= key[s[0]] {
      InsertByKeyDistinct(s[1..], i, key);
      var t := InsertByKey(s[1..], i, key);
      assert s[0] !in s[1..];
      assert s[0] !in t;
      var r := [s[0]] + t;
      forall a, b | 0 <= a < b < |r|
        ensures r[a] != r[b]
      {
        if a == 0 {
          assert r[b] in t;
        } else {
          assert r[a] == t[a - 1] && r[b] == t[b - 1];
        }
      }
    }
  }

  /** The sorted indices are `0 .. n-1`, each once, in key order. */
  lemma {:induction false} SortIndicesSpec(key: seq<int>, n: nat)
    requires n <= |key|
    ensures var r := SortIndices(key, n);
      && SortedByKey(r, key) && Distinct(r)
      && forall v: nat :: v in r <==> v < n
  {
    if n > 0 {
      var prev := SortIndices(key, n - 1);
      SortIndicesSpec(key, n - 1);
      InsertByKeySorted(prev, n - 1, key);
      InsertByKeyDistinct(prev, n - 1, key);
      var r := InsertByKey(prev, n - 1, key);
      assert SortIndices(key, n) == r;
      forall v: nat
        ensures v in r <==> v < n
      {
        assert v in r <==> v == n - 1 || v in prev;
      }
    }
  }

  /** In a strictly increasing sequence of naturals, entries at least `b - a`
      apart in position are at least `b - a` apart in value. */
  lemma {:induction false} IncreasingGap(s: seq<nat>, a: nat, b: nat)
    requires forall i, j :: 0 <= i < j < |s| ==> s[i] < s[j]
    requires a <= b < |s|
    ensures s[a] + (b - a) <= s[b]
    decreases b - a
  {
    if a < b {
      IncreasingGap(s, a + 1, b);
    }
  }

  /** A strictly increasing sequence of `n` naturals below `n` is `0 .. n-1`. */
  lemma IncreasingBelowIsIdentity(s: seq<nat>)
    requires forall i, j :: 0 <= i < j < |s| ==> s[i] < s[j]
    requires forall i :: 0 <= i < |s| ==> s[i] < |s|
    ensures forall k :: 0 <= k < |s| ==> s[k] == k
  {
    forall k | 0 <= k < |s|
      ensures s[k] == k
    {
      IncreasingGap(s, 0, k);
      IncreasingGap(s, k, |s| - 1);
    }
  }

  /** `_detranspose_dims` undoes `dims`: for a permutation `dims`, the stable
      argsort `det` satisfies `dims[det[k]] == k` for every axis `k`. */
  lemma ArgSortInverts(dims: seq<nat>)
    requires IsPerm(dims)
    ensures var det := ArgSort(dims);
      forall k :: 0 <= k < |dims| ==> dims[det[k]] == k
  {
    var det := ArgSort(dims);
    SortIndicesSpec(dims, |dims|);
    var s := seq(|dims|, k requires 0 <= k < |dims| => dims[det[k]]);
    forall i, j | 0 <= i < j < |s|
      ensures s[i] < s[j]
    {
      assert det[i] != det[j];
    }
    IncreasingBelowIsIdentity(s);
    forall k | 0 <= k < |dims|
      ensures dims[det[k]] == k
    {
      assert s[k] == dims[det[k]];
    }
  }

  /** Every axis occurs in a permutation. */
  lemma PermCovers(p: seq<nat>, v: nat)
    requires IsPerm(p) && v < |p|
    ensures IndexOf(p, v) < |p|
  {
    ArgSortInverts(p);
    var det := ArgSort(p);
    assert p[det[v]] == v;
  }

  /** The inverse permutation, defined by search rather than by sorting. */
  function Inverse(p: seq<nat>): (q: seq<nat>)
    requires IsPerm(p)
    ensures |q| == |p| && forall k :: 0 <= k < |p| ==> q[k] < |p| && p[q[k]] == k
  {
    PermCoversAll(p);
    seq(|p|, k requires 0 <= k < |p| => IndexOf(p, k))
  }

  lemma PermCoversAll(p: seq<nat>)
    requires IsPerm(p)
    ensures forall v :: 0 <= v < |p| ==> IndexOf(p, v) < |p|
  {
    forall v | 0 <= v < |p|
      ensures IndexOf(p, v) < |p|
    {
      PermCovers(p, v);
    }
  }

  lemma InverseIsPerm(p: seq<nat>)
    requires IsPerm(p)
    ensures IsPerm(Inverse(p)) && Inverse(Inverse(p)) == p
  {
    var q := Inverse(p);
    assert IsPerm(q);
    forall k | 0 <= k < |p|
      ensures Inverse(q)[k] == p[k]
    {
      var j := Inverse(q)[k];
      assert q[j] == k;
      assert p[q[j]] == j;
    }
  }

  /** For a permutation, the stable argsort is the inverse permutation. */
  lemma ArgSortIsInverse(dims: seq<nat>)
    requires IsPerm(dims)
    ensures ArgSort(dims) == Inverse(dims)
  {
    ArgSortInverts(dims);
    var det, inv := ArgSort(dims), Inverse(dims);
    forall k | 0 <= k < |dims|
      ensures det[k] == inv[k]
    {
      assert dims[det[k]] == dims[inv[k]];
    }
  }

  /** The source multi-index that transposing by `dims` reads for output `i`. */
  lemma TransposeSourceInBounds(shape: seq<nat>, dims: seq<nat>, i: seq<nat>)
    requires IsPerm(dims) && |dims| == |shape|
    requires InBounds(i, Permute(shape, dims))
    ensures InBounds(Permute(i, Inverse(dims)), shape)
  {
    var inv := Inverse(dims);
    forall d | 0 <= d < |shape|
      ensures Permute(i, inv)[d] < shape[d]
    {
      assert dims[inv[d]] == d;
    }
  }

  /** numpy `transpose(*dims)`: output axis `k` is input axis `dims[k]`;
      numpy refuses `dims` that are not a permutation of the axes. */
  function Transpose<T>(x: NdArray<T>, dims: seq<nat>): (r: Result<NdArray<T>>)
    requires x.Valid()
    ensures r.Ok? <==> |dims| == x.Rank() && IsPerm(dims)
    ensures r.Ok? ==> r.value.Valid() && r.value.shape == Permute(x.shape, dims)
  {
    if |dims| != x.Rank() || !IsPerm(dims) then Err(ValueError)
    else
      var shape := Permute(x.shape, dims);
      Ok(NdArray(shape, seq(Product(shape), p requires 0 <= p < Product(shape) =>
        UnflattenInBounds(p, shape);
        TransposeSourceInBounds(x.shape, dims, Unflatten(p, shape));
        FlattenInRange(Permute(Unflatten(p, shape), Inverse(dims)), x.shape);
        x.data[Flatten(Permute(Unflatten(p, shape), Inverse(dims)), x.shape)])))
  }

  /** What transposing means element by element: the input element at `i`
      lands at the multi-index `[i[dims[0]], i[dims[1]], ...]`. */
  lemma TransposeMoves<T>(x: NdArray<T>, dims: seq<nat>, i: seq<nat>)
    requires x.Valid() && |dims| == x.Rank() && IsPerm(dims) && InBounds(i, x.shape)
    ensures var y := Transpose(x, dims).value;
      && InBounds(Permute(i, dims), y.shape)
      && Flatten(Permute(i, dims), y.shape) < |y.data| && Flatten(i, x.shape) < |x.data|
      && y.data[Flatten(Permute(i, dims), y.shape)] == x.data[Flatten(i, x.shape)]
  {
    var y := Transpose(x, dims).value;
    var j := Permute(i, dims);
    assert InBounds(j, y.shape);
    FlattenInRange(j, y.shape);
    FlattenInRange(i, x.shape);
    UnflattenFlatten(j, y.shape);
    var inv := Inverse(dims);
    assert Permute(j, inv) == i by {
      forall d | 0 <= d < |i|
        ensures Permute(j, inv)[d] == i[d]
      {
        assert dims[inv[d]] == d;
      }
    }
  }

  /** Transposing by a permutation and then by its inverse gives back the input. */
  lemma TransposeInverts<T>(x: NdArray<T>, dims: seq<nat>)
    requires x.Valid() && |dims| == x.Rank() && IsPerm(dims)
    ensures Transpose(Transpose(x, dims).value, Inverse(dims)) == Ok(x)
  {
    InverseIsPerm(dims);
    var y := Transpose(x, dims).value;
    var inv := Inverse(dims);
    var z := Transpose(y, inv).value;
    assert z.shape == x.shape by {
      forall d | 0 <= d < |x.shape|
        ensures z.shape[d] == x.shape[d]
      {
        assert dims[inv[d]] == d;
      }
    }
    forall p | 0 <= p < |x.data|
      ensures z.data[p] == x.data[p]
    {
      var i := Unflatten(p, x.shape);
      UnflattenInBounds(p, x.shape);
      FlattenUnflatten(p, x.shape);
      TransposeMoves(x, dims, i);
      assert Inverse(inv) == dims;
    }
    assert |z.data| == |x.data|;
    assert z.data == x.data;
  }

  /** The axes in reverse order, `reversed(range(n))`. */
  function Reversed(n: nat): (r: seq<nat>)
    ensures |r| == n && forall k :: 0 <= k < n ==> r[k] == n - 1 - k
  {
    seq(n, k requires 0 <= k < n => n - 1 - k)
  }

  /** Reversing the axes is a permutation and its own inverse. */
  lemma ReversedSelfInverse(n: nat)
    ensures IsPerm(Reversed(n)) && Inverse(Reversed(n)) == Reversed(n)
  {
    var r := Reversed(n);
    assert IsPerm(r);
    var q := Inverse(r);
    forall k | 0 <= k < n
      ensures q[k] == r[k]
    {
      assert r[q[k]] == k;
    }
  }

  /** numpy accepts an axis `a` of an `n`-d array when `-n <= a < n`. */
  predicate AxesInRange(dims: seq<int>, n: nat)
  {
    forall k :: 0 <= k < |dims| ==> -(n as int) <= dims[k] < n
  }

  /** numpy's normalisation of axes: a negative axis counts from the end. */
  function Normalise(dims: seq<int>, n: nat): (r: seq<nat>)
    requires AxesInRange(dims, n)
    ensures |r| == |dims|
    ensures forall k :: 0 <= k < |dims| ==> r[k] < n && (r[k] == dims[k] || r[k] == dims[k] + n)
  {
    seq(|dims|, k requires 0 <= k < |dims| => if dims[k] < 0 then dims[k] + n else dims[k])
  }

  /** numpy `transpose(*axes)`: with no axes the axes are reversed; otherwise
      there must be one axis per dimension, each in range, and after
      normalisation each dimension exactly once. Every refusal is a
      ValueError (`AxisError` is one). */
  function TransposeAxes<T>(x: NdArray<T>, axes: seq<int>): (r: Result<NdArray<T>>)
    requires x.Valid()
    ensures axes == [] ==> r.Ok? && r == Transpose(x, Reversed(x.Rank()))
    ensures axes != [] ==>
      (r.Ok? <==> |axes| == x.Rank() && AxesInRange(axes, x.Rank()) && IsPerm(Normalise(axes, x.Rank())))
    ensures r.Ok? && axes != [] ==> r == Transpose(x, Normalise(axes, x.Rank()))
    ensures r.Err? ==> r.error == ValueError
  {
    ReversedSelfInverse(x.Rank());
    if axes == [] then Transpose(x, Reversed(x.Rank()))
    else if |axes| != x.Rank() || !AxesInRange(axes, x.Rank()) then Err(ValueError)
    else Transpose(x, Normalise(axes, x.Rank()))
  }

  /** `_Transpose`: its `dims`, and `_detranspose_dims` computed at construction. */
  datatype TransposeOp = TransposeOp(dims: seq<int>, detransposeDims: seq<nat>)

  /** `_Transpose.__init__`: the default `dims` is a `reversed` iterator, and
      taking its `len` raises TypeError; explicit `dims` are kept as given and
      sorted by their raw values. */
  function NewTranspose(dims: Option<seq<int>>): (r: Result<TransposeOp>)
    ensures dims.None? <==> r.Err?
    ensures r.Err? ==> r.error == TypeError
    ensures r.Ok? ==> r.value.dims == dims.value && r.value.detransposeDims == ArgSort(dims.value)
  {
    if dims.None? then Err(TypeError) else Ok(TransposeOp(dims.value, ArgSort(dims.value)))
  }

  function TransposeForward<T>(op: TransposeOp, x: NdArray<T>): Result<NdArray<T>>
    requires x.Valid()
  {
    TransposeAxes(x, op.dims)
  }

  function TransposeBackward<T>(op: TransposeOp, g: NdArray<T>): Result<NdArray<T>>
    requires g.Valid()
  {
    TransposeAxes(g, op.detransposeDims)
  }

  /** Axes numpy accepts are undone by the argsort of their normalised form
      (no axes by no axes: reversing twice). */
  lemma AxesRoundTrip<T>(x: NdArray<T>, axes: seq<int>, det: seq<nat>)
    requires x.Valid() && TransposeAxes(x, axes).Ok?
    requires axes == [] ==> det == []
    requires axes != [] ==> AxesInRange(axes, x.Rank()) && det == ArgSort(Normalise(axes, x.Rank()))
    ensures TransposeAxes(TransposeAxes(x, axes).value, det) == Ok(x)
  {
    if axes == [] {
      ReversedSelfInverse(x.Rank());
      TransposeInverts(x, Reversed(x.Rank()));
    } else {
      var n := Normalise(axes, x.Rank());
      ArgSortIsInverse(n);
      TransposeInverts(x, n);
      InverseIsPerm(n);
      assert Normalise(det, x.Rank()) == det;
    }
  }

  /** For no `dims` or non-negative ones, transposing by `dims` and then by
      `_detranspose_dims` gives back the input. */
  lemma TransposeRoundTrip<T>(x: NdArray<T>, dims: seq<int>)
    requires x.Valid()
    ensures var op := NewTranspose(Some(dims)).value;
      && ((forall k :: 0 <= k < |dims| ==> dims[k] >= 0) && TransposeForward(op, x).Ok? ==>
            TransposeBackward(op, TransposeForward(op, x).value) == Ok(x))
  {
    var op := NewTranspose(Some(dims)).value;
    if (forall k :: 0 <= k < |dims| ==> dims[k] >= 0) && TransposeForward(op, x).Ok? {
      if dims != [] {
        assert Normalise(dims, x.Rank()) == dims;
      }
      AxesRoundTrip(x, dims, op.detransposeDims);
    }
  }

  /** With a negative axis the raw sort is not the inverse: `dims == (-1, 0)`
      on a 2x3 array sorts to `(0, 1)`, and the gradient comes back 3x2. */
  lemma NegativeAxesBreakRoundTrip(x: NdArray<int>)
    requires x == NdArray([2, 3], [0, 1, 2, 3, 4, 5])
    ensures var op := NewTranspose(Some([-1, 0])).value;
      && op.detransposeDims == [0, 1]
      && TransposeForward(op, x).Ok?
      && TransposeForward(op, x).value.shape == [3, 2]
      && TransposeBackward(op, TransposeForward(op, x).value).Ok?
      && TransposeBackward(op, TransposeForward(op, x).value).value.shape == [3, 2]
  {
    var op := NewTranspose(Some([-1, 0])).value;
    assert op.detransposeDims == [0, 1];
    assert Normalise([-1, 0], 2) == [1, 0];
    var y := TransposeForward(op, x).value;
    assert y.shape == [3, 2];
    assert Normalise([0, 1], 2) == [0, 1];
  }

  /** `_detranspose_dims` as intended: the argsort of the axes numpy actually
      uses, so of the normalised `dims`. */
  function NewTransposeNormalised(rank: nat, dims: seq<int>): (op: TransposeOp)
    ensures op.dims == dims
    ensures AxesInRange(dims, rank) ==> op.detransposeDims == ArgSort(Normalise(dims, rank))
  {
    TransposeOp(dims, if AxesInRange(dims, rank) then ArgSort(Normalise(dims, rank)) else ArgSort(dims))
  }

  /** With the normalised argsort, every forward pass that succeeds is undone
      by the backward pass, for any axes numpy accepts. */
  lemma CorrectedTransposeRoundTrip<T>(x: NdArray<T>, dims: seq<int>)
    requires x.Valid()
    ensures var op := NewTransposeNormalised(x.Rank(), dims);
      TransposeForward(op, x).Ok? ==> TransposeBackward(op, TransposeForward(op, x).value) == Ok(x)
  {
    var op := NewTransposeNormalised(x.Rank(), dims);
    if TransposeForward(op, x).Ok? {
      AxesRoundTrip(x, dims, op.detransposeDims);
    }
  }

  // --------------------------------------------------------------- ConstPad

  /** One `(before, after)` pair of `_ConstPad.padding`. */
  datatype PadWidth = PadWidth(before: nat, after: nat)

  /** `_ConstPad`: a padding pair per axis and the constant to pad with. */
  datatype ConstPad<T> = ConstPad(padding: seq<PadWidth>, value: T)

  /** `_ConstPad.__init__`: the constructor asserts one pair per input axis. */
  function NewConstPad<T>(input: NdArray<T>, padding: seq<PadWidth>, value: T): (r: Result<ConstPad<T>>)
    ensures r.Ok? <==> |padding| == input.Rank()
    ensures r.Ok? ==> r.value.padding == padding && r.value.value == value
    ensures r.Err? ==> r.error == AssertionError
  {
    if |padding| == input.Rank() then Ok(ConstPad(padding, value)) else Err(AssertionError)
  }

  function PaddedShape(shape: seq<nat>, padding: seq<PadWidth>): (r: seq<nat>)
    requires |padding| == |shape|
    ensures |r| == |shape|
    ensures forall d :: 0 <= d < |shape| ==> r[d] == padding[d].before + shape[d] + padding[d].after
  {
    seq(|shape|, d requires 0 <= d < |shape| => padding[d].before + shape[d] + padding[d].after)
  }

  /** Multi-index `i` moved past the leading padding of every axis. */
  function Shift(i: seq<nat>, padding: seq<PadWidth>): (j: seq<nat>)
    requires |padding| == |i|
    ensures |j| == |i| && forall d :: 0 <= d < |i| ==> j[d] == i[d] + padding[d].before
  {
    seq(|i|, d requires 0 <= d < |i| => i[d] + padding[d].before)
  }

  /** Multi-index `j` of the padded array falls inside the copy of the input. */
  predicate Interior(j: seq<nat>, shape: seq<nat>, padding: seq<PadWidth>)
    requires |j| == |shape| == |padding|
  {
    forall d :: 0 <= d < |j| ==> padding[d].before <= j[d] < padding[d].before + shape[d]
  }

  /** The input multi-index an interior multi-index of the padded array copies. */
  function Unshift(j: seq<nat>, shape: seq<nat>, padding: seq<PadWidth>): (i: seq<nat>)
    requires |j| == |shape| == |padding| && Interior(j, shape, padding)
    ensures InBounds(i, shape) && Shift(i, padding) == j
  {
    seq(|j|, d requires 0 <= d < |j| => j[d] - padding[d].before)
  }

  /** numpy `pad(x, padding, constant_values=v)`. */
  function Pad<T>(x: NdArray<T>, padding: seq<PadWidth>, v: T): (y: NdArray<T>)
    requires x.Valid() && |padding| == x.Rank()
    ensures y.Valid() && y.shape == PaddedShape(x.shape, padding)
  {
    var ps := PaddedShape(x.shape, padding);
    NdArray(ps, seq(Product(ps), p requires 0 <= p < Product(ps) =>
      var j := Unflatten(p, ps);
      if Interior(j, x.shape, padding) then
        FlattenInRange(Unshift(j, x.shape, padding), x.shape);
        x.data[Flatten(Unshift(j, x.shape, padding), x.shape)]
      else v))
  }

  /** Padding keeps every input element, moved by the leading padding of each axis. */
  lemma PadInterior<T>(x: NdArray<T>, padding: seq<PadWidth>, v: T, i: seq<nat>)
    requires x.Valid() && |padding| == x.Rank() && InBounds(i, x.shape)
    ensures var y := Pad(x, padding, v);
      && InBounds(Shift(i, padding), y.shape)
      && Flatten(Shift(i, padding), y.shape) < |y.data| && Flatten(i, x.shape) < |x.data|
      && y.data[Flatten(Shift(i, padding), y.shape)] == x.data[Flatten(i, x.shape)]
  {
    var y := Pad(x, padding, v);
    var j := Shift(i, padding);
    assert InBounds(j, y.shape);
    FlattenInRange(j, y.shape);
    FlattenInRange(i, x.shape);
    UnflattenFlatten(j, y.shape);
    assert Interior(j, x.shape, padding);
    assert Unshift(j, x.shape, padding) == i;
  }

  /** Every cell of the padded array outside the copy of the input holds `v`. */
  lemma PadBorder<T>(x: NdArray<T>, padding: seq<PadWidth>, v: T, j: seq<nat>)
    requires x.Valid() && |padding| == x.Rank()
    requires InBounds(j, PaddedShape(x.shape, padding)) && !Interior(j, x.shape, padding)
    ensures var y := Pad(x, padding, v);
      Flatten(j, y.shape) < |y.data| && y.data[Flatten(j, y.shape)] == v
  {
    var y := Pad(x, padding, v);
    FlattenInRange(j, y.shape);
    UnflattenFlatten(j, y.shape);
  }

  function ConstPadForward<T>(op: ConstPad<T>, x: NdArray<T>): (y: NdArray<T>)
    requires x.Valid() && |op.padding| == x.Rank()
  {
    Pad(x, op.padding, op.value)
  }

  /** Python's `output[before:]` when `after == 0`, else `output[before:-after]`,
      on the leading axis; indexing a 0-d array raises IndexError. */
  function SliceLeading<T>(g: NdArray<T>, w: PadWidth): (r: Result<NdArray<T>>)
    requires g.Valid()
    ensures r.Ok? <==> g.Rank() > 0
    ensures r.Ok? ==> && r.value.Valid() && r.value.Rank() == g.Rank()
                      && r.value.shape[1..] == g.shape[1..]
                      && r.value.shape[0] == SliceLength(g.shape[0], w)
  {
    if g.Rank() == 0 then Err(IndexError)
    else
      var n, rest := g.shape[0], Product(g.shape[1..]);
      var start := if w.before < n then w.before else n;
      var len := SliceLength(n, w);
      assert start + len <= n;
      MulMonotone(start + len, n, rest);
      assert (start + len) * rest == start * rest + len * rest;
      Ok(NdArray([len] + g.shape[1..], g.data[start * rest .. start * rest + len * rest]))
  }

  /** Length of Python's slice `[before:]` (when `after == 0`) or
      `[before:-after]` of a sequence of length `n`: bounds are clamped. */
  function SliceLength(n: nat, w: PadWidth): (len: nat)
    ensures (if w.before < n then w.before else n) + len <= n
    ensures w.before + w.after <= n ==> len == n - w.before - w.after
  {
    var start := if w.before < n then w.before else n;
    var stop := if w.after == 0 then n else if w.after <= n then n - w.after else 0;
    if stop > start then stop - start else 0
  }

  /** The as-written backward pass: every padding pair, in turn, is stripped
      from the leading axis. */
  function StripLeading<T>(g: NdArray<T>, padding: seq<PadWidth>): (r: Result<NdArray<T>>)
    requires g.Valid()
    ensures r.Ok? ==> r.value.Valid()
    decreases |padding|
  {
    if padding == [] then Ok(g)
    else
      match SliceLeading(g, padding[0])
      case Err(e) => Err(e)
      case Ok(h) => StripLeading(h, padding[1..])
  }

  /** `_ConstPad.backward` as written: the loop reassigns `output` once per pair. */
  method ConstPadBackward<T>(op: ConstPad<T>, g: NdArray<T>) returns (r: Result<NdArray<T>>)
    requires g.Valid()
    ensures r == StripLeading(g, op.padding)
  {
    var output := g;
    var i := 0;
    while i < |op.padding|
      invariant 0 <= i <= |op.padding| && output.Valid()
      invariant StripLeading(output, op.padding[i..]) == StripLeading(g, op.padding)
    {
      assert op.padding[i..][1..] == op.padding[i + 1..];
      var sliced := SliceLeading(output, op.padding[i]);
      if sliced.Err? {
        return sliced;
      }
      output := sliced.value;
      i := i + 1;
    }
    r := Ok(output);
  }

  /** On a 1-D input the as-written backward pass strips exactly the padding:
      it returns the unpadded segment. */
  lemma ConstPadBackward1D<T>(x: NdArray<T>, w: PadWidth, v: T)
    requires x.Valid() && x.Rank() == 1
    ensures StripLeading(Pad(x, [w], v), [w]) == Ok(x)
  {
    var y := Pad(x, [w], v);
    var n := x.shape[0];
    assert Product(x.shape[1..]) == 1 && Product(y.shape[1..]) == 1;
    var h := SliceLeading(y, w).value;
    assert [w][1..] == [];
    assert StripLeading(y, [w]) == StripLeading(h, []) == Ok(h);
    assert h.shape == x.shape;
    assert h.data == y.data[w.before .. w.before + n];
    forall k | 0 <= k < n
      ensures h.data[k] == x.data[k]
    {
      PadInterior1D(x, w, v, k);
    }
    assert h.data == x.data;
  }

  /** On a 1-D input, element `k` lands at `k + before`. */
  lemma PadInterior1D<T>(x: NdArray<T>, w: PadWidth, v: T, k: nat)
    requires x.Valid() && x.Rank() == 1 && k < x.shape[0]
    ensures var y := Pad(x, [w], v);
      k + w.before < |y.data| && k < |x.data| && y.data[k + w.before] == x.data[k]
  {
    var y := Pad(x, [w], v);
    PadInterior(x, [w], v, [k]);
    assert Shift([k], [w]) == [k + w.before];
    assert Product(x.shape[1..]) == 1 && Product(y.shape[1..]) == 1;
    assert Flatten([k + w.before], y.shape) == k + w.before;
    assert Flatten([k], x.shape) == k;
  }

  /** On a 2-D input the as-written backward pass slices the leading axis
      twice and never touches the second one: a 1x1 input padded by one cell
      on every side comes back with shape (0, 3), not (1, 1). */
  lemma ConstPadBackwardLosesShape(x: NdArray<int>)
    requires x.Valid() && x.shape == [1, 1]
    ensures var padding := [PadWidth(1, 1), PadWidth(1, 1)];
      var r := StripLeading(Pad(x, padding, 0), padding);
      r.Ok? && r.value.shape == [0, 3] && r.value != x
  {
    var padding := [PadWidth(1, 1), PadWidth(1, 1)];
    var y := Pad(x, padding, 0);
    assert y.shape == [3, 3];
    var h1 := SliceLeading(y, padding[0]).value;
    assert h1.shape == [1, 3];
    var h2 := SliceLeading(h1, padding[1]).value;
    assert h2.shape == [0, 3];
    assert padding[1..] == [padding[1]] && padding[1..][1..] == [];
    assert StripLeading(h1, padding[1..]) == StripLeading(h2, []);
    assert StripLeading(y, padding) == Ok(h2);
  }

  /** The corrected backward pass: strip pair `d` from axis `d`. */
  function Unpad<T>(g: NdArray<T>, padding: seq<PadWidth>): (x: NdArray<T>)
    requires g.Valid() && |padding| == g.Rank()
    requires forall d :: 0 <= d < |padding| ==> padding[d].before + padding[d].after <= g.shape[d]
    ensures x.Valid() && |x.shape| == |g.shape|
    ensures forall d :: 0 <= d < |padding| ==>
      x.shape[d] == g.shape[d] - padding[d].before - padding[d].after
  {
    var s := seq(|g.shape|, d requires 0 <= d < |g.shape| =>
      g.shape[d] - padding[d].before - padding[d].after);
    NdArray(s, seq(Product(s), p requires 0 <= p < Product(s) =>
      UnflattenInBounds(p, s);
      assert InBounds(Shift(Unflatten(p, s), padding), g.shape);
      FlattenInRange(Shift(Unflatten(p, s), padding), g.shape);
      g.data[Flatten(Shift(Unflatten(p, s), padding), g.shape)]))
  }

  /** The corrected backward pass undoes the forward pass on every rank. */
  lemma UnpadPad<T>(x: NdArray<T>, padding: seq<PadWidth>, v: T)
    requires x.Valid() && |padding| == x.Rank()
    ensures Unpad(Pad(x, padding, v), padding) == x
  {
    var y := Pad(x, padding, v);
    var z := Unpad(y, padding);
    assert z.shape == x.shape;
    forall p | 0 <= p < |x.data|
      ensures z.data[p] == x.data[p]
    {
      UnflattenInBounds(p, x.shape);
      FlattenUnflatten(p, x.shape);
      PadInterior(x, padding, v, Unflatten(p, x.shape));
    }
    assert z.data == x.data;
  }

  // ----------------------------------------------------------------- Im2col

  lemma DivBelow(a: nat, n: nat, k: nat)
    requires a < n * k
    ensures k > 0 && a / k < n
  {
    if k == 0 {
      assert false;
    } else if a / k >= n {
      MulMonotone(n, a / k, k);
      assert false;
    }
  }

  lemma DivBelowAll(n: nat, k: nat)
    ensures forall a :: 0 <= a < n * k ==> k > 0 && a / k < n
  {
    forall a | 0 <= a < n * k
      ensures k > 0 && a / k < n
    {
      DivBelow(a, n, k);
    }
  }

  /** numpy `arange(n)`, `repeat(s, k)` and `tile(s, k)` by their index
      formulas; `ArangeSpec`, `RepeatSpec` and `TileSpec` below are numpy's
      documented definitions, and the `...MatchesSpec` lemmas tie the two. */
  function Arange(n: int): (r: seq<nat>)
    ensures |r| == Clamp(n) && forall i :: 0 <= i < |r| ==> r[i] == i
  {
    seq(Clamp(n), i requires 0 <= i => i)
  }

  /** `n` when it is positive, else 0. */
  function Clamp(n: int): nat
  {
    if n > 0 then n else 0
  }

  function RepeatEach(s: seq<nat>, k: nat): (r: seq<nat>)
    ensures |r| == |s| * k
    ensures forall i :: 0 <= i < |r| ==> k > 0 && i / k < |s| && r[i] == s[i / k]
  {
    DivBelowAll(|s|, k);
    seq(|s| * k, i requires 0 <= i < |s| * k => s[i / k])
  }

  function Tile(s: seq<nat>, k: nat): (r: seq<nat>)
    ensures |r| == |s| * k
    ensures forall i :: 0 <= i < |r| ==> |s| > 0 && r[i] == s[i % |s|]
  {
    DivBelowAll(k, |s|);
    seq(|s| * k, i requires 0 <= i < |s| * k => s[i % |s|])
  }

  /** `arange(n)` as numpy documents it: the values `0 .. n-1` counted up one at a time. */
  function ArangeSpec(n: int): seq<nat>
  {
    if n <= 0 then [] else ArangeSpec(n - 1) + [n - 1]
  }

  /** `repeat(s, k)` as numpy documents it: the first element `k` times,
      then the repetition of the rest. */
  function RepeatSpec(s: seq<nat>, k: nat): seq<nat>
  {
    if s == [] then [] else seq(k, _ => s[0]) + RepeatSpec(s[1..], k)
  }

  /** `tile(s, k)` as numpy documents it: `k` copies of `s` one after the other. */
  function TileSpec(s: seq<nat>, k: nat): seq<nat>
  {
    if k == 0 then [] else s + TileSpec(s, k - 1)
  }

  /** `arange(n)[i] == i` for every `i` below `n`, and nothing else. */
  lemma {:induction false} ArangeMatchesSpec(n: int)
    ensures Arange(n) == ArangeSpec(n)
  {
    if n > 0 {
      ArangeMatchesSpec(n - 1);
      assert Arange(n) == Arange(n - 1) + [n - 1];
    }
  }

  lemma DivModSmall(i: nat, n: nat)
    requires i < n
    ensures i / n == 0 && i % n == i
  {
    DivModOfSum(0, i, n);
    assert 0 * n + i == i;
  }

  lemma DivModShift(i: nat, n: nat)
    requires 0 < n <= i
    ensures i / n == (i - n) / n + 1 && i % n == (i - n) % n
  {
    var q, m := (i - n) / n, (i - n) % n;
    assert i == (q + 1) * n + m;
    DivModOfSum(q + 1, m, n);
  }

  /** Element `i` of `repeat(s, k)` is `s[i div k]`. */
  lemma {:induction false} RepeatEachMatchesSpec(s: seq<nat>, k: nat)
    ensures RepeatEach(s, k) == RepeatSpec(s, k)
  {
    if s != [] {
      RepeatEachMatchesSpec(s[1..], k);
      RepeatEachStep(s, k);
    }
  }

  /** `repeat(s, k)` is `k` copies of `s[0]` followed by `repeat(s[1..], k)`. */
  lemma RepeatEachStep(s: seq<nat>, k: nat)
    requires s != []
    ensures RepeatEach(s, k) == seq(k, _ => s[0]) + RepeatEach(s[1..], k)
  {
    var r, rest, head := RepeatEach(s, k), RepeatEach(s[1..], k), seq(k, _ => s[0]);
    assert |r| == |head| + |rest| by {
      assert (|s| - 1) * k + k == |s| * k;
    }
    forall i | 0 <= i < |r|
      ensures r[i] == (head + rest)[i]
    {
      if i < k {
        DivModSmall(i, k);
      } else {
        DivModShift(i, k);
        assert rest[i - k] == s[1..][(i - k) / k];
      }
    }
    assert r == head + rest;
  }

  /** Element `i` of `tile(s, k)` is `s[i mod |s|]`. */
  lemma {:induction false} TileMatchesSpec(s: seq<nat>, k: nat)
    ensures Tile(s, k) == TileSpec(s, k)
  {
    if k > 0 {
      TileMatchesSpec(s, k - 1);
      TileStep(s, k);
    }
  }

  /** `tile(s, k)` is `s` followed by `tile(s, k - 1)`. */
  lemma TileStep(s: seq<nat>, k: nat)
    requires k > 0
    ensures Tile(s, k) == s + Tile(s, k - 1)
  {
    var r, rest := Tile(s, k), Tile(s, k - 1);
    assert |r| == |s| + |rest| by {
      assert |s| + |s| * (k - 1) == |s| * k;
    }
    forall i | 0 <= i < |r|
      ensures r[i] == (s + rest)[i]
    {
      if i < |s| {
        DivModSmall(i, |s|);
      } else {
        DivModShift(i, |s|);
        assert rest[i - |s|] == s[(i - |s|) % |s|];
      }
    }
    assert r == s + rest;
  }

  /** `c * s` elementwise. */
  function Scale(c: nat, s: seq<nat>): (r: seq<nat>)
    ensures |r| == |s| && forall i :: 0 <= i < |s| ==> r[i] == c * s[i]
  {
    seq(|s|, i requires 0 <= i < |s| => c * s[i])
  }

  /** `a.reshape(-1, 1) + b.reshape(1, -1)`: row `f` is `a[f]` added to every entry of `b`. */
  function Outer(a: seq<nat>, b: seq<nat>): (r: seq<seq<nat>>)
    ensures |r| == |a| && forall f :: 0 <= f < |a| ==> |r[f]| == |b|
    ensures forall f, l :: 0 <= f < |a| && 0 <= l < |b| ==> r[f][l] == a[f] + b[l]
  {
    seq(|a|, f requires 0 <= f < |a| => seq(|b|, l requires 0 <= l < |b| => a[f] + b[l]))
  }

  /** The three index arrays `_get_im2col_indices` returns: the channel of
      every feature, and the row and the column every feature reads at
      every location. */
  datatype IndexTables = IndexTables(channels: seq<nat>, rows: seq<seq<nat>>, cols: seq<seq<nat>>)

  /** `(height - kernel) // stride + 1`, the number of kernel positions along an axis. */
  function OutSize(size: nat, kernel: nat, stride: nat): int
    requires stride > 0
  {
    FloorDiv(size - kernel, stride) + 1
  }

  /** numpy refuses a negative count: `repeat(arange(out_height), out_width)`
      raises ValueError whenever `out_width` is negative, and
      `tile(arange(out_width), out_height)` raises it when `out_height` is
      negative and `arange(out_width)` is not empty. */
  predicate CountsAccepted(outHeight: int, outWidth: int)
  {
    outWidth >= 0 && (outWidth > 0 ==> outHeight >= 0)
  }

  /** The tables `_get_im2col_indices` builds for kernel positions `stride`
      apart, with the window row scaled by `rowStep` and the window column
      by `colStep`. */
  function WindowTables(shape: seq<nat>, kernel: (nat, nat), stride: (nat, nat),
                        rowStep: nat, colStep: nat): (t: IndexTables)
    requires |shape| == 4 && stride.0 > 0 && stride.1 > 0
    ensures var features := kernel.0 * kernel.1 * shape[1];
      var locations := Clamp(OutSize(shape[2], kernel.0, stride.0)) * Clamp(OutSize(shape[3], kernel.1, stride.1));
      && |t.channels| == features && |t.rows| == features && |t.cols| == features
      && (forall f :: 0 <= f < features ==> |t.rows[f]| == locations && |t.cols[f]| == locations)
  {
    var channels, height, width := shape[1], shape[2], shape[3];
    var (kernelHeight, kernelWidth) := kernel;
    var outHeight := OutSize(height, kernelHeight, stride.0);
    var outWidth := OutSize(width, kernelWidth, stride.1);
    var sectionRows := Tile(RepeatEach(Arange(kernelHeight), kernelWidth), channels);
    var slideRows := Scale(rowStep, RepeatEach(Arange(outHeight), Clamp(outWidth)));
    var sectionCols := Tile(Arange(kernelWidth), kernelHeight * channels);
    var slideCols := Scale(colStep, Tile(Arange(outWidth), Clamp(outHeight)));
    var sectionChannels := RepeatEach(Arange(channels), kernelHeight * kernelWidth);
    assert kernelWidth * (kernelHeight * channels) == kernelHeight * kernelWidth * channels;
    assert channels * (kernelHeight * kernelWidth) == kernelHeight * kernelWidth * channels;
    assert Clamp(outWidth) * Clamp(outHeight) == Clamp(outHeight) * Clamp(outWidth);
    IndexTables(sectionChannels, Outer(sectionRows, slideRows), Outer(sectionCols, slideCols))
  }

  /** `_get_im2col_indices(images_shape, kernel_size, stride)` as written:
      the window row is scaled by `stride_width` and the window column by
      `stride_height`. */
  function Im2colIndices(shape: seq<nat>, kernel: (nat, nat), stride: (nat, nat)): (t: IndexTables)
    requires |shape| == 4 && stride.0 > 0 && stride.1 > 0
    ensures var features := kernel.0 * kernel.1 * shape[1];
      var locations := Clamp(OutSize(shape[2], kernel.0, stride.0)) * Clamp(OutSize(shape[3], kernel.1, stride.1));
      && |t.channels| == features && |t.rows| == features && |t.cols| == features
      && (forall f :: 0 <= f < features ==> |t.rows[f]| == locations && |t.cols[f]| == locations)
  {
    WindowTables(shape, kernel, stride, stride.1, stride.0)
  }

  /** The tables the strides evidently call for: the window row scaled by
      `stride_height` and the window column by `stride_width`. */
  function CorrectedIndices(shape: seq<nat>, kernel: (nat, nat), stride: (nat, nat)): (t: IndexTables)
    requires |shape| == 4 && stride.0 > 0 && stride.1 > 0
  {
    WindowTables(shape, kernel, stride, stride.0, stride.1)
  }

  /** `_Im2col`: the input shape, kernel size and stride, and the index
      tables and feature count computed at construction. */
  datatype Im2col = Im2col(imageShape: seq<nat>, kernel: (nat, nat), stride: (nat, nat),
                           indices: IndexTables, nFeatures: nat)
  {
    /** A value `NewIm2col` hands out. */
    predicate Valid()
    {
      && |imageShape| == 4 && stride.0 > 0 && stride.1 > 0
      && CountsAccepted(OutSize(imageShape[2], kernel.0, stride.0), OutSize(imageShape[3], kernel.1, stride.1))
      && indices == Im2colIndices(imageShape, kernel, stride)
      && nFeatures == kernel.0 * kernel.1 * imageShape[1]
    }

    function Batch(): nat requires Valid() { imageShape[0] }
    function Channels(): nat requires Valid() { imageShape[1] }
    function Height(): nat requires Valid() { imageShape[2] }
    function Width(): nat requires Valid() { imageShape[3] }
    function OutHeight(): int requires Valid() { OutSize(Height(), kernel.0, stride.0) }
    function OutWidth(): int requires Valid() { OutSize(Width(), kernel.1, stride.1) }

    /** Number of kernel positions (columns per image). */
    function Locations(): nat requires Valid() { Clamp(OutHeight()) * Clamp(OutWidth()) }

    /** Number of columns of the column form: every location of every image. */
    function Columns(): nat requires Valid() { Locations() * Batch() }
  }

  /** `_Im2col.__init__`: asserts a 4-D input, then builds the index tables,
      whose `//` fails on a zero stride and whose `repeat`/`tile` fail on a
      negative count. */
  function NewIm2col(shape: seq<nat>, kernel: (nat, nat), stride: (nat, nat)): (r: Result<Im2col>)
    ensures |shape| != 4 ==> r == Err(AssertionError)
    ensures |shape| == 4 && (stride.0 == 0 || stride.1 == 0) ==> r == Err(ZeroDivisionError)
    ensures |shape| == 4 && stride.0 > 0 && stride.1 > 0 ==>
      var outHeight, outWidth := OutSize(shape[2], kernel.0, stride.0), OutSize(shape[3], kernel.1, stride.1);
      && (r.Ok? <==> CountsAccepted(outHeight, outWidth))
      && (r.Err? ==> r.error == ValueError)
    ensures r.Ok? ==>
      && r.value.Valid() && r.value.imageShape == shape
      && r.value.kernel == kernel && r.value.stride == stride
      && r.value.nFeatures == kernel.0 * kernel.1 * shape[1]
  {
    if |shape| != 4 then Err(AssertionError)
    else if stride.0 == 0 || stride.1 == 0 then Err(ZeroDivisionError)
    else if !CountsAccepted(OutSize(shape[2], kernel.0, stride.0), OutSize(shape[3], kernel.1, stride.1)) then
      Err(ValueError)
    else Ok(Im2col(shape, kernel, stride, Im2colIndices(shape, kernel, stride),
                   kernel.0 * kernel.1 * shape[1]))
  }

  /** A 5x1 image under a 1x3 kernel has `out_width == -1` against
      `out_height == 5`: numpy's `repeat` refuses the negative count. */
  lemma NegativeOutWidthRejected()
    ensures NewIm2col([1, 1, 5, 1], (1, 3), (1, 1)) == Err(ValueError)
  {
    assert OutSize(1, 3, 1) == -1 by {
      assert FloorDiv(-2, 1) == -2;
    }
  }

  /** What the tables hold: feature `f` is channel `f div (kh*kw)`, kernel
      row `(f mod kh*kw) div kw` and kernel column `f mod kw`; location `l`
      is window `(l div out_w, l mod out_w)`, whose row is scaled by
      `rowStep` and whose column by `colStep`. */
  lemma WindowFormulas(shape: seq<nat>, kernel: (nat, nat), stride: (nat, nat),
                       rowStep: nat, colStep: nat, f: nat, l: nat)
    requires |shape| == 4 && stride.0 > 0 && stride.1 > 0
    requires f < kernel.0 * kernel.1 * shape[1]
    requires l < Clamp(OutSize(shape[2], kernel.0, stride.0)) * Clamp(OutSize(shape[3], kernel.1, stride.1))
    ensures var t := WindowTables(shape, kernel, stride, rowStep, colStep);
      var (kh, kw) := kernel;
      var outWidth := Clamp(OutSize(shape[3], kw, stride.1));
      && kh * kw > 0 && outWidth > 0
      && t.channels[f] == f / (kh * kw)
      && t.rows[f][l] == (f % (kh * kw)) / kw + rowStep * (l / outWidth)
      && t.cols[f][l] == f % kw + colStep * (l % outWidth)
  {
    var (kh, kw) := kernel;
    assert kh * kw * shape[1] == (kh * kw) * shape[1];
    DivBelow(f, shape[1], kh * kw);
    DivBelow(l, Clamp(OutSize(shape[2], kh, stride.0)), Clamp(OutSize(shape[3], kw, stride.1)));
    ChannelFormula(shape, kernel, stride, rowStep, colStep, f);
    RowFormula(shape, kernel, stride, rowStep, colStep, f, l);
    ColFormula(shape, kernel, stride, rowStep, colStep, f, l);
  }

  lemma ChannelFormula(shape: seq<nat>, kernel: (nat, nat), stride: (nat, nat),
                       rowStep: nat, colStep: nat, f: nat)
    requires |shape| == 4 && stride.0 > 0 && stride.1 > 0
    requires f < kernel.0 * kernel.1 * shape[1] && kernel.0 * kernel.1 > 0
    ensures WindowTables(shape, kernel, stride, rowStep, colStep).channels[f] == f / (kernel.0 * kernel.1)
  {
    var (kh, kw) := kernel;
    var ch := RepeatEach(Arange(shape[1]), kh * kw);
    assert WindowTables(shape, kernel, stride, rowStep, colStep).channels == ch;
    assert ch[f] == Arange(shape[1])[f / (kh * kw)];
  }

  /** `repeat(arange(n), k)[i]` is `i div k`. */
  lemma RepeatArange(n: int, k: nat, i: nat)
    requires i < Clamp(n) * k
    ensures k > 0 && RepeatEach(Arange(n), k)[i] == i / k
  {
  }

  /** `tile(arange(n), k)[i]` is `i mod n`. */
  lemma TileArange(n: int, k: nat, i: nat)
    requires i < Clamp(n) * k
    ensures n > 0 && Tile(Arange(n), k)[i] == i % n
  {
  }

  /** The three tables of `WindowTables`, each as the broadcast sum of a
      per-feature part and a per-location part. */
  lemma WindowTablesParts(shape: seq<nat>, kernel: (nat, nat), stride: (nat, nat), rowStep: nat, colStep: nat)
    requires |shape| == 4 && stride.0 > 0 && stride.1 > 0
    ensures var t := WindowTables(shape, kernel, stride, rowStep, colStep);
      var (kh, kw) := kernel;
      var oh, ow := OutSize(shape[2], kh, stride.0), OutSize(shape[3], kw, stride.1);
      && t.channels == RepeatEach(Arange(shape[1]), kh * kw)
      && t.rows == Outer(Tile(RepeatEach(Arange(kh), kw), shape[1]), Scale(rowStep, RepeatEach(Arange(oh), Clamp(ow))))
      && t.cols == Outer(Tile(Arange(kw), kh * shape[1]), Scale(colStep, Tile(Arange(ow), Clamp(oh))))
  {
  }

  lemma MulSwap(a: nat, b: nat, c: nat)
    ensures a * b * c == a * c * b && a * b == b * a
  {
  }

  lemma RowFormula(shape: seq<nat>, kernel: (nat, nat), stride: (nat, nat),
                   rowStep: nat, colStep: nat, f: nat, l: nat)
    requires |shape| == 4 && stride.0 > 0 && stride.1 > 0
    requires f < kernel.0 * kernel.1 * shape[1]
    requires l < Clamp(OutSize(shape[2], kernel.0, stride.0)) * Clamp(OutSize(shape[3], kernel.1, stride.1))
    requires kernel.0 * kernel.1 > 0 && Clamp(OutSize(shape[3], kernel.1, stride.1)) > 0
    ensures WindowTables(shape, kernel, stride, rowStep, colStep).rows[f][l]
         == (f % (kernel.0 * kernel.1)) / kernel.1 + rowStep * (l / Clamp(OutSize(shape[3], kernel.1, stride.1)))
  {
    var (kh, kw) := kernel;
    var oh, ow := OutSize(shape[2], kh, stride.0), Clamp(OutSize(shape[3], kw, stride.1));
    var section := RepeatEach(Arange(kh), kw);
    var rows := Tile(section, shape[1]);
    var slide := Scale(rowStep, RepeatEach(Arange(oh), ow));
    WindowTablesParts(shape, kernel, stride, rowStep, colStep);
    var t := WindowTables(shape, kernel, stride, rowStep, colStep);
    assert t.rows == Outer(rows, slide);
    var i := f % (kh * kw);
    assert rows[f] == section[i];
    RepeatArange(kh, kw, i);
    RepeatArange(oh, ow, l);
    assert t.rows[f][l] == rows[f] + slide[l];
  }

  lemma ColFormula(shape: seq<nat>, kernel: (nat, nat), stride: (nat, nat),
                   rowStep: nat, colStep: nat, f: nat, l: nat)
    requires |shape| == 4 && stride.0 > 0 && stride.1 > 0
    requires f < kernel.0 * kernel.1 * shape[1]
    requires l < Clamp(OutSize(shape[2], kernel.0, stride.0)) * Clamp(OutSize(shape[3], kernel.1, stride.1))
    requires kernel.0 * kernel.1 > 0 && Clamp(OutSize(shape[3], kernel.1, stride.1)) > 0
    ensures WindowTables(shape, kernel, stride, rowStep, colStep).cols[f][l]
         == f % kernel.1 + colStep * (l % Clamp(OutSize(shape[3], kernel.1, stride.1)))
  {
    var (kh, kw) := kernel;
    var oh, ow := OutSize(shape[2], kh, stride.0), OutSize(shape[3], kw, stride.1);
    var cols := Tile(Arange(kw), kh * shape[1]);
    var slide := Scale(colStep, Tile(Arange(ow), Clamp(oh)));
    WindowTablesParts(shape, kernel, stride, rowStep, colStep);
    var t := WindowTables(shape, kernel, stride, rowStep, colStep);
    assert t.cols == Outer(cols, slide);
    MulSwap(kh, kw, shape[1]);
    TileArange(kw, kh * shape[1], f);
    MulSwap(Clamp(oh), Clamp(ow), 1);
    TileArange(ow, Clamp(oh), l);
    assert t.cols[f][l] == cols[f] + slide[l];
  }

  /** The as-written tables: the window row is scaled by the width stride
      and the window column by the height stride. */
  lemma IndexFormulas(op: Im2col, f: nat, l: nat)
    requires op.Valid() && f < op.nFeatures && l < op.Locations()
    ensures var (kh, kw) := op.kernel;
      var (sh, sw) := op.stride;
      && kh * kw > 0 && Clamp(op.OutWidth()) > 0
      && op.indices.channels[f] == f / (kh * kw)
      && op.indices.rows[f][l] == (f % (kh * kw)) / kw + sw * (l / Clamp(op.OutWidth()))
      && op.indices.cols[f][l] == f % kw + sh * (l % Clamp(op.OutWidth()))
  {
    WindowFormulas(op.imageShape, op.kernel, op.stride, op.stride.1, op.stride.0, f, l);
  }

  /** Every index the tables hold lies inside the image. */
  predicate Fits(op: Im2col)
    requires op.Valid()
  {
    forall f, l :: 0 <= f < op.nFeatures && 0 <= l < op.Locations() ==>
      op.indices.rows[f][l] < op.Height() && op.indices.cols[f][l] < op.Width()
  }

  lemma MulLe(c: nat, a: nat, b: nat)
    requires a <= b
    ensures c * a <= c * b
  {
  }

  /** A window row scaled by the height stride and a window column scaled by
      the width stride stay inside the image. */
  lemma WindowInside(op: Im2col, f: nat, l: nat)
    requires op.Valid() && f < op.nFeatures && l < op.Locations()
    ensures var (kh, kw) := op.kernel;
      var outW := Clamp(op.OutWidth());
      && kh * kw > 0 && outW > 0
      && (f % (kh * kw)) / kw + op.stride.0 * (l / outW) < op.Height()
      && f % kw + op.stride.1 * (l % outW) < op.Width()
  {
    var (kh, kw) := op.kernel;
    var (sh, sw) := op.stride;
    WindowFormulas(op.imageShape, op.kernel, op.stride, sh, sw, f, l);
    var outH, outW := Clamp(op.OutHeight()), Clamp(op.OutWidth());
    DivBelow(l, outH, outW);
    DivBelow(f % (kh * kw), kh, kw);
    MulLe(sh, l / outW, outH - 1);
    MulLe(sw, l % outW, outW - 1);
    assert outH - 1 == FloorDiv(op.Height() - kh, sh);
    assert outW - 1 == FloorDiv(op.Width() - kw, sw);
  }

  /** With equal strides every index lies inside the image. */
  lemma EqualStridesFit(op: Im2col)
    requires op.Valid() && op.stride.0 == op.stride.1
    ensures Fits(op)
  {
    forall f, l | 0 <= f < op.nFeatures && 0 <= l < op.Locations()
      ensures op.indices.rows[f][l] < op.Height() && op.indices.cols[f][l] < op.Width()
    {
      IndexFormulas(op, f, l);
      WindowInside(op, f, l);
    }
  }

  /** With unequal strides an index can leave the image: for a 3x1 image, a
      1x1 kernel and strides (1, 2), feature 0 at location 2 reads row 4. */
  lemma UnequalStridesEscape(op: Im2col)
    requires op.Valid() && op.imageShape == [1, 1, 3, 1] && op.kernel == (1, 1) && op.stride == (1, 2)
    ensures op.nFeatures == 1 && op.Locations() == 3
    ensures op.indices.rows[0][2] == 4 && !Fits(op)
  {
    assert op.Height() == 3 && op.Width() == 1;
    assert op.OutHeight() == 3 by {
      assert FloorDiv(2, 1) == 2;
    }
    assert op.OutWidth() == 1 by {
      assert FloorDiv(0, 2) == 0;
    }
    IndexFormulas(op, 0, 2);
  }

  /** On that operator a gradient of two entries passes the reshape to
      `(1, -1, 1)` but matches neither three locations nor one, and still
      `add.at` reports the escaping row index before the broadcast. */
  lemma EscapeBeforeBroadcast(op: Im2col)
    requires op.Valid() && op.imageShape == [1, 1, 3, 1] && op.kernel == (1, 1) && op.stride == (1, 2)
    ensures Im2colBackwardResult(op, NdArray([2], [0, 0])) == Err(IndexError)
  {
    UnequalStridesEscape(op);
  }

  /** An image at least as large as the kernel along both axes is accepted
      by the constructor, whatever the positive strides. */
  lemma KernelInsideAccepted(shape: seq<nat>, kernel: (nat, nat), stride: (nat, nat))
    requires |shape| == 4 && stride.0 > 0 && stride.1 > 0
    requires kernel.0 <= shape[2] && kernel.1 <= shape[3]
    ensures NewIm2col(shape, kernel, stride).Ok?
  {
  }

  /** Such an operator exists: the constructor accepts these arguments. */
  lemma UnequalStridesConstructed()
    ensures NewIm2col([1, 1, 3, 1], (1, 1), (1, 2)).Ok?
  {
    KernelInsideAccepted([1, 1, 3, 1], (1, 1), (1, 2));
  }

  /** With the strides the other way round, every index of every feature at
      every location lies inside the image, for all positive strides. */
  lemma CorrectedIndicesFit(op: Im2col)
    requires op.Valid()
    ensures var t := CorrectedIndices(op.imageShape, op.kernel, op.stride);
      forall f, l :: 0 <= f < op.nFeatures && 0 <= l < op.Locations() ==>
        t.rows[f][l] < op.Height() && t.cols[f][l] < op.Width()
  {
    var t := CorrectedIndices(op.imageShape, op.kernel, op.stride);
    forall f, l | 0 <= f < op.nFeatures && 0 <= l < op.Locations()
      ensures t.rows[f][l] < op.Height() && t.cols[f][l] < op.Width()
    {
      WindowFormulas(op.imageShape, op.kernel, op.stride, op.stride.0, op.stride.1, f, l);
      WindowInside(op, f, l);
    }
  }

  /** Position `p` of the column-form array `(features, locations * batch)`,
      i.e. `[f, l * batch + b]`, and the flat image position it gathers from. */
  function Target(op: Im2col, p: nat): (q: nat)
    requires op.Valid() && Fits(op) && p < op.nFeatures * op.Columns()
    ensures q < Product(op.imageShape)
  {
    DecodeInRange(op.nFeatures, op.Locations(), op.Batch(), p);
    var f, l, b := p / op.Columns(), (p / op.Batch()) % op.Locations(), p % op.Batch();
    ElementInBounds(op, f, l, b);
    var idx := [b, op.indices.channels[f], op.indices.rows[f][l], op.indices.cols[f][l]];
    FlattenInRange(idx, op.imageShape);
    Flatten(idx, op.imageShape)
  }

  /** Image `b` read by feature `f` at location `l` is an element of the image array. */
  lemma ElementInBounds(op: Im2col, f: nat, l: nat, b: nat)
    requires op.Valid() && Fits(op) && f < op.nFeatures && l < op.Locations() && b < op.Batch()
    ensures f < |op.indices.channels| && f < |op.indices.rows| && f < |op.indices.cols|
    ensures l < |op.indices.rows[f]| && l < |op.indices.cols[f]|
    ensures InBounds([b, op.indices.channels[f], op.indices.rows[f][l], op.indices.cols[f][l]], op.imageShape)
  {
    ChannelInRange(op, f);
    FitsAt(op, f, l);
    InBounds4(b, op.indices.channels[f], op.indices.rows[f][l], op.indices.cols[f][l], op.imageShape);
  }

  /** The row and column that feature `f` reads at location `l` lie inside the image. */
  lemma FitsAt(op: Im2col, f: nat, l: nat)
    requires op.Valid() && Fits(op) && f < op.nFeatures && l < op.Locations()
    ensures f < |op.indices.rows| && l < |op.indices.rows[f]| && op.indices.rows[f][l] < op.Height()
    ensures f < |op.indices.cols| && l < |op.indices.cols[f]| && op.indices.cols[f][l] < op.Width()
  {
  }

  /** A 4-D multi-index whose every component is below its axis' length is in bounds. */
  lemma InBounds4(b: nat, c: nat, r: nat, k: nat, shape: seq<nat>)
    requires |shape| == 4 && b < shape[0] && c < shape[1] && r < shape[2] && k < shape[3]
    ensures InBounds([b, c, r, k], shape)
  {
  }

  /** Every feature reads a channel of the image. */
  lemma ChannelInRange(op: Im2col, f: nat)
    requires op.Valid() && f < op.nFeatures
    ensures f < |op.indices.channels| && op.indices.channels[f] < op.Channels()
  {
    var (kh, kw) := op.kernel;
    assert kh * kw * op.Channels() == (kh * kw) * op.Channels();
    DivBelow(f, op.Channels(), kh * kw);
    ChannelFormula(op.imageShape, op.kernel, op.stride, op.stride.1, op.stride.0, f);
  }

  /** Position `p` of an `features x (locations * batch)` array decodes to
      a feature, a location and an image in range. */
  lemma DecodeInRange(features: nat, locations: nat, batch: nat, p: nat)
    requires p < features * (locations * batch)
    ensures p / (locations * batch) < features
    ensures batch > 0 && locations > 0 && (p / batch) % locations < locations && p % batch < batch
  {
    DivBelow(p, features, locations * batch);
    assert features * (locations * batch) == (features * locations) * batch;
    DivBelow(p, features * locations, batch);
  }

  /** `_Im2col.forward`: `images[:, k, i, j].transpose(1, 2, 0).reshape(n_features, -1)`.
      Indices outside the image raise IndexError; with no features the
      `-1` in the reshape cannot be resolved. */
  function Im2colForward(op: Im2col, img: NdArray<int>): (r: Result<NdArray<int>>)
    requires op.Valid() && img.Valid() && img.shape == op.imageShape
    ensures r.Ok? <==> Fits(op) && op.nFeatures > 0
    ensures r.Ok? ==> r.value.Valid() && r.value.shape == [op.nFeatures, op.Columns()]
  {
    if !Fits(op) then Err(IndexError)
    else if op.nFeatures == 0 then Err(ValueError)
    else
      var n := op.nFeatures * op.Columns();
      ProductPair(op.nFeatures, op.Columns());
      Ok(NdArray([op.nFeatures, op.Columns()],
                 seq(n, p requires 0 <= p < n => img.data[Target(op, p)])))
  }

  /** The image position each column-form entry is added back to, in order. */
  function Targets(op: Im2col): (ts: seq<nat>)
    requires op.Valid() && Fits(op)
    ensures |ts| == op.nFeatures * op.Columns()
    ensures forall p :: 0 <= p < |ts| ==> ts[p] == Target(op, p) && ts[p] < Product(op.imageShape)
  {
    seq(op.nFeatures * op.Columns(), p requires 0 <= p < op.nFeatures * op.Columns() => Target(op, p))
  }

  /** numpy `add.at` on a zero image of `size` cells: the first `n` entries
      of `grad`, each added at its target in turn, so entries sharing a
      target accumulate. */
  function AddAt(size: nat, ts: seq<nat>, grad: seq<int>, n: nat): (img: seq<int>)
    requires |ts| == |grad| && n <= |grad|
    requires forall p :: 0 <= p < |ts| ==> ts[p] < size
    ensures |img| == size
    decreases n
  {
    if n == 0 then seq(size, _ => 0)
    else
      var prev := AddAt(size, ts, grad, n - 1);
      prev[ts[n - 1] := prev[ts[n - 1]] + grad[n - 1]]
  }

  /** The scatter-add of the first `n` gradient entries into the image. */
  function Scatter(op: Im2col, grad: seq<int>, n: nat): (img: seq<int>)
    requires op.Valid() && Fits(op) && |grad| == op.nFeatures * op.Columns()
    requires n <= |grad|
    ensures |img| == Product(op.imageShape)
  {
    AddAt(Product(op.imageShape), Targets(op), grad, n)
  }

  /** Entry `p` of the column form, `[f, l * batch + b]`, draws on entry
      `f * batch + b` of a gradient with one entry per feature and image. */
  function BroadcastEntry(op: Im2col, grad: seq<int>, p: nat): int
    requires op.Valid() && |grad| == op.nFeatures * op.Batch()
    requires p < op.nFeatures * op.Columns()
  {
    grad[SourceIndex(op.nFeatures, op.Locations(), op.Batch(), p)]
  }

  /** Position `p` of a `features x (locations * batch)` array names a
      feature and an image, `f * batch + b`, of a `features x batch` array. */
  function SourceIndex(features: nat, locations: nat, batch: nat, p: nat): (i: nat)
    requires p < features * (locations * batch)
    ensures i < features * batch
  {
    DecodeInRange(features, locations, batch, p);
    MulAddBelow(p / (locations * batch), p % batch, features, batch);
    (p / (locations * batch)) * batch + p % batch
  }

  /** Feature `f`, location `l` and image `b` sit at position
      `f * (locations * batch) + l * batch + b`, which decodes back to `f` and `b`. */
  lemma EncodeDecode(features: nat, locations: nat, batch: nat, f: nat, l: nat, b: nat)
    requires f < features && l < locations && b < batch
    ensures var p := f * (locations * batch) + l * batch + b;
      && p < features * (locations * batch)
      && p / (locations * batch) == f && p % batch == b
  {
    var cols, inner := locations * batch, l * batch + b;
    MulAddBelow(l, b, locations, batch);
    MulAddBelow(f, inner, features, cols);
    DivModOfSum(f, inner, cols);
    var row := f * locations + l;
    assert row * batch == f * locations * batch + l * batch;
    assert f * locations * batch == f * cols;
    DivModOfSum(row, b, batch);
  }

  /** Unless there is exactly one location, the full column form and one
      entry per feature and image differ in length. */
  lemma OtherLocationCount(features: nat, locations: nat, batch: nat)
    requires features * batch > 0 && locations != 1
    ensures features * (locations * batch) != features * batch
  {
    assert features * (locations * batch) == (features * batch) * locations;
    if locations > 1 {
      MulLe(features * batch, 2, locations);
    }
  }

  /** `f * k + b < n * k` when `f < n` and `b < k`. */
  lemma MulAddBelow(f: nat, b: nat, n: nat, k: nat)
    requires f < n && b < k
    ensures f * k + b < n * k
  {
    assert f * k + b < f * k + k == (f + 1) * k;
    MulLe(k, f + 1, n);
  }

  /** The gradient `add.at` receives when `reshape(n_features, -1, batch)`
      leaves one entry per feature and image: that `(batch, n_features, 1)`
      array broadcast over every location, laid out as the column form. */
  function Broadcast(op: Im2col, grad: seq<int>): (e: seq<int>)
    requires op.Valid() && |grad| == op.nFeatures * op.Batch()
    ensures |e| == op.nFeatures * op.Columns()
  {
    var n := op.nFeatures * op.Columns();
    seq(n, p requires 0 <= p < n => BroadcastEntry(op, grad, p))
  }

  /** Every location of feature `f` and image `b` receives gradient entry
      `f * batch + b`. */
  lemma BroadcastAt(op: Im2col, grad: seq<int>, f: nat, l: nat, b: nat)
    requires op.Valid() && |grad| == op.nFeatures * op.Batch()
    requires f < op.nFeatures && l < op.Locations() && b < op.Batch()
    ensures f * op.Columns() + l * op.Batch() + b < op.nFeatures * op.Columns()
    ensures f * op.Batch() + b < |grad|
    ensures Broadcast(op, grad)[f * op.Columns() + l * op.Batch() + b] == grad[f * op.Batch() + b]
  {
    EncodeDecode(op.nFeatures, op.Locations(), op.Batch(), f, l, b);
    MulAddBelow(f, b, op.nFeatures, op.Batch());
    assert SourceIndex(op.nFeatures, op.Locations(), op.Batch(), f * op.Columns() + l * op.Batch() + b)
        == f * op.Batch() + b;
  }

  /** With a single location the broadcast changes nothing. */
  lemma BroadcastOneLocation(op: Im2col, grad: seq<int>)
    requires op.Valid() && |grad| == op.nFeatures * op.Batch() && op.Locations() == 1
    ensures Broadcast(op, grad) == grad
  {
    var e := Broadcast(op, grad);
    assert op.Columns() == op.Batch();
    forall p | 0 <= p < |e|
      ensures e[p] == grad[p]
    {
      DecodeInRange(op.nFeatures, 1, op.Batch(), p);
      assert p == (p / op.Batch()) * op.Batch() + p % op.Batch();
    }
  }

  /** What `_Im2col.backward` returns. The reshape to
      `(n_features, -1, batch)` cannot resolve the `-1` when there are no
      features or no images, and otherwise fails unless the batch and the
      features divide the gradient. `add.at` then checks its indices first,
      so an index outside the image is an IndexError whatever the middle
      axis; only then does it need the middle axis to be one entry per
      location, or a single entry it broadcasts over every location, and
      any other length is a ValueError. Otherwise the zero image accumulates
      every entry at its target. */
  function Im2colBackwardResult(op: Im2col, g: NdArray<int>): (r: Result<NdArray<int>>)
    requires op.Valid()
    ensures var full, one := op.nFeatures * op.Columns(), op.nFeatures * op.Batch();
      && (r.Ok? <==> one > 0 && (|g.data| == full || |g.data| == one) && Fits(op))
      && (r.Err? ==> r.error == if one > 0 && |g.data| % one == 0 && !Fits(op) then IndexError else ValueError)
    ensures r.Ok? ==> r.value.Valid() && r.value.shape == op.imageShape
  {
    if op.nFeatures * op.Batch() == 0 then Err(ValueError)
    else if |g.data| % (op.nFeatures * op.Batch()) != 0 then
      LocationsMultiple(op.nFeatures, op.Locations(), op.Batch());
      assert |g.data| != op.nFeatures * op.Columns() && |g.data| != op.nFeatures * op.Batch();
      Err(ValueError)
    else if !Fits(op) then Err(IndexError)
    else if |g.data| == op.nFeatures * op.Columns() then
      Ok(NdArray(op.imageShape, Scatter(op, g.data, |g.data|)))
    else if |g.data| == op.nFeatures * op.Batch() then
      Ok(NdArray(op.imageShape, Scatter(op, Broadcast(op, g.data), op.nFeatures * op.Columns())))
    else Err(ValueError)
  }

  /** The full column form, like the gradient of one entry per feature and
      image, holds a whole number of entries per feature and image. */
  lemma LocationsMultiple(features: nat, locations: nat, batch: nat)
    requires features * batch > 0
    ensures (features * (locations * batch)) % (features * batch) == 0
    ensures (features * batch) % (features * batch) == 0
  {
    assert features * (locations * batch) == locations * (features * batch) + 0;
    DivModOfSum(locations, 0, features * batch);
    DivModOfSum(1, 0, features * batch);
  }

  /** `_Im2col.backward`: a zero buffer of the image's shape, updated in place
      one gradient entry at a time. */
  method Im2colBackward(op: Im2col, g: NdArray<int>) returns (r: Result<NdArray<int>>)
    requires op.Valid()
    ensures r == Im2colBackwardResult(op, g)
  {
    if op.nFeatures * op.Batch() == 0 || |g.data| % (op.nFeatures * op.Batch()) != 0 {
      return Err(ValueError);
    }
    if !Fits(op) {
      return Err(IndexError);
    }
    var grad: seq<int>;
    if |g.data| == op.nFeatures * op.Columns() {
      grad := g.data;
    } else if |g.data| == op.nFeatures * op.Batch() {
      grad := Broadcast(op, g.data);
    } else {
      return Err(ValueError);
    }
    var images := AddAtInPlace(Product(op.imageShape), Targets(op), grad);
    r := Ok(NdArray(op.imageShape, images));
  }

  /** `add.at` on a zero buffer of `size` cells, one entry at a time. */
  method AddAtInPlace(size: nat, ts: seq<nat>, grad: seq<int>) returns (img: seq<int>)
    requires |ts| == |grad| && forall p :: 0 <= p < |ts| ==> ts[p] < size
    ensures img == AddAt(size, ts, grad, |grad|)
  {
    var images := new int[size](_ => 0);
    var p := 0;
    while p < |grad|
      invariant 0 <= p <= |grad|
      invariant images[..] == AddAt(size, ts, grad, p)
    {
      var q := ts[p];
      images[q] := images[q] + grad[p];
      p := p + 1;
    }
    img := images[..];
  }

  /** Sum of the elements. */
  function Sum(s: seq<int>): int
  {
    if s == [] then 0 else Sum(s[..|s| - 1]) + s[|s| - 1]
  }

  /** Sum of the elementwise products. */
  function Dot(x: seq<int>, y: seq<int>): int
    requires |x| == |y|
  {
    if x == [] then 0 else Dot(x[..|x| - 1], y[..|y| - 1]) + x[|x| - 1] * y[|y| - 1]
  }

  lemma {:induction false} SumZeros(n: nat)
    ensures Sum(seq(n, _ => 0)) == 0
  {
    if n > 0 {
      assert seq(n, _ => 0)[..n - 1] == seq(n - 1, _ => 0);
      SumZeros(n - 1);
    }
  }

  lemma {:induction false} DotZeros(x: seq<int>)
    ensures Dot(x, seq(|x|, _ => 0)) == 0
  {
    if x != [] {
      assert seq(|x|, _ => 0)[..|x| - 1] == seq(|x| - 1, _ => 0);
      DotZeros(x[..|x| - 1]);
    }
  }

  /** Adding `v` to one element adds `v` to the sum. */
  lemma {:induction false} SumUpdate(s: seq<int>, i: nat, v: int)
    requires i < |s|
    ensures Sum(s[i := s[i] + v]) == Sum(s) + v
  {
    var t := s[i := s[i] + v];
    var n := |s| - 1;
    if i == n {
      assert t[..n] == s[..n];
    } else {
      assert t[..n] == s[..n][i := s[i] + v];
      SumUpdate(s[..n], i, v);
    }
  }

  /** Adding `v` to element `i` of `s` adds `x[i] * v` to the dot product. */
  lemma {:induction false} DotUpdate(x: seq<int>, s: seq<int>, i: nat, v: int)
    requires |x| == |s| && i < |s|
    ensures Dot(x, s[i := s[i] + v]) == Dot(x, s) + x[i] * v
  {
    var t := s[i := s[i] + v];
    var n := |s| - 1;
    if i == n {
      assert t[..n] == s[..n];
    } else {
      assert t[..n] == s[..n][i := s[i] + v];
      DotUpdate(x[..n], s[..n], i, v);
    }
  }

  /** `add.at` loses nothing: the image sums to the sum of the entries added. */
  lemma {:induction false} AddAtTotal(size: nat, ts: seq<nat>, grad: seq<int>, n: nat)
    requires |ts| == |grad| && n <= |grad|
    requires forall p :: 0 <= p < |ts| ==> ts[p] < size
    ensures Sum(AddAt(size, ts, grad, n)) == Sum(grad[..n])
    decreases n
  {
    if n == 0 {
      SumZeros(size);
    } else {
      AddAtTotal(size, ts, grad, n - 1);
      SumUpdate(AddAt(size, ts, grad, n - 1), ts[n - 1], grad[n - 1]);
      SumPrefix(grad, n);
    }
  }

  lemma SumPrefix(s: seq<int>, n: nat)
    requires 0 < n <= |s|
    ensures Sum(s[..n]) == Sum(s[..n - 1]) + s[n - 1]
  {
    assert s[..n][..n - 1] == s[..n - 1];
  }

  /** A cell that no entry targets stays zero. */
  lemma {:induction false} AddAtUnreached(size: nat, ts: seq<nat>, grad: seq<int>, n: nat, q: nat)
    requires |ts| == |grad| && n <= |grad| && q < size
    requires forall p :: 0 <= p < |ts| ==> ts[p] < size
    requires forall p :: 0 <= p < n ==> ts[p] != q
    ensures AddAt(size, ts, grad, n)[q] == 0
    decreases n
  {
    if n > 0 {
      AddAtUnreached(size, ts, grad, n - 1, q);
    }
  }

  /** `add.at` is the adjoint of gathering: when `y[p]` is the image cell
      `ts[p]` reads, `<img, add.at(grad)> == <y, grad>`. */
  lemma {:induction false} AddAtAdjoint(img: seq<int>, ts: seq<nat>, y: seq<int>, grad: seq<int>, n: nat)
    requires |ts| == |grad| && |y| == |grad| && n <= |grad|
    requires forall p :: 0 <= p < |ts| ==> ts[p] < |img|
    requires forall p :: 0 <= p < |y| ==> y[p] == img[ts[p]]
    ensures Dot(img, AddAt(|img|, ts, grad, n)) == Dot(y[..n], grad[..n])
    decreases n
  {
    if n == 0 {
      DotZeros(img);
    } else {
      AddAtAdjoint(img, ts, y, grad, n - 1);
      DotUpdate(img, AddAt(|img|, ts, grad, n - 1), ts[n - 1], grad[n - 1]);
      DotPrefix(y, grad, n);
    }
  }

  lemma PositiveFactors(a: nat, b: nat)
    requires a * b > 0
    ensures a > 0 && b > 0
  {
  }

  lemma DotPrefix(x: seq<int>, y: seq<int>, n: nat)
    requires |x| == |y| && 0 < n <= |x|
    ensures Dot(x[..n], y[..n]) == Dot(x[..n - 1], y[..n - 1]) + x[n - 1] * y[n - 1]
  {
    assert x[..n][..n - 1] == x[..n - 1] && y[..n][..n - 1] == y[..n - 1];
  }

  /** `_Im2col.backward` returns an image-shaped array whose sum is the
      gradient's and which is zero where no receptive field reaches. */
  lemma Im2colBackwardConserves(op: Im2col, g: NdArray<int>)
    requires op.Valid() && Fits(op) && op.nFeatures * op.Batch() > 0
    requires |g.data| == op.nFeatures * op.Columns()
    ensures var r := Im2colBackwardResult(op, g);
      && r.Ok? && r.value.shape == op.imageShape
      && Sum(r.value.data) == Sum(g.data)
      && (forall q :: 0 <= q < |r.value.data| && (forall p :: 0 <= p < |g.data| ==> Target(op, p) != q)
            ==> r.value.data[q] == 0)
  {
    var n := |g.data|;
    var s := Scatter(op, g.data, n);
    assert Im2colBackwardResult(op, g) == Ok(NdArray(op.imageShape, s));
    var ts := Targets(op);
    AddAtTotal(Product(op.imageShape), ts, g.data, n);
    assert g.data[..n] == g.data;
    forall q | 0 <= q < |s| && (forall p :: 0 <= p < n ==> Target(op, p) != q)
      ensures s[q] == 0
    {
      AddAtUnreached(Product(op.imageShape), ts, g.data, n, q);
    }
  }

  /** `_Im2col.backward` is the adjoint of `_Im2col.forward`: pairing an
      image with the backward of a gradient equals pairing the forward of
      the image with the gradient. */
  lemma Im2colBackwardAdjoint(op: Im2col, img: NdArray<int>, g: NdArray<int>)
    requires op.Valid() && Fits(op) && op.nFeatures * op.Batch() > 0
    requires img.Valid() && img.shape == op.imageShape
    requires |g.data| == op.nFeatures * op.Columns()
    ensures Im2colBackwardResult(op, g).Ok? && Im2colForward(op, img).Ok?
    ensures Dot(img.data, Im2colBackwardResult(op, g).value.data)
         == Dot(Im2colForward(op, img).value.data, g.data)
  {
    PositiveFactors(op.nFeatures, op.Batch());
    var n := |g.data|;
    var s := Scatter(op, g.data, n);
    assert Im2colBackwardResult(op, g) == Ok(NdArray(op.imageShape, s));
    var y := Im2colForward(op, img).value.data;
    var ts := Targets(op);
    assert forall p :: 0 <= p < |y| ==> y[p] == img.data[ts[p]];
    AddAtAdjoint(img.data, ts, y, g.data, n);
    assert g.data[..n] == g.data;
    assert y[..n] == y;
  }

  /** A gradient with one entry per feature and image goes back as the
      full gradient that holds that entry at every location. */
  lemma Im2colBackwardBroadcasts(op: Im2col, g: NdArray<int>)
    requires op.Valid() && |g.data| == op.nFeatures * op.Batch()
    ensures Im2colBackwardResult(op, g)
         == Im2colBackwardResult(op, NdArray([op.nFeatures, op.Columns()], Broadcast(op, g.data)))
  {
    if op.nFeatures * op.Batch() > 0 {
      PositiveFactors(op.nFeatures, op.Batch());
      LocationsMultiple(op.nFeatures, op.Locations(), op.Batch());
      if op.Locations() == 1 {
        BroadcastOneLocation(op, g.data);
      } else {
        OtherLocationCount(op.nFeatures, op.Locations(), op.Batch());
      }
    }
  }

  /** The broadcast backward is the adjoint of the forward against the
      broadcast gradient. */
  lemma Im2colBroadcastAdjoint(op: Im2col, img: NdArray<int>, g: NdArray<int>)
    requires op.Valid() && Fits(op) && op.nFeatures * op.Batch() > 0
    requires img.Valid() && img.shape == op.imageShape
    requires |g.data| == op.nFeatures * op.Batch()
    ensures Im2colBackwardResult(op, g).Ok? && Im2colForward(op, img).Ok?
    ensures Dot(img.data, Im2colBackwardResult(op, g).value.data)
         == Dot(Im2colForward(op, img).value.data, Broadcast(op, g.data))
  {
    var full := NdArray([op.nFeatures, op.Columns()], Broadcast(op, g.data));
    Im2colBackwardBroadcasts(op, g);
    Im2colBackwardAdjoint(op, img, full);
  }
}
