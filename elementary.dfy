/** The elementary operators of nujo's autodiff (`_Addition`, `_Negation`,
    `_Multiplication`, `_Reciprocal`, `_Power`, `_Logarithm`, `_MatrixMul`):
    the checks their constructors make, the exact forward passes, and the
    tuples their `backward()` returns. Arrays hold integers and operands of
    elementwise operators have equal shapes. */
module Elementary {
  import opened Wrappers
  import opened NdArrays

  type Value = NdArray<int>

  /** The seven operators. */
  datatype Op = Addition | Negation | Multiplication | Reciprocal | Power | Logarithm | MatrixMul
  {
    /** How many inputs the constructor hands to `Function.__init__`. */
    function Arity(): nat
    {
      if this in {Negation, Reciprocal} then 1 else 2
    }
  }

  /** An operator together with the values of its children. */
  datatype Node = Node(op: Op, children: seq<Value>)

  /** Every element is positive (`(x > 0).all()`). */
  predicate AllPositive(x: Value)
  {
    forall i :: 0 <= i < |x.data| ==> x.data[i] > 0
  }

  /** The constructor of each operator: `_Logarithm` asserts positive
      arguments and bases, `_MatrixMul` asserts that the inner dimensions
      agree (and `shape[-1]` / `shape[0]` of a 0-d array raise IndexError);
      the others only build the node. */
  function Construct(op: Op, children: seq<Value>): (r: Result<Node>)
    requires |children| == op.Arity()
    ensures r.Ok? ==> r.value == Node(op, children)
    ensures op == Logarithm ==>
      (r.Ok? <==> AllPositive(children[0]) && AllPositive(children[1]))
    ensures op == Logarithm && r.Err? ==> r.error == AssertionError
    ensures op == MatrixMul ==>
      (r.Ok? <==> children[0].Rank() > 0 && children[1].Rank() > 0
                  && children[0].shape[children[0].Rank() - 1] == children[1].shape[0])
    ensures op == MatrixMul && (children[0].Rank() == 0 || children[1].Rank() == 0) ==> r == Err(IndexError)
    ensures op !in {Logarithm, MatrixMul} ==> r.Ok?
  {
    match op
    case Logarithm =>
      var a, b := children[0], children[1];
      if !AllPositive(a) then Err(AssertionError)
      else if !AllPositive(b) then Err(AssertionError)
      else if !(forall i :: 0 <= i < |b.data| ==> b.data[i] != 0) then Err(AssertionError)
      else Ok(Node(op, children))
    case MatrixMul =>
      var a, b := children[0], children[1];
      if a.Rank() == 0 || b.Rank() == 0 then Err(IndexError)
      else if a.shape[a.Rank() - 1] != b.shape[0] then Err(AssertionError)
      else Ok(Node(op, children))
    case _ => Ok(Node(op, children))
  }

  // ------------------------------------------------------------ forward passes

  /** Elementwise `a + b`. */
  function Add(a: Value, b: Value): (r: Value)
    requires a.Valid() && b.shape == a.shape && b.Valid()
    ensures r.Valid() && r.shape == a.shape
  {
    NdArray(a.shape, seq(|a.data|, i requires 0 <= i < |a.data| => a.data[i] + b.data[i]))
  }

  /** Elementwise `-a`. */
  function Neg(a: Value): (r: Value)
    requires a.Valid()
    ensures r.Valid() && r.shape == a.shape
  {
    NdArray(a.shape, seq(|a.data|, i requires 0 <= i < |a.data| => -a.data[i]))
  }

  /** Elementwise `a * b`. */
  function Mul(a: Value, b: Value): (r: Value)
    requires a.Valid() && b.shape == a.shape && b.Valid()
    ensures r.Valid() && r.shape == a.shape
  {
    NdArray(a.shape, seq(|a.data|, i requires 0 <= i < |a.data| => a.data[i] * b.data[i]))
  }

  function Ones(shape: seq<nat>): (r: Value)
    ensures r.Valid() && r.shape == shape
  {
    Full(shape, 1)
  }

  /** A 2-D array with `m` rows and `n` columns. */
  predicate IsMatrix(a: Value, m: nat, n: nat)
  {
    a.shape == [m, n] && |a.data| == m * n
  }

  /** `sum(a[i, t] * b[t, j] for t < k)`. */
  function RowCol(a: Value, b: Value, n: nat, p: nat, i: nat, j: nat, k: nat): int
    requires k <= n && j < p
    requires (i + 1) * n <= |a.data| && n * p <= |b.data|
    decreases k
  {
    if k == 0 then 0
    else
      ElementIndex(i, k - 1, n, |a.data|);
      ElementIndex(k - 1, j, p, |b.data|);
      RowCol(a, b, n, p, i, j, k - 1) + a.data[i * n + (k - 1)] * b.data[(k - 1) * p + j]
  }

  /** Element `[r, c]` of a matrix with `cols` columns lies within its data. */
  lemma ElementIndex(r: nat, c: nat, cols: nat, len: nat)
    requires c < cols && (r + 1) * cols <= len
    ensures r * cols + c < len
  {
    assert (r + 1) * cols == r * cols + cols;
  }

  /** Position `k` of an m x p matrix is row `k / p`, column `k % p`, and
      row `k / p` of an m x n matrix lies within its data. */
  lemma MatrixIndex(k: nat, m: nat, n: nat, p: nat)
    requires k < m * p
    ensures p > 0 && k / p < m && k % p < p && (k / p + 1) * n <= m * n
  {
    if p == 0 {
      assert false;
    } else if k / p >= m {
      MulMonotone(m, k / p, p);
      assert false;
    }
    MulMonotone(k / p + 1, m, n);
  }

  /** `a @ b` for an m x n matrix and an n x p matrix. */
  function MatMul(a: Value, b: Value, m: nat, n: nat, p: nat): (r: Value)
    requires IsMatrix(a, m, n) && IsMatrix(b, n, p)
    ensures IsMatrix(r, m, p) && r.Valid()
  {
    ProductPair(m, p);
    NdArray([m, p], seq(m * p, k requires 0 <= k < m * p => Entry(a, b, m, n, p, k)))
  }

  /** Element `k` of `a @ b`: row `k / p` of `a` against column `k % p` of `b`. */
  function Entry(a: Value, b: Value, m: nat, n: nat, p: nat, k: nat): int
    requires IsMatrix(a, m, n) && IsMatrix(b, n, p) && k < m * p
  {
    MatrixIndex(k, m, n, p);
    RowCol(a, b, n, p, k / p, k % p, n)
  }

  // ----------------------------------------------------------- backward passes

  /** One entry of a `backward()` tuple: an integer array, a Python constant,
      or a float array of the given shape whose values need `log`, the
      `eps` of `_Reciprocal` or a negative power, and are not computed here. */
  datatype Partial = Array(a: Value) | Constant(c: int) | FloatArray(shape: seq<nat>)

  /** `backward()` of each operator, on the children's values. */
  function Backward(n: Node): (t: seq<Partial>)
    requires |n.children| == n.op.Arity()
    requires forall i :: 0 <= i < |n.children| ==> n.children[i].Valid()
    ensures |t| == n.op.Arity()
  {
    match n.op
    case Addition => [Array(Ones(n.children[0].shape)), Array(Ones(n.children[1].shape))]
    case Negation => [Array(Neg(Ones(n.children[0].shape)))]
    case Multiplication => [Array(n.children[1]), Array(n.children[0])]
    case Reciprocal => [FloatArray(n.children[0].shape)]
    case Power => [FloatArray(n.children[0].shape), Constant(1)]
    case Logarithm => [FloatArray(n.children[0].shape), Constant(1)]
    case MatrixMul => [Array(n.children[1]), Array(n.children[0])]
  }

  /** `Backward` returns one entry per child, and the second entry of
      `_Power` and `_Logarithm` is the constant 1, not an array. */
  lemma BackwardArity(n: Node)
    requires |n.children| == n.op.Arity()
    requires forall i :: 0 <= i < |n.children| ==> n.children[i].Valid()
    ensures |Backward(n)| == (if n.op in {Negation, Reciprocal} then 1 else 2)
    ensures n.op in {Power, Logarithm} ==> Backward(n)[1] == Constant(1)
  {
  }

  // ---------------------------------------------------------------- properties

  /** The entries of `Backward` for `_Addition` are the coefficients of a
      change of either operand: `(a + d) + b == (a + b) + d * ones`. */
  lemma AdditionPartials(a: Value, b: Value, d: Value)
    requires a.Valid() && b.Valid() && d.Valid() && b.shape == a.shape && d.shape == a.shape
    ensures var t := Backward(Node(Addition, [a, b]));
      && t[0] == Array(Ones(a.shape)) && t[1] == Array(Ones(b.shape))
      && Add(Add(a, d), b) == Add(Add(a, b), Mul(d, t[0].a))
      && Add(a, Add(b, d)) == Add(Add(a, b), Mul(d, t[1].a))
  {
  }

  /** The entry of `Backward` for `_Negation` is the coefficient of a change:
      `-(a + d) == -a + d * (-ones)`. */
  lemma NegationPartial(a: Value, d: Value)
    requires a.Valid() && d.Valid() && d.shape == a.shape
    ensures var t := Backward(Node(Negation, [a]));
      Neg(Add(a, d)) == Add(Neg(a), Mul(d, t[0].a))
  {
  }

  /** `_Multiplication.backward` returns the operands swapped, and they are
      the coefficients of a change of the other operand:
      `(a + d) * b == a * b + d * b` and `a * (b + d) == a * b + d * a`. */
  lemma MultiplicationPartials(a: Value, b: Value, d: Value)
    requires a.Valid() && b.Valid() && d.Valid() && b.shape == a.shape && d.shape == a.shape
    ensures var t := Backward(Node(Multiplication, [a, b]));
      && t == [Array(b), Array(a)]
      && Mul(Add(a, d), b) == Add(Mul(a, b), Mul(d, t[0].a))
      && Mul(a, Add(b, d)) == Add(Mul(a, b), Mul(d, t[1].a))
  {
    var lhs, rhs := Mul(Add(a, d), b), Add(Mul(a, b), Mul(d, b));
    forall i | 0 <= i < |a.data|
      ensures lhs.data[i] == rhs.data[i]
    {
      assert (a.data[i] + d.data[i]) * b.data[i] == a.data[i] * b.data[i] + d.data[i] * b.data[i];
    }
    var lhs2, rhs2 := Mul(a, Add(b, d)), Add(Mul(a, b), Mul(d, a));
    forall i | 0 <= i < |a.data|
      ensures lhs2.data[i] == rhs2.data[i]
    {
      assert a.data[i] * (b.data[i] + d.data[i]) == a.data[i] * b.data[i] + d.data[i] * a.data[i];
    }
  }

  /** Negation undoes itself, and adding the negation undoes an addition. */
  lemma NegationInverts(a: Value, b: Value)
    requires a.Valid() && b.Valid() && b.shape == a.shape
    ensures Neg(Neg(a)) == a
    ensures Add(Add(a, b), Neg(b)) == a
  {
    assert Neg(Neg(a)).data == a.data;
    assert Add(Add(a, b), Neg(b)).data == a.data;
  }

  /** The forward passes of `_Addition` and `_Multiplication` do not depend
      on the order of the children. */
  lemma Commutative(a: Value, b: Value)
    requires a.Valid() && b.Valid() && b.shape == a.shape
    ensures Add(a, b) == Add(b, a) && Mul(a, b) == Mul(b, a)
  {
    assert Mul(a, b).data == Mul(b, a).data;
  }

  /** The n x n identity matrix. */
  function Eye(n: nat): (r: Value)
    ensures IsMatrix(r, n, n) && r.Valid()
  {
    ProductPair(n, n);
    NdArray([n, n], seq(n * n, k requires 0 <= k < n * n => if k / n == k % n then 1 else 0))
  }

  /** `a @ eye(n)` sums `a[i, t] * eye[t, j]`, whose only non-zero term is `t == j`. */
  lemma {:induction false} RowColEye(a: Value, n: nat, i: nat, j: nat, k: nat)
    requires k <= n && j < n && (i + 1) * n <= |a.data|
    ensures RowCol(a, Eye(n), n, n, i, j, k) == if j < k then a.data[i * n + j] else 0
    decreases k
  {
    if k > 0 {
      var t := k - 1;
      RowColEye(a, n, i, j, t);
      MulMonotone(t + 1, n, n);
      ElementIndex(t, j, n, n * n);
      DivModOfSum(t, j, n);
      var e := Eye(n).data[t * n + j];
      assert e == if t == j then 1 else 0;
      ElementIndex(i, t, n, |a.data|);
      assert RowCol(a, Eye(n), n, n, i, j, k)
          == RowCol(a, Eye(n), n, n, i, j, t) + a.data[i * n + t] * e;
    }
  }

  /** Multiplying by the identity leaves a matrix unchanged, so the forward
      pass of `_MatrixMul` is `m x p` for an `m x n` and an `n x p` operand. */
  lemma MatMulIdentity(a: Value, m: nat, n: nat)
    requires IsMatrix(a, m, n)
    ensures MatMul(a, Eye(n), m, n, n) == a
  {
    var r := MatMul(a, Eye(n), m, n, n);
    forall k | 0 <= k < m * n
      ensures r.data[k] == a.data[k]
    {
      MatMulEyeAt(a, m, n, k);
    }
    assert r.data == a.data;
  }

  lemma MatMulEyeAt(a: Value, m: nat, n: nat, k: nat)
    requires IsMatrix(a, m, n) && k < m * n
    ensures MatMul(a, Eye(n), m, n, n).data[k] == a.data[k]
  {
    MatrixIndex(k, m, n, n);
    var i, j := k / n, k % n;
    assert i * n + j == k;
    RowColEye(a, n, i, j, n);
    assert MatMul(a, Eye(n), m, n, n).data[k] == Entry(a, Eye(n), m, n, n, k);
  }
}
