/** The shape bookkeeping of nujo's `Linear` and `Conv2d` layers: the
    parameters their constructors create, the int-or-pair arguments of
    `Conv2d`, the channel check of `Conv2d.forward` and
    `Conv2d.get_output_shape`. */
module Layers {
  import opened Wrappers
  import opened Builtins
  import opened NdArrays
  import Transform

  /** A trainable parameter made by `randn(*shape, name=...)`; its random
      values are not part of this model. */
  datatype Param = Param(shape: seq<int>, name: string)

  /** `f'{name}({a}, {b})'`, the name both layers give themselves. */
  function LayerName(name: string, a: int, b: int): (s: string)
    ensures |s| > |name| && s[..|name|] == name && s[|name|] == '(' && s[|s| - 1] == ')'
  {
    name + "(" + IntToString(a) + ", " + IntToString(b) + ")"
  }

  // ------------------------------------------------------------------ Linear

  datatype Linear = Linear(name: string, inFeatures: int, outFeatures: int, bias: bool,
                           w: Param, b: Option<Param>)

  /** `Linear.__init__`. */
  function NewLinear(inFeatures: int, outFeatures: int, bias: bool, name: string): (l: Linear)
    ensures l.name == LayerName(name, inFeatures, outFeatures)
    ensures l.inFeatures == inFeatures && l.outFeatures == outFeatures && l.bias == bias
    ensures l.w == Param([outFeatures, inFeatures], l.name + ".W")
    ensures l.b.Some? <==> bias
    ensures bias ==> l.b.value == Param([outFeatures, 1], l.name + ".bias")
  {
    var n := LayerName(name, inFeatures, outFeatures);
    Linear(n, inFeatures, outFeatures, bias,
           Param([outFeatures, inFeatures], n + ".W"),
           if bias then Some(Param([outFeatures, 1], n + ".bias")) else None)
  }

  // ------------------------------------------------------------------ Conv2d

  /** A `kernel_size`, `stride`, `padding` or `dilation` argument: an `int`
      or a 2-tuple of `int`s. */
  datatype IntOrPair = Int(n: int) | Pair(first: int, second: int)

  /** `x if isinstance(x, tuple) else (x, x)`. */
  function AsPair(x: IntOrPair): (p: (int, int))
    ensures x.Int? ==> p == (x.n, x.n)
    ensures x.Pair? ==> p == (x.first, x.second)
  {
    match x
    case Int(n) => (n, n)
    case Pair(a, b) => (a, b)
  }

  /** Normalising twice is normalising once, and an `int` and the pair that
      repeats it normalise alike. */
  lemma AsPairIdempotent(x: IntOrPair)
    ensures AsPair(Pair(AsPair(x).0, AsPair(x).1)) == AsPair(x)
    ensures x.Int? ==> AsPair(Pair(x.n, x.n)) == AsPair(x)
  {
  }

  datatype Conv2d = Conv2d(name: string, inChannels: int, outChannels: int,
                           kernelSize: (int, int), stride: (int, int),
                           padding: (int, int), dilation: (int, int), bias: bool,
                           kernels: Param, b: Option<Param>)

  /** `Conv2d.__init__`. */
  function NewConv2d(inChannels: int, outChannels: int, kernelSize: IntOrPair,
                     stride: IntOrPair, padding: IntOrPair, dilation: IntOrPair,
                     bias: bool, name: string): (c: Conv2d)
    ensures c.name == LayerName(name, inChannels, outChannels)
    ensures c.inChannels == inChannels && c.outChannels == outChannels && c.bias == bias
    ensures c.kernelSize == AsPair(kernelSize) && c.stride == AsPair(stride)
    ensures c.padding == AsPair(padding) && c.dilation == AsPair(dilation)
    ensures c.kernels == Param([outChannels, inChannels, c.kernelSize.0, c.kernelSize.1],
                               c.name + ".kernels")
    ensures c.b.Some? <==> bias
    ensures bias ==> c.b.value == Param([outChannels, 1], c.name + ".bias")
  {
    var n := LayerName(name, inChannels, outChannels);
    var k := AsPair(kernelSize);
    Conv2d(n, inChannels, outChannels, k, AsPair(stride), AsPair(padding), AsPair(dilation), bias,
           Param([outChannels, inChannels, k.0, k.1], n + ".kernels"),
           if bias then Some(Param([outChannels, 1], n + ".bias")) else None)
  }

  /** The start of `Conv2d.forward`: unpacking the shape into four names
      raises ValueError unless the input is 4-D, and the channel dimension
      must be `in_channels`. Gives `(batch_size, height, width)`. */
  function ForwardCheck(c: Conv2d, shape: seq<nat>): (r: Result<(nat, nat, nat)>)
    ensures r.Ok? <==> |shape| == 4 && shape[1] == c.inChannels
    ensures |shape| != 4 ==> r == Err(ValueError)
    ensures |shape| == 4 && shape[1] != c.inChannels ==> r == Err(AssertionError)
    ensures r.Ok? ==> r.value == (shape[0], shape[2], shape[3])
  {
    if |shape| != 4 then Err(ValueError)
    else if shape[1] != c.inChannels then Err(AssertionError)
    else Ok((shape[0], shape[2], shape[3]))
  }

  /** `Conv2d.get_output_shape(height, width)`: the number of output
      channels and of kernel positions along each padded axis. */
  function OutputShape(c: Conv2d, height: int, width: int): (r: Result<(int, int, int)>)
    ensures r.Err? <==> c.stride.0 == 0 || c.stride.1 == 0
    ensures r.Err? ==> r.error == ZeroDivisionError
    ensures r.Ok? ==> r.value.0 == c.outChannels
    // positions 0 .. oh-1 are the strides at which a kernel still fits
    ensures r.Ok? && c.stride.0 > 0 ==>
      var span := height + 2 * c.padding.0 - c.kernelSize.0;
      c.stride.0 * (r.value.1 - 1) <= span < c.stride.0 * r.value.1
    ensures r.Ok? && c.stride.1 > 0 ==>
      var span := width + 2 * c.padding.1 - c.kernelSize.1;
      c.stride.1 * (r.value.2 - 1) <= span < c.stride.1 * r.value.2
  {
    if c.stride.0 == 0 || c.stride.1 == 0 then Err(ZeroDivisionError)
    else
      Ok((c.outChannels,
          FloorDiv(height + c.padding.0 * 2 - c.kernelSize.0, c.stride.0) + 1,
          FloorDiv(width + c.padding.1 * 2 - c.kernelSize.1, c.stride.1) + 1))
  }

  /** The output shape of `Conv2d` is the `Im2col` geometry of the padded
      image: `_Im2col` accepts the padded image exactly when numpy accepts
      the out sizes as counts, and then its out height and out width are
      the ones `get_output_shape` gives. */
  lemma OutputShapeMatchesIm2col(c: Conv2d, shape: seq<nat>)
    requires ForwardCheck(c, shape).Ok?
    requires c.kernelSize.0 >= 0 && c.kernelSize.1 >= 0
    requires c.padding.0 >= 0 && c.padding.1 >= 0 && c.stride.0 > 0 && c.stride.1 > 0
    ensures var padded := [shape[0], shape[1], shape[2] + 2 * c.padding.0, shape[3] + 2 * c.padding.1];
      var op := Transform.NewIm2col(padded, (c.kernelSize.0, c.kernelSize.1), (c.stride.0, c.stride.1));
      var out := OutputShape(c, shape[2], shape[3]);
      && out.Ok?
      && (op.Ok? <==> Transform.CountsAccepted(out.value.1, out.value.2))
      && (op.Err? ==> op.error == ValueError)
      && (op.Ok? ==> out.value == (c.outChannels, op.value.OutHeight(), op.value.OutWidth()))
  {
    var padded := [shape[0], shape[1], shape[2] + 2 * c.padding.0, shape[3] + 2 * c.padding.1];
    var r := Transform.NewIm2col(padded, (c.kernelSize.0, c.kernelSize.1), (c.stride.0, c.stride.1));
    assert padded[2] == shape[2] + c.padding.0 * 2 && padded[3] == shape[3] + c.padding.1 * 2;
    if r.Ok? {
      var op := r.value;
      assert op.Height() == shape[2] + c.padding.0 * 2;
      assert op.Width() == shape[3] + c.padding.1 * 2;
    }
  }

  /** The final reshape of `Conv2d.forward`, from the
      `out_channels x columns` product to
      `(out_channels, out_height, out_width, batch_size)`, keeps every
      element whenever both out sizes are non-negative. */
  lemma OutputReshapeFits(outChannels: nat, op: Transform.Im2col)
    requires op.Valid() && op.OutHeight() >= 0 && op.OutWidth() >= 0
    ensures Product([outChannels, op.OutHeight() as nat, op.OutWidth() as nat, op.Batch()])
            == outChannels * op.Columns()
  {
    var oh, ow, b := op.OutHeight() as nat, op.OutWidth() as nat, op.Batch();
    var s := [outChannels, oh, ow, b];
    assert s[1..] == [oh, ow, b] && s[1..][1..] == [ow, b];
    ProductPair(ow, b);
    assert Product(s) == outChannels * (oh * (ow * b));
    assert op.Columns() == oh * ow * b;
  }
}
