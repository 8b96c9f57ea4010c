# nujo core in Dafny

This project models the core of nujo, a small automatic-differentiation
library written in Python on top of numpy, and proves properties of that
model. It covers four parts.

- **Graph construction** (`function.dfy`, module `Graph`). This is the
  `Function` base class.
  - `__new__` looks a node up in the class-level function cache, keyed by
    the class tag followed by every argument's id or `str`, with no
    separator. On a miss it creates and registers a new node.
  - `__init__` returns at once after a cache hit. Otherwise it wraps raw
    inputs into leaf Tensors and creates one output placeholder. While
    recording, it appends the placeholder to every child's
    `parents_outputs`.
  - `__call__` stores the forward value in the placeholder and returns
    that same placeholder.
  - The shared state lives in a `Session` class: the cache, the hit flag,
    the recording flag and the node-id counter. Tensors and Functions are
    classes whose fields the methods update in place.
- **Shape transforms** (`transform.dfy`, module `Transform`). These are
  `_Reshape`, `_Transpose` (with the argsort that gives
  `_detranspose_dims`), `_ConstPad` and `_Im2col`. Arrays are a shape plus
  a row-major flat sequence (`ndarray.dfy`, module `NdArrays`).
  - `_ConstPad.backward` is an imperative loop, modelled as a method.
  - `_Im2col.backward` is an in-place scatter-add into a zero buffer,
    modelled as a method over an `array`.
  - As written, the `_Im2col` index tables scale the window row by the
    *width* stride and the window column by the *height* stride. With
    equal strides every index lies inside the image
    (`Transform.EqualStridesFit`). With unequal strides an index can leave
    the image (`Transform.UnequalStridesEscape`). The operator keeps these
    tables as written, and its forward pass fails when an index leaves the
    image. The corrected tables (`Transform.CorrectedIndices`) scale each
    axis by its own stride, and every index they hold fits
    (`Transform.CorrectedIndicesFit`).
  - A `_Transpose` with negative `dims` sorts the raw values for its
    backward pass. A `_Reshape` of a 0-D input unpacks an empty shape in
    its backward pass. Both are kept as written, next to corrected
    versions; see "Findings".
- **Elementary operators** (`elementary.dfy`, module `Elementary`). This
  covers the seven operators' constructor assertions, the exact forward
  passes of addition, negation, multiplication and matrix multiplication
  over integers, and the tuples their `backward()` returns.
- **Layers** (`layers.dfy`, module `Layers`). This covers the parameter
  shapes and names of `Linear` and `Conv2d`, int-or-pair normalisation,
  the input check of `Conv2d.forward`, and `get_output_shape`. The output
  shape is tied to the `_Im2col` geometry of the padded image.

Errors the Python code raises become `Err` values of the `Result` type in
`wrappers.dfy`: an `assert` becomes `AssertionError`, a failed tuple
unpacking `ValueError`, an index past a tuple `IndexError` and a `//` by
zero `ZeroDivisionError`. Python's `str` of an integer and floor division
are in `builtins.dfy`.

## Model

| member | source | states |
|---|---|---|
| Builtins.IntToStringInjective | nujo/autodiff/function.py:82-83 | different integers have different `str`, so a lone raw integer argument is identified by its token |
| Builtins.NatToStringInjective | nujo/autodiff/function.py:110-111 | different node ids print differently in `repr` |
| Builtins.FloorDiv | nujo/nn/layers.py:147-150 | Python `//`: the quotient is the floor, given as two-sided bounds for either sign of the divisor |
| NdArrays.FlattenInRange | nujo/autodiff/_functions/_transform.py:28-29 | every in-bounds multi-index has a row-major position inside the data |
| NdArrays.UnflattenInBounds | nujo/autodiff/_functions/_transform.py:28-29 | every position inside the data decodes to an in-bounds multi-index |
| NdArrays.FlattenUnflatten | nujo/autodiff/_functions/_transform.py:28-29 | decoding a position and encoding it again gives the same position |
| NdArrays.UnflattenFlatten | nujo/autodiff/_functions/_transform.py:28-29 | encoding an in-bounds multi-index and decoding it gives the same multi-index |
| NdArrays.FlattenInjective | nujo/autodiff/_functions/_transform.py:28-29 | two in-bounds multi-indices with the same position are equal |
| Graph.Tensor.constructor | nujo/autodiff/function.py:57-61 | a new Tensor holds the given id, value, diff flag, creator and name, and has no parent outputs |
| Graph.RawValue | nujo/autodiff/function.py:106 | the array a leaf Tensor holds for a raw number or tuple is well formed |
| Graph.Identities | nujo/autodiff/function.py:82-83 | the key records one identity per argument, in order: a Tensor's id, otherwise the raw value |
| Graph.Values | nujo/autodiff/function.py:163 | `forward()` sees the children's values, one per child, in order |
| Graph.AnyDiff | nujo/autodiff/function.py:59 | `any(x.diff ...)`: true iff some tensor is differentiable |
| Graph.Function.Allocate | nujo/autodiff/function.py:89-99 | `object.__new__` gives an instance of the class with no children and no placeholder yet |
| Graph.Function.Call | nujo/autodiff/function.py:158-164 | `__call__` stores the forward value of the children's values in the placeholder and returns that same placeholder object; only the placeholder's value changes |
| Graph.LinkChildren | nujo/autodiff/function.py:63-66 | every child gains one link to the placeholder per occurrence among the children, appended after its old links |
| Graph.RawChildrenOccurOnce | nujo/autodiff/function.py:105-108 | a Tensor made from a raw input occurs exactly once among the children |
| Graph.Session.constructor | nujo/autodiff/function.py:31-40 | the cache starts empty and the hit flag false |
| Graph.Session.New | nujo/autodiff/function.py:68-99 | recording and key cached: the cached node, hit set, cache unchanged. Recording and key absent: a fresh node, registered under the key and no other entry changed. Not recording: a fresh node, cache neither read nor written, hit cleared |
| Graph.Session.ParseInputs | nujo/autodiff/function.py:101-108 | length and order kept; Tensors pass through; each other input becomes its own fresh leaf Tensor named by its `str`, holding its value, not differentiable, with no creator |
| Graph.Session.ParseChildren | nujo/autodiff/function.py:105-108 | as `_parse_inputs`, and each new leaf occurs once among the children |
| Graph.Session.ParseInput | nujo/autodiff/function.py:106 | one input: a Tensor passes through; anything else becomes a new leaf Tensor with the next id |
| Graph.Session.Init | nujo/autodiff/function.py:46-66 | after a hit, nothing changes (no id, no placeholder, no link); otherwise the node is initialised in full, and the node and its placeholder take new ids from the counter |
| Graph.Session.InitNode | nujo/autodiff/function.py:53-66 | the node gets its parsed children and a new placeholder, both with new ids from the counter. While recording, each Tensor input gains exactly its occurrence count of links and each raw leaf exactly one; otherwise no links |
| Graph.Session.MakeNode | nujo/autodiff/function.py:53-61 | children parsed, name set, the node and a new placeholder with new ids from the counter, the placeholder distinct from every child; raw leaves start unlinked and occur once |
| Graph.Session.Attach | nujo/autodiff/function.py:53-61 | the node and the placeholder take new ids from the counter; the placeholder is new and empty and named `Z` + repr. `diff` holds iff recording and some child is diff. `creator` is the node iff recording |
| Graph.Session.Construct | nujo/autodiff/function.py:46-99 | `Cls(*args)`: on a recording hit, the cached node, with no new id, no Tensor changed and no base-class field of a cached node changed; otherwise a fresh, fully initialised node, registered only while recording, whose id and placeholder id are new ids from the counter; only the input Tensors' `parents_outputs` can change |
| Graph.KeyCollision | nujo/autodiff/function.py:80-83 | ids (1, 23) and (12, 3) give the same key, because the key has no separator |
| Graph.TensorRawCollision | nujo/autodiff/function.py:82-83 | a Tensor with id 5 and the raw number 5 give the same key |
| Graph.KeyOfTensorsInjective | nujo/autodiff/function.py:80-83 | for Tensor-only argument lists whose ids pair up digit for digit, equal keys iff equal ids |
| Graph.TensorTokensInjective | nujo/autodiff/function.py:82-83 | the concatenated id tokens determine the ids when the digit counts match |
| Graph.PlaceholderNameInjective | nujo/autodiff/function.py:110-114 | placeholders of equally named nodes have equal names iff the node ids are equal |
| Graph.RebuildReuses | nujo/autodiff/function.py:79-87 | constructing the same class on the same arguments twice while recording yields one identical node and a cache hit |
| Graph.Session.NewThenInit | nujo/autodiff/function.py:46-99 | `__new__` followed by `__init__`: on a recording hit, the cached node with no id, Tensor or cached node changed; otherwise a fresh, initialised node with new ids for it and its placeholder, registered only while recording |
| Graph.Session.NewThenInitOnMiss | nujo/autodiff/function.py:46-99 | on a miss or while not recording, the node is fresh, initialised from its inputs, takes new ids for itself and its placeholder, and is registered only while recording |
| Graph.CollidingKeys | nujo/autodiff/function.py:80-83 | Tensors with ids 1, 23 and Tensors with ids 12, 3 collide in the cache |
| Graph.ConstructOnMiss | nujo/autodiff/function.py:89-93 | a recording miss registers the new node under its key, leaves every other entry alone, and the node's children are the given Tensors |
| Graph.ConstructOnHit | nujo/autodiff/function.py:85-87 | a recording hit returns the cached node with its children untouched, because `__init__` returns early |
| Graph.FirstAdd | nujo/autodiff/function.py:46-99 | in a fresh recording session, the first `Add` of Tensors 1 and 23 leaves exactly one cache entry, under their key, whose node has those two Tensors as children |
| Graph.CollidingArguments | nujo/autodiff/function.py:80-87 | building `Add` on Tensors 12 and 3 after Tensors 1 and 23 returns the first node, whose children are still Tensors 1 and 23 |
| Graph.Function.SubclassBody | nujo/autodiff/_functions/_transform.py:23-26 | a subclass `__init__` after `Function.__init__`: AssertionError iff its check of the children fails; otherwise its attributes are set |
| Graph.Session.ConstructSubclass | nujo/autodiff/function.py:46-99 | `Cls(*args, **kw)` for a subclass: what `Construct` leaves (on a miss, a fresh node whose id and placeholder id are new ids from the counter), then the subclass body on that node even on a cache hit, so a hit overwrites the cached node's attributes; a failed check leaves the node built, cached and linked |
| Graph.KeywordResetsCachedNode | nujo/autodiff/function.py:68-87 | `_Reshape(x, shape=(6,))` then `_Reshape(x, shape=(2, 3))` while recording give one node, whose shape is now (2, 3) |
| Graph.ShapeKeysDiffer | nujo/autodiff/function.py:80-83 | with the shape in the key, `_Reshape(x, (6,))` and `_Reshape(x, (2, 3))` have different keys |
| Graph.KeywordInKeyKeepsNodes | nujo/autodiff/function.py:68-87 | with the keyword values in the key, the two calls give two nodes, each keeping its own shape |
| Transform.ReshapeTo | nujo/autodiff/_functions/_transform.py:28-29 | reshape succeeds iff the element count matches (ValueError otherwise), and keeps the row-major data under the new shape |
| Transform.ReshapeStar | nujo/autodiff/_functions/_transform.py:29-32 | `reshape(*shape)`: TypeError for an empty shape, since `reshape()` takes at least one argument; otherwise as `reshape(shape)` |
| Transform.NewReshape | nujo/autodiff/_functions/_transform.py:19-26 | the operator records the target shape and the input's shape at construction |
| Transform.ReshapeRoundTrip | nujo/autodiff/_functions/_transform.py:19-32 | forward succeeds iff the shape is non-empty and sizes agree; then backward restores the input exactly (shape and contents) when it has an axis, and raises TypeError for a 0-D input |
| Transform.ScalarReshapeBackwardFails | nujo/autodiff/_functions/_transform.py:19-32 | the 0-D array 7 reshaped to (1,) goes forward, and its backward raises TypeError |
| Transform.CorrectedReshapeRoundTrip | nujo/autodiff/_functions/_transform.py:19-32 | passing the shapes whole, forward succeeds iff sizes agree and backward then restores every input, 0-D included |
| Transform.ArgSort | nujo/autodiff/_functions/_transform.py:47-48 | `sorted(range(len(dims)), key=dims.__getitem__)` on the raw, possibly negative, values gives one index below `len(dims)` per axis |
| Transform.SortIndicesSpec | nujo/autodiff/_functions/_transform.py:47-48 | the stable sort yields each index below n exactly once, in key order |
| Transform.ArgSortInverts | nujo/autodiff/_functions/_transform.py:47-48 | for a permutation, `dims[det[k]] == k` for every axis k |
| Transform.Inverse | nujo/autodiff/_functions/_transform.py:47-48 | an independent reference definition: the permutation that `dims` maps back to each axis |
| Transform.InverseIsPerm | nujo/autodiff/_functions/_transform.py:47-48 | the inverse of a permutation is a permutation, and inverting twice gives it back |
| Transform.ArgSortIsInverse | nujo/autodiff/_functions/_transform.py:47-48 | the argsort of a permutation is its inverse permutation |
| Transform.Transpose | nujo/autodiff/_functions/_transform.py:50-51 | transpose by non-negative axes succeeds iff they are a permutation of the axes; the result's shape is the permuted shape |
| Transform.TransposeMoves | nujo/autodiff/_functions/_transform.py:50-51 | the input element at `i` is the output element at the permuted index |
| Transform.TransposeInverts | nujo/autodiff/_functions/_transform.py:50-54 | transposing by a permutation and then by its inverse gives back the input |
| Transform.ReversedSelfInverse | nujo/autodiff/_functions/_transform.py:45-46 | `reversed(range(n))` is a permutation and its own inverse |
| Transform.Normalise | nujo/autodiff/_functions/_transform.py:51 | numpy's axis normalisation: every axis in `[-n, n)` maps below n, to itself or to itself plus n |
| Transform.TransposeAxes | nujo/autodiff/_functions/_transform.py:51-54 | `transpose(*axes)`: no axes reverses the axes; otherwise it succeeds iff there is one axis per dimension, in range, and the normalised axes are a permutation; every refusal is ValueError |
| Transform.NewTranspose | nujo/autodiff/_functions/_transform.py:39-48 | no `dims` raises TypeError (the `len` of a `reversed` iterator); explicit `dims` are kept and `_detranspose_dims` is their raw argsort |
| Transform.AxesRoundTrip | nujo/autodiff/_functions/_transform.py:50-54 | accepted axes are undone by the argsort of their normalised form; no axes are undone by no axes |
| Transform.TransposeRoundTrip | nujo/autodiff/_functions/_transform.py:38-54 | for non-negative `dims` whose forward succeeds, the backward by `_detranspose_dims` gives back the input |
| Transform.NegativeAxesBreakRoundTrip | nujo/autodiff/_functions/_transform.py:38-54 | dims (-1, 0) on a 2x3 array: the raw argsort is (0, 1), forward gives 3x2 and backward still gives 3x2, not the input's shape |
| Transform.NewTransposeNormalised | nujo/autodiff/_functions/_transform.py:47-48 | the corrected constructor: `_detranspose_dims` is the argsort of the normalised `dims` |
| Transform.CorrectedTransposeRoundTrip | nujo/autodiff/_functions/_transform.py:38-54 | with the normalised argsort every successful forward is undone by the backward, negative axes included |
| Transform.NewConstPad | nujo/autodiff/_functions/_transform.py:74-84 | construction succeeds iff there is one padding pair per input axis, else AssertionError |
| Transform.Pad | nujo/autodiff/_functions/_transform.py:86-89 | the padded array is well formed with the grown shape |
| Transform.PadInterior | nujo/autodiff/_functions/_transform.py:86-89 | every input element reappears, shifted by the leading padding of each axis |
| Transform.PadBorder | nujo/autodiff/_functions/_transform.py:86-89 | every cell outside the copy of the input holds the padding value |
| Transform.SliceLeading | nujo/autodiff/_functions/_transform.py:94-97 | one slicing step acts on the leading axis only; other axes are untouched; it fails on a 0-D array |
| Transform.SliceLength | nujo/autodiff/_functions/_transform.py:94-97 | Python slice length of `[b:]` or `[b:-a]`, clamped; exactly `n - b - a` when the padding fits |
| Transform.StripLeading | nujo/autodiff/_functions/_transform.py:91-99 | the as-written backward: every pair in turn sliced off the leading axis; the result is well formed |
| Transform.ConstPadBackward | nujo/autodiff/_functions/_transform.py:91-99 | the loop computes exactly the as-written backward |
| Transform.ConstPadBackward1D | nujo/autodiff/_functions/_transform.py:91-99 | on a 1-D array the as-written backward undoes the forward |
| Transform.ConstPadBackwardLosesShape | nujo/autodiff/_functions/_transform.py:91-99 | on a 1x1 array padded by one on each side, the as-written backward returns shape (0, 3), not the input |
| Transform.Unpad | nujo/autodiff/_functions/_transform.py:91-99 | corrected backward: axis d shrinks by its own before and after padding |
| Transform.UnpadPad | nujo/autodiff/_functions/_transform.py:86-99 | the corrected backward undoes the forward on every rank |
| Transform.ArangeMatchesSpec | nujo/autodiff/_functions/_transform.py:195-207 | `arange(n)` by its index formula equals numpy's definition, `0 .. n-1` counted up one at a time, empty for n <= 0 |
| Transform.RepeatEachMatchesSpec | nujo/autodiff/_functions/_transform.py:195-207 | `repeat(s, k)` by the index formula `s[i div k]` equals numpy's definition: each element k times, in order |
| Transform.TileMatchesSpec | nujo/autodiff/_functions/_transform.py:195-207 | `tile(s, k)` by the index formula `s[i mod len(s)]` equals numpy's definition: k copies of s one after the other |
| Transform.Im2colIndices | nujo/autodiff/_functions/_transform.py:179-210 | one row per feature (`kh*kw*channels`) and one column per location (`out_h*out_w`), from the tables with the row scaled by `stride_w` and the column by `stride_h` |
| Transform.NewIm2col | nujo/autodiff/_functions/_transform.py:129-147 | AssertionError unless 4-D; ZeroDivisionError on a zero stride; ValueError iff `repeat`/`tile` get a negative count (negative out width, or negative out height with a positive out width); otherwise the tables and `n_features = kh*kw*channels` |
| Transform.NegativeOutWidthRejected | nujo/autodiff/_functions/_transform.py:190-197 | a 5x1 image under a 1x3 kernel has out width -1 and the constructor raises ValueError |
| Transform.WindowFormulas | nujo/autodiff/_functions/_transform.py:194-207 | with the window row scaled by one step and the column by another, feature f and location l read channel `f div (kh*kw)`, row `(f mod kh*kw) div kw + rowStep*(l div out_w)` and column `f mod kw + colStep*(l mod out_w)` |
| Transform.IndexFormulas | nujo/autodiff/_functions/_transform.py:194-207 | feature f and location l read channel `f div (kh*kw)`, row `(f mod kh*kw) div kw + stride_w*(l div out_w)`, column `f mod kw + stride_h*(l mod out_w)` |
| Transform.ChannelFormula | nujo/autodiff/_functions/_transform.py:205-207 | the channel of feature f is `f div (kh*kw)` |
| Transform.RowFormula | nujo/autodiff/_functions/_transform.py:194-198 | the row of (f, l) is `(f mod kh*kw) div kw + stride_w*(l div out_w)` |
| Transform.ColFormula | nujo/autodiff/_functions/_transform.py:200-203 | the column of (f, l) is `f mod kw + stride_h*(l mod out_w)` |
| Transform.RepeatArange | nujo/autodiff/_functions/_transform.py:195-197 | `repeat(arange(n), k)[i] == i div k` |
| Transform.TileArange | nujo/autodiff/_functions/_transform.py:200-202 | `tile(arange(n), k)[i] == i mod n` |
| Transform.EqualStridesFit | nujo/autodiff/_functions/_transform.py:194-203 | with equal strides every row and column index lies inside the image |
| Transform.UnequalStridesEscape | nujo/autodiff/_functions/_transform.py:194-203 | a 3x1 image with a 1x1 kernel and strides (1, 2) gets row index 4, outside the image |
| Transform.KernelInsideAccepted | nujo/autodiff/_functions/_transform.py:129-147 | a 4-D shape with positive strides and the kernel inside the image is accepted by the constructor |
| Transform.UnequalStridesConstructed | nujo/autodiff/_functions/_transform.py:129-147 | the constructor accepts that operator |
| Transform.CorrectedIndicesFit | nujo/autodiff/_functions/_transform.py:194-203 | with the row scaled by `stride_h` and the column by `stride_w`, every row and column index lies inside the image for all strides |
| Transform.Target | nujo/autodiff/_functions/_transform.py:156-158 | each column-form position gathers from a position inside the image |
| Transform.ElementInBounds | nujo/autodiff/_functions/_transform.py:156-157 | for every feature, location and image in range, the 4-D index `images[b, k[f], i[f][l], j[f][l]]` reads is inside the image |
| Transform.Im2colForward | nujo/autodiff/_functions/_transform.py:149-158 | the forward succeeds iff every index fits and there is a feature, giving shape `(n_features, locations*batch)` |
| Transform.Targets | nujo/autodiff/_functions/_transform.py:173-174 | the image position every gradient position is added into lies inside the image, one per column-form position |
| Transform.AddAt | nujo/autodiff/_functions/_transform.py:165-174 | `add.at` of a gradient prefix into a zero buffer keeps the buffer's size |
| Transform.Im2colBackwardResult | nujo/autodiff/_functions/_transform.py:160-176 | backward succeeds iff there are features and images, the gradient has one entry per feature, location and image or one per feature and image (broadcast over the locations), and every index fits. On failure it is IndexError iff the reshape to `(n_features, -1, batch)` succeeded and an index escapes, because `add.at` checks its indices before it broadcasts, and otherwise ValueError. The result has the image's shape |
| Transform.Im2colBackward | nujo/autodiff/_functions/_transform.py:160-176 | the in-place `add.at` loop over a zero buffer computes exactly the backward result, the broadcast case included |
| Transform.EscapeBeforeBroadcast | nujo/autodiff/_functions/_transform.py:168-174 | on the 3x1 image with strides (1, 2), a two-entry gradient passes the reshape, fits neither three locations nor one, and still gives IndexError, not ValueError |
| Transform.AddAtInPlace | nujo/autodiff/_functions/_transform.py:165-174 | the in-place loop over a zero array computes exactly the scatter-add of the whole gradient |
| Transform.AddAtTotal | nujo/autodiff/_functions/_transform.py:165-176 | overlapping fields accumulate: the buffer sums to the sum of the added gradient prefix |
| Transform.AddAtUnreached | nujo/autodiff/_functions/_transform.py:165-176 | a buffer cell no target reaches stays zero |
| Transform.AddAtAdjoint | nujo/autodiff/_functions/_transform.py:149-176 | scatter-add is the adjoint of gather: `<img, addat(g)> == <img[ts], g>` |
| Transform.Im2colBackwardConserves | nujo/autodiff/_functions/_transform.py:160-176 | backward returns exactly the image's shape, its total equals the gradient's total, and it is zero where no receptive field reaches |
| Transform.Im2colBackwardAdjoint | nujo/autodiff/_functions/_transform.py:149-176 | backward is the adjoint of forward: `<img, backward(g)> == <forward(img), g>` for every image and gradient |
| Transform.BroadcastAt | nujo/autodiff/_functions/_transform.py:168-174 | in the broadcast gradient, every location of feature f and image b holds gradient entry `f * batch + b` |
| Transform.BroadcastOneLocation | nujo/autodiff/_functions/_transform.py:168-174 | with a single location the broadcast leaves the gradient as it is |
| Transform.Im2colBackwardBroadcasts | nujo/autodiff/_functions/_transform.py:160-176 | a gradient of one entry per feature and image goes back exactly as the full gradient holding that entry at every location |
| Transform.Im2colBroadcastAdjoint | nujo/autodiff/_functions/_transform.py:149-176 | the broadcast backward is the adjoint of the forward against the broadcast gradient |
| Elementary.Construct | nujo/autodiff/_functions/_elementary.py:106-134 | `_Logarithm` is accepted iff both operands are all positive. `_MatrixMul` is accepted iff both have an axis and the last axis of a equals the first of b (IndexError on a 0-D operand). Others are always accepted |
| Elementary.Add | nujo/autodiff/_functions/_elementary.py:27-28 | the elementwise sum keeps the operands' shape |
| Elementary.Neg | nujo/autodiff/_functions/_elementary.py:41-42 | negation keeps the shape |
| Elementary.Mul | nujo/autodiff/_functions/_elementary.py:58-59 | the elementwise product keeps the operands' shape |
| Elementary.Ones | nujo/autodiff/_functions/_elementary.py:30-31 | an all-ones array of the given shape |
| Elementary.MatMul | nujo/autodiff/_functions/_elementary.py:136-137 | (m x n) @ (n x p) is an m x p matrix |
| Elementary.Backward | nujo/autodiff/_functions/_elementary.py:30-140 | each `backward()` tuple has one entry per child |
| Elementary.BackwardArity | nujo/autodiff/_functions/_elementary.py:30-140 | 1 entry for negation and reciprocal, 2 for the rest; the second entry of power and logarithm is the constant 1 |
| Elementary.AdditionPartials | nujo/autodiff/_functions/_elementary.py:27-31 | the two all-ones entries are the exact coefficients of a change in either operand of the sum |
| Elementary.NegationPartial | nujo/autodiff/_functions/_elementary.py:41-45 | the all-minus-one entry is the exact coefficient of a change in the operand |
| Elementary.MultiplicationPartials | nujo/autodiff/_functions/_elementary.py:58-62 | the entries are the swapped operands, and each is the exact coefficient of a change in the other operand |
| Elementary.NegationInverts | nujo/autodiff/_functions/_elementary.py:27-45 | negating twice is the identity, and adding the negation undoes an addition |
| Elementary.Commutative | nujo/autodiff/_functions/_elementary.py:27-59 | the forward of addition and of multiplication does not depend on operand order |
| Elementary.RowColEye | nujo/autodiff/_functions/_elementary.py:136-137 | a partial row-by-column sum against the identity picks out the diagonal term |
| Elementary.MatMulEyeAt | nujo/autodiff/_functions/_elementary.py:136-137 | every element of `a @ eye(n)` equals that element of a |
| Elementary.MatMulIdentity | nujo/autodiff/_functions/_elementary.py:136-137 | multiplying by the identity matrix leaves a matrix unchanged |
| Layers.LayerName | nujo/nn/layers.py:36-37 | the layer name starts with the given name followed by `(` and ends with `)` |
| Layers.NewLinear | nujo/nn/layers.py:30-48 | W has shape (out, in) and is named `<layer>.W`; b exists iff bias, with shape (out, 1), named `<layer>.bias` |
| Layers.AsPair | nujo/nn/layers.py:97-101 | an int n becomes (n, n); a pair passes through |
| Layers.AsPairIdempotent | nujo/nn/layers.py:97-101 | normalising twice is normalising once; n and (n, n) normalise alike |
| Layers.NewConv2d | nujo/nn/layers.py:81-117 | all four arguments normalised; kernels have shape (out, in, kh, kw) and are named `<layer>.kernels`; b exists iff bias |
| Layers.ForwardCheck | nujo/nn/layers.py:119-121 | accepted iff the input is 4-D with `in_channels` channels. ValueError when not 4-D, AssertionError on a channel mismatch |
| Layers.OutputShape | nujo/nn/layers.py:139-151 | the first component is `out_channels`; the height and width are floor quotients; ZeroDivisionError iff a stride is 0 |
| Layers.OutputShapeMatchesIm2col | nujo/nn/layers.py:145-150 | the output height and width equal `_Im2col`'s out height and out width on the padded image |
| Layers.OutputReshapeFits | nujo/nn/layers.py:136-137 | the final reshape to (out, out_h, out_w, batch) keeps every element of the `out x columns` product |

## Left out

- `Tensor`, `_Node` and `modes` are not part of this model. A Tensor keeps only its id, name, `diff`, creator, value and `parents_outputs`. Node ids come from the session's counter. `_Node.__repr__` is taken to be the node's name. The recording flag is a field of the session.
- `hash(cls)` is an opaque per-class tag string. The one cache and the one hit flag stand for the class attributes, which each construction reads right after setting.
- Raw arguments are integers and tuples of integers. Lists, nested lists and numpy arrays as raw arguments, and their `str`, are left out.
- Element values are integers. Float arithmetic, `ln`, `randn` initial values and the `eps` of `_Reciprocal` are left out.
- Elementary.Backward: the reciprocal, power and logarithm entries record only the shape of their float array, not its values. The second power partial is the constant 1 as written.
- numpy broadcasting is left out: elementwise operators take equal shapes. Matrix multiplication is modelled for 2-D operands only, not 1-D or batched ones.
- The abstract `forward`/`backward(idx, acumm_grad)` of `Function` are left out. `__call__` takes the forward computation as a parameter. The backward traversal engine is not part of this model.
- `reshape` with a `-1` dimension is left out.
- A subclass's own `__init__` body is modelled by `Graph.Function.SubclassBody`, run by `Graph.Session.ConstructSubclass` after `Function.__init__`. Its assertion is a `check` parameter over the children's values, and the attributes it sets are a sequence of raw values. The checks themselves are `Transform.NewConstPad`, `Transform.NewIm2col` and `Elementary.Construct`, which are stated on values without the graph.
- Padding widths and shape components are natural numbers; negative padding is left out.
- NewIm2col and OutputShapeMatchesIm2col: kernel sizes and strides are natural numbers. `Conv2d` does not check them and Python's `//` accepts a negative stride (a 5-row image, kernel height 5 and stride -1 give out height 1), but negative kernel sizes and strides, whose tables numpy would serve through wrapping negative indices, are left out.
- `Conv2d.forward`'s numeric pipeline and `Linear.forward` are left out. They need float matmul, the bias addition and `_Pad`. `nujo/nn/layers.py:4` imports `_Pad` from `_transform.py`, which defines `_ConstPad` but no `_Pad`, so that import fails as the files stand. Layers.OutputShapeMatchesIm2col therefore assumes that such a `_Pad` returns the shape `[B, C, H + 2*p0, W + 2*p1]`. Only the channel check, the output shape and the final reshape size are modelled. `lru_cache` on `get_output_shape` does not change its result.
- `dilation` is normalised and stored but, as in the source, not used.
- `IntOrPair` has only an int and a 2-tuple; tuples of other lengths are left out.
- `objective.py`, `optimizers.py`, the graph plotter, the dataset loader and its tests, and the example script are not part of this model. They are float formulas, I/O or client code.

## Findings

| source | as written | input that shows it | evidently intended | confidence | as-written member | corrected member |
|---|---|---|---|---|---|---|
| nujo/autodiff/_functions/_transform.py:91-99 | `_ConstPad.backward` slices every padding pair off the leading axis | a 1x1 array padded with ((1, 1), (1, 1)): the forward gives 3x3, the backward gives shape (0, 3) instead of 1x1 | strip pair d from axis d, undoing the forward on every rank | not executed | Transform.ConstPadBackwardLosesShape | Transform.UnpadPad |
| nujo/autodiff/_functions/_transform.py:194-203 | the window row is scaled by `stride_width` and the window column by `stride_height` | a 3x1 image, a 1x1 kernel and strides (1, 2): row index 4 is read from a 3-row image | scale the row by `stride_height` and the column by `stride_width` | not executed | Transform.UnequalStridesEscape | Transform.CorrectedIndicesFit |
| nujo/autodiff/_functions/_transform.py:47-48 | `_detranspose_dims` sorts the raw `dims`, negative axes included | dims (-1, 0) on a 2x3 array: the argsort is (0, 1), so the gradient comes back 3x2 instead of 2x3 | sort the normalised axes | not executed | Transform.NegativeAxesBreakRoundTrip | Transform.CorrectedTransposeRoundTrip |
| nujo/autodiff/_functions/_transform.py:29-32 | `reshape(*self._input_shape)` unpacks the input shape | a 0-D input: its shape `()` unpacks to `reshape()`, which raises TypeError in the backward | pass the shape whole, `reshape(self._input_shape)` | not executed | Transform.ScalarReshapeBackwardFails | Transform.CorrectedReshapeRoundTrip |
| nujo/autodiff/function.py:68-87 | the cache key holds only the positional children; keyword arguments such as `shape` are left out | `_Reshape(x, shape=(6,))` then `_Reshape(x, shape=(2, 3))`: the second hits the first node and resets its shape to (2, 3) | put the keyword values in the key | not executed | Graph.KeywordResetsCachedNode | Graph.KeywordInKeyKeepsNodes |
