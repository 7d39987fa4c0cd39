# mlframework autodiff core in Dafny

This project models the core of `mlframework`, a small Rust library for
reverse-mode automatic differentiation over statically shaped tensors, and
proves properties of that model. The element type `T` is fixed to `int`.
Rust's truncating integer division is written out (`Vectors.TruncDiv`), and
panics become error values (`Option.None`, `Outcome.Fail`).

The repository holds three generations of the graph code. They are kept apart
here, as they are in the source.

- **Untyped graph** (`src/op.rs`, `src/tensor.rs`): modules `OpCatalog` and
  `UntypedTensor`. A tensor owns its buffer, the op that produced it and an
  id, so it is a finite tree (a recursive datatype). Ids come from an
  `Ids.IdGenerator` object that stands for the global counter. `clone`,
  `id_to_tensor_ref`, `traversal_ordering` and `grad` are methods with loops
  and recursion. Each is proved against a reference definition:
  - `AllIds`: the ids reachable from a tensor;
  - `Deepest`: the greatest depth at which an id is reached;
  - `UniqueIds`: no two tensors in a tree share an id;
  - `Erase`: the tree with its ids forgotten.
- **Op enum** (`src/ops/mod.rs`): module `OpEnum`, with forward evaluation,
  operand iteration and the dispatch to the backward rules.
- **Typed graph** (`src/ops/tensor.rs`, `src/reshape.rs`,
  `src/tensor_data.rs`): modules `Cells`, `TypedGraph`, `TypedOps` and
  `ReshapeOps`.
  - The storage cell `TensorData` is a class whose `value` and `grad` fields
    the methods overwrite.
  - Tensors and op structs are datatypes that point at those cells.
  - `forward` allocates a fresh cell. `recompute` and `propogate_grad` write
    existing cells.
  - Flatten and reshape share the operand's cell, and the model keeps that
    aliasing.

Shared modules:

- `Vectors`: the buffer kernels of `src/ops/vec.rs` and the fold-sum.
- `Ids`: the id counter of `src/tensor_id.rs`.
- `Shapes`: the shape descriptors of `src/shape.rs`. A shape type becomes a
  value with one constructor per tuple arity.
- `TensorFrom`: the checked constructors of `src/tensor_from.rs`.

Helpers the core calls but the repository does not define become function
parameters:
- `el_*_grad`, `el_relu_grad`, `reduce_sum_grad` and `transpose2d`;
- the backward helpers of `ops/mod.rs`.

The id that `from_rc_td_and_op_unchecked` assigns is a parameter as well, and so
is the id of `OpEnum`'s tensors, which the caller supplies.
`matmul` is defined nowhere in the repository. It is modelled as the
standard row-major product `TypedOps.MatmulData`, pinned by one worked example.

## Model

| member | source | states |
|---|---|---|
| Vectors.TruncDiv | src/ops/vec.rs:37-39 | integer `x / y` truncates toward zero: its magnitude is the floor of the magnitudes' quotient and its sign is the product of the signs |
| Vectors.Fill | src/ops/vec.rs:9-16 | `vec![x; n]` has `n` elements, all `x` |
| Vectors.OnesLike | src/ops/vec.rs:3-5 | the input's length, all ones |
| Vectors.ZerosLike | src/ops/vec.rs:6-8 | the input's length, all zeros |
| Vectors.Ones | src/ops/vec.rs:9-11 | `n` ones |
| Vectors.ExpandToShape | src/ops/vec.rs:13-16 | panics unless the input has exactly one element; otherwise `len` copies of it |
| Vectors.ElBin | src/ops/vec.rs:18-23 | `zip` truncates to the shorter length; element `i` is `op(a[i], b[i])` |
| Vectors.ElMul | src/ops/vec.rs:25-27 | element-wise product over the zipped length |
| Vectors.ElAdd | src/ops/vec.rs:29-31 | element-wise sum over the zipped length |
| Vectors.ElSub | src/ops/vec.rs:33-35 | element-wise difference over the zipped length |
| Vectors.ElDiv | src/ops/vec.rs:37-39 | element-wise truncating quotient; every zipped divisor must be non-zero |
| Vectors.ElMax | src/ops/vec.rs:41-43 | each element is at least both inputs and equals one of them |
| Vectors.ElMin | src/ops/vec.rs:45-47 | each element is at most both inputs and equals one of them |
| Vectors.ElGt | src/ops/vec.rs:49-51 | 1 exactly where `x >= y` (ties included), else 0 |
| Vectors.ElLt | src/ops/vec.rs:53-55 | 1 exactly where `x <= y` (ties included), else 0 |
| Vectors.ElUnary | src/ops/vec.rs:57-62 | keeps the length; element `i` is `op(a[i])` |
| Vectors.ElNeg | src/ops/vec.rs:64-66 | keeps the length; each element is the negation of the input's |
| Vectors.ElRelu | src/ops/vec.rs:68-70 | keeps the length; non-negative, `x` where `x >= 0`, 0 elsewhere |
| Vectors.ElInv | src/ops/vec.rs:72-74 | keeps the length; element `i` is the truncating `1 / a[i]` for non-zero inputs |
| Vectors.ElPos | src/ops/vec.rs:76-80 | keeps the length; 1 exactly where `x >= 0`, else 0 |
| Vectors.GtLtPartition | src/ops/vec.rs:49-55 | on ties both indicators are 1; elsewhere exactly one of them is |
| Vectors.GtIsSwappedLt | src/ops/vec.rs:49-55 | `el_gt(a, b) == el_lt(b, a)` |
| Vectors.MaxPlusMin | src/ops/vec.rs:41-47 | `el_max + el_min == el_add` of the inputs |
| Vectors.SubUndoesAdd | src/ops/vec.rs:29-35 | `el_sub(el_add(a, b), b) == a` for equal lengths |
| Vectors.NegInvolution | src/ops/vec.rs:64-66 | negating twice gives the input back |
| Vectors.ReluIdempotent | src/ops/vec.rs:68-70 | applying ReLU twice is applying it once |
| Vectors.ReluIsMaskedByPos | src/ops/vec.rs:68-80 | `el_relu(a) == el_mul(a, el_pos(a))`: ReLU is the input masked by its derivative indicator |
| Vectors.AddCommutes | src/ops/vec.rs:29-31 | element-wise addition commutes |
| Vectors.AddAssociates | src/ops/vec.rs:29-31 | element-wise addition is associative, with the `zip` truncation |
| Vectors.DivUndoesMul | src/ops/vec.rs:25-39 | `el_div(el_mul(a, b), b) == a` when no divisor is zero |
| Vectors.TruncDivOfProduct | src/ops/vec.rs:37-39 | `(x * y) / y == x` under truncating division |
| Vectors.InvValues | src/ops/vec.rs:72-74 | integer `1 / x` is 1 for 1, -1 for -1 and 0 otherwise |
| Vectors.SumAppend | src/ops/tensor.rs:226 | `SumAll`, the left fold `fold(0, +)` of a buffer, of a concatenation is the sum of the two fold-sums |
| Vectors.SumOfElAdd | src/ops/mod.rs:40-42 | the fold-sum of `el_add(a, b)` is the sum of the fold-sums |
| Vectors.SumOfFill | src/ops/vec.rs:9-11 | `n` copies of `x` sum to `n * x` |
| Cells.Accumulate | src/tensor_data.rs:40-48 | the new gradient is `delta` when none was held, otherwise the element-wise sum with the old one |
| Cells.AccumulateTwiceFromNone | src/tensor_data.rs:40-48 | two updates from an absent gradient leave `el_add(d1, d2)` |
| Cells.AccumulateOrderIrrelevant | src/tensor_data.rs:40-48 | two equal-length contributions accumulate to the same gradient in either order |
| Cells.TensorData.constructor | src/tensor_data.rs:20-24 | the given value and no gradient |
| Cells.TensorData.Replace | src/tensor_data.rs:26-30 | sets the value and always clears the gradient |
| Cells.TensorData.GradRef | src/tensor_data.rs:32-34 | returns the gradient and changes nothing |
| Cells.TensorData.ValueRef | src/tensor_data.rs:36-38 | returns the value and changes nothing |
| Cells.TensorData.UpdateGrad | src/tensor_data.rs:40-48 | the gradient becomes `Accumulate(old grad, newGrad)`; the value is untouched |
| Cells.ReplaceThenUpdate | src/tensor_data.rs:26-48 | `replace(v)` then `update_grad(d)` leaves value `v` and gradient exactly `d` |
| Cells.UpdateTwiceFromNew | src/tensor_data.rs:40-48 | two updates on a fresh cell leave gradient `d1 + d2` element-wise |
| Ids.IssuedIncreasing | src/tensor_id.rs:18-22 | the ids handed out are strictly increasing and each is below the counter |
| Ids.IdGenerator.constructor | src/tensor_id.rs:10-12 | the counter starts at 0 and no id has been handed out |
| Ids.IdGenerator.Next | src/tensor_id.rs:18-22 | always `Some` of the current counter, which then grows by one; the id joins the issued list |
| Ids.GenerateId | src/tensor_id.rs:27-29 | the id is the old counter, the counter grows by one, and the id exceeds every id handed out before |
| Shapes.Dim.Size | src/shape.rs:8-18 | `Const<S>` has size `S`; a `usize` is its own size |
| Shapes.Shape.Dims | src/shape.rs:20-55 | one extent per dimension, as many as `NumDims`, which models `NUM_DIMS` (0, 1, 2, 3 by tuple arity) |
| Shapes.StridesAreRowMajor | src/shape.rs:25-55 | `Strides`, which models `strides()`, gives `NUM_DIMS` strides, the last one 1, and `stride[i] == stride[i+1] * dim[i+1]` |
| Shapes.OuterStrideCoversAll | src/shape.rs:41-55 | the outer stride times the outer extent is the element count |
| Shapes.OffsetInBounds | src/shape.rs:41-55 | every in-bounds index tuple has an offset below the element count |
| TensorFrom.FromVec | src/tensor_from.rs:5-31 | panics unless the length is 0, D1, D1·D2 or D1·D2·D3 by rank; otherwise the buffer is kept |
| TensorFrom.ExpectedLenIsElementCount | src/tensor_from.rs:11-31 | for ranks 1 to 3 the checked length is the shape's element count |
| TensorFrom.Rank0AcceptsNoElement | src/tensor_from.rs:5-10 | the rank-0 constructor rejects a one-element buffer and accepts the empty one |
| TensorFrom.FromVecByCount | src/tensor_from.rs:5-10 | the corrected constructor keeps shape and buffer when it accepts |
| TensorFrom.FromVecByCountAcceptsElementCount | src/tensor_from.rs:5-31 | the corrected constructor accepts exactly the element count and agrees with the original on ranks 1 to 3 |
| TensorFrom.FromArray1 | src/tensor_from.rs:34-38 | a 1-D array keeps its elements in order, shape `(D1,)` |
| TensorFrom.ConcatLength | src/tensor_from.rs:40-44 | `Concat`, which models the slice `concat()`, of `h` rows of width `w` has `h * w` elements |
| TensorFrom.ConcatAt | src/tensor_from.rs:40-44 | row `i`, column `j` lands at `i * w + j` of the concatenation |
| TensorFrom.FromArray2 | src/tensor_from.rs:40-44 | shape `(D1, D2)` and `D1 * D2` elements |
| TensorFrom.FromArray2At | src/tensor_from.rs:40-44 | element `[i][j]` is at `i * D2 + j` |
| TensorFrom.ConcatOfBlocksIsUniform | src/tensor_from.rs:46-52 | the first `concat` of a 3-D array gives rows of width D3 |
| TensorFrom.Concat3At | src/tensor_from.rs:46-52 | `concat().concat()` puts `[i][j][k]` at `(i * D2 + j) * D3 + k` |
| TensorFrom.FromArray3 | src/tensor_from.rs:46-52 | shape `(D1, D2, D3)` and `D1 * D2 * D3` elements |
| TensorFrom.FromArray3At | src/tensor_from.rs:46-52 | element `[i][j][k]` is at `(i * D2 + j) * D3 + k` |
| TensorFrom.FromArray3AgreesWithStrides | src/tensor_from.rs:46-52 | that position is the rank-3 stride offset of `[i, j, k]` |
| OpCatalog.Iter | src/op.rs:16-22 | `[a, b]` in order for `EB`, `[a]` otherwise; never zero and never more than two operands |
| OpCatalog.UnaryF | src/op.rs:25-37 | ReLU is non-negative, keeps non-negative inputs and maps negative ones to 0 |
| OpCatalog.UnaryIdempotent | src/op.rs:25-37 | ReLU twice is ReLU once |
| OpCatalog.BinaryInverses | src/op.rs:47-56 | for `BinaryF`, which models the binary `_f`, `Sub` undoes `Add` and `Div` undoes `Mul` by a non-zero factor |
| OpCatalog.BinaryAlgebra | src/op.rs:47-56 | `Add` and `Mul` commute; `Sub` is `Add` of the negation |
| UntypedTensor.New | src/tensor.rs:58-64 | no op and the next id, which exceeds every earlier id |
| UntypedTensor.NewWithOp | src/tensor.rs:66-72 | the op is recorded and the id is the next one, which exceeds every earlier id |
| UntypedTensor.Clone | src/tensor.rs:41-49 | same data and ops; every tensor of the tree gets a fresh id, operands first; the ids are distinct and the clone's own id is the largest |
| UntypedTensor.IdToTensorRefHelper | src/tensor.rs:102-115 | the keys grow by exactly the reachable ids; each maps to a reachable tensor with that id; other keys are kept |
| UntypedTensor.IdToTensorRef | src/tensor.rs:117-120 | keys are exactly the reachable ids, each mapped to a reachable tensor carrying it |
| UntypedTensor.Deepest | src/tensor.rs:134-148 | non-negative exactly for reachable ids, and then at least the starting depth |
| UntypedTensor.RaiseEntry | src/tensor.rs:139-141 | the entry becomes the larger of its old value and `depth`, or `depth` when absent |
| UntypedTensor.TraversalOrderingHelper | src/tensor.rs:134-148 | keys grow by the reachable ids; every entry is the larger of its old value and the deepest depth of that id |
| UntypedTensor.TraversalOrdering | src/tensor.rs:149-151 | keys are exactly the reachable ids; each maps to the greatest depth at which it is reached |
| UntypedTensor.RootAtItsDepth | src/tensor.rs:134-151 | with distinct ids the root is at its own depth, 0 for `traversal_ordering` |
| UntypedTensor.OperandOneDeeper | src/tensor.rs:134-151 | with distinct ids each operand of a reachable tensor is exactly one level deeper than that tensor |
| UntypedTensor.InsertByDepthSorts | src/tensor.rs:86 | inserting into a depth-sorted list keeps it sorted and adds exactly that entry |
| UntypedTensor.SortByDepthSorts | src/tensor.rs:86 | `SortByDepth`, which models `sort_by` on the depth, yields a depth-sorted permutation of the entries |
| UntypedTensor.Entries | src/tensor.rs:85 | every map entry exactly once, each with its value |
| UntypedTensor.SortedEntriesAreKeys | src/tensor.rs:85-91 | after sorting every id is still a key, so the `unwrap` lookups cannot fail |
| UntypedTensor.LookUp | src/tensor.rs:88-91 | the recorded tensor of each id, in order |
| UntypedTensor.Grad | src/tensor.rs:74-100 | panics unless the tensor has one element; otherwise, since `_propogate_grad` passes the map through unchanged, the result is exactly `{id: [1]}` |
| UntypedTensor.BinaryData | src/tensor.rs:172-182 | zipped length; element `i` is `eb._f(a[i], b[i])` |
| UntypedTensor.BinaryDataIsKernel | src/tensor.rs:172-182 | the untyped arithmetic agrees with `el_add`, `el_sub`, `el_mul` and `el_div` |
| UntypedTensor.UnaryData | src/tensor.rs:184-189 | same length; element `i` is `eu._f(a[i])` |
| UntypedTensor.UnaryDataIsRelu | src/tensor.rs:184-193 | ReLU over a buffer is `el_relu` and is idempotent |
| UntypedTensor.ElementwiseBinaryOp | src/tensor.rs:172-182 | panics exactly on unequal lengths, drawing no id; otherwise it records `EB` with the next id, and distinct ids stay distinct |
| UntypedTensor.ElementwiseUnaryOp | src/tensor.rs:184-189 | records `EU` with the next id, and distinct ids stay distinct |
| UntypedTensor.TensorRelu | src/tensor.rs:191-193 | `el_relu` of the data; every element is non-negative |
| UntypedTensor.TensorSum | src/tensor.rs:195-198 | a one-element buffer with the fold-sum, recording `Sum`; distinct ids stay distinct |
| UntypedTensor.TensorAdd | src/tensor.rs:201-206 | `el_add` of equal-length data with the next id, advancing the counter by one; panics otherwise without drawing an id; distinct ids below the counter stay distinct and below it |
| UntypedTensor.TensorSub | src/tensor.rs:207-212 | `el_sub` of equal-length data with the next id, advancing the counter by one; panics otherwise without drawing an id; distinct ids below the counter stay distinct and below it |
| UntypedTensor.TensorMul | src/tensor.rs:213-218 | `el_mul` of equal-length data with the next id, advancing the counter by one; panics otherwise without drawing an id; distinct ids below the counter stay distinct and below it |
| UntypedTensor.TensorDiv | src/tensor.rs:219-224 | `el_div` of equal-length data with the next id, advancing the counter by one; panics otherwise without drawing an id; distinct ids below the counter stay distinct and below it |
| OpEnum.ForwardData | src/ops/mod.rs:31-44 | each binary variant computes its element-wise kernel; `ReduceSum` gives the one-element fold-sum |
| OpEnum.Forward | src/ops/mod.rs:31-44 | the result records the op itself and the given id, and holds `ForwardData(op)`: the variant's element-wise values or the one-element sum, of the kernel's length |
| OpEnum.ForwardMaxPlusMin | src/ops/mod.rs:31-44 | the elementwise sum of the Max and Min forwards of two operands equals their Add forward |
| OpEnum.ForwardSubUndoesAdd | src/ops/mod.rs:31-44 | forwarding Sub of a forwarded Add by the same right operand gives back the left operand's data |
| OpEnum.ForwardSumOfAdd | src/ops/mod.rs:31-44 | forwarding ReduceSum of a forwarded Add gives the one-element total of both operands |
| OpEnum.Iter | src/ops/mod.rs:60-68 | two operands in order for `ElAdd` to `ElMin`, one for `ReduceSum` |
| OpEnum.RuleOfSeparatesVariants | src/ops/mod.rs:46-59 | two ops share a backward helper exactly when they are the same variant |
| OpEnum.PropagateGrad | src/ops/mod.rs:46-59 | the map becomes what the variant's own helper makes of the map, the output and the operands |
| TypedOps.Kernel | src/ops/tensor.rs:98-103 | each binary struct's kernel keeps the zipped length and computes, element by element, the sum, difference, product, truncating quotient, maximum or minimum of the operands |
| TypedOps.MatmulData | src/ops/tensor.rs:187-192 | the product of `(N, M)` and `(M, O)` has `N * O` elements |
| TypedOps.MatmulAt | src/ops/tensor.rs:187-192 | entry `(i, j)` is row `i` of `a` times column `j` of `b` |
| TypedOps.MatmulReferenceCase | src/ops/tensor.rs:187-192 | a worked 3×4 by 4×2 product |
| TypedOps.ComputedLength | src/ops/tensor.rs:47-50 | output lengths: binary keeps the common length, ReLU the operand's, the sum gives 1, matmul gives `N * O` |
| TypedOps.ForwardBinary | src/ops/tensor.rs:47-50 | a fresh cell with the kernel of the current operand values and no gradient; the struct is the creator; well-formedness is kept |
| TypedOps.ForwardRelu | src/ops/tensor.rs:141-144 | a fresh cell with `el_relu` of the operand and no gradient, same shape |
| TypedOps.ForwardReduceSum | src/ops/tensor.rs:230-233 | a fresh one-element cell with the fold-sum, shape `(1,)` |
| TypedOps.ForwardMatmul | src/ops/tensor.rs:187-196 | shapes `(N, M)` and `(M, O)` give a fresh `(N, O)` cell holding the product |
| TypedOps.RecomputeBinary | src/ops/tensor.rs:42-45 | the output value becomes the kernel of the current operand values, and the gradient is cleared |
| TypedOps.RecomputeRelu | src/ops/tensor.rs:136-139 | the output value becomes `el_relu` of the operand, and the gradient is cleared |
| TypedOps.RecomputeReduceSum | src/ops/tensor.rs:225-228 | the output value becomes the fold-sum, and the gradient is cleared |
| TypedOps.RecomputeMatmul | src/ops/tensor.rs:178-185 | the output value becomes the product, and the gradient is cleared |
| TypedOps.Recompute | src/ops/tensor.rs:42-45 | recompute through any computing op, as `recompute` does |
| TypedOps.RecomputeTwice | src/ops/tensor.rs:42-45 | recompute is idempotent and leaves the operand cells untouched |
| TypedOps.Operands | src/ops/tensor.rs:52-57 | both operands in order for binary structs and matmul, one for ReLU and sum, each tagged with its own id |
| TypedOps.BinaryIncrements | src/ops/tensor.rs:29-34 | each contribution has the zipped length of the output gradient and its local derivative, and element `i` is their product |
| TypedOps.PropagateGradBinary | src/ops/tensor.rs:26-40 | panics without an output gradient; otherwise both operands accumulate their contributions, with derivatives taken at (operand 0, operand 0) |
| TypedOps.LhsReadTwice | src/ops/tensor.rs:30-31 | for multiplication, `a = [2]`, `b = [3]` and `d = [1]`, operand 0 gets `[2]` where the product rule gives `[3]` |
| TypedOps.PropagateGradBinaryCorrected | src/ops/tensor.rs:26-40 | the same, with derivatives taken at (operand 0, operand 1) |
| TypedOps.ProductRuleRestored | src/ops/tensor.rs:29-34 | corrected, multiplication gives each operand the gradient times the other operand |
| TypedOps.PropagateGradRelu | src/ops/tensor.rs:121-134 | panics without an output gradient; otherwise the operand accumulates `d ⊙ el_relu_grad(a)` |
| TypedOps.PropagateGradReduceSum | src/ops/tensor.rs:210-223 | panics without a gradient or when it is not one element long; otherwise the operand accumulates the broadcast gradient times `reduce_sum_grad(a)` |
| TypedOps.ReduceSumSpreadsGradient | src/ops/tensor.rs:213-217 | with all-ones derivatives every element receives `d`, so the total is `n * d` |
| TypedOps.PropagateGradMatmul | src/ops/tensor.rs:157-176 | panics without an output gradient; operand 0 accumulates `d @ bᵀ` and operand 1 accumulates `aᵀ @ d` |
| ReshapeOps.FlattenedLength | src/reshape.rs:50-70 | a flatten exists for ranks 1 to 3 only, with length A, A·B or A·B·C: the element count |
| ReshapeOps.ReshapeConservesCount | src/reshape.rs:114-141 | `Reshapes`, the element-count rule, holds exactly between a non-scalar source and target of equal element count; it can be undone, and two reshapes compose |
| ReshapeOps.FlattenIsReshape | src/reshape.rs:114-121 | flattening to `(A,)` is the reshape to `(A,)` |
| ReshapeOps.FlattenForward | src/reshape.rs:39-43 | the output shares the operand's cell, has shape `(count,)`, records the flatten, and is well-formed exactly when the operand is |
| ReshapeOps.ReshapeForward | src/reshape.rs:103-107 | the output shares the operand's cell, has the target shape, records the reshape, and is well-formed exactly when the operand is |
| ReshapeOps.ShapeOnlyOperands | src/reshape.rs:45-47 | the single source tensor with its id |
| ReshapeOps.BackwardThroughFlatten | src/reshape.rs:35-37 | with no propagation, a gradient added to the flattened tensor is the source's gradient; the value is untouched |
| ReshapeOps.ReplaceThroughReshape | src/reshape.rs:103-107 | a `replace` on the source is seen through the reshaped tensor |

## Left out

- `src/main.rs`, `src/build_model.rs`, `src/random.rs`, `src/change_dtype.rs`, `src/dtype.rs`, `src/optim.rs`, `src/module.rs`, `src/graph.rs` and `src/lib.rs` are not modelled. They hold a demo driver, a macro code generator, float random sampling, library numeric casts, trait declarations and a module list.
- `src/ops/grad.rs` is entirely commented out: it holds only a map-based `update_grad` and the `*_backward` helpers (`src/ops/grad.rs:13-143`). The `*_backward` helpers are a parameter of `OpEnum.PropagateGrad`. The local-derivative helpers `el_*_grad`, `el_relu_grad` and `reduce_sum_grad` are defined nowhere in the repository and are parameters of the members that call them.
- `transpose2d`, `borrow_value`, `from_rc_td_and_op_unchecked` and the typed `Tensor` struct are not part of this model. The transpose is a parameter that keeps lengths. Borrowing reads the cell's `value`. The new id is a parameter.
- The typed `Tensor::update_grad` that `src/ops/tensor.rs` calls is defined nowhere in the repository (the only copy, `src/tensor.rs:160-163`, is commented out). The `TypedOps.PropagateGrad*` members take it to be the storage cell's `Cells.TensorData.UpdateGrad` (`src/tensor_data.rs:40-48`), so every `Accumulate` in their contracts rests on that reading.
- OpEnum.Forward: the id of the new tensor is a parameter supplied by the caller, because the `Tensor::new_with_op` this generation calls, with its id counter, is not part of this model.
- `matmul` is not part of this model's source files. `TypedOps.MatmulData` is the standard row-major product it evidently computes.
- Rust runtime mechanics are not modelled: `RefCell` borrow panics, `Rc` counting, and the `Mutex`/`Lazy` around the counter. The binary, matmul, ReLU and reduce-sum `propogate_grad` members (`TypedOps.PropagateGradBinary`, `TypedOps.PropagateGradBinaryCorrected`, `TypedOps.PropagateGradMatmul`, `TypedOps.PropagateGradRelu`, `TypedOps.PropagateGradReduceSum`) and the lemma `TypedOps.ReduceSumSpreadsGradient` therefore require that the output cell is not an operand cell; in Rust, reading the output's gradient while updating that same cell would be a borrow panic.
- TypedOps.RecomputeTwice: requires that the output cell is not an operand cell. When it is one, the first `recompute` changes an operand, so a second one can give a different value, and no idempotence is promised for that case.
- Integers are unbounded. `usize` overflow of the id counter and of element products, and `T`'s overflow, are not modelled. Floating point is not modelled.
- Division by zero panics in Rust. Here it is a precondition instead: `Vectors.ElDiv`, `Vectors.ElInv`, `OpCatalog.BinaryF`, `UntypedTensor.TensorDiv` and `TypedOps.KernelDefined` all require non-zero divisors.
- OpEnum.PropagateGrad: the gradient map is passed as a value and returned, rather than being updated through `&mut HashMap`.
- TypedOps.PropagateGradMatmul: requires the output gradient to hold `N * O` elements, which the typed shapes guarantee.
- The typed `impl Add/Sub/Mul/Div/Max/Min for Tensor`, `relu`, `reduce_sum` and `matmul` wrappers are only calls to `forward`, so they are covered by the `Forward*` rows.
- `UntypedTensor.PropagateGrad`: this function models `_propogate_grad` (the map is returned unchanged), and its effect is stated by `UntypedTensor.Grad`.
- `ReshapeOps.PropagateGradShapeOnly`: this method models the empty `propogate_grad` of flatten and reshape. It has no `modifies` clause, so it can change nothing.
- `Debug` formatting and printing are not modelled.

## Findings

| source | as written | input that shows it | evidently intended | confidence | as-written member | corrected member |
|---|---|---|---|---|---|---|
| src/ops/tensor.rs:30-31 | both derivative arguments are read from operand 0 (`self.0` twice) | `ElMulStruct` with `a = [2]`, `b = [3]`, output gradient `[1]`: operand 0 gains `[2]` | operand 0 gains `d ⊙ b = [3]`, as the product rule gives | high, not executed | TypedOps.LhsReadTwice | TypedOps.ProductRuleRestored |
| src/tensor_from.rs:5-10 | a rank-0 tensor from a `Vec` asserts length 0 | `vec![7]` for shape `()` panics, and `vec![]` is accepted | a scalar holds one element: length 1 | medium, not executed | TensorFrom.Rank0AcceptsNoElement | TensorFrom.FromVecByCountAcceptsElementCount |
