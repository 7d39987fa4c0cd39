/** The typed op implementations of `src/ops/tensor.rs`.

    Each op struct has `forward` (compute the value from the operands' current
    values into a fresh storage cell), `recompute` (overwrite the output
    cell's value the same way, clearing its gradient), `propogate_grad` (add
    the output gradient times the local derivative to each operand's cell)
    and `operands`. Helpers the file calls that are defined nowhere in the
    repository (`el_*_grad`, `el_relu_grad`, `reduce_sum_grad`, `transpose2d`)
    are function parameters; `matmul`, also defined nowhere, is the standard
    row-major product. The id a new tensor receives from
    `from_rc_td_and_op_unchecked`, likewise defined nowhere, is a parameter. */
module TypedOps {
  import opened Wrappers
  import opened Vectors
  import opened Cells
  import opened Shapes
  import opened TypedGraph

  /** The message every `propogate_grad` panics with. */
  const NoGrad := "Attempted to propogate grad, but no grad value exists."

  /** The kernel `$f` each binary struct is generated with. */
  function Kernel(kind: BinaryStruct, a: seq<int>, b: seq<int>): (r: seq<int>)
    requires kind.ElDivStruct? ==> NonZeroDivisors(a, b)
    ensures |r| == Min(|a|, |b|)
    ensures kind.ElAddStruct? ==> forall i :: 0 <= i < |r| ==> r[i] == a[i] + b[i]
    ensures kind.ElSubStruct? ==> forall i :: 0 <= i < |r| ==> r[i] == a[i] - b[i]
    ensures kind.ElMulStruct? ==> forall i :: 0 <= i < |r| ==> r[i] == a[i] * b[i]
    ensures kind.ElDivStruct? ==> forall i :: 0 <= i < |r| ==> r[i] == TruncDiv(a[i], b[i])
    ensures kind.ElMaxStruct? ==> forall i :: 0 <= i < |r| ==> r[i] >= a[i] && r[i] >= b[i]
    ensures kind.ElMinStruct? ==> forall i :: 0 <= i < |r| ==> r[i] <= a[i] && r[i] <= b[i]
    ensures kind.ElMaxStruct? || kind.ElMinStruct? ==> forall i :: 0 <= i < |r| ==> r[i] == a[i] || r[i] == b[i]
  {
    match kind
    case ElAddStruct => ElAdd(a, b)
    case ElSubStruct => ElSub(a, b)
    case ElMulStruct => ElMul(a, b)
    case ElDivStruct => ElDiv(a, b)
    case ElMaxStruct => ElMax(a, b)
    case ElMinStruct => ElMin(a, b)
  }

  /** The binary kernel may run on these operand values. */
  predicate KernelDefined(kind: BinaryStruct, a: seq<int>, b: seq<int>)
  {
    kind.ElDivStruct? ==> NonZeroDivisors(a, b)
  }

  // ---------------------------------------------------------------------
  // The standard row-major matrix product
  // ---------------------------------------------------------------------

  /** Row `i` of the `n` by `m` matrix `a` times column `j` of the `m` by `o`
      matrix `b`, over the first `k` terms. */
  function RowTimesColumn(a: seq<int>, b: seq<int>, n: nat, m: nat, o: nat, i: nat, j: nat, k: nat): int
    requires |a| == n * m && |b| == m * o
    requires i < n && j < o && k <= m
  {
    if k == 0 then 0
    else
      RowBound(i, k - 1, n, m);
      RowBound(k - 1, j, m, o);
      RowTimesColumn(a, b, n, m, o, i, j, k - 1) + a[i * m + k - 1] * b[(k - 1) * o + j]
  }

  /** Position `idx` of an `n` by `o` row-major buffer is row `idx / o`,
      column `idx % o`. */
  lemma SplitIndex(idx: nat, n: nat, o: nat)
    requires idx < n * o
    ensures o > 0 && idx / o < n && idx % o < o
  {
    if o > 0 {
      MulStep(idx / o, n, o);
    }
  }

  /** Row `i`, column `j` is at position `i * o + j` and nowhere else. */
  lemma JoinIndex(i: nat, j: nat, o: nat)
    requires j < o
    ensures (i * o + j) / o == i && (i * o + j) % o == j
  {
    var x := i * o + j;
    var q, r := x / o, x % o;
    assert x == q * o + r && 0 <= r < o;
    assert (q - i) * o == j - r by {
      assert (q - i) * o == q * o - i * o;
    }
    MulSignBound(q - i, o);
  }

  /** A quotient at least `p` contributes at least `p` whole multiples of `o`. */
  lemma MulStep(q: int, p: int, o: nat)
    ensures q >= p ==> q * o >= p * o
    ensures (p + 1) * o == p * o + o
  {
    if q >= p {
      MulMonotone(q, p, o);
    }
  }

  /** `matmul(a, b, n, m, o)`: the `n` by `o` product, row-major. */
  function MatmulData(a: seq<int>, b: seq<int>, n: nat, m: nat, o: nat): (r: seq<int>)
    requires |a| == n * m && |b| == m * o
    ensures |r| == n * o
  {
    seq(n * o, idx requires 0 <= idx < n * o =>
      SplitIndex(idx, n, o);
      RowTimesColumn(a, b, n, m, o, idx / o, idx % o, m))
  }

  /** Entry `(i, j)` of the product is row `i` of `a` times column `j` of `b`. */
  lemma MatmulAt(a: seq<int>, b: seq<int>, n: nat, m: nat, o: nat, i: nat, j: nat)
    requires |a| == n * m && |b| == m * o
    requires i < n && j < o
    ensures i * o + j < n * o
    ensures MatmulData(a, b, n, m, o)[i * o + j] == RowTimesColumn(a, b, n, m, o, i, j, m)
  {
    RowBound(i, j, n, o);
    JoinIndex(i, j, o);
  }

  /** A 3 by 4 matrix holding `0..12` times a 4 by 2 matrix holding `0..8`. */
  lemma MatmulReferenceCase()
    ensures MatmulData([0, 1, 2, 3, 4, 5, 6, 7, 8, 9, 10, 11], [0, 1, 2, 3, 4, 5, 6, 7], 3, 4, 2)
         == [28, 34, 76, 98, 124, 162]
  {
    var a := [0, 1, 2, 3, 4, 5, 6, 7, 8, 9, 10, 11];
    var b := [0, 1, 2, 3, 4, 5, 6, 7];
    var r := MatmulData(a, b, 3, 4, 2);
    assert r[0] == 28 && r[1] == 34 && r[2] == 76 && r[3] == 98 && r[4] == 124 && r[5] == 162;
  }

  // ---------------------------------------------------------------------
  // What an op computes from its operands' current values
  // ---------------------------------------------------------------------

  /** The storage cells of the op's operands. */
  function OperandCells(node: Node): set<TensorData>
  {
    match node
    case ElBinary(_, lhs, rhs) => {lhs.data, rhs.data}
    case ElReLU(src) => {src.data}
    case ReduceSum(src) => {src.data}
    case Matmul(_, _, _, lhs, rhs) => {lhs.data, rhs.data}
    case Flatten(src, _) => {src.data}
    case Reshape(src, _) => {src.data}
  }

  /** The ops of this file, on operand values their kernel accepts: no zero
      divisor for `ElDivStruct`, `N * M` and `M * O` elements for `Matmul`. */
  ghost predicate Computable(node: Node)
    reads OperandCells(node)
  {
    match node
    case ElBinary(kind, lhs, rhs) => KernelDefined(kind, lhs.data.value, rhs.data.value)
    case ElReLU(_) => true
    case ReduceSum(_) => true
    case Matmul(n, m, o, lhs, rhs) => |lhs.data.value| == n * m && |rhs.data.value| == m * o
    case Flatten(_, _) => false
    case Reshape(_, _) => false
  }

  /** The value `forward` and `recompute` produce from the operands' current values. */
  function Computed(node: Node): seq<int>
    requires Computable(node)
    reads OperandCells(node)
  {
    match node
    case ElBinary(kind, lhs, rhs) => Kernel(kind, lhs.data.value, rhs.data.value)
    case ElReLU(src) => ElRelu(src.data.value)
    case ReduceSum(src) => [SumAll(src.data.value)]
    case Matmul(n, m, o, lhs, rhs) => MatmulData(lhs.data.value, rhs.data.value, n, m, o)
  }

  /** Output lengths: a binary op keeps its operands' common length, ReLU its
      operand's, the sum has one element and the product `N * O`. So an op
      over well-formed operands of the shapes it is typed for produces a
      value that fills its output shape. */
  lemma ComputedLength(node: Node)
    requires Computable(node)
    ensures node.ElBinary? && |node.lhs.data.value| == |node.rhs.data.value| ==> |Computed(node)| == |node.lhs.data.value|
    ensures node.ElReLU? ==> |Computed(node)| == |node.src.data.value|
    ensures node.ReduceSum? ==> |Computed(node)| == 1
    ensures node.Matmul? ==> |Computed(node)| == node.n * node.o
  {
  }

  // ---------------------------------------------------------------------
  // forward
  // ---------------------------------------------------------------------

  /** `forward` of a binary struct: a fresh cell holding the kernel of the
      operands' current values and no gradient; the struct is the creator. */
  method ForwardBinary(kind: BinaryStruct, lhs: Tensor, rhs: Tensor, id: nat) returns (t: Tensor)
    requires lhs.shape == rhs.shape
    requires KernelDefined(kind, lhs.data.value, rhs.data.value)
    ensures fresh(t.data)
    ensures t == Tensor(id, t.data, lhs.shape, Some(ElBinary(kind, lhs, rhs)))
    ensures t.data.value == Computed(t.creator.value) && t.data.grad == None
    ensures WellFormed(lhs) && WellFormed(rhs) ==> WellFormed(t)
  {
    var a := lhs.data.ValueRef();
    var b := rhs.data.ValueRef();
    var cell := new TensorData(Kernel(kind, a, b));
    t := Tensor(id, cell, lhs.shape, Some(ElBinary(kind, lhs, rhs)));
  }

  /** `forward` of `ElReLUStruct`: a fresh cell holding `el_relu` of the
      operand's value, no gradient, the same shape. */
  method ForwardRelu(src: Tensor, id: nat) returns (t: Tensor)
    ensures fresh(t.data)
    ensures t == Tensor(id, t.data, src.shape, Some(ElReLU(src)))
    ensures t.data.value == Computed(t.creator.value) && t.data.grad == None
    ensures WellFormed(src) ==> WellFormed(t)
  {
    var a := src.data.ValueRef();
    var cell := new TensorData(ElRelu(a));
    t := Tensor(id, cell, src.shape, Some(ElReLU(src)));
  }

  /** `forward` of `ReduceSumStruct`: a fresh one-element cell holding the
      fold-sum of the operand's value, no gradient, shape `(Const<1>,)`. */
  method ForwardReduceSum(src: Tensor, id: nat) returns (t: Tensor)
    ensures fresh(t.data)
    ensures t == Tensor(id, t.data, Rank1(1), Some(ReduceSum(src)))
    ensures t.data.value == Computed(t.creator.value) && t.data.grad == None
    ensures WellFormed(t)
  {
    var a := src.data.ValueRef();
    var cell := new TensorData([SumAll(a)]);
    t := Tensor(id, cell, Rank1(1), Some(ReduceSum(src)));
  }

  /** `forward` of `MatmulStruct`: operands of shapes `(N, M)` and `(M, O)`
      (only a shared `M` is accepted) give a fresh cell of shape `(N, O)`
      holding their product, no gradient. */
  method ForwardMatmul(lhs: Tensor, rhs: Tensor, n: nat, m: nat, o: nat, id: nat) returns (t: Tensor)
    requires lhs.shape == Rank2(n, m) && rhs.shape == Rank2(m, o)
    requires WellFormed(lhs) && WellFormed(rhs)
    ensures fresh(t.data)
    ensures t == Tensor(id, t.data, Rank2(n, o), Some(Matmul(n, m, o, lhs, rhs)))
    ensures t.data.value == Computed(t.creator.value) && t.data.grad == None
    ensures WellFormed(t)
  {
    var a := lhs.data.ValueRef();
    var b := rhs.data.ValueRef();
    var cell := new TensorData(MatmulData(a, b, n, m, o));
    t := Tensor(id, cell, Rank2(n, o), Some(Matmul(n, m, o, lhs, rhs)));
  }

  // ---------------------------------------------------------------------
  // recompute
  // ---------------------------------------------------------------------

  /** `recompute` of a binary struct: the output cell's value becomes the
      kernel of the operands' current values and its gradient is cleared. */
  method RecomputeBinary(node: Node, t: Tensor)
    requires node.ElBinary? && Computable(node)
    modifies t.data
    ensures t.data.value == old(Computed(node)) && t.data.grad == None
  {
    var a := node.lhs.data.ValueRef();
    var b := node.rhs.data.ValueRef();
    t.data.Replace(Kernel(node.kind, a, b));
  }

  /** `recompute` of `ElReLUStruct`. */
  method RecomputeRelu(node: Node, t: Tensor)
    requires node.ElReLU?
    modifies t.data
    ensures t.data.value == old(Computed(node)) && t.data.grad == None
  {
    var a := node.src.data.ValueRef();
    t.data.Replace(ElRelu(a));
  }

  /** `recompute` of `ReduceSumStruct`. */
  method RecomputeReduceSum(node: Node, t: Tensor)
    requires node.ReduceSum?
    modifies t.data
    ensures t.data.value == old(Computed(node)) && t.data.grad == None
  {
    var a := node.src.data.ValueRef();
    t.data.Replace([SumAll(a)]);
  }

  /** `recompute` of `MatmulStruct`. */
  method RecomputeMatmul(node: Node, t: Tensor)
    requires node.Matmul? && Computable(node)
    modifies t.data
    ensures t.data.value == old(Computed(node)) && t.data.grad == None
  {
    var a := node.lhs.data.ValueRef();
    var b := node.rhs.data.ValueRef();
    t.data.Replace(MatmulData(a, b, node.n, node.m, node.o));
  }

  /** `Op::recompute` called through the op of a tensor. */
  method Recompute(node: Node, t: Tensor)
    requires Computable(node)
    modifies t.data
    ensures t.data.value == old(Computed(node)) && t.data.grad == None
  {
    match node
    case ElBinary(_, _, _) => RecomputeBinary(node, t);
    case ElReLU(_) => RecomputeRelu(node, t);
    case ReduceSum(_) => RecomputeReduceSum(node, t);
    case Matmul(_, _, _, _, _) => RecomputeMatmul(node, t);
  }

  /** Recompute only writes the output cell, so when that cell is not one of
      the operands' cells a second recompute finds the same operand values
      and leaves the same state: recompute is idempotent. */
  method RecomputeTwice(node: Node, t: Tensor)
    requires Computable(node) && t.data !in OperandCells(node)
    modifies t.data
    ensures forall c :: c in OperandCells(node) ==> c.value == old(c.value) && c.grad == old(c.grad)
    ensures t.data.value == old(Computed(node)) && t.data.grad == None
  {
    Recompute(node, t);
    ghost var once := t.data.value;
    Recompute(node, t);
    assert t.data.value == once;
  }

  /** The op's operands, each tagged with its own id. */
  function Operands(node: Node): (r: seq<TensorBox>)
    requires !node.Flatten? && !node.Reshape?
    ensures forall i :: 0 <= i < |r| ==> r[i].id == r[i].tensor.id
    ensures node.ElBinary? || node.Matmul? ==> r == [TensorBox(node.lhs.id, node.lhs), TensorBox(node.rhs.id, node.rhs)]
    ensures node.ElReLU? || node.ReduceSum? ==> r == [TensorBox(node.src.id, node.src)]
  {
    match node
    case ElBinary(_, lhs, rhs) => [TensorBox(lhs.id, lhs), TensorBox(rhs.id, rhs)]
    case ElReLU(src) => [TensorBox(src.id, src)]
    case ReduceSum(src) => [TensorBox(src.id, src)]
    case Matmul(_, _, _, lhs, rhs) => [TensorBox(lhs.id, lhs), TensorBox(rhs.id, rhs)]
  }

  // ---------------------------------------------------------------------
  // propogate_grad
  // ---------------------------------------------------------------------

  /** `x.update_grad(dx)` then `y.update_grad(dy)`: when `x` and `y` are the
      same cell both contributions accumulate there. */
  twostate predicate AccumulatedPair(x: TensorData, y: TensorData, dx: seq<int>, dy: seq<int>)
    reads x, y
  {
    if x == y then
      x.grad == Some(Accumulate(Some(Accumulate(old(x.grad), dx)), dy))
    else
      x.grad == Some(Accumulate(old(x.grad), dx)) && y.grad == Some(Accumulate(old(y.grad), dy))
  }

  /** The contributions of a binary rule: the output gradient times each of
      the two local derivatives `df` gives for the operand values `(x, y)`. */
  function BinaryIncrements(dDt: seq<int>, x: seq<int>, y: seq<int>,
                            df: (seq<int>, seq<int>) -> (seq<int>, seq<int>)): (r: (seq<int>, seq<int>))
    ensures |r.0| == Min(|dDt|, |df(x, y).0|)
    ensures forall i :: 0 <= i < |r.0| ==> r.0[i] == dDt[i] * df(x, y).0[i]
    ensures |r.1| == Min(|dDt|, |df(x, y).1|)
    ensures forall i :: 0 <= i < |r.1| ==> r.1[i] == dDt[i] * df(x, y).1[i]
  {
    var (da, db) := df(x, y);
    (ElMul(dDt, da), ElMul(dDt, db))
  }

  /** `propogate_grad` of a binary struct, as written: panics when the output
      has no gradient; otherwise both operands' gradients grow by the output
      gradient times the local derivatives. The local derivatives are taken
      at (operand 0's value, operand 0's value): operand 0 is read twice. */
  method PropagateGradBinary(node: Node, t: Tensor, df: (seq<int>, seq<int>) -> (seq<int>, seq<int>))
    returns (o: Outcome)
    requires node.ElBinary?
    requires t.data !in OperandCells(node)
    modifies node.lhs.data, node.rhs.data
    ensures node.lhs.data.value == old(node.lhs.data.value) && node.rhs.data.value == old(node.rhs.data.value)
    ensures old(t.data.grad).None? ==> o == Fail(NoGrad) && unchanged(node.lhs.data, node.rhs.data)
    ensures old(t.data.grad).Some? ==> (o == Pass &&
      var inc := BinaryIncrements(old(t.data.grad).value, old(node.lhs.data.value), old(node.lhs.data.value), df);
      AccumulatedPair(node.lhs.data, node.rhs.data, inc.0, inc.1))
  {
    var g := t.data.GradRef();
    match g {
      case None =>
        o := Fail(NoGrad);
      case Some(dDt) =>
        var a := node.lhs.data.ValueRef();
        var b := node.lhs.data.ValueRef();
        var inc := BinaryIncrements(dDt, a, b, df);
        node.lhs.data.UpdateGrad(inc.0);
        node.rhs.data.UpdateGrad(inc.1);
        o := Pass;
    }
  }

  /** The local derivatives of `t = a * b` written out in the repository's
      backward rules: `dt/da = b` and `dt/db = a`. */
  function MulRule(x: seq<int>, y: seq<int>): (seq<int>, seq<int>)
  {
    (y, x)
  }

  /** With the multiplication rule, operand values `a = [2]`, `b = [3]` and
      output gradient `[1]`, the code as written gives operand 0 the gradient
      `[2]`, where the product rule asks for `b = [3]`. */
  lemma LhsReadTwice()
    ensures BinaryIncrements([1], [2], [2], MulRule).0 == [2]
    ensures ElMul([1], [3]) == [3]
  {
  }

  /** `propogate_grad` of a binary struct with operand 1's value in the
      second position. */
  method PropagateGradBinaryCorrected(node: Node, t: Tensor, df: (seq<int>, seq<int>) -> (seq<int>, seq<int>))
    returns (o: Outcome)
    requires node.ElBinary?
    requires t.data !in OperandCells(node)
    modifies node.lhs.data, node.rhs.data
    ensures node.lhs.data.value == old(node.lhs.data.value) && node.rhs.data.value == old(node.rhs.data.value)
    ensures old(t.data.grad).None? ==> o == Fail(NoGrad) && unchanged(node.lhs.data, node.rhs.data)
    ensures old(t.data.grad).Some? ==> (o == Pass &&
      var inc := BinaryIncrements(old(t.data.grad).value, old(node.lhs.data.value), old(node.rhs.data.value), df);
      AccumulatedPair(node.lhs.data, node.rhs.data, inc.0, inc.1))
  {
    var g := t.data.GradRef();
    match g {
      case None =>
        o := Fail(NoGrad);
      case Some(dDt) =>
        var a := node.lhs.data.ValueRef();
        var b := node.rhs.data.ValueRef();
        var inc := BinaryIncrements(dDt, a, b, df);
        node.lhs.data.UpdateGrad(inc.0);
        node.rhs.data.UpdateGrad(inc.1);
        o := Pass;
    }
  }

  /** With the operands read correctly, the multiplication rule gives each
      operand the output gradient times the other operand: the product rule. */
  lemma ProductRuleRestored(dDt: seq<int>, a: seq<int>, b: seq<int>)
    ensures BinaryIncrements(dDt, a, b, MulRule) == (ElMul(dDt, b), ElMul(dDt, a))
  {
  }

  /** `propogate_grad` of `ElReLUStruct`: panics when the output has no
      gradient; otherwise the operand's gradient grows by the output gradient
      times `el_relu_grad` of its value (the parameter `reluGrad`). */
  method PropagateGradRelu(node: Node, t: Tensor, reluGrad: seq<int> -> seq<int>) returns (o: Outcome)
    requires node.ElReLU?
    requires t.data != node.src.data
    modifies node.src.data
    ensures node.src.data.value == old(node.src.data.value)
    ensures old(t.data.grad).None? ==> o == Fail(NoGrad) && unchanged(node.src.data)
    ensures old(t.data.grad).Some? ==> (o == Pass &&
      node.src.data.grad == Some(Accumulate(old(node.src.data.grad),
                                            ElMul(old(t.data.grad).value, reluGrad(old(node.src.data.value))))))
  {
    var g := t.data.GradRef();
    match g {
      case None =>
        o := Fail(NoGrad);
      case Some(dDt) =>
        var a := node.src.data.ValueRef();
        var dDa := ElMul(dDt, reluGrad(a));
        node.src.data.UpdateGrad(dDa);
        o := Pass;
    }
  }

  /** `propogate_grad` of `ReduceSumStruct`: panics when the output has no
      gradient, and (in `expand_to_shape`) when that gradient does not hold
      exactly one element; otherwise the one element is repeated to the
      length of `reduce_sum_grad` of the operand's value (the parameter
      `sumGrad`), multiplied by it, and added to the operand's gradient. */
  method PropagateGradReduceSum(node: Node, t: Tensor, sumGrad: seq<int> -> seq<int>) returns (o: Outcome)
    requires node.ReduceSum?
    requires t.data != node.src.data
    modifies node.src.data
    ensures node.src.data.value == old(node.src.data.value)
    ensures o.Pass? <==> old(t.data.grad).Some? && |old(t.data.grad).value| == 1
    ensures o.Fail? ==> unchanged(node.src.data)
    ensures o.Pass? ==>
      var dt := sumGrad(old(node.src.data.value));
      node.src.data.grad == Some(Accumulate(old(node.src.data.grad), ElMul(Fill(old(t.data.grad).value[0], |dt|), dt)))
  {
    var g := t.data.GradRef();
    match g {
      case None =>
        o := Fail(NoGrad);
      case Some(dDt) =>
        var a := node.src.data.ValueRef();
        var dtDa := sumGrad(a);
        var expanded := ExpandToShape(dDt, |dtDa|);
        match expanded {
          case None =>
            o := Fail("assertion `left == right` failed");
          case Some(e) =>
            node.src.data.UpdateGrad(ElMul(e, dtDa));
            o := Pass;
        }
    }
  }

  /** With the all-ones local derivative, summing back the contribution of a
      one-element output gradient `[d]` over an operand of length `n` gives
      `n * d`: every element received `d`. */
  lemma ReduceSumSpreadsGradient(d: int, n: nat)
    ensures ElMul(Fill(d, n), Ones(n)) == Fill(d, n)
    ensures SumAll(ElMul(Fill(d, n), Ones(n))) == n * d
  {
    assert ElMul(Fill(d, n), Ones(n)) == Fill(d, n);
    SumOfFill(d, n);
  }

  /** `propogate_grad` of `MatmulStruct` for `t = a @ b` of shape `(N, O)`:
      panics when the output has no gradient; otherwise operand 0 gains
      `d @ transpose2d(b, O)` (shape `(N, M)`) and operand 1 gains
      `transpose2d(a, M) @ d` (shape `(M, O)`), `transpose2d` being the
      parameter `transpose`, which keeps lengths. */
  method PropagateGradMatmul(node: Node, t: Tensor, transpose: (seq<int>, nat) -> seq<int>) returns (o: Outcome)
    requires node.Matmul? && Computable(node)
    requires t.data !in OperandCells(node)
    requires forall x, c :: |transpose(x, c)| == |x|
    requires t.data.grad.Some? ==> |t.data.grad.value| == node.n * node.o
    modifies node.lhs.data, node.rhs.data
    ensures node.lhs.data.value == old(node.lhs.data.value) && node.rhs.data.value == old(node.rhs.data.value)
    ensures old(t.data.grad).None? ==> o == Fail(NoGrad) && unchanged(node.lhs.data, node.rhs.data)
    ensures old(t.data.grad).Some? ==> (o == Pass &&
      var d := old(t.data.grad).value;
      var n, m, k := node.n, node.m, node.o;
      AccumulatedPair(node.lhs.data, node.rhs.data,
                      MatmulData(d, transpose(old(node.rhs.data.value), k), n, k, m),
                      MatmulData(transpose(old(node.lhs.data.value), m), d, m, n, k)))
  {
    var g := t.data.GradRef();
    match g {
      case None =>
        o := Fail(NoGrad);
      case Some(dDt) =>
        var a := node.lhs.data.ValueRef();
        var b := node.rhs.data.ValueRef();
        var n, m, k := node.n, node.m, node.o;
        assert |transpose(b, k)| == k * m;
        assert |transpose(a, m)| == m * n;
        var dDa := MatmulData(dDt, transpose(b, k), n, k, m);
        var dDb := MatmulData(transpose(a, m), dDt, m, n, k);
        node.lhs.data.UpdateGrad(dDa);
        node.rhs.data.UpdateGrad(dDb);
        o := Pass;
    }
  }
}
