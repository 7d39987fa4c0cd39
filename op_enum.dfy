/** The operation enum of `src/ops/mod.rs`.

    This generation has one variant per kernel (`ElAdd` ... `ElMin`) and a
    `ReduceSum`. The tensor it builds (`Tensor::new_with_op`, taking the
    buffer and the op) is not the one of `src/tensor.rs`; here it is a
    datatype of its own with the same three parts, and its id is supplied
    by the caller. The backward helpers it dispatches to are all commented
    out in the repository, so they are a parameter. */
module OpEnum {
  import opened Wrappers
  import Vectors

  datatype Tensor = Tensor(data: seq<int>, op: Option<Op>, id: nat)

  datatype Op =
    | ElAdd(a: Tensor, b: Tensor)
    | ElSub(a: Tensor, b: Tensor)
    | ElMul(a: Tensor, b: Tensor)
    | ElDiv(a: Tensor, b: Tensor)
    | ElMax(a: Tensor, b: Tensor)
    | ElMin(a: Tensor, b: Tensor)
    | ReduceSum(a: Tensor)

  /** Every divisor of an `ElDiv` is non-zero (integer division by zero panics). */
  predicate DefinedOp(op: Op)
  {
    op.ElDiv? ==> Vectors.NonZeroDivisors(op.a.data, op.b.data)
  }

  /** The buffer `forward` computes: the matching kernel over the operands'
      buffers, or the one-element fold-sum for `ReduceSum`. */
  function ForwardData(op: Op): (r: seq<int>)
    requires DefinedOp(op)
    ensures op.ReduceSum? ==> r == [Vectors.SumAll(op.a.data)]
    ensures !op.ReduceSum? ==> |r| == Vectors.Min(|op.a.data|, |op.b.data|)
    ensures op.ElAdd? ==> forall i :: 0 <= i < |r| ==> r[i] == op.a.data[i] + op.b.data[i]
    ensures op.ElSub? ==> forall i :: 0 <= i < |r| ==> r[i] == op.a.data[i] - op.b.data[i]
    ensures op.ElMul? ==> forall i :: 0 <= i < |r| ==> r[i] == op.a.data[i] * op.b.data[i]
    ensures op.ElDiv? ==> forall i :: 0 <= i < |r| ==> r[i] == Vectors.TruncDiv(op.a.data[i], op.b.data[i])
    ensures op.ElMax? ==> forall i :: 0 <= i < |r| ==> r[i] >= op.a.data[i] && r[i] >= op.b.data[i]
    ensures op.ElMin? ==> forall i :: 0 <= i < |r| ==> r[i] <= op.a.data[i] && r[i] <= op.b.data[i]
    ensures op.ElMax? || op.ElMin? ==> forall i :: 0 <= i < |r| ==> r[i] == op.a.data[i] || r[i] == op.b.data[i]
  {
    match op
    case ElAdd(a, b) => Vectors.ElAdd(a.data, b.data)
    case ElSub(a, b) => Vectors.ElSub(a.data, b.data)
    case ElMul(a, b) => Vectors.ElMul(a.data, b.data)
    case ElDiv(a, b) => Vectors.ElDiv(a.data, b.data)
    case ElMax(a, b) => Vectors.ElMax(a.data, b.data)
    case ElMin(a, b) => Vectors.ElMin(a.data, b.data)
    case ReduceSum(a) => [Vectors.SumAll(a.data)]
  }

  /** `Op::forward`: a tensor holding `ForwardData(op)` whose creator is the
      op itself, with the id the constructor hands out. */
  function Forward(op: Op, id: nat): (t: Tensor)
    requires DefinedOp(op)
    ensures t.op == Some(op) && t.id == id
    ensures t.data == ForwardData(op)
    ensures |t.data| == (if op.ReduceSum? then 1 else Vectors.Min(|op.a.data|, |op.b.data|))
  {
    Tensor(ForwardData(op), Some(op), id)
  }

  /** Forward results of different variants over the same operands are
      related as the kernels are: max plus min is the sum. */
  lemma ForwardMaxPlusMin(a: Tensor, b: Tensor)
    ensures Vectors.ElAdd(ForwardData(ElMax(a, b)), ForwardData(ElMin(a, b))) == ForwardData(ElAdd(a, b))
  {
    Vectors.MaxPlusMin(a.data, b.data);
  }

  /** The difference undoes the sum: subtracting `b` from the tensor that
      `ElAdd(a, b)` produced gives back `a`'s buffer. */
  lemma ForwardSubUndoesAdd(a: Tensor, b: Tensor, id: nat)
    requires |a.data| == |b.data|
    ensures ForwardData(ElSub(Forward(ElAdd(a, b), id), b)) == a.data
  {
    var t := Forward(ElAdd(a, b), id);
    assert t.data == Vectors.ElAdd(a.data, b.data);
    Vectors.SubUndoesAdd(a.data, b.data);
  }

  /** Reducing the sum of two tensors adds their totals. */
  lemma ForwardSumOfAdd(a: Tensor, b: Tensor, id: nat)
    requires |a.data| == |b.data|
    ensures ForwardData(ReduceSum(Forward(ElAdd(a, b), id))) == [Vectors.SumAll(a.data) + Vectors.SumAll(b.data)]
  {
    var t := Forward(ElAdd(a, b), id);
    ReduceSumForwardData(t);
    AddForwardData(a, b, id);
    Vectors.SumOfElAdd(a.data, b.data);
  }

  lemma ReduceSumForwardData(t: Tensor)
    ensures ForwardData(ReduceSum(t)) == [Vectors.SumAll(t.data)]
  {
  }

  lemma AddForwardData(a: Tensor, b: Tensor, id: nat)
    ensures Forward(ElAdd(a, b), id).data == Vectors.ElAdd(a.data, b.data)
  {
  }

  /** `Op::iter`: both operands in order for the element-wise variants, the
      single operand for `ReduceSum`. */
  function Iter(op: Op): (r: seq<Tensor>)
    ensures |r| == (if op.ReduceSum? then 1 else 2)
    ensures r[0] == op.a
    ensures !op.ReduceSum? ==> r[1] == op.b
  {
    match op
    case ElAdd(a, b) => [a, b]
    case ElSub(a, b) => [a, b]
    case ElMul(a, b) => [a, b]
    case ElDiv(a, b) => [a, b]
    case ElMax(a, b) => [a, b]
    case ElMin(a, b) => [a, b]
    case ReduceSum(a) => [a]
  }

  /** The backward helpers `el_add_backward` ... `reduce_sum_backward`. */
  datatype BackwardRule =
    | AddBackward | SubBackward | MulBackward | DivBackward
    | MaxBackward | MinBackward | ReduceSumBackward

  /** Gradients by tensor id. */
  type Grads = map<nat, seq<int>>

  /** The helper `propogate_grad` calls for each variant. */
  function RuleOf(op: Op): BackwardRule
  {
    match op
    case ElAdd(_, _) => AddBackward
    case ElSub(_, _) => SubBackward
    case ElMul(_, _) => MulBackward
    case ElDiv(_, _) => DivBackward
    case ElMax(_, _) => MaxBackward
    case ElMin(_, _) => MinBackward
    case ReduceSum(_) => ReduceSumBackward
  }

  /** Each variant has its own backward helper: two ops share a helper
      exactly when they are the same variant. */
  lemma RuleOfSeparatesVariants(p: Op, q: Op)
    ensures RuleOf(p) == RuleOf(q) <==>
      (p.ElAdd? && q.ElAdd?) || (p.ElSub? && q.ElSub?) || (p.ElMul? && q.ElMul?) ||
      (p.ElDiv? && q.ElDiv?) || (p.ElMax? && q.ElMax?) || (p.ElMin? && q.ElMin?) ||
      (p.ReduceSum? && q.ReduceSum?)
  {
  }

  /** `Op::propogate_grad`: hands the gradient map, the output `t` and the
      op's operands to the backward helper of the op's variant; the map the
      helper leaves is the new map. The helpers are the parameter `backward`. */
  method PropagateGrad(op: Op, grads: Grads, t: Tensor,
                       backward: BackwardRule -> (Grads, Tensor, seq<Tensor>) -> Grads)
    returns (updated: Grads)
    ensures updated == backward(RuleOf(op))(grads, t, Iter(op))
  {
    var helper := backward(RuleOf(op));
    updated := helper(grads, t, Iter(op));
  }
}
