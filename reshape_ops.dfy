/** The shape-only ops of `src/reshape.rs`: `FlattenStruct` and
    `ReshapeStruct`.

    Neither copies or changes data: `forward` hands the output the operand's
    own storage cell (an `Rc` clone), so a value or gradient written through
    either tensor is seen through both, and `propogate_grad` does nothing.
    Which shapes may be flattened or reshaped into which is decided by trait
    impls at compile time; here it is the predicate `Reshapes`. */
module ReshapeOps {
  import opened Wrappers
  import opened Cells
  import opened Shapes
  import opened TypedGraph

  /** `Flattens<T, A>`: the length `A` a tensor of this shape flattens to;
      there is an impl for ranks 1, 2 and 3 and none for the scalar `()`. */
  function FlattenedLength(s: Shape): (r: Option<nat>)
    ensures r.None? <==> s.Rank0?
    ensures r.Some? ==> r.value == s.NumElements()
  {
    match s
    case Rank0 => None
    case Rank1(a) => Some(a)
    case Rank2(a, b) => Some(a * b)
    case Rank3(a, b, c) => Some(a * b * c)
  }

  /** `Reshapes<T, S>` for a source shape: the target has rank 1, 2 or 3 and
      the source flattens to exactly the target's element count. */
  predicate Reshapes(source: Shape, target: Shape)
  {
    !target.Rank0? && FlattenedLength(source) == Some(target.NumElements())
  }

  /** Reshaping is allowed exactly between non-scalar shapes with the same
      number of elements; so it can be undone, and two reshapes compose. */
  lemma ReshapeConservesCount(s: Shape, t: Shape, u: Shape)
    ensures Reshapes(s, t) <==> !s.Rank0? && !t.Rank0? && s.NumElements() == t.NumElements()
    ensures Reshapes(s, t) ==> Reshapes(t, s)
    ensures Reshapes(s, t) && Reshapes(t, u) ==> Reshapes(s, u)
  {
  }

  /** Flattening to `(A,)` is the reshape to `(A,)`. */
  lemma FlattenIsReshape(s: Shape, a: nat)
    ensures FlattenedLength(s) == Some(a) <==> Reshapes(s, Rank1(a))
  {
  }

  /** `FlattenStruct::forward`: a tensor of shape `(A,)` over the operand's
      very cell, created by the flatten op; the id is the one the unchecked
      constructor hands out. */
  function FlattenForward(src: Tensor, id: nat): (t: Tensor)
    requires !src.shape.Rank0?
    reads src.data
    ensures t.data == src.data && t.id == id
    ensures t.shape == Rank1(src.shape.NumElements())
    ensures t.creator == Some(Flatten(src, src.shape.NumElements()))
    ensures WellFormed(src) <==> WellFormed(t)
  {
    var a := FlattenedLength(src.shape).value;
    Tensor(id, src.data, Rank1(a), Some(Flatten(src, a)))
  }

  /** `ReshapeStruct::forward`: a tensor of the target shape over the
      operand's very cell, created by the reshape op. */
  function ReshapeForward(src: Tensor, target: Shape, id: nat): (t: Tensor)
    requires Reshapes(src.shape, target)
    reads src.data
    ensures t.data == src.data && t.id == id && t.shape == target
    ensures t.creator == Some(Reshape(src, target))
    ensures WellFormed(src) <==> WellFormed(t)
  {
    Tensor(id, src.data, target, Some(Reshape(src, target)))
  }

  /** `propogate_grad` of both structs: nothing is read and nothing changes. */
  method PropagateGradShapeOnly(node: Node, t: Tensor)
    requires node.Flatten? || node.Reshape?
  {
  }

  /** `operands` of both structs: the single source tensor with its id. */
  function ShapeOnlyOperands(node: Node): (r: seq<TensorBox>)
    requires node.Flatten? || node.Reshape?
    ensures |r| == 1 && r[0].tensor == node.src && r[0].id == node.src.id
  {
    [TensorBox(node.src.id, node.src)]
  }

  /** Backward through a flatten: a gradient stored on the flattened tensor
      is, without any propagation, the gradient of the source, because both
      share one cell; the value is untouched. */
  method BackwardThroughFlatten(src: Tensor, id: nat, d: seq<int>) returns (t: Tensor)
    requires !src.shape.Rank0?
    modifies src.data
    ensures t.data == src.data && t.shape == Rank1(src.shape.NumElements())
    ensures src.data.value == old(src.data.value)
    ensures src.data.grad == Some(Accumulate(old(src.data.grad), d))
  {
    t := FlattenForward(src, id);
    t.data.UpdateGrad(d);
    PropagateGradShapeOnly(t.creator.value, t);
  }

  /** Recomputing an op over a reshaped operand sees the value written
      through the source: a `replace` on the source is a `replace` on the
      reshaped tensor, which also loses any gradient it held. */
  method ReplaceThroughReshape(src: Tensor, target: Shape, id: nat, v: seq<int>) returns (t: Tensor)
    requires Reshapes(src.shape, target)
    modifies src.data
    ensures t.data == src.data && t.shape == target
    ensures t.data.value == v && t.data.grad == None
  {
    t := ReshapeForward(src, target, id);
    src.data.Replace(v);
  }
}
