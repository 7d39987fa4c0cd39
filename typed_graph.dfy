/** The typed graph that `src/ops/tensor.rs` and `src/reshape.rs` build on.

    A typed tensor `Tensor<T, S>` holds an id, a shared `Rc<TensorData>`
    storage cell and, for a computed tensor, the op that produced it; its
    shape `S` is a type parameter. The struct itself lives in a version of
    `src/tensor.rs` that is not part of this model, so only the parts those
    two files use are kept: the shape becomes a field, and the op, a trait
    object `Rc<dyn Op>` in the source, becomes one constructor per op struct. */
module TypedGraph {
  import opened Wrappers
  import opened Cells
  import opened Shapes

  /** The element-wise binary op structs generated by `impl_bin_el_op!`. */
  datatype BinaryStruct = ElAddStruct | ElSubStruct | ElMulStruct | ElDivStruct | ElMaxStruct | ElMinStruct

  datatype Tensor = Tensor(id: nat, data: TensorData, shape: Shape, creator: Option<Node>)

  /** The op structs, each holding its operand tensors. */
  datatype Node =
    | ElBinary(kind: BinaryStruct, lhs: Tensor, rhs: Tensor)
    | ElReLU(src: Tensor)
    | ReduceSum(src: Tensor)
    | Matmul(n: nat, m: nat, o: nat, lhs: Tensor, rhs: Tensor)
    | Flatten(src: Tensor, a: nat)
    | Reshape(src: Tensor, target: Shape)

  /** `TensorBox`: an operand handle tagged with its tensor's id. */
  datatype TensorBox = TensorBox(id: nat, tensor: Tensor)

  /** The value holds one element per index position of the shape, as the
      checked constructors of `src/tensor_from.rs` guarantee for ranks 1 to 3. */
  ghost predicate WellFormed(t: Tensor)
    reads t.data
  {
    |t.data.value| == t.shape.NumElements()
  }
}
