/** The operation catalogue of `src/op.rs`: the untyped graph's `Op` enum and
    its scalar element functions.

    In the source `Op<T>` holds `Tensor<T>` operands and `Tensor<T>` (in
    `src/tensor.rs`) holds an `Op<T>`; the two Rust modules refer to each
    other. Dafny modules cannot, so `Op` is generic in its operand type and
    `UntypedTensor` instantiates it with its own `Tensor`. */
module OpCatalog {
  import opened Vectors

  datatype ElementwiseUnary = Relu

  datatype ElementwiseBinary = Add | Sub | Mul | Div

  /** `Op::EB`, `Op::EU` and `Op::Sum`; `a` is the first operand of every variant. */
  datatype Op<Operand> =
    | EB(eb: ElementwiseBinary, a: Operand, b: Operand)
    | EU(eu: ElementwiseUnary, a: Operand)
    | Sum(a: Operand)

  /** `Op::iter`: the operands in order, `[a, b]` for a binary op and `[a]`
      otherwise; there is never none and never more than two. */
  function Iter<Operand>(op: Op<Operand>): (r: seq<Operand>)
    ensures 1 <= |r| <= 2 && r[0] == op.a
    ensures |r| == 2 <==> op.EB?
    ensures op.EB? ==> r[1] == op.b
  {
    match op
    case EB(_, a, b) => [a, b]
    case EU(_, a) => [a]
    case Sum(a) => [a]
  }

  /** `ElementwiseUnary::_f`: ReLU keeps non-negative inputs and maps
      negative ones to zero. */
  function UnaryF(eu: ElementwiseUnary, a: int): (r: int)
    ensures r >= 0
    ensures a >= 0 ==> r == a
    ensures a < 0 ==> r == 0
  {
    match eu
    case Relu => if a >= 0 then a else 0
  }

  /** Applying ReLU twice is applying it once. */
  lemma UnaryIdempotent(eu: ElementwiseUnary, a: int)
    ensures UnaryF(eu, UnaryF(eu, a)) == UnaryF(eu, a)
  {
  }

  /** `ElementwiseBinary::_f` on integers; `Div` is Rust's truncating
      division, which panics on a zero divisor. */
  function BinaryF(eb: ElementwiseBinary, a: int, b: int): int
    requires eb.Div? ==> b != 0
  {
    match eb
    case Add => a + b
    case Sub => a - b
    case Mul => a * b
    case Div => TruncDiv(a, b)
  }

  /** `Sub` undoes `Add`, and `Div` undoes `Mul` by a non-zero factor. */
  lemma BinaryInverses(a: int, b: int)
    ensures BinaryF(Sub, BinaryF(Add, a, b), b) == a
    ensures b != 0 ==> BinaryF(Div, BinaryF(Mul, a, b), b) == a
  {
    if b != 0 {
      TruncDivOfProduct(a, b);
    }
  }

  /** `Add` and `Mul` commute; `Sub` is `Add` of the negation. */
  lemma BinaryAlgebra(a: int, b: int)
    ensures BinaryF(Add, a, b) == BinaryF(Add, b, a)
    ensures BinaryF(Mul, a, b) == BinaryF(Mul, b, a)
    ensures BinaryF(Sub, a, b) == BinaryF(Add, a, -b)
  {
  }
}
