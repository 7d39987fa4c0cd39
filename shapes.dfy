/** The shape descriptors of `src/shape.rs`.

    In the source a shape is a type: `()`, `(Const<A>,)`, `(Const<A>, Const<B>)`
    or `(Const<A>, Const<B>, Const<C>)`, whose const parameters are the
    extents. Here a shape is a value of the datatype `Shape`, one constructor
    per tuple arity, carrying the same extents. */
module Shapes {

  /** A dimension: a compile-time `Const<S>` or a run-time `usize`. */
  datatype Dim = Const(s: nat) | Extent(n: nat)
  {
    /** `Dim::size`: `S` for `Const<S>`, the number itself for `usize`. */
    function Size(): (r: nat)
      ensures Const? ==> r == s
      ensures Extent? ==> r == n
    {
      match this
      case Const(s) => s
      case Extent(n) => n
    }
  }

  datatype Shape = Rank0 | Rank1(a: nat) | Rank2(a: nat, b: nat) | Rank3(a: nat, b: nat, c: nat)
  {
    /** `Shape::NUM_DIMS`. */
    function NumDims(): nat
    {
      match this
      case Rank0 => 0
      case Rank1(_) => 1
      case Rank2(_, _) => 2
      case Rank3(_, _, _) => 3
    }

    /** The extents, outermost first. */
    function Dims(): (r: seq<nat>)
      ensures |r| == NumDims()
    {
      match this
      case Rank0 => []
      case Rank1(a) => [a]
      case Rank2(a, b) => [a, b]
      case Rank3(a, b, c) => [a, b, c]
    }

    /** `Shape::strides`. */
    function Strides(): seq<nat>
    {
      match this
      case Rank0 => []
      case Rank1(_) => [1]
      case Rank2(_, b) => [b, 1]
      case Rank3(_, b, c) => [Const(b).Size() * Const(c).Size(), Const(c).Size(), 1]
    }

    /** The number of elements: the product of the extents. */
    function NumElements(): nat
    {
      match this
      case Rank0 => 1
      case Rank1(a) => a
      case Rank2(a, b) => a * b
      case Rank3(a, b, c) => a * b * c
    }
  }

  /** There is one stride per dimension, the innermost stride is 1, and every
      other stride is the next stride times the next extent: the layout is
      row-major. */
  lemma StridesAreRowMajor(s: Shape)
    ensures |s.Strides()| == s.NumDims() == |s.Dims()|
    ensures s.NumDims() >= 1 ==> s.Strides()[s.NumDims() - 1] == 1
    ensures forall i :: 0 <= i < s.NumDims() - 1 ==> s.Strides()[i] == s.Strides()[i + 1] * s.Dims()[i + 1]
  {
  }

  /** The outermost stride times the outermost extent is the element count. */
  lemma OuterStrideCoversAll(s: Shape)
    requires s.NumDims() >= 1
    ensures s.Strides()[0] * s.Dims()[0] == s.NumElements()
  {
    match s
    case Rank1(a) =>
    case Rank2(a, b) =>
    case Rank3(a, b, c) =>
      assert s.Strides()[0] * a == (b * c) * a;
  }

  /** An index tuple within the extents. */
  predicate InBounds(s: Shape, idx: seq<nat>)
  {
    |idx| == s.NumDims() && forall i :: 0 <= i < |idx| ==> idx[i] < s.Dims()[i]
  }

  /** The buffer position of an index tuple: the sum of index times stride. */
  function Offset(s: Shape, idx: seq<nat>): nat
    requires |idx| == s.NumDims()
  {
    var st := s.Strides();
    StridesAreRowMajor(s);
    DotProduct(idx, st)
  }

  function DotProduct(xs: seq<nat>, ys: seq<nat>): nat
    requires |xs| == |ys|
  {
    if xs == [] then 0 else xs[0] * ys[0] + DotProduct(xs[1..], ys[1..])
  }

  /** Every in-bounds index tuple lands inside the buffer. */
  lemma OffsetInBounds(s: Shape, idx: seq<nat>)
    requires InBounds(s, idx)
    ensures Offset(s, idx) < s.NumElements()
  {
    match s
    case Rank0 =>
    case Rank1(a) =>
      assert idx[1..] == [] && s.Strides()[1..] == [];
      assert Offset(s, idx) == idx[0] * 1 + DotProduct([], []);
    case Rank2(a, b) =>
      var i, j := idx[0], idx[1];
      var st := s.Strides();
      assert idx[1..][1..] == [] && st[1..][1..] == [];
      assert DotProduct(idx[1..], st[1..]) == j * 1;
      assert Offset(s, idx) == i * b + j * 1;
      RowBound(i, j, a, b);
    case Rank3(a, b, c) =>
      var i, j, k := idx[0], idx[1], idx[2];
      DotProductOfThree(idx, s.Strides());
      assert Offset(s, idx) == i * (b * c) + j * c + k * 1;
      BoxBound(i, j, k, a, b, c);
  }

  lemma DotProductOfThree(xs: seq<nat>, ys: seq<nat>)
    requires |xs| == |ys| == 3
    ensures DotProduct(xs, ys) == xs[0] * ys[0] + xs[1] * ys[1] + xs[2] * ys[2]
  {
    assert xs[1..][1..][1..] == [] && ys[1..][1..][1..] == [];
    assert DotProduct(xs[1..][1..], ys[1..][1..]) == xs[2] * ys[2];
  }

  /** `(i * b + j) * c + k < a * b * c` inside the box `a` by `b` by `c`. */
  lemma BoxBound(i: nat, j: nat, k: nat, a: nat, b: nat, c: nat)
    requires i < a && j < b && k < c
    ensures i * (b * c) + j * c + k < a * b * c
  {
    RowBound(j, k, b, c);
    RowBound(i, j * c + k, a, b * c);
    assert i * (b * c) + (j * c + k) == i * (b * c) + j * c + k;
    MulAssoc(a, b, c);
  }

  /** `i * w + j < h * w` for `i < h` and `j < w`. */
  lemma RowBound(i: nat, j: nat, h: nat, w: nat)
    requires i < h && j < w
    ensures i * w + j < h * w
  {
    assert (i + 1) * w <= h * w by {
      assert h - (i + 1) >= 0;
      assert h * w - (i + 1) * w == (h - (i + 1)) * w;
    }
  }

  lemma MulAssoc(a: nat, b: nat, c: nat)
    ensures a * (b * c) == a * b * c
  {
  }
}
