/** Element-wise buffer kernels of `src/ops/vec.rs`.

    Buffers are `Vec<T>` with `T: Copy + Num + PartialOrd`; the model fixes
    `T = int`. The kernels are iterator pipelines (`iter().zip().map().collect()`,
    `iter().map().collect()`) and `vec![x; n]` literals; nothing is mutated, so
    every kernel is a function. */
module Vectors {
  import opened Wrappers

  function Min(x: int, y: int): int { if x <= y then x else y }

  function Max(x: int, y: int): int { if x >= y then x else y }

  function Abs(x: int): nat { if x < 0 then -x else x }

  /** Rust's integer division `x / y`, which truncates toward zero (Dafny's
      `/` is Euclidean). A zero divisor makes Rust panic, hence the requires. */
  function TruncDiv(x: int, y: int): (q: int)
    requires y != 0
    ensures Abs(q) * Abs(y) <= Abs(x) < (Abs(q) + 1) * Abs(y)
    ensures (x < 0) == (y < 0) ==> q >= 0
    ensures (x < 0) != (y < 0) ==> q <= 0
  {
    var m := Abs(x) / Abs(y);
    DivBounds(Abs(x), Abs(y));
    assert m * Abs(y) <= Abs(x) < (m + 1) * Abs(y);
    if (x < 0) == (y < 0) then m else -m
  }

  lemma DivBounds(n: nat, d: nat)
    requires d > 0
    ensures (n / d) * d <= n < (n / d + 1) * d
  {
    var q, r := n / d, n % d;
    assert n == q * d + r && 0 <= r < d;
    assert (q + 1) * d == q * d + d;
  }

  /** `vec![x; n]`: `n` copies of `x`, built one element at a time. */
  function Fill(x: int, n: nat): (r: seq<int>)
    ensures |r| == n
    ensures forall i :: 0 <= i < n ==> r[i] == x
  {
    if n == 0 then [] else Fill(x, n - 1) + [x]
  }

  function OnesLike(a: seq<int>): (r: seq<int>)
    ensures |r| == |a| && forall i :: 0 <= i < |r| ==> r[i] == 1
  {
    Fill(1, |a|)
  }

  function ZerosLike(a: seq<int>): (r: seq<int>)
    ensures |r| == |a| && forall i :: 0 <= i < |r| ==> r[i] == 0
  {
    Fill(0, |a|)
  }

  function Ones(n: nat): (r: seq<int>)
    ensures |r| == n && forall i :: 0 <= i < n ==> r[i] == 1
  {
    Fill(1, n)
  }

  /** `expand_to_shape`: the `assert_eq!(a.len(), 1)` panics (`None`) unless
      `a` holds exactly one element, which is then repeated `len` times. */
  function ExpandToShape(a: seq<int>, len: nat): (r: Option<seq<int>>)
    ensures r.Some? <==> |a| == 1
    ensures r.Some? ==> |r.value| == len && forall i :: 0 <= i < len ==> r.value[i] == a[0]
  {
    if |a| != 1 then None else Some(Fill(a[0], len))
  }

  /** `a.iter().zip(b.iter()).map(op).collect()`: `zip` stops at the shorter
      buffer, so the result has `Min(|a|, |b|)` elements. The operator may be
      partial (integer division), and is applied only to the zipped pairs. */
  function ElBin(op: (int, int) --> int, a: seq<int>, b: seq<int>): (r: seq<int>)
    requires forall i :: 0 <= i < |a| && i < |b| ==> op.requires(a[i], b[i])
    ensures |r| == Min(|a|, |b|)
    ensures forall i :: 0 <= i < |r| ==> r[i] == op(a[i], b[i])
    decreases |a|
  {
    if |a| == 0 || |b| == 0 then []
    else
      assert forall i :: 0 <= i < |a| - 1 && i < |b| - 1 ==> a[1..][i] == a[i + 1] && b[1..][i] == b[i + 1];
      [op(a[0], b[0])] + ElBin(op, a[1..], b[1..])
  }

  /** Every divisor that `zip` pairs with an element of `a` is non-zero. */
  predicate NonZeroDivisors(a: seq<int>, b: seq<int>)
  {
    forall i :: 0 <= i < |a| && i < |b| ==> b[i] != 0
  }

  function ElMul(a: seq<int>, b: seq<int>): (r: seq<int>)
    ensures |r| == Min(|a|, |b|) && forall i :: 0 <= i < |r| ==> r[i] == a[i] * b[i]
  {
    ElBin((x, y) => x * y, a, b)
  }

  function ElAdd(a: seq<int>, b: seq<int>): (r: seq<int>)
    ensures |r| == Min(|a|, |b|) && forall i :: 0 <= i < |r| ==> r[i] == a[i] + b[i]
  {
    ElBin((x, y) => x + y, a, b)
  }

  function ElSub(a: seq<int>, b: seq<int>): (r: seq<int>)
    ensures |r| == Min(|a|, |b|) && forall i :: 0 <= i < |r| ==> r[i] == a[i] - b[i]
  {
    ElBin((x, y) => x - y, a, b)
  }

  function ElDiv(a: seq<int>, b: seq<int>): (r: seq<int>)
    requires NonZeroDivisors(a, b)
    ensures |r| == Min(|a|, |b|) && forall i :: 0 <= i < |r| ==> r[i] == TruncDiv(a[i], b[i])
  {
    ElBin((x, y) requires y != 0 => TruncDiv(x, y), a, b)
  }

  /** `if x >= y { x } else { y }` per element: an upper bound of both
      inputs that is one of them, preferring `x` on ties. */
  function ElMax(a: seq<int>, b: seq<int>): (r: seq<int>)
    ensures |r| == Min(|a|, |b|)
    ensures forall i :: 0 <= i < |r| ==> r[i] >= a[i] && r[i] >= b[i] && (r[i] == a[i] || r[i] == b[i])
  {
    ElBin((x, y) => if x >= y then x else y, a, b)
  }

  /** `if x <= y { x } else { y }` per element: a lower bound of both inputs
      that is one of them. */
  function ElMin(a: seq<int>, b: seq<int>): (r: seq<int>)
    ensures |r| == Min(|a|, |b|)
    ensures forall i :: 0 <= i < |r| ==> r[i] <= a[i] && r[i] <= b[i] && (r[i] == a[i] || r[i] == b[i])
  {
    ElBin((x, y) => if x <= y then x else y, a, b)
  }

  /** The "greater" indicator: 1 exactly where `x >= y` (ties included). */
  function ElGt(a: seq<int>, b: seq<int>): (r: seq<int>)
    ensures |r| == Min(|a|, |b|)
    ensures forall i :: 0 <= i < |r| ==> (r[i] == 1 <==> a[i] >= b[i]) && (r[i] == 0 <==> a[i] < b[i])
  {
    ElBin((x, y) => if x >= y then 1 else 0, a, b)
  }

  /** The "less" indicator: 1 exactly where `x <= y` (ties included). */
  function ElLt(a: seq<int>, b: seq<int>): (r: seq<int>)
    ensures |r| == Min(|a|, |b|)
    ensures forall i :: 0 <= i < |r| ==> (r[i] == 1 <==> a[i] <= b[i]) && (r[i] == 0 <==> a[i] > b[i])
  {
    ElBin((x, y) => if x <= y then 1 else 0, a, b)
  }

  /** `a.iter().map(op).collect()`: one result per element, in order. */
  function ElUnary(op: int --> int, a: seq<int>): (r: seq<int>)
    requires forall i :: 0 <= i < |a| ==> op.requires(a[i])
    ensures |r| == |a|
    ensures forall i :: 0 <= i < |r| ==> r[i] == op(a[i])
    decreases |a|
  {
    if |a| == 0 then []
    else
      assert forall i :: 0 <= i < |a| - 1 ==> a[1..][i] == a[i + 1];
      [op(a[0])] + ElUnary(op, a[1..])
  }

  function ElNeg(a: seq<int>): (r: seq<int>)
    ensures |r| == |a| && forall i :: 0 <= i < |r| ==> r[i] + a[i] == 0
  {
    ElUnary(x => -x, a)
  }

  /** `if x >= 0 { x } else { 0 }` per element. */
  function ElRelu(a: seq<int>): (r: seq<int>)
    ensures |r| == |a|
    ensures forall i :: 0 <= i < |r| ==> r[i] >= 0 && (a[i] >= 0 ==> r[i] == a[i]) && (a[i] < 0 ==> r[i] == 0)
  {
    ElUnary(x => if x >= 0 then x else 0, a)
  }

  /** `T::one() / x` per element, with Rust's truncating integer division. */
  function ElInv(a: seq<int>): (r: seq<int>)
    requires forall i :: 0 <= i < |a| ==> a[i] != 0
    ensures |r| == |a| && forall i :: 0 <= i < |r| ==> r[i] == TruncDiv(1, a[i])
  {
    ElUnary(x requires x != 0 => TruncDiv(1, x), a)
  }

  /** The ReLU derivative indicator: 1 where `x >= 0`, else 0. */
  function ElPos(a: seq<int>): (r: seq<int>)
    ensures |r| == |a|
    ensures forall i :: 0 <= i < |r| ==> (r[i] == 1 <==> a[i] >= 0) && (r[i] == 0 <==> a[i] < 0)
  {
    ElUnary(x => if x >= 0 then 1 else 0, a)
  }

  // ---------------------------------------------------------------------
  // Relations between the kernels
  // ---------------------------------------------------------------------

  /** On ties both indicators are 1; elsewhere exactly one of them is. */
  lemma GtLtPartition(a: seq<int>, b: seq<int>, i: int)
    requires 0 <= i < |a| && i < |b|
    ensures ElGt(a, b)[i] + ElLt(a, b)[i] == if a[i] == b[i] then 2 else 1
  {
  }

  /** The max indicator with the operands swapped is the min indicator. */
  lemma GtIsSwappedLt(a: seq<int>, b: seq<int>)
    ensures ElGt(a, b) == ElLt(b, a)
  {
  }

  /** Max and min split a pair: their sum is the sum of the inputs. */
  lemma MaxPlusMin(a: seq<int>, b: seq<int>)
    ensures ElAdd(ElMax(a, b), ElMin(a, b)) == ElAdd(a, b)
  {
  }

  /** Subtraction undoes addition on equal-length buffers. */
  lemma SubUndoesAdd(a: seq<int>, b: seq<int>)
    requires |a| == |b|
    ensures ElSub(ElAdd(a, b), b) == a
  {
  }

  /** Negation is an involution. */
  lemma NegInvolution(a: seq<int>)
    ensures ElNeg(ElNeg(a)) == a
  {
  }

  /** ReLU is idempotent. */
  lemma ReluIdempotent(a: seq<int>)
    ensures ElRelu(ElRelu(a)) == ElRelu(a)
  {
  }

  /** ReLU is the input masked by its derivative indicator `el_pos`. */
  lemma ReluIsMaskedByPos(a: seq<int>)
    ensures ElRelu(a) == ElMul(a, ElPos(a))
  {
  }

  /** Element-wise addition is commutative. */
  lemma AddCommutes(a: seq<int>, b: seq<int>)
    ensures ElAdd(a, b) == ElAdd(b, a)
  {
  }

  /** Element-wise addition is associative (the zip truncation included). */
  lemma AddAssociates(a: seq<int>, b: seq<int>, c: seq<int>)
    ensures ElAdd(ElAdd(a, b), c) == ElAdd(a, ElAdd(b, c))
  {
  }

  /** Truncating division undoes multiplication by a non-zero factor. */
  lemma DivUndoesMul(a: seq<int>, b: seq<int>)
    requires |a| == |b| && NonZeroDivisors(a, b)
    ensures NonZeroDivisors(ElMul(a, b), b)
    ensures ElDiv(ElMul(a, b), b) == a
  {
    forall i | 0 <= i < |a|
      ensures TruncDiv(a[i] * b[i], b[i]) == a[i]
    {
      TruncDivOfProduct(a[i], b[i]);
    }
  }

  lemma TruncDivOfProduct(x: int, y: int)
    requires y != 0
    ensures TruncDiv(x * y, y) == x
  {
    var q := TruncDiv(x * y, y);
    assert Abs(x * y) == Abs(x) * Abs(y) by {
      if x < 0 && y < 0 { assert x * y == (-x) * (-y); }
      else if x < 0 { assert -(x * y) == (-x) * y; }
      else if y < 0 { assert -(x * y) == x * (-y); }
    }
    assert Abs(x * y) / Abs(y) == Abs(x) by {
      LemmaMulDiv(Abs(x), Abs(y));
    }
  }

  lemma LemmaMulDiv(m: nat, n: nat)
    requires n > 0
    ensures (m * n) / n == m
  {
    var q, r := (m * n) / n, (m * n) % n;
    assert m * n == q * n + r && 0 <= r < n;
    assert (m - q) * n == r;
    MulSignBound(m - q, n);
  }

  lemma MulSignBound(k: int, n: nat)
    ensures k >= 1 ==> k * n >= n
    ensures k <= -1 ==> k * n <= -(n as int)
  {
    if k >= 1 {
      MulMonotone(k, 1, n);
    } else if k <= -1 {
      MulMonotone(-1, k, n);
    }
  }

  lemma MulMonotone(a: int, b: int, n: nat)
    requires a >= b
    ensures a * n >= b * n
  {
    assert a * n - b * n == (a - b) * n;
  }

  /** Integer `1 / x` is 1 for 1, -1 for -1 and 0 for every other divisor. */
  lemma InvValues(a: seq<int>, i: int)
    requires forall k :: 0 <= k < |a| ==> a[k] != 0
    requires 0 <= i < |a|
    ensures ElInv(a)[i] == if a[i] == 1 then 1 else if a[i] == -1 then -1 else 0
  {
  }

  // ---------------------------------------------------------------------
  // The reduction `iter().fold(T::zero(), |s, x| s + *x)`
  // ---------------------------------------------------------------------

  /** The left fold with `+` from zero: the last element is added last. */
  function SumAll(a: seq<int>): int
  {
    if a == [] then 0 else SumAll(a[..|a| - 1]) + a[|a| - 1]
  }

  /** The sum of a concatenation is the sum of the sums. */
  lemma {:induction false} SumAppend(a: seq<int>, b: seq<int>)
    ensures SumAll(a + b) == SumAll(a) + SumAll(b)
  {
    if b == [] {
      assert a + b == a;
    } else {
      var n := |b| - 1;
      SumAppend(a, b[..n]);
      assert (a + b)[..|a + b| - 1] == a + b[..n];
    }
  }

  /** Summing commutes with the element-wise sum of equal-length buffers. */
  lemma {:induction false} SumOfElAdd(a: seq<int>, b: seq<int>)
    requires |a| == |b|
    ensures SumAll(ElAdd(a, b)) == SumAll(a) + SumAll(b)
  {
    if a != [] {
      var n := |a| - 1;
      SumOfElAdd(a[..n], b[..n]);
      assert ElAdd(a, b)[..n] == ElAdd(a[..n], b[..n]);
    }
  }

  /** `n` copies of `x` sum to `n * x`; in particular `ones(n)` sums to `n`. */
  lemma {:induction false} SumOfFill(x: int, n: nat)
    ensures SumAll(Fill(x, n)) == n * x
  {
    if n > 0 {
      SumOfFill(x, n - 1);
      assert Fill(x, n)[..n - 1] == Fill(x, n - 1);
    }
  }
}
