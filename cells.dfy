/** The value/gradient storage cell `TensorData` of `src/tensor_data.rs`.

    In the source the two fields sit behind a `RefCell` and are overwritten in
    place through a shared `Rc`; here the cell is a class whose methods assign
    the fields. Dynamic-borrow panics of the `RefCell` are not modelled. */
module Cells {
  import opened Wrappers
  import opened Vectors

  /** The gradient a cell holds after `update_grad(delta)` when it held `g`:
      `delta` itself the first time, the element-wise sum afterwards. */
  function Accumulate(g: Option<seq<int>>, delta: seq<int>): (r: seq<int>)
    ensures g.None? ==> r == delta
    ensures g.Some? ==> |r| == Min(|g.value|, |delta|)
    ensures g.Some? ==> forall i :: 0 <= i < |r| ==> r[i] == g.value[i] + delta[i]
  {
    match g
    case Some(prev) => ElAdd(prev, delta)
    case None => delta
  }

  /** Two updates starting from an absent gradient leave their element-wise sum. */
  lemma AccumulateTwiceFromNone(d1: seq<int>, d2: seq<int>)
    ensures Accumulate(Some(Accumulate(None, d1)), d2) == ElAdd(d1, d2)
  {
  }

  /** Gradient contributions commute: the order in which two consumers of a
      tensor add their equal-length contributions does not matter. */
  lemma AccumulateOrderIrrelevant(g: Option<seq<int>>, d1: seq<int>, d2: seq<int>)
    requires |d1| == |d2|
    requires g.Some? ==> |g.value| == |d1|
    ensures Accumulate(Some(Accumulate(g, d1)), d2) == Accumulate(Some(Accumulate(g, d2)), d1)
  {
    match g
    case None => AddCommutes(d1, d2);
    case Some(v) =>
      calc {
        ElAdd(ElAdd(v, d1), d2);
        { AddAssociates(v, d1, d2); }
        ElAdd(v, ElAdd(d1, d2));
        { AddCommutes(d1, d2); }
        ElAdd(v, ElAdd(d2, d1));
        { AddAssociates(v, d2, d1); }
        ElAdd(ElAdd(v, d2), d1);
      }
  }

  class TensorData {
    var value: seq<int>
    var grad: Option<seq<int>>

    /** `TensorData::new` (also `From<Vec<T>>`): the given value, no gradient. */
    constructor (value: seq<int>)
      ensures this.value == value && grad == None
    {
      this.value := value;
      grad := None;
    }

    /** Overwrite the value and always clear the gradient, so that a stale
        gradient is never combined with a value computed from other inputs. */
    method Replace(value: seq<int>)
      modifies this
      ensures this.value == value && grad == None
    {
      this.value := value;
      grad := None;
    }

    /** A read of the gradient; nothing changes. */
    method GradRef() returns (g: Option<seq<int>>)
      ensures g == grad
    {
      g := grad;
    }

    /** A read of the value; nothing changes. */
    method ValueRef() returns (v: seq<int>)
      ensures v == value
    {
      v := value;
    }

    /** Set the gradient to `newGrad` if absent, otherwise add `newGrad` to it
        element-wise; the value is untouched. */
    method UpdateGrad(newGrad: seq<int>)
      modifies this
      ensures value == old(value)
      ensures grad == Some(Accumulate(old(grad), newGrad))
    {
      var current := GradRef();
      var t;
      match current {
        case Some(g) => t := ElAdd(g, newGrad);
        case None => t := newGrad;
      }
      grad := Some(t);
    }
  }

  /** `replace(v)` followed by `update_grad(d)` leaves the gradient `d`,
      whatever the cell held before. */
  method ReplaceThenUpdate(cell: TensorData, v: seq<int>, d: seq<int>)
    modifies cell
    ensures cell.value == v && cell.grad == Some(d)
  {
    cell.Replace(v);
    cell.UpdateGrad(d);
  }

  /** Two `update_grad` calls on a fresh cell leave the element-wise sum. */
  method UpdateTwiceFromNew(v: seq<int>, d1: seq<int>, d2: seq<int>) returns (cell: TensorData)
    ensures fresh(cell)
    ensures cell.value == v && cell.grad == Some(ElAdd(d1, d2))
  {
    cell := new TensorData(v);
    cell.UpdateGrad(d1);
    cell.UpdateGrad(d2);
  }
}
