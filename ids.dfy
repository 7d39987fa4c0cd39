/** The tensor id counter of `src/tensor_id.rs` (duplicated verbatim at
    `src/tensor.rs`, lines 13-33).

    `IdGenerator` is an iterator over `0, 1, 2, ...`; the process-wide
    instance sits behind a `Lazy<Mutex<..>>`. Here the generator is an object
    passed to whoever needs a fresh id; the mutex is not modelled. */
module Ids {
  import opened Wrappers

  /** The ids a generator has handed out once its counter reached `n`, in order. */
  function Issued(n: nat): seq<nat>
  {
    if n == 0 then [] else Issued(n - 1) + [n - 1]
  }

  /** Handed-out ids are strictly increasing, hence pairwise distinct, and
      each is below the counter. */
  lemma {:induction false} IssuedIncreasing(n: nat)
    ensures |Issued(n)| == n
    ensures forall i :: 0 <= i < n ==> Issued(n)[i] < n
    ensures forall i, j :: 0 <= i < j < n ==> Issued(n)[i] < Issued(n)[j]
  {
    if n > 0 {
      IssuedIncreasing(n - 1);
    }
  }

  class IdGenerator {
    var nextId: nat
    /** The ids handed out so far. */
    ghost var issued: seq<nat>

    ghost predicate Valid()
      reads this
    {
      issued == Issued(nextId)
    }

    /** `IdGenerator::new`: the counter starts at 0. */
    constructor ()
      ensures Valid() && nextId == 0 && issued == []
    {
      nextId := 0;
      issued := [];
    }

    /** `Iterator::next`: always `Some` of the current counter, which then
        grows by one. */
    method Next() returns (r: Option<nat>)
      requires Valid()
      modifies this
      ensures Valid()
      ensures r == Some(old(nextId)) && nextId == old(nextId) + 1
      ensures issued == old(issued) + [r.value]
    {
      var v := nextId;
      nextId := nextId + 1;
      issued := issued + [v];
      r := Some(v);
    }
  }

  /** `generate_id`: `next().unwrap()` on the shared generator. The id is
      larger than every id handed out before and below the new counter. */
  method GenerateId(gen: IdGenerator) returns (id: nat)
    requires gen.Valid()
    modifies gen
    ensures gen.Valid()
    ensures id == old(gen.nextId) && gen.nextId == id + 1
    ensures forall k :: 0 <= k < |old(gen.issued)| ==> old(gen.issued)[k] < id
  {
    IssuedIncreasing(gen.nextId);
    var r := gen.Next();
    match r {
      case Some(v) => id := v;
    }
  }
}
