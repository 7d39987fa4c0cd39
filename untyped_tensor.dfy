/** The untyped tensor graph of `src/tensor.rs`.

    A `Tensor` owns its data buffer, optionally the `Op` that produced it
    (which in turn owns its operand tensors), and an id drawn from the shared
    counter. Because operands are owned, a tensor is a finite tree, here a
    recursive datatype. Ids come from an `Ids.IdGenerator` passed to every
    operation that mints one, standing for the global `ID_GEN`. */
module UntypedTensor {
  import opened Wrappers
  import opened Vectors
  import opened Ids
  import opened OpCatalog

  datatype Tensor = Tensor(data: seq<int>, op: Option<Op<Tensor>>, id: nat)

  // ---------------------------------------------------------------------
  // Reference definitions over the tree
  // ---------------------------------------------------------------------

  /** The number of tensors in the tree. */
  function Size(t: Tensor): (r: nat)
    ensures r >= 1
  {
    match t.op
    case None => 1
    case Some(EB(_, a, b)) => 1 + Size(a) + Size(b)
    case Some(EU(_, a)) => 1 + Size(a)
    case Some(Sum(a)) => 1 + Size(a)
  }

  /** The ids of the tensor and of everything reachable through operands. */
  function AllIds(t: Tensor): set<nat>
  {
    match t.op
    case None => {t.id}
    case Some(EB(_, a, b)) => {t.id} + AllIds(a) + AllIds(b)
    case Some(EU(_, a)) => {t.id} + AllIds(a)
    case Some(Sum(a)) => {t.id} + AllIds(a)
  }

  /** The ids of a sequence of operands. */
  function SeqIds(ts: seq<Tensor>): set<nat>
  {
    if ts == [] then {} else SeqIds(ts[..|ts| - 1]) + AllIds(ts[|ts| - 1])
  }

  /** No two tensors of the tree share an id. */
  ghost predicate UniqueIds(t: Tensor)
  {
    match t.op
    case None => true
    case Some(EB(_, a, b)) =>
      t.id !in AllIds(a) && t.id !in AllIds(b) && AllIds(a) !! AllIds(b) && UniqueIds(a) && UniqueIds(b)
    case Some(EU(_, a)) => t.id !in AllIds(a) && UniqueIds(a)
    case Some(Sum(a)) => t.id !in AllIds(a) && UniqueIds(a)
  }

  /** The tree with every id forgotten: its data and operations only. */
  function Erase(t: Tensor): (r: Tensor)
    ensures r.id == 0 && r.data == t.data && r.op.Some? == t.op.Some?
  {
    match t.op
    case None => Tensor(t.data, None, 0)
    case Some(EB(eb, a, b)) => Tensor(t.data, Some(EB(eb, Erase(a), Erase(b))), 0)
    case Some(EU(eu, a)) => Tensor(t.data, Some(EU(eu, Erase(a))), 0)
    case Some(Sum(a)) => Tensor(t.data, Some(Sum(Erase(a))), 0)
  }

  /** Each operand is a strictly smaller tree than the tensor it produced. */
  lemma OperandsAreSmaller(t: Tensor)
    requires t.op.Some?
    ensures forall k :: 0 <= k < |Iter(t.op.value)| ==> Size(Iter(t.op.value)[k]) < Size(t)
  {
  }

  /** The operands' ids, gathered one operand after the other, are the
      reachable ids below the tensor. */
  lemma OperandIds(t: Tensor)
    requires t.op.Some?
    ensures AllIds(t) == {t.id} + SeqIds(Iter(t.op.value))
  {
    var ops := Iter(t.op.value);
    assert ops[..|ops| - 1][..0] == [];
    if |ops| == 2 {
      assert SeqIds(ops[..1]) == AllIds(ops[0]);
      assert SeqIds(ops) == AllIds(ops[0]) + AllIds(ops[1]);
    } else {
      assert SeqIds(ops) == AllIds(ops[0]);
    }
  }

  // ---------------------------------------------------------------------
  // Construction
  // ---------------------------------------------------------------------

  /** `Tensor::new`: the buffer, no op, the next id. */
  method New(data: seq<int>, gen: IdGenerator) returns (t: Tensor)
    requires gen.Valid()
    modifies gen
    ensures gen.Valid() && gen.nextId == old(gen.nextId) + 1
    ensures t == Tensor(data, None, old(gen.nextId))
    ensures forall k :: 0 <= k < |old(gen.issued)| ==> old(gen.issued)[k] < t.id
  {
    var id := GenerateId(gen);
    t := Tensor(data, None, id);
  }

  /** `Tensor::new_with_op`: the buffer, the op that produced it, the next id. */
  method NewWithOp(data: seq<int>, op: Op<Tensor>, gen: IdGenerator) returns (t: Tensor)
    requires gen.Valid()
    modifies gen
    ensures gen.Valid() && gen.nextId == old(gen.nextId) + 1
    ensures t == Tensor(data, Some(op), old(gen.nextId))
    ensures forall k :: 0 <= k < |old(gen.issued)| ==> old(gen.issued)[k] < t.id
  {
    var id := GenerateId(gen);
    t := Tensor(data, Some(op), id);
  }

  /** `Clone for Tensor`. The data buffer is shared, the op is cloned with the
      derived `Clone`, which clones each operand tensor in turn, and then the
      clone takes the next id. So every tensor of the tree gets a fresh id,
      operands before the tensor they produce: the clone is the same graph,
      its ids are exactly the `Size(t)` ids handed out meanwhile, pairwise
      distinct, and its own id is the largest of them. */
  method Clone(t: Tensor, gen: IdGenerator) returns (c: Tensor)
    requires gen.Valid()
    modifies gen
    decreases t
    ensures gen.Valid() && gen.nextId == old(gen.nextId) + Size(t)
    ensures Erase(c) == Erase(t)
    ensures forall x :: x in AllIds(c) ==> old(gen.nextId) <= x < gen.nextId
    ensures c.id == gen.nextId - 1
    ensures UniqueIds(c)
  {
    var op: Option<Op<Tensor>> := None;
    match t.op {
      case None =>
      case Some(EB(eb, a, b)) =>
        var a' := Clone(a, gen);
        var b' := Clone(b, gen);
        op := Some(EB(eb, a', b'));
      case Some(EU(eu, a)) =>
        var a' := Clone(a, gen);
        op := Some(EU(eu, a'));
      case Some(Sum(a)) =>
        var a' := Clone(a, gen);
        op := Some(Sum(a'));
    }
    var id := GenerateId(gen);
    c := Tensor(t.data, op, id);
  }

  // ---------------------------------------------------------------------
  // Walking the graph
  // ---------------------------------------------------------------------

  /** The tensor and every tensor reachable from it through operands. */
  function Subtrees(t: Tensor): (r: set<Tensor>)
    ensures t in r
  {
    match t.op
    case None => {t}
    case Some(EB(_, a, b)) => {t} + Subtrees(a) + Subtrees(b)
    case Some(EU(_, a)) => {t} + Subtrees(a)
    case Some(Sum(a)) => {t} + Subtrees(a)
  }

  lemma OperandSubtrees(t: Tensor)
    requires t.op.Some?
    ensures forall k :: 0 <= k < |Iter(t.op.value)| ==> Subtrees(Iter(t.op.value)[k]) <= Subtrees(t)
  {
  }

  /** A reachable tensor's own reachable ids are reachable from the root. */
  lemma {:induction false} SubtreeIds(t: Tensor, q: Tensor)
    requires q in Subtrees(t)
    ensures AllIds(q) <= AllIds(t)
  {
    if q != t {
      match t.op
      case Some(EB(_, a, b)) =>
        if q in Subtrees(a) { SubtreeIds(a, q); } else { SubtreeIds(b, q); }
      case Some(EU(_, a)) => SubtreeIds(a, q);
      case Some(Sum(a)) => SubtreeIds(a, q);
    }
  }

  /** A reachable tensor of a tree with distinct ids has distinct ids. */
  lemma {:induction false} SubtreeUnique(t: Tensor, q: Tensor)
    requires UniqueIds(t) && q in Subtrees(t)
    ensures UniqueIds(q)
  {
    if q != t {
      match t.op
      case Some(EB(_, a, b)) =>
        if q in Subtrees(a) { SubtreeUnique(a, q); } else { SubtreeUnique(b, q); }
      case Some(EU(_, a)) => SubtreeUnique(a, q);
      case Some(Sum(a)) => SubtreeUnique(a, q);
    }
  }

  /** `_id_to_tensor_ref_helper`: record the tensor under its id, then walk the
      operands in order, threading the map through. Afterwards every
      reachable id is a key and maps to a reachable tensor carrying that id;
      keys that were there before and are not reachable keep their entry. */
  method IdToTensorRefHelper(t: Tensor, hm: map<nat, Tensor>) returns (r: map<nat, Tensor>)
    decreases Size(t)
    ensures r.Keys == hm.Keys + AllIds(t)
    ensures forall x :: x in r && x !in AllIds(t) ==> r[x] == hm[x]
    ensures forall x :: x in AllIds(t) ==> r[x].id == x && r[x] in Subtrees(t)
  {
    r := hm[t.id := t];
    if t.op.Some? {
      var ops := Iter(t.op.value);
      OperandsAreSmaller(t);
      OperandSubtrees(t);
      ghost var seen := {t.id};
      for k := 0 to |ops|
        invariant seen == {t.id} + SeqIds(ops[..k])
        invariant r.Keys == hm.Keys + seen
        invariant forall x :: x in r && x !in seen ==> r[x] == hm[x]
        invariant forall x :: x in seen ==> r[x].id == x && r[x] in Subtrees(t)
      {
        SeqIdsStep(ops, k);
        assert Subtrees(ops[k]) <= Subtrees(t);
        r := IdToTensorRefHelper(ops[k], r);
        seen := seen + AllIds(ops[k]);
      }
      assert ops[..|ops|] == ops;
      OperandIds(t);
    }
  }

  /** Gathering ids one operand further adds that operand's ids. */
  lemma SeqIdsStep(ts: seq<Tensor>, k: nat)
    requires k < |ts|
    ensures SeqIds(ts[..k + 1]) == SeqIds(ts[..k]) + AllIds(ts[k])
  {
    assert ts[..k + 1][..k] == ts[..k];
  }

  /** `id_to_tensor_ref`: the map of every reachable id to a tensor with that id. */
  method IdToTensorRef(t: Tensor) returns (r: map<nat, Tensor>)
    ensures r.Keys == AllIds(t)
    ensures forall x :: x in r ==> r[x].id == x && r[x] in Subtrees(t)
  {
    r := IdToTensorRefHelper(t, map[]);
  }

  /** The greatest depth at which a tensor with id `x` is reached when `t`
      sits at depth `depth`, and -1 when none is. */
  function Deepest(t: Tensor, x: nat, depth: nat): (r: int)
    ensures r >= -1
    ensures r >= 0 <==> x in AllIds(t)
    ensures r >= 0 ==> r >= depth
  {
    var here := if t.id == x then depth else -1;
    match t.op
    case None => here
    case Some(EB(_, a, b)) => Max(here, Max(Deepest(a, x, depth + 1), Deepest(b, x, depth + 1)))
    case Some(EU(_, a)) => Max(here, Deepest(a, x, depth + 1))
    case Some(Sum(a)) => Max(here, Deepest(a, x, depth + 1))
  }

  /** The greatest of `Deepest` over a sequence of operands, -1 for none. */
  function SeqDeepest(ts: seq<Tensor>, x: nat, depth: nat): (r: int)
    ensures r >= -1
    ensures r >= 0 <==> x in SeqIds(ts)
  {
    if ts == [] then -1 else Max(SeqDeepest(ts[..|ts| - 1], x, depth), Deepest(ts[|ts| - 1], x, depth))
  }

  /** `Deepest`, taken operand after operand as the walk does. */
  lemma DeepestByOperands(t: Tensor, x: nat, depth: nat)
    requires t.op.Some?
    ensures Deepest(t, x, depth) == Max(Here(t, x, depth), SeqDeepest(Iter(t.op.value), x, depth + 1))
  {
    var ops := Iter(t.op.value);
    assert ops[..|ops| - 1][..0] == [];
    if |ops| == 2 {
      assert SeqDeepest(ops[..1], x, depth + 1) == Deepest(ops[0], x, depth + 1);
    }
  }

  /** The depth at which `t` itself is reached, if its id is `x`. */
  function Here(t: Tensor, x: nat, depth: nat): int
  {
    if t.id == x then depth else -1
  }

  /** The value an absent key reads as. */
  function Get(hm: map<nat, nat>, x: nat): int
  {
    if x in hm then hm[x] else -1
  }

  /** `hm.entry(id).and_modify(|v| *v = (*v).max(depth)).or_insert(depth)`:
      the entry becomes the larger of its old value and `depth`. */
  function RaiseEntry(hm: map<nat, nat>, id: nat, depth: nat): (r: map<nat, nat>)
    ensures r.Keys == hm.Keys + {id}
    ensures forall x :: Get(r, x) == Max(Get(hm, x), if x == id then depth else -1)
  {
    if id in hm then hm[id := if hm[id] >= depth then hm[id] else depth] else hm[id := depth]
  }

  /** `_traversal_ordering_helper`: raise the tensor's entry to `depth` (or
      insert it), then walk the operands one level deeper. Afterwards every
      key holds the larger of its previous value and the greatest depth at
      which the walk reached it. */
  method TraversalOrderingHelper(t: Tensor, hm: map<nat, nat>, depth: nat) returns (r: map<nat, nat>)
    decreases Size(t)
    ensures r.Keys == hm.Keys + AllIds(t)
    ensures forall x :: Get(r, x) == Max(Get(hm, x), Deepest(t, x, depth))
  {
    r := RaiseEntry(hm, t.id, depth);
    if t.op.None? {
      forall x ensures Get(r, x) == Max(Get(hm, x), Deepest(t, x, depth)) {
        assert Deepest(t, x, depth) == Here(t, x, depth);
      }
    } else {
      var ops := Iter(t.op.value);
      OperandsAreSmaller(t);
      for k := 0 to |ops|
        invariant r.Keys == hm.Keys + {t.id} + SeqIds(ops[..k])
        invariant forall x :: Get(r, x) == Max(Get(hm, x), Max(Here(t, x, depth), SeqDeepest(ops[..k], x, depth + 1)))
      {
        assert ops[..k + 1][..k] == ops[..k];
        ghost var before := r;
        r := TraversalOrderingHelper(ops[k], r, depth + 1);
        OrderingStep(hm, before, r, t, ops, k, depth);
      }
      assert ops[..|ops|] == ops;
      OperandIds(t);
      OrderingComplete(hm, r, t, depth);
    }
  }

  /** One more operand walked: its depths join the running maximum. */
  lemma OrderingStep(hm: map<nat, nat>, before: map<nat, nat>, after: map<nat, nat>,
                     t: Tensor, ops: seq<Tensor>, k: nat, depth: nat)
    requires k < |ops|
    requires forall x :: Get(before, x) == Max(Get(hm, x), Max(Here(t, x, depth), SeqDeepest(ops[..k], x, depth + 1)))
    requires forall x :: Get(after, x) == Max(Get(before, x), Deepest(ops[k], x, depth + 1))
    ensures forall x :: Get(after, x) == Max(Get(hm, x), Max(Here(t, x, depth), SeqDeepest(ops[..k + 1], x, depth + 1)))
  {
    forall x
      ensures Get(after, x) == Max(Get(hm, x), Max(Here(t, x, depth), SeqDeepest(ops[..k + 1], x, depth + 1)))
    {
      assert ops[..k + 1][..k] == ops[..k];
      assert SeqDeepest(ops[..k + 1], x, depth + 1) == Max(SeqDeepest(ops[..k], x, depth + 1), Deepest(ops[k], x, depth + 1));
    }
  }

  /** All operands walked: the running maximum is `Deepest` of the tensor. */
  lemma OrderingComplete(hm: map<nat, nat>, r: map<nat, nat>, t: Tensor, depth: nat)
    requires t.op.Some?
    requires forall x :: Get(r, x) == Max(Get(hm, x), Max(Here(t, x, depth), SeqDeepest(Iter(t.op.value), x, depth + 1)))
    ensures forall x :: Get(r, x) == Max(Get(hm, x), Deepest(t, x, depth))
  {
    forall x
      ensures Get(r, x) == Max(Get(hm, x), Deepest(t, x, depth))
    {
      DeepestByOperands(t, x, depth);
    }
  }

  /** `traversal_ordering`: every reachable id, mapped to the greatest depth at
      which it is reached from the root. */
  method TraversalOrdering(t: Tensor) returns (r: map<nat, nat>)
    ensures r.Keys == AllIds(t)
    ensures forall x :: x in r ==> r[x] == Deepest(t, x, 0)
  {
    r := TraversalOrderingHelper(t, map[], 0);
    assert forall x :: x in r ==> Get(r, x) == r[x];
  }

  /** With distinct ids, the root is reached only at its own depth. */
  lemma {:induction false} RootAtItsDepth(t: Tensor, depth: nat)
    requires UniqueIds(t)
    ensures Deepest(t, t.id, depth) == depth
  {
  }

  /** With distinct ids, each operand of a reachable tensor is reached exactly
      one level deeper than that tensor. */
  lemma {:induction false} OperandOneDeeper(t: Tensor, q: Tensor, c: Tensor, depth: nat)
    requires UniqueIds(t) && q in Subtrees(t)
    requires q.op.Some? && c in Iter(q.op.value)
    ensures Deepest(t, c.id, depth) == Deepest(t, q.id, depth) + 1
  {
    if q == t {
      RootAtItsDepth(t, depth);
      SubtreeUnique(t, c);
      RootAtItsDepth(c, depth + 1);
    } else {
      match t.op
      case Some(EB(_, a, b)) =>
        if q in Subtrees(a) {
          OperandOneDeeper(a, q, c, depth + 1);
          LiftThroughOperand(t, a, q, c, depth);
        } else {
          OperandOneDeeper(b, q, c, depth + 1);
          LiftThroughOperand(t, b, q, c, depth);
        }
      case Some(EU(_, a)) =>
        OperandOneDeeper(a, q, c, depth + 1);
        LiftThroughOperand(t, a, q, c, depth);
      case Some(Sum(a)) =>
        OperandOneDeeper(a, q, c, depth + 1);
        LiftThroughOperand(t, a, q, c, depth);
    }
  }

  /** A step of `OperandOneDeeper` proved for the operand `a` holds for `t`. */
  lemma LiftThroughOperand(t: Tensor, a: Tensor, q: Tensor, c: Tensor, depth: nat)
    requires UniqueIds(t) && t.op.Some? && a in Iter(t.op.value) && q in Subtrees(a)
    requires q.op.Some? && c in Iter(q.op.value)
    requires Deepest(a, c.id, depth + 1) == Deepest(a, q.id, depth + 1) + 1
    ensures Deepest(t, c.id, depth) == Deepest(t, q.id, depth) + 1
  {
    OperandIsReachable(q, c);
    SubtreeIds(a, q);
    DeepestThroughOperand(t, a, c.id, depth);
    DeepestThroughOperand(t, a, q.id, depth);
  }

  /** With distinct ids, an id reachable through one operand is reached only
      through that operand. */
  lemma DeepestThroughOperand(t: Tensor, a: Tensor, x: nat, depth: nat)
    requires UniqueIds(t) && t.op.Some? && a in Iter(t.op.value) && x in AllIds(a)
    ensures Deepest(t, x, depth) == Deepest(a, x, depth + 1)
  {
    match t.op.value
    case EB(_, l, r) =>
      if a == l {
        assert x !in AllIds(r);
      } else {
        assert x !in AllIds(l);
      }
    case EU(_, l) =>
    case Sum(l) =>
  }

  lemma OperandIsReachable(q: Tensor, c: Tensor)
    requires q.op.Some? && c in Iter(q.op.value)
    ensures c in Subtrees(q) && c.id in AllIds(q)
  {
    SubtreeIds(q, c);
  }

  // ---------------------------------------------------------------------
  // The gradient entry point
  // ---------------------------------------------------------------------

  /** An `(id, depth)` list is ordered by depth, shallowest first. */
  predicate SortedByDepth(v: seq<(nat, nat)>)
  {
    forall i, j :: 0 <= i < j < |v| ==> v[i].1 <= v[j].1
  }

  /** Insert after every entry that is not deeper, which keeps entries of
      equal depth in their order (`sort_by` is stable). */
  function InsertByDepth(p: (nat, nat), v: seq<(nat, nat)>): seq<(nat, nat)>
  {
    if v == [] || p.1 < v[0].1 then [p] + v else [v[0]] + InsertByDepth(p, v[1..])
  }

  /** `sort_by(|a, b| a.1.cmp(b.1))`: a stable sort by depth. */
  function SortByDepth(v: seq<(nat, nat)>): seq<(nat, nat)>
  {
    if v == [] then [] else InsertByDepth(v[|v| - 1], SortByDepth(v[..|v| - 1]))
  }

  lemma {:induction false} InsertByDepthSorts(p: (nat, nat), v: seq<(nat, nat)>)
    requires SortedByDepth(v)
    ensures SortedByDepth(InsertByDepth(p, v))
    ensures multiset(InsertByDepth(p, v)) == multiset(v) + multiset{p}
  {
    if v != [] && p.1 >= v[0].1 {
      var rest := v[1..];
      InsertByDepthSorts(p, rest);
      InsertKeepsLowerBound(p, rest, v[0].1);
      assert v == [v[0]] + rest;
    }
  }

  /** Inserting an entry no shallower than `lo` among entries no shallower
      than `lo` gives entries no shallower than `lo`. */
  lemma {:induction false} InsertKeepsLowerBound(p: (nat, nat), v: seq<(nat, nat)>, lo: nat)
    requires lo <= p.1
    requires forall k :: 0 <= k < |v| ==> lo <= v[k].1
    ensures forall k :: 0 <= k < |InsertByDepth(p, v)| ==> lo <= InsertByDepth(p, v)[k].1
  {
    if v != [] && p.1 >= v[0].1 {
      InsertKeepsLowerBound(p, v[1..], lo);
    }
  }

  /** The sorted list is ordered by depth and holds the same entries. */
  lemma {:induction false} SortByDepthSorts(v: seq<(nat, nat)>)
    ensures SortedByDepth(SortByDepth(v))
    ensures multiset(SortByDepth(v)) == multiset(v)
  {
    if v != [] {
      var n := |v| - 1;
      SortByDepthSorts(v[..n]);
      InsertByDepthSorts(v[n], SortByDepth(v[..n]));
      assert v == v[..n] + [v[n]];
    }
  }

  /** `ordering_map.iter().collect()`: every entry of the map once, in an
      order the map does not fix. */
  method Entries(m: map<nat, nat>) returns (v: seq<(nat, nat)>)
    ensures forall i :: 0 <= i < |v| ==> v[i].0 in m && m[v[i].0] == v[i].1
    ensures forall x :: x in m ==> exists i :: 0 <= i < |v| && v[i].0 == x
    ensures forall i, j :: 0 <= i < j < |v| ==> v[i].0 != v[j].0
  {
    v := [];
    var rest := m.Keys;
    while rest != {}
      invariant rest <= m.Keys
      invariant forall i :: 0 <= i < |v| ==> v[i].0 in m && v[i].0 !in rest && m[v[i].0] == v[i].1
      invariant forall x :: x in m && x !in rest ==> exists i :: 0 <= i < |v| && v[i].0 == x
      invariant forall i, j :: 0 <= i < j < |v| ==> v[i].0 != v[j].0
      decreases rest
    {
      var x :| x in rest;
      ghost var before := v;
      v := v + [(x, m[x])];
      rest := rest - {x};
      forall y | y in m && y !in rest
        ensures exists i :: 0 <= i < |v| && v[i].0 == y
      {
        if y == x {
          assert v[|v| - 1].0 == y;
        } else {
          var i :| 0 <= i < |before| && before[i].0 == y;
          assert v[i].0 == y;
        }
      }
    }
  }

  /** Sorting keeps every entry's id a key of the map. */
  lemma SortedEntriesAreKeys(v: seq<(nat, nat)>, m: map<nat, nat>)
    requires forall i :: 0 <= i < |v| ==> v[i].0 in m
    ensures forall i :: 0 <= i < |SortByDepth(v)| ==> SortByDepth(v)[i].0 in m
  {
    SortByDepthSorts(v);
    forall i | 0 <= i < |SortByDepth(v)| ensures SortByDepth(v)[i].0 in m {
      assert SortByDepth(v)[i] in multiset(v);
    }
  }

  /** `.map(|v| *id_to_tensor_ref.get(v.0).unwrap()).collect()`: the tensor
      recorded for each id, in order; every id is a key, so no `unwrap` fails. */
  method LookUp(ordering: seq<(nat, nat)>, refs: map<nat, Tensor>) returns (ts: seq<Tensor>)
    requires forall i :: 0 <= i < |ordering| ==> ordering[i].0 in refs
    ensures |ts| == |ordering|
    ensures forall i :: 0 <= i < |ts| ==> ts[i] == refs[ordering[i].0]
  {
    ts := [];
    for i := 0 to |ordering|
      invariant |ts| == i
      invariant forall j :: 0 <= j < i ==> ts[j] == refs[ordering[j].0]
    {
      ts := ts + [refs[ordering[i].0]];
    }
  }

  /** `_propogate_grad`: hands the gradient map back as it received it. */
  function PropagateGrad(t: Tensor, grads: map<nat, seq<int>>): map<nat, seq<int>>
  {
    grads
  }

  /** `grad`: panics (`None`) unless the tensor holds exactly one element.
      Otherwise it orders the reachable tensors by depth, looks each up by id
      (the lookup never fails, since both maps have the reachable ids as
      keys), seeds the tensor's own gradient with `[1]` and passes the map
      through every tensor. Since passing leaves the map as it is, the result
      is the seed alone. */
  method Grad(t: Tensor) returns (r: Option<map<nat, seq<int>>>)
    ensures r.Some? <==> |t.data| == 1
    ensures r.Some? ==> r.value == map[t.id := [1]]
  {
    if |t.data| != 1 {
      return None;
    }
    var idToTensorRef := IdToTensorRef(t);
    var orderingMap := TraversalOrdering(t);
    var entries := Entries(orderingMap);
    var orderingVec := SortByDepth(entries);
    SortedEntriesAreKeys(entries, orderingMap);
    var tVec := LookUp(orderingVec, idToTensorRef);

    var grads := map[t.id := [1]];
    for i := 0 to |tVec|
      invariant grads == map[t.id := [1]]
    {
      grads := PropagateGrad(tVec[i], grads);
    }
    r := Some(grads);
  }

  // ---------------------------------------------------------------------
  // Element-wise operations and the sum
  // ---------------------------------------------------------------------

  /** `zip` of the two buffers mapped through `eb._f`. */
  function BinaryData(eb: ElementwiseBinary, a: seq<int>, b: seq<int>): (r: seq<int>)
    requires eb.Div? ==> NonZeroDivisors(a, b)
    ensures |r| == Min(|a|, |b|)
    ensures forall i :: 0 <= i < |r| ==> r[i] == BinaryF(eb, a[i], b[i])
  {
    ElBin((x, y) requires eb.Div? ==> y != 0 => BinaryF(eb, x, y), a, b)
  }

  /** The old graph's element-wise arithmetic agrees with the buffer kernels. */
  lemma BinaryDataIsKernel(a: seq<int>, b: seq<int>)
    ensures BinaryData(Add, a, b) == ElAdd(a, b)
    ensures BinaryData(Sub, a, b) == ElSub(a, b)
    ensures BinaryData(Mul, a, b) == ElMul(a, b)
    ensures NonZeroDivisors(a, b) ==> BinaryData(Div, a, b) == ElDiv(a, b)
  {
  }

  /** `self.iter().map(|a| eu._f(a))`. */
  function UnaryData(eu: ElementwiseUnary, a: seq<int>): (r: seq<int>)
    ensures |r| == |a|
    ensures forall i :: 0 <= i < |r| ==> r[i] == UnaryF(eu, a[i])
  {
    ElUnary(x => UnaryF(eu, x), a)
  }

  /** ReLU over a buffer is the kernel `el_relu`, so applying it twice is
      applying it once. */
  lemma UnaryDataIsRelu(a: seq<int>)
    ensures UnaryData(Relu, a) == ElRelu(a)
    ensures UnaryData(Relu, UnaryData(Relu, a)) == UnaryData(Relu, a)
  {
  }

  /** Every id of the tree is below `n`: it was handed out before the
      counter reached `n`. */
  ghost predicate IdsBelow(t: Tensor, n: nat)
  {
    forall x :: x in AllIds(t) ==> x < n
  }

  /** `elementwise_binary_op`: panics (`None`, no id drawn) unless the two
      buffers have equal length; otherwise a new tensor holding `eb._f` of
      each pair, recording `EB(eb, self, other)`, with the next id. Built from
      operands with distinct ids below the counter, it has distinct ids. */
  method ElementwiseBinaryOp(a: Tensor, eb: ElementwiseBinary, b: Tensor, gen: IdGenerator) returns (r: Option<Tensor>)
    requires gen.Valid()
    requires eb.Div? ==> NonZeroDivisors(a.data, b.data)
    modifies gen
    ensures gen.Valid()
    ensures r.Some? <==> |a.data| == |b.data|
    ensures r.None? ==> gen.nextId == old(gen.nextId)
    ensures r.Some? ==> gen.nextId == old(gen.nextId) + 1
    ensures r.Some? ==> r.value == Tensor(BinaryData(eb, a.data, b.data), Some(EB(eb, a, b)), old(gen.nextId))
    ensures r.Some? && UniqueIds(a) && UniqueIds(b) && AllIds(a) !! AllIds(b)
              && IdsBelow(a, old(gen.nextId)) && IdsBelow(b, old(gen.nextId))
            ==> UniqueIds(r.value) && IdsBelow(r.value, gen.nextId)
  {
    if |a.data| != |b.data| {
      return None;
    }
    var t := NewWithOp(BinaryData(eb, a.data, b.data), EB(eb, a, b), gen);
    r := Some(t);
  }

  /** `elementwise_unary_op`: a new tensor holding `eu._f` of each element,
      recording `EU(eu, self)`, with the next id. */
  method ElementwiseUnaryOp(a: Tensor, eu: ElementwiseUnary, gen: IdGenerator) returns (r: Tensor)
    requires gen.Valid()
    modifies gen
    ensures gen.Valid() && gen.nextId == old(gen.nextId) + 1
    ensures r == Tensor(UnaryData(eu, a.data), Some(EU(eu, a)), old(gen.nextId))
    ensures UniqueIds(a) && IdsBelow(a, old(gen.nextId)) ==> UniqueIds(r) && IdsBelow(r, gen.nextId)
  {
    r := NewWithOp(UnaryData(eu, a.data), EU(eu, a), gen);
  }

  /** `relu`: the unary operation with `Relu`; every element is non-negative. */
  method TensorRelu(a: Tensor, gen: IdGenerator) returns (r: Tensor)
    requires gen.Valid()
    modifies gen
    ensures gen.Valid() && gen.nextId == old(gen.nextId) + 1
    ensures r == Tensor(ElRelu(a.data), Some(EU(Relu, a)), old(gen.nextId))
    ensures forall i :: 0 <= i < |r.data| ==> r.data[i] >= 0
  {
    UnaryDataIsRelu(a.data);
    r := ElementwiseUnaryOp(a, Relu, gen);
  }

  /** `sum`: a one-element tensor holding the fold-sum of the data,
      recording `Sum(self)`, with the next id. */
  method TensorSum(a: Tensor, gen: IdGenerator) returns (r: Tensor)
    requires gen.Valid()
    modifies gen
    ensures gen.Valid() && gen.nextId == old(gen.nextId) + 1
    ensures r == Tensor([SumAll(a.data)], Some(Sum(a)), old(gen.nextId))
    ensures UniqueIds(a) && IdsBelow(a, old(gen.nextId)) ==> UniqueIds(r) && IdsBelow(r, gen.nextId)
  {
    r := NewWithOp([SumAll(a.data)], Sum(a), gen);
  }

  /** `impl Add for Tensor`: `elementwise_binary_op` with `Add`. */
  method TensorAdd(a: Tensor, b: Tensor, gen: IdGenerator) returns (r: Option<Tensor>)
    requires gen.Valid()
    modifies gen
    ensures gen.Valid()
    ensures r.Some? <==> |a.data| == |b.data|
    ensures r.None? ==> gen.nextId == old(gen.nextId)
    ensures r.Some? ==> gen.nextId == old(gen.nextId) + 1
    ensures r.Some? ==> r.value == Tensor(ElAdd(a.data, b.data), Some(EB(Add, a, b)), old(gen.nextId))
    ensures r.Some? && UniqueIds(a) && UniqueIds(b) && AllIds(a) !! AllIds(b)
              && IdsBelow(a, old(gen.nextId)) && IdsBelow(b, old(gen.nextId))
            ==> UniqueIds(r.value) && IdsBelow(r.value, gen.nextId)
  {
    BinaryDataIsKernel(a.data, b.data);
    r := ElementwiseBinaryOp(a, Add, b, gen);
  }

  /** `impl Sub for Tensor`: `elementwise_binary_op` with `Sub`. */
  method TensorSub(a: Tensor, b: Tensor, gen: IdGenerator) returns (r: Option<Tensor>)
    requires gen.Valid()
    modifies gen
    ensures gen.Valid()
    ensures r.Some? <==> |a.data| == |b.data|
    ensures r.None? ==> gen.nextId == old(gen.nextId)
    ensures r.Some? ==> gen.nextId == old(gen.nextId) + 1
    ensures r.Some? ==> r.value == Tensor(ElSub(a.data, b.data), Some(EB(Sub, a, b)), old(gen.nextId))
    ensures r.Some? && UniqueIds(a) && UniqueIds(b) && AllIds(a) !! AllIds(b)
              && IdsBelow(a, old(gen.nextId)) && IdsBelow(b, old(gen.nextId))
            ==> UniqueIds(r.value) && IdsBelow(r.value, gen.nextId)
  {
    BinaryDataIsKernel(a.data, b.data);
    r := ElementwiseBinaryOp(a, Sub, b, gen);
  }

  /** `impl Mul for Tensor`: `elementwise_binary_op` with `Mul`. */
  method TensorMul(a: Tensor, b: Tensor, gen: IdGenerator) returns (r: Option<Tensor>)
    requires gen.Valid()
    modifies gen
    ensures gen.Valid()
    ensures r.Some? <==> |a.data| == |b.data|
    ensures r.None? ==> gen.nextId == old(gen.nextId)
    ensures r.Some? ==> gen.nextId == old(gen.nextId) + 1
    ensures r.Some? ==> r.value == Tensor(ElMul(a.data, b.data), Some(EB(Mul, a, b)), old(gen.nextId))
    ensures r.Some? && UniqueIds(a) && UniqueIds(b) && AllIds(a) !! AllIds(b)
              && IdsBelow(a, old(gen.nextId)) && IdsBelow(b, old(gen.nextId))
            ==> UniqueIds(r.value) && IdsBelow(r.value, gen.nextId)
  {
    BinaryDataIsKernel(a.data, b.data);
    r := ElementwiseBinaryOp(a, Mul, b, gen);
  }

  /** `impl Div for Tensor`: `elementwise_binary_op` with `Div`; a zero
      divisor would make Rust's integer division panic. */
  method TensorDiv(a: Tensor, b: Tensor, gen: IdGenerator) returns (r: Option<Tensor>)
    requires gen.Valid()
    requires NonZeroDivisors(a.data, b.data)
    modifies gen
    ensures gen.Valid()
    ensures r.Some? <==> |a.data| == |b.data|
    ensures r.None? ==> gen.nextId == old(gen.nextId)
    ensures r.Some? ==> gen.nextId == old(gen.nextId) + 1
    ensures r.Some? ==> r.value == Tensor(ElDiv(a.data, b.data), Some(EB(Div, a, b)), old(gen.nextId))
    ensures r.Some? && UniqueIds(a) && UniqueIds(b) && AllIds(a) !! AllIds(b)
              && IdsBelow(a, old(gen.nextId)) && IdsBelow(b, old(gen.nextId))
            ==> UniqueIds(r.value) && IdsBelow(r.value, gen.nextId)
  {
    BinaryDataIsKernel(a.data, b.data);
    r := ElementwiseBinaryOp(a, Div, b, gen);
  }
}
