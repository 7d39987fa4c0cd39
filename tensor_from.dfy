/** The shaped constructors of `src/tensor_from.rs`.

    `From<Vec<T>>` checks the buffer length against the shape with
    `assert_eq!` and panics otherwise; `From<[..; D]>` flattens a nested fixed
    size array in row-major order with `concat`. Both end in
    `from_vec_unchecked`, which is not part of this model: its result is
    represented by the pair of shape and flat buffer. */
module TensorFrom {
  import opened Wrappers
  import opened Shapes

  /** A constructed tensor: its shape and its row-major buffer. */
  datatype Shaped = Shaped(shape: Shape, data: seq<int>)

  /** The buffer length each `From<Vec<T>>` implementation asserts. */
  function ExpectedLen(s: Shape): nat
  {
    match s
    case Rank0 => 0
    case Rank1(d1) => d1
    case Rank2(d1, d2) => d1 * d2
    case Rank3(d1, d2, d3) => d1 * d2 * d3
  }

  /** `Tensor::<T, S>::from(vec)`: panics (`None`) unless the length is the
      asserted one; otherwise the buffer is kept as it is. */
  function FromVec(s: Shape, value: seq<int>): (r: Option<Shaped>)
    ensures r.Some? <==> |value| == ExpectedLen(s)
    ensures r.Some? ==> r.value.shape == s && r.value.data == value
  {
    if |value| != ExpectedLen(s) then None else Some(Shaped(s, value))
  }

  /** For ranks 1 to 3 the asserted length is the element count of the shape. */
  lemma ExpectedLenIsElementCount(s: Shape)
    requires s.NumDims() >= 1
    ensures ExpectedLen(s) == s.NumElements()
  {
  }

  /** As written, the rank-0 constructor accepts only the empty buffer,
      although a rank-0 shape describes one element: a one-element buffer is
      rejected and an empty one accepted. */
  lemma Rank0AcceptsNoElement()
    ensures Rank0.NumElements() == 1
    ensures FromVec(Rank0, [7]) == None
    ensures FromVec(Rank0, []) == Some(Shaped(Rank0, []))
  {
  }

  /** The constructor with the rank-0 check corrected to the element count. */
  function FromVecByCount(s: Shape, value: seq<int>): (r: Option<Shaped>)
    ensures r.Some? ==> r.value.shape == s && r.value.data == value
  {
    if |value| != s.NumElements() then None else Some(Shaped(s, value))
  }

  /** The corrected constructor accepts exactly the buffers holding one element
      per index position of the shape, for every rank, and agrees with the
      original on ranks 1 to 3. */
  lemma FromVecByCountAcceptsElementCount(s: Shape, value: seq<int>)
    ensures FromVecByCount(s, value).Some? <==> |value| == s.NumElements()
    ensures s.NumDims() >= 1 ==> FromVecByCount(s, value) == FromVec(s, value)
    ensures s == Rank0 ==> (FromVecByCount(s, value).Some? <==> |value| == 1)
  {
  }

  /** `From<[T; D1]>`: the array's elements in order. */
  function FromArray1(xs: seq<int>): (r: Shaped)
    ensures r.shape == Rank1(|xs|) && r.data == xs
  {
    Shaped(Rank1(|xs|), xs)
  }

  /** `[[T]]::concat`: the rows one after another. */
  function Concat<X>(xss: seq<seq<X>>): seq<X>
  {
    if xss == [] then [] else xss[0] + Concat(xss[1..])
  }

  /** Every row has `w` elements, as in a fixed-size array `[[T; w]; _]`. */
  ghost predicate Uniform<X>(xss: seq<seq<X>>, w: nat)
  {
    forall i :: 0 <= i < |xss| ==> |xss[i]| == w
  }

  /** Every block has `h` rows of `w` elements: `[[[T; w]; h]; _]`. */
  ghost predicate Uniform3<X>(xsss: seq<seq<seq<X>>>, h: nat, w: nat)
  {
    Uniform(xsss, h) && forall i, j :: 0 <= i < |xsss| && 0 <= j < |xsss[i]| ==> |xsss[i][j]| == w
  }

  /** Concatenating `h` rows of `w` elements gives `h * w` elements. */
  lemma {:induction false} ConcatLength<X>(xss: seq<seq<X>>, w: nat)
    requires Uniform(xss, w)
    ensures |Concat(xss)| == |xss| * w
  {
    if xss != [] {
      var rest := xss[1..];
      assert Uniform(rest, w) by {
        forall i | 0 <= i < |rest| ensures |rest[i]| == w { assert rest[i] == xss[i + 1]; }
      }
      ConcatLength(rest, w);
      MulSucc(|rest|, w);
    }
  }

  /** Row `i`, column `j` of uniform rows of width `w` sits at `i * w + j`
      of their concatenation. */
  lemma {:induction false} ConcatAt<X>(xss: seq<seq<X>>, w: nat, i: nat, j: nat)
    requires Uniform(xss, w)
    requires i < |xss| && j < w
    ensures i * w + j < |Concat(xss)| && Concat(xss)[i * w + j] == xss[i][j]
  {
    var rest := xss[1..];
    assert Uniform(rest, w) by {
      forall p | 0 <= p < |rest| ensures |rest[p]| == w { assert rest[p] == xss[p + 1]; }
    }
    if i == 0 {
      assert Concat(xss) == xss[0] + Concat(rest);
    } else {
      ConcatAt(rest, w, i - 1, j);
      MulSucc(i - 1, w);
      assert rest[i - 1] == xss[i];
    }
  }

  lemma MulSucc(n: nat, w: nat)
    ensures (n + 1) * w == n * w + w
  {
  }

  /** Every element of a concatenation comes from one of the rows. */
  lemma {:induction false} ConcatMembers<X>(xss: seq<seq<X>>)
    ensures forall x :: x in Concat(xss) ==> exists i :: 0 <= i < |xss| && x in xss[i]
  {
    if xss != [] {
      ConcatMembers(xss[1..]);
      forall x | x in Concat(xss)
        ensures exists i :: 0 <= i < |xss| && x in xss[i]
      {
        if x !in xss[0] {
          assert x in Concat(xss[1..]);
          var i :| 0 <= i < |xss[1..]| && x in xss[1..][i];
          assert x in xss[i + 1];
        }
      }
    }
  }

  /** `From<[[T; D2]; D1]>`: `concat` of the rows, `D1 * D2` elements. */
  function FromArray2(rows: seq<seq<int>>, d2: nat): (r: Shaped)
    requires Uniform(rows, d2)
    ensures r.shape == Rank2(|rows|, d2) && |r.data| == |rows| * d2
  {
    ConcatLength(rows, d2);
    Shaped(Rank2(|rows|, d2), Concat(rows))
  }

  /** The two-dimensional array element `[i][j]` is at `i * D2 + j`. */
  lemma FromArray2At(rows: seq<seq<int>>, d2: nat, i: nat, j: nat)
    requires Uniform(rows, d2)
    requires i < |rows| && j < d2
    ensures i * d2 + j < |FromArray2(rows, d2).data|
    ensures FromArray2(rows, d2).data[i * d2 + j] == rows[i][j]
  {
    ConcatAt(rows, d2, i, j);
  }

  /** The rows of a concatenation of uniform blocks are the blocks' rows. */
  lemma ConcatOfBlocksIsUniform(blocks: seq<seq<seq<int>>>, d2: nat, d3: nat)
    requires Uniform3(blocks, d2, d3)
    ensures Uniform(Concat(blocks), d3)
  {
    var rows := Concat(blocks);
    ConcatMembers(blocks);
    forall p | 0 <= p < |rows| ensures |rows[p]| == d3 {
      assert rows[p] in rows;
      var i :| 0 <= i < |blocks| && rows[p] in blocks[i];
      var j :| 0 <= j < |blocks[i]| && blocks[i][j] == rows[p];
    }
  }

  /** Block `i`, row `j`, column `k` lands at `(i * d2 + j) * d3 + k`. */
  lemma Concat3At(blocks: seq<seq<seq<int>>>, d2: nat, d3: nat, i: nat, j: nat, k: nat)
    requires Uniform3(blocks, d2, d3)
    requires i < |blocks| && j < d2 && k < d3
    ensures var flat := Concat(Concat(blocks));
      (i * d2 + j) * d3 + k < |flat| && flat[(i * d2 + j) * d3 + k] == blocks[i][j][k]
  {
    var rows := Concat(blocks);
    ConcatAt(blocks, d2, i, j);
    ConcatOfBlocksIsUniform(blocks, d2, d3);
    ConcatLength(blocks, d2);
    ConcatAt(rows, d3, i * d2 + j, k);
  }

  /** `From<[[[T; D3]; D2]; D1]>`: `concat().concat()`, `D1 * D2 * D3` elements. */
  function FromArray3(blocks: seq<seq<seq<int>>>, d2: nat, d3: nat): (r: Shaped)
    requires Uniform3(blocks, d2, d3)
    ensures r.shape == Rank3(|blocks|, d2, d3) && |r.data| == |blocks| * d2 * d3
  {
    var rows := Concat(blocks);
    ConcatLength(blocks, d2);
    ConcatOfBlocksIsUniform(blocks, d2, d3);
    ConcatLength(rows, d3);
    Shaped(Rank3(|blocks|, d2, d3), Concat(rows))
  }

  /** The three-dimensional array element `[i][j][k]` is at `(i * D2 + j) * D3 + k`. */
  lemma FromArray3At(blocks: seq<seq<seq<int>>>, d2: nat, d3: nat, i: nat, j: nat, k: nat)
    requires Uniform3(blocks, d2, d3)
    requires i < |blocks| && j < d2 && k < d3
    ensures (i * d2 + j) * d3 + k < |FromArray3(blocks, d2, d3).data|
    ensures FromArray3(blocks, d2, d3).data[(i * d2 + j) * d3 + k] == blocks[i][j][k]
  {
    Concat3At(blocks, d2, d3, i, j, k);
  }

  /** The flattening of a three-dimensional array agrees with the rank-3
      strides: `[i][j][k]` sits at `i * (D2 * D3) + j * D3 + k`. */
  lemma FromArray3AgreesWithStrides(blocks: seq<seq<seq<int>>>, d2: nat, d3: nat, i: nat, j: nat, k: nat)
    requires Uniform3(blocks, d2, d3)
    requires i < |blocks| && j < d2 && k < d3
    ensures var r := FromArray3(blocks, d2, d3);
      Offset(r.shape, [i, j, k]) < |r.data| && r.data[Offset(r.shape, [i, j, k])] == blocks[i][j][k]
  {
    var r := FromArray3(blocks, d2, d3);
    FromArray3At(blocks, d2, d3, i, j, k);
    Rank3Offset(|blocks|, d2, d3, i, j, k);
  }

  /** The rank-3 stride offset of `[i, j, k]` is `(i * b + j) * c + k`. */
  lemma Rank3Offset(a: nat, b: nat, c: nat, i: nat, j: nat, k: nat)
    ensures Offset(Rank3(a, b, c), [i, j, k]) == (i * b + j) * c + k
  {
    var s := Rank3(a, b, c);
    assert s.Strides() == [b * c, c, 1];
    DotProductOfThree([i, j, k], s.Strides());
    Regroup(i, j, b, c);
  }

  lemma Regroup(i: nat, j: nat, b: nat, c: nat)
    ensures i * (b * c) + j * c == (i * b + j) * c
  {
    assert (i * b + j) * c == (i * b) * c + j * c;
    assert i * (b * c) == (i * b) * c;
  }
}
