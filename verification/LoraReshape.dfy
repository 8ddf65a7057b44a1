/** `reshape`: new leading dimensions, the row size kept. */
module LoraReshape {
  import opened Text
  import opened Tensors
  import opened Lora

  // ---- The dense product in row-major order ----

  /** Entry `k` of the product, from the flat data of B and of an A without leading dimensions. */
  function FlatTerm(A: seq<int>, B: seq<int>, rank: nat, row: nat, q: nat, c: nat, r: nat): int
    requires q * rank + r < |B| && r * row + c < |A|
  {
    B[q * rank + r] * A[r * row + c]
  }

  lemma {:induction false} UnitFlat(shape: seq<nat>, idx: seq<nat>)
    requires InBounds(shape, idx) && forall i :: 0 <= i < |shape| ==> shape[i] == 1
    ensures Prod(shape) == 1 && Flat(shape, idx) == 0
    decreases |shape|
  {
    if shape != [] { UnitFlat(shape[..|shape| - 1], idx[..|idx| - 1]); }
  }

  lemma FlatSnoc(shape: seq<nat>, idx: seq<nat>)
    requires InBounds(shape, idx) && shape != []
    ensures InBounds(shape[..|shape| - 1], idx[..|shape| - 1])
    ensures Flat(shape, idx) == Flat(shape[..|shape| - 1], idx[..|shape| - 1]) * shape[|shape| - 1] + idx[|shape| - 1]
  {
  }

  /** Where a unit A is read: row `r`, column `c` of its only matrix. */
  lemma FlatA(shape: seq<nat>, idx: seq<nat>, r: nat)
    requires |shape| == |idx| >= 2 && (forall i :: 0 <= i < |shape| - 2 ==> shape[i] == 1)
    requires InBounds(shape, IndexA(shape, idx, r))
    ensures Flat(shape, IndexA(shape, idx, r)) == r * shape[|shape| - 1] + idx[|idx| - 1]
  {
    var n, a := |shape|, IndexA(shape, idx, r);
    FlatSnoc(shape, a);
    FlatRow(shape[..n - 1], a[..n - 1]);
  }

  lemma FlatRow(shape: seq<nat>, idx: seq<nat>)
    requires InBounds(shape, idx) && shape != [] && (forall i :: 0 <= i < |shape| - 1 ==> shape[i] == 1)
    ensures Flat(shape, idx) == idx[|idx| - 1]
  {
    FlatSnoc(shape, idx);
    UnitFlat(shape[..|shape| - 1], idx[..|shape| - 1]);
    assert 0 * shape[|shape| - 1] == 0;
  }

  lemma FlatB(l: LoraTensor, idx: seq<nat>, r: nat)
    requires l.Valid() && InBounds(l.Shape(), idx) && r < l.Rank()
    ensures InBounds(l.B.shape, IndexB(idx, r)) && InBounds(l.B.shape[..l.Dim() - 1], idx[..l.Dim() - 1])
    ensures Flat(l.B.shape, IndexB(idx, r)) == Flat(l.B.shape[..l.Dim() - 1], idx[..l.Dim() - 1]) * l.Rank() + r
  {
    IndexBounds(l, idx, r);
    FlatSnoc(l.B.shape, IndexB(idx, r));
    assert IndexB(idx, r)[..l.Dim() - 1] == idx[..l.Dim() - 1];
  }

  /** A term only depends on the flat data, the rank and the row size. */
  lemma TermFlat(l: LoraTensor, k: nat, r: nat)
    requires l.Valid() && l.UnitA() && k < Prod(l.Shape()) && r < l.Rank()
    ensures var row := l.Shape()[l.Dim() - 1];
      && row > 0 && (k / row) * l.Rank() + r < |l.B.data| && r * row + k % row < |l.A.data|
      && Term(l, Unflat(l.Shape(), k), r) == FlatTerm(l.A.data, l.B.data, l.Rank(), row, k / row, k % row, r)
  {
    hide Flat;
    hide Prod;
    hide Unflat;
    var n, s, idx := l.Dim(), l.Shape(), Unflat(l.Shape(), k);
    FlatSnoc(s, idx);
    assert s[..n - 1] == l.B.shape[..n - 1];
    DivModUnique(Flat(s[..n - 1], idx[..n - 1]), idx[n - 1], s[n - 1]);
    IndexBounds(l, idx, r);
    FlatB(l, idx, r);
    FlatA(l.A.shape, idx, r);
  }

  lemma DenseData(l: LoraTensor, k: nat)
    requires l.Valid() && k < Prod(l.Shape())
    ensures Dense(l).data[k] == Entry(l, Unflat(l.Shape(), k))
  {
    DenseAt(l, Unflat(l.Shape(), k));
  }

  // ---- The operation ----

  function Filled(dims: seq<int>, x: int): seq<int> {
    seq(|dims|, i requires 0 <= i < |dims| => if dims[i] == -1 then x else dims[i])
  }

  function ProdInt(dims: seq<int>): int {
    if dims == [] then 1 else ProdInt(dims[..|dims| - 1]) * dims[|dims| - 1]
  }

  predicate AllNat(dims: seq<int>) {
    forall i :: 0 <= i < |dims| ==> dims[i] >= 0
  }

  function ToNats(dims: seq<int>): (r: seq<nat>)
    requires AllNat(dims)
    ensures r == dims
  {
    seq(|dims|, i requires 0 <= i < |dims| => dims[i])
  }

  /** Replacing -1 entries; `None` where the code asserts, divides by zero or torch rejects the shape. */
  function Expand(dims: seq<int>, total: nat): (r: Option<seq<nat>>)
    ensures r.Some? ==> |r.value| == |dims| && forall i :: 0 <= i < |dims| && dims[i] != -1 ==> r.value[i] == dims[i]
  {
    var known := ProdInt(Filled(dims, 1));
    var full := if -1 in dims && known != 0 then Filled(dims, total / known) else dims;
    if -1 in dims && (known == 0 || total % known != 0) then None
    else if !AllNat(full) then None
    else Some(ToNats(full))
  }

  function ReshapeLora(l: LoraTensor, dims: seq<int>): Option<LoraTensor>
    requires l.Valid()
  {
    if |dims| < 2 then None else
      match Expand(dims, Prod(l.Shape()))
      case None => None
      case Some(s) =>
        var row := l.Shape()[l.Dim() - 1];
        if s[|s| - 1] != row then None else
          var shapeA := Ones(|s| - 2) + [l.Rank(), row];
          var shapeB := s[..|s| - 1] + [l.Rank()];
          if Prod(shapeA) != Prod(l.A.shape) || Prod(shapeB) != Prod(l.B.shape) then None
          else Some(LoraTensor(Reshape(l.A, shapeA), Reshape(l.B, shapeB)))
  }

  // ---- It reshapes the product ----

  lemma ProdSnoc(s: seq<nat>, x: nat)
    ensures Prod(s + [x]) == Prod(s) * x
  {
    assert (s + [x])[..|s|] == s;
  }

  lemma {:induction false} ProdUnit(s: seq<nat>)
    requires forall i :: 0 <= i < |s| ==> s[i] == 1
    ensures Prod(s) == 1
    decreases |s|
  {
    if s != [] { ProdUnit(s[..|s| - 1]); }
  }

  lemma {:induction false} UnitProd(s: seq<nat>)
    requires Prod(s) == 1
    ensures forall i :: 0 <= i < |s| ==> s[i] == 1
    decreases |s|
  {
    if s != [] {
      var p, x := Prod(s[..|s| - 1]), s[|s| - 1];
      ProductOne(p, x);
      UnitProd(s[..|s| - 1]);
      assert forall i :: 0 <= i < |s| - 1 ==> s[i] == s[..|s| - 1][i];
    }
  }

  lemma ProductOne(p: nat, x: nat)
    requires p * x == 1
    ensures p == 1 && x == 1
  {
    assert 0 * x == 0 && p * 0 == 0;
    MulMonotone(2, p, x);
    MulMonotone(2, x, p);
  }

  lemma Cancel(a: nat, b: nat, n: nat)
    requires a * n == b * n && n > 0
    ensures a == b
  {
    MulMonotone(a + 1, b, n);
    MulMonotone(b + 1, a, n);
  }

  /** torch's element count forces unit leading dimensions of A, unless there are no elements. */
  lemma CountForcesUnit(l: LoraTensor)
    requires l.Valid() && Prod(l.A.shape) == l.Rank() * l.Shape()[l.Dim() - 1] > 0
    ensures l.UnitA()
  {
    var n, row := l.Dim(), l.Shape()[l.Dim() - 1];
    var lead := l.A.shape[..n - 2];
    assert l.A.shape[..n - 1][..n - 2] == lead;
    var p := Prod(lead);
    assert Prod(l.A.shape) == (p * l.Rank()) * row;
    assert (p * l.Rank()) * row == p * (l.Rank() * row) by { MulAssoc(p, l.Rank(), row); }
    Cancel(p, 1, l.Rank() * row);
    UnitProd(lead);
    assert forall i :: 0 <= i < n - 2 ==> lead[i] == l.A.shape[i];
  }

  lemma MulAssoc(a: int, b: int, c: int)
    ensures (a * b) * c == a * (b * c)
  {
  }

  /** Two tensors with the same flat factors, rank and row size have the same flat product. */
  lemma SameFlat(l: LoraTensor, m: LoraTensor)
    requires l.Valid() && m.Valid() && l.A.data == m.A.data && l.B.data == m.B.data && l.Rank() == m.Rank()
    requires l.Shape()[l.Dim() - 1] == m.Shape()[m.Dim() - 1] && Prod(l.Shape()) == Prod(m.Shape())
    requires (l.UnitA() && m.UnitA()) || l.Rank() == 0
    ensures Dense(l).data == Dense(m).data
  {
    forall k | 0 <= k < Prod(l.Shape()) ensures Dense(l).data[k] == Dense(m).data[k] {
      DenseData(l, k);
      DenseData(m, k);
      var i, j := Unflat(l.Shape(), k), Unflat(m.Shape(), k);
      forall r | 0 <= r < l.Rank() ensures Term(l, i, r) == Term(m, j, r) {
        TermFlat(l, k, r);
        TermFlat(m, k, r);
      }
      EntryEqual(l, i, m, j);
    }
  }

  lemma SameCount(lead: seq<nat>, before: seq<nat>, rank: nat, row: nat)
    requires Prod(lead + [rank]) == Prod(before + [rank]) && rank > 0
    ensures Prod(lead + [row]) == Prod(before + [row])
  {
    hide Prod;
    ProdSnoc(lead, rank);
    ProdSnoc(before, rank);
    ProdSnoc(lead, row);
    ProdSnoc(before, row);
    Cancel(Prod(lead), Prod(before), rank);
  }

  /** The shape `reshape` returns, and when it holds as many entries. */
  lemma ReshapeShape(l: LoraTensor, dims: seq<int>)
    requires l.Valid() && ReshapeLora(l, dims).Some?
    ensures var m, s := ReshapeLora(l, dims).value, Expand(dims, Prod(l.Shape())).value;
      && m.Valid() && m.UnitA() && m.Shape() == s && m.Rank() == l.Rank()
      && (l.Rank() > 0 ==> Prod(s) == Prod(l.Shape()))
  {
    hide Prod;
    hide Expand;
    var n, row, rank := l.Dim(), l.Shape()[l.Dim() - 1], l.Rank();
    var s, m := Expand(dims, Prod(l.Shape())).value, ReshapeLora(l, dims).value;
    var lead, before := s[..|s| - 1], l.B.shape[..n - 1];
    assert m.A.shape == Ones(|s| - 2) + [rank, row] && m.B.shape == lead + [rank];
    assert s == lead + [row] && l.Shape() == before + [row] && l.B.shape == before + [rank];
    if rank > 0 { SameCount(lead, before, rank, row); }
  }

  /**
   * Whenever `reshape` returns, its result has the new shape and stands for the row-major reshape of the product, if
   * and only if there is one: always, but for a rank of zero and another number of entries.
   */
  lemma ReshapeCommutes(l: LoraTensor, dims: seq<int>)
    requires l.Valid() && ReshapeLora(l, dims).Some?
    ensures var m, s := ReshapeLora(l, dims).value, Expand(dims, Prod(l.Shape())).value;
      && m.Valid() && m.Shape() == s
      && (l.Rank() > 0 ==> Prod(s) == Prod(l.Shape()))
      && (Prod(s) == Prod(l.Shape()) ==> Dense(m) == Reshape(Dense(l), s) == Tensor(s, Dense(l).data))
  {
    hide Prod;
    hide Expand;
    var row, rank := l.Shape()[l.Dim() - 1], l.Rank();
    var s, m := Expand(dims, Prod(l.Shape())).value, ReshapeLora(l, dims).value;
    ReshapeShape(l, dims);
    ReshapedCount(|s|, rank, row);
    if Prod(s) == Prod(l.Shape()) {
      if rank * row > 0 {
        CountForcesUnit(l);
        SameFlat(l, m);
      } else if rank == 0 {
        SameFlat(l, m);
      } else {
        NoElements(rank, row);
        ProdSnoc(s[..|s| - 1], 0);
        assert s == s[..|s| - 1] + [0];
      }
      assert Dense(m).shape == s && Dense(m).data == Dense(l).data;
    }
  }

  lemma ProdPair(a: nat, b: nat)
    ensures Prod([a, b]) == a * b
  {
    assert [a, b][..1] == [a] && [a][..0] == [];
    assert Prod([a]) == 1 * a;
  }

  /** With rank zero every number of columns is accepted. */
  lemma ReshapeRankZero(n: nat, k: nat, row: nat)
    ensures var l := LoraTensor(Tensor([0, row], []), Tensor([n, 0], []));
      && l.Valid() && ReshapeLora(l, [k, row]) == Some(LoraTensor(Tensor([0, row], []), Tensor([k, 0], [])))
      && (Prod([k, row]) == Prod(l.Shape()) <==> k == n || row == 0)
  {
    hide Prod;
    hide Expand;
    var l := LoraTensor(Tensor([0, row], []), Tensor([n, 0], []));
    ProdPair(0, row);
    ProdPair(n, 0);
    ProdPair(k, 0);
    ProdPair(n, row);
    ProdPair(k, row);
    assert l.Shape() == [n, row];
    ExpandsToItself([k, row], Prod([n, row]));
    assert Ones(0) + [0, row] == [0, row] && [k, row][..1] + [0] == [k, 0];
    if k * row == n * row && row > 0 { Cancel(k, n, row); }
  }

  lemma ExpandsToItself(s: seq<nat>, total: nat)
    ensures Expand(s, total) == Some(s)
  {
  }

  lemma NoElements(rank: nat, row: nat)
    requires !(rank * row > 0) && rank > 0
    ensures row == 0
  {
    if row > 0 { MulMonotone(1, rank, row); }
  }

  lemma ReshapedCount(k: nat, rank: nat, row: nat)
    requires k >= 2
    ensures Prod(Ones(k - 2) + [rank, row]) == rank * row
  {
    var s := Ones(k - 2);
    ProdUnit(s);
    ProdSnoc(s, rank);
    ProdSnoc(s + [rank], row);
    assert s + [rank] + [row] == s + [rank, row];
  }

  /** No entry is below -1, and the known entries divide the total if there is a -1. */
  predicate Expands(dims: seq<int>, total: nat) {
    && (forall i :: 0 <= i < |dims| ==> dims[i] >= -1)
    && (-1 in dims ==> var known := ProdInt(Filled(dims, 1)); known != 0 && total % known == 0)
  }

  lemma {:induction false} ProdIntNat(dims: seq<int>)
    requires AllNat(dims)
    ensures ProdInt(dims) >= 0
    decreases |dims|
  {
    if dims != [] {
      ProdIntNat(dims[..|dims| - 1]);
      MulMonotone(0, ProdInt(dims[..|dims| - 1]), dims[|dims| - 1]);
    }
  }

  lemma ExpandsExactly(dims: seq<int>, total: nat)
    ensures Expand(dims, total).Some? <==> Expands(dims, total)
  {
    hide ProdInt;
    var known := ProdInt(Filled(dims, 1));
    if forall i :: 0 <= i < |dims| ==> dims[i] >= -1 {
      ProdIntNat(Filled(dims, 1));
      if -1 in dims && known != 0 {
        DivNat(total, known);
        assert AllNat(Filled(dims, total / known));
      } else if -1 !in dims {
        assert forall i :: 0 <= i < |dims| ==> dims[i] in dims;
      }
    } else {
      var i :| 0 <= i < |dims| && dims[i] < -1;
      if -1 in dims && known != 0 {
        assert Filled(dims, total / known)[i] < 0;
      }
    }
  }

  /** Every -1 becomes the quotient of the number of entries by the product of the others; the others stay. */
  lemma ExpandedEntries(dims: seq<int>, total: nat, i: nat)
    requires i < |dims| && Expand(dims, total).Some?
    ensures var s := Expand(dims, total).value;
      |s| == |dims| && if dims[i] == -1 then s[i] * ProdInt(Filled(dims, 1)) == total else s[i] == dims[i]
  {
    hide ProdInt;
  }

  lemma DivNat(x: nat, y: nat)
    requires y > 0
    ensures x / y >= 0
  {
  }

  /**
   * A target shape is accepted exactly when it has at least two dimensions, its -1 entries can be expanded, it keeps
   * the row size, A has as many elements as one rank-by-row matrix, and the new leading dimensions hold as many
   * columns as B.
   */
  lemma ReshapeAccepts(l: LoraTensor, dims: seq<int>)
    requires l.Valid()
    ensures ReshapeLora(l, dims).Some? <==>
      && |dims| >= 2 && Expands(dims, Prod(l.Shape()))
      && var s := Expand(dims, Prod(l.Shape())); s.Some? && var row := l.Shape()[l.Dim() - 1];
      && s.value[|dims| - 1] == row && Prod(l.A.shape) == l.Rank() * row
      && Prod(s.value[..|dims| - 1]) * l.Rank() == Prod(l.B.shape)
  {
    hide Prod;
    hide Expand;
    hide Expands;
    var total := Prod(l.Shape());
    ExpandsExactly(dims, total);
    if |dims| >= 2 && Expand(dims, total).Some? {
      var s := Expand(dims, total).value;
      ReshapedCount(|s|, l.Rank(), l.Shape()[l.Dim() - 1]);
      ProdSnoc(s[..|s| - 1], l.Rank());
    }
  }
}
