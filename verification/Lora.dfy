/** `LoraTorchTensor`: a low-rank tensor standing for the batched product B @ A. */
module Lora {
  import opened Text
  import opened Tensors

  /** Leading dimensions of `A` are 1 or those of `B`; the last two are (rank, row) and (column, rank). */
  datatype LoraTensor = LoraTensor(A: Tensor, B: Tensor) {
    predicate Valid() {
      && A.Valid() && B.Valid() && |A.shape| == |B.shape| >= 2
      && A.shape[Dim() - 2] == B.shape[Dim() - 1]
      && forall i :: 0 <= i < Dim() - 2 ==> A.shape[i] == 1 || A.shape[i] == B.shape[i]
    }

    function Dim(): nat {
      |B.shape|
    }

    function Rank(): nat
      requires Valid()
    {
      B.shape[Dim() - 1]
    }

    /** The `shape` property: the columns of B, then the row size of A. */
    function Shape(): seq<nat>
      requires Valid()
    {
      B.shape[Dim() - 1 := A.shape[Dim() - 1]]
    }

    predicate UnitA()
      requires Valid()
    {
      forall i :: 0 <= i < Dim() - 2 ==> A.shape[i] == 1
    }
  }

  // ---- The dense product ----

  function Sum(n: nat, f: nat --> int): int
    requires forall r :: 0 <= r < n ==> f.requires(r)
  {
    if n == 0 then 0 else Sum(n - 1, f) + f(n - 1)
  }

  lemma {:induction false} SumEqual(n: nat, f: nat --> int, g: nat --> int)
    requires forall r :: 0 <= r < n ==> f.requires(r) && g.requires(r) && f(r) == g(r)
    ensures Sum(n, f) == Sum(n, g)
    decreases n
  {
    if n > 0 { SumEqual(n - 1, f, g); }
  }

  lemma {:induction false} SumScaled(n: nat, f: nat --> int, g: nat --> int, c: int)
    requires forall r :: 0 <= r < n ==> f.requires(r) && g.requires(r) && g(r) == f(r) * c
    ensures Sum(n, g) == Sum(n, f) * c
    decreases n
  {
    if n > 0 { SumScaled(n - 1, f, g, c); }
  }

  /** The index into B of term `r` of entry `idx`. */
  function IndexB(idx: seq<nat>, r: nat): seq<nat>
    requires idx != []
  {
    idx[|idx| - 1 := r]
  }

  /** The index into A, broadcasting its leading dimensions. */
  function IndexA(shape: seq<nat>, idx: seq<nat>, r: nat): (a: seq<nat>)
    requires |shape| == |idx| >= 2
    ensures |a| == |idx| && a[|idx| - 2] == r && a[|idx| - 1] == idx[|idx| - 1]
    ensures forall i :: 0 <= i < |idx| - 2 ==> a[i] == if shape[i] == 1 then 0 else idx[i]
  {
    Clip(shape, idx)[|idx| - 2 := r][|idx| - 1 := idx[|idx| - 1]]
  }

  lemma IndexBounds(l: LoraTensor, idx: seq<nat>, r: nat)
    requires l.Valid() && InBounds(l.Shape(), idx) && r < l.Rank()
    ensures InBounds(l.B.shape, IndexB(idx, r)) && InBounds(l.A.shape, IndexA(l.A.shape, idx, r))
  {
  }

  function Term(l: LoraTensor, idx: seq<nat>, r: nat): int
    requires l.Valid() && InBounds(l.Shape(), idx) && r < l.Rank()
  {
    IndexBounds(l, idx, r);
    At(l.B, IndexB(idx, r)) * At(l.A, IndexA(l.A.shape, idx, r))
  }

  function Entry(l: LoraTensor, idx: seq<nat>): int
    requires l.Valid() && InBounds(l.Shape(), idx)
  {
    Sum(l.Rank(), r requires 0 <= r < l.Rank() => Term(l, idx, r))
  }

  /** B @ A */
  function Dense(l: LoraTensor): (t: Tensor)
    requires l.Valid()
    ensures t.Valid() && t.shape == l.Shape()
  {
    Tabulate(l.Shape(), idx requires InBounds(l.Shape(), idx) => Entry(l, idx))
  }

  lemma DenseAt(l: LoraTensor, idx: seq<nat>)
    requires l.Valid() && InBounds(l.Shape(), idx)
    ensures At(Dense(l), idx) == Entry(l, idx)
  {
    TabulateAt(l.Shape(), i requires InBounds(l.Shape(), i) => Entry(l, i), idx);
  }

  /** Entries with equal terms are equal. */
  lemma EntryEqual(l: LoraTensor, idx: seq<nat>, m: LoraTensor, jdx: seq<nat>)
    requires l.Valid() && InBounds(l.Shape(), idx) && m.Valid() && InBounds(m.Shape(), jdx)
    requires l.Rank() == m.Rank()
    requires forall r :: 0 <= r < l.Rank() ==> Term(l, idx, r) == Term(m, jdx, r)
    ensures Entry(l, idx) == Entry(m, jdx)
  {
    SumEqual(l.Rank(), r requires 0 <= r < l.Rank() => Term(l, idx, r), r requires 0 <= r < m.Rank() => Term(m, jdx, r));
  }

  // ---- Splitting and slicing ----

  /** Part of one dimension, as `split` and slices take it. */
  function NarrowLora(l: LoraTensor, d: nat, off: nat, len: nat): LoraTensor
    requires l.Valid() && d < l.Dim() && off + len <= l.Shape()[d]
  {
    LoraTensor(if NarrowsA(l, d) then Narrow(l.A, d, off, len) else l.A,
               if d < l.Dim() - 1 then Narrow(l.B, d, off, len) else l.B)
  }

  /** The row dimension belongs to A, the column dimension to B, a leading one to B and, unless 1 there, to A. */
  predicate NarrowsA(l: LoraTensor, d: nat)
    requires l.Valid() && d < l.Dim()
  {
    d == l.Dim() - 1 || (d < l.Dim() - 2 && l.A.shape[d] != 1)
  }

  lemma NarrowAt(t: Tensor, d: nat, off: nat, len: nat, idx: seq<nat>)
    requires t.Valid() && d < |t.shape| && off + len <= t.shape[d] && InBounds(t.shape[d := len], idx)
    ensures InBounds(t.shape, idx[d := off + idx[d]])
    ensures At(Narrow(t, d, off, len), idx) == At(t, idx[d := off + idx[d]])
  {
    TabulateAt(t.shape[d := len], (i: seq<nat>) requires InBounds(t.shape[d := len], i) => At(t, i[d := off + i[d]]), idx);
  }

  lemma NarrowValid(l: LoraTensor, d: nat, off: nat, len: nat)
    requires l.Valid() && d < l.Dim() && off + len <= l.Shape()[d]
    ensures var m := NarrowLora(l, d, off, len);
      m.Valid() && m.Rank() == l.Rank() && m.Shape() == l.Shape()[d := len]
  {
    hide Prod;
    hide Flat;
    hide Narrow;
    assert NarrowLora(l, d, off, len).Shape() == l.Shape()[d := len];
  }

  lemma NarrowIndexB(l: LoraTensor, d: nat, off: nat, len: nat, idx: seq<nat>, r: nat)
    requires l.Valid() && d < l.Dim() && off + len <= l.Shape()[d]
    requires InBounds(l.Shape()[d := len], idx) && r < l.Rank()
    ensures var m, jdx := NarrowLora(l, d, off, len), idx[d := off + idx[d]];
      && InBounds(m.B.shape, IndexB(idx, r)) && InBounds(l.B.shape, IndexB(jdx, r))
      && At(m.B, IndexB(idx, r)) == At(l.B, IndexB(jdx, r))
  {
    hide Prod;
    hide Flat;
    hide Narrow;
    var jdx := idx[d := off + idx[d]];
    if d < l.Dim() - 1 {
      NarrowAt(l.B, d, off, len, IndexB(idx, r));
      assert IndexB(jdx, r) == IndexB(idx, r)[d := off + idx[d]];
    } else {
      assert IndexB(jdx, r) == IndexB(idx, r);
    }
  }

  /** The index into a narrowed A, and the one into an A that is kept. */
  lemma IndexANarrowed(shape: seq<nat>, idx: seq<nat>, r: nat, d: nat, off: nat, len: nat)
    requires |shape| == |idx| >= 2 && d < |idx| && d != |idx| - 2
    requires off + len <= shape[d] && idx[d] < len && (d < |idx| - 2 ==> shape[d] != 1)
    ensures var a := IndexA(shape[d := len], idx, r);
      a[d] == idx[d] && IndexA(shape, idx[d := off + idx[d]], r) == a[d := off + idx[d]]
  {
  }

  lemma IndexAKept(shape: seq<nat>, idx: seq<nat>, r: nat, d: nat, off: nat)
    requires |shape| == |idx| >= 2 && d < |idx| - 1 && (d < |idx| - 2 ==> shape[d] == 1)
    ensures IndexA(shape, idx[d := off + idx[d]], r) == IndexA(shape, idx, r)
  {
  }

  lemma NarrowedA(A: Tensor, idx: seq<nat>, r: nat, d: nat, off: nat, len: nat)
    requires A.Valid() && |A.shape| == |idx| >= 2 && d < |idx| && d != |idx| - 2
    requires off + len <= A.shape[d] && idx[d] < len && (d < |idx| - 2 ==> A.shape[d] != 1)
    requires InBounds(A.shape[d := len], IndexA(A.shape[d := len], idx, r))
    ensures InBounds(A.shape, IndexA(A.shape, idx[d := off + idx[d]], r))
    ensures At(Narrow(A, d, off, len), IndexA(A.shape[d := len], idx, r))
         == At(A, IndexA(A.shape, idx[d := off + idx[d]], r))
  {
    hide Prod;
    hide Flat;
    hide Narrow;
    hide At;
    IndexANarrowed(A.shape, idx, r, d, off, len);
    NarrowAt(A, d, off, len, IndexA(A.shape[d := len], idx, r));
  }

  lemma NarrowTerm(l: LoraTensor, m: LoraTensor, d: nat, off: nat, len: nat, idx: seq<nat>, r: nat)
    requires l.Valid() && d < l.Dim() && off + len <= l.Shape()[d] && m == NarrowLora(l, d, off, len)
    requires m.Valid() && m.Shape() == l.Shape()[d := len] && m.Rank() == l.Rank()
    requires InBounds(m.Shape(), idx) && r < l.Rank()
    ensures InBounds(l.Shape(), idx[d := off + idx[d]])
    ensures Term(m, idx, r) == Term(l, idx[d := off + idx[d]], r)
  {
    NarrowIndexB(l, d, off, len, idx, r);
    IndexBounds(m, idx, r);
    if NarrowsA(l, d) {
      NarrowedA(l.A, idx, r, d, off, len);
    } else {
      IndexAKept(l.A.shape, idx, r, d, off);
    }
  }

  /** If every entry of `m` has the terms of an entry of `l`, and `t` arranges those entries, `t` is the product of `m`. */
  lemma Rearranged(l: LoraTensor, m: LoraTensor, t: Tensor, from: seq<nat> --> seq<nat>)
    requires l.Valid() && m.Valid() && m.Rank() == l.Rank() && t.Valid() && t.shape == m.Shape()
    requires forall idx :: InBounds(m.Shape(), idx) ==>
      && from.requires(idx) && InBounds(l.Shape(), from(idx)) && At(t, idx) == At(Dense(l), from(idx))
      && forall r :: 0 <= r < l.Rank() ==> Term(m, idx, r) == Term(l, from(idx), r)
    ensures Dense(m) == t
  {
    forall idx | InBounds(m.Shape(), idx) ensures At(Dense(m), idx) == At(t, idx) {
      EntryEqual(m, idx, l, from(idx));
      DenseAt(m, idx);
      DenseAt(l, from(idx));
    }
    Extensional(Dense(m), t);
  }

  /** Narrowing the factors narrows the product. */
  lemma NarrowCommutes(l: LoraTensor, d: nat, off: nat, len: nat)
    requires l.Valid() && d < l.Dim() && off + len <= l.Shape()[d]
    ensures NarrowLora(l, d, off, len).Valid() && NarrowLora(l, d, off, len).Rank() == l.Rank()
    ensures Dense(NarrowLora(l, d, off, len)) == Narrow(Dense(l), d, off, len)
  {
    var m := NarrowLora(l, d, off, len);
    NarrowValid(l, d, off, len);
    forall idx | InBounds(m.Shape(), idx) ensures At(Dense(m), idx) == At(Narrow(Dense(l), d, off, len), idx) {
      var jdx := idx[d := off + idx[d]];
      NarrowAt(Dense(l), d, off, len, idx);
      forall r | 0 <= r < l.Rank() ensures Term(m, idx, r) == Term(l, jdx, r) {
        NarrowTerm(l, m, d, off, len, idx, r);
      }
      EntryEqual(m, idx, l, jdx);
      DenseAt(m, idx);
      DenseAt(l, jdx);
    }
    Extensional(Dense(m), Narrow(Dense(l), d, off, len));
  }

  // ---- Indexing a leading dimension ----

  /** Entry `j` of a leading dimension; A is indexed modulo its size there. */
  function SelectLora(l: LoraTensor, d: nat, j: nat): LoraTensor
    requires l.Valid() && d < l.Dim() - 2 && j < l.B.shape[d]
  {
    LoraTensor(Select(l.A, d, j % l.A.shape[d]), Select(l.B, d, j))
  }

  function Insert(idx: seq<nat>, d: nat, j: nat): (r: seq<nat>)
    requires d <= |idx|
    ensures |r| == |idx| + 1
    ensures forall i :: 0 <= i < |r| ==> r[i] == if i < d then idx[i] else if i == d then j else idx[i - 1]
  {
    idx[..d] + [j] + idx[d..]
  }

  lemma SelectAt(t: Tensor, d: nat, j: nat, idx: seq<nat>)
    requires t.Valid() && d < |t.shape| && j < t.shape[d] && InBounds(t.shape[..d] + t.shape[d + 1..], idx)
    ensures InBounds(t.shape, Insert(idx, d, j)) && At(Select(t, d, j), idx) == At(t, Insert(idx, d, j))
  {
    InsertBounds(t.shape, idx, d, j);
    TabulateAt(t.shape[..d] + t.shape[d + 1..],
               i requires InBounds(t.shape[..d] + t.shape[d + 1..], i) =>
                 assert InBounds(t.shape, i[..d] + [j] + i[d..]) by { InsertBounds(t.shape, i, d, j); }
                 At(t, i[..d] + [j] + i[d..]), idx);
  }

  lemma SelectValid(l: LoraTensor, d: nat, j: nat)
    requires l.Valid() && d < l.Dim() - 2 && j < l.B.shape[d]
    ensures var m := SelectLora(l, d, j);
      m.Valid() && m.Rank() == l.Rank() && m.Shape() == l.Shape()[..d] + l.Shape()[d + 1..]
  {
    hide Prod;
    hide Flat;
    hide Select;
    var m := SelectLora(l, d, j);
    assert forall i :: 0 <= i < l.Dim() - 1 ==> m.A.shape[i] == l.A.shape[if i < d then i else i + 1];
    assert forall i :: 0 <= i < l.Dim() - 1 ==> m.B.shape[i] == l.B.shape[if i < d then i else i + 1];
    assert m.Shape() == l.Shape()[..d] + l.Shape()[d + 1..];
  }

  lemma InsertedA(shape: seq<nat>, s: seq<nat>, idx: seq<nat>, r: nat, d: nat, j: nat, k: nat)
    requires |shape| == |idx| + 1 && d < |idx| - 1 && s == shape[..d] + shape[d + 1..]
    requires k == if shape[d] == 1 then 0 else j
    ensures Insert(IndexA(s, idx, r), d, k) == IndexA(shape, Insert(idx, d, j), r)
  {
    var a, b := Insert(IndexA(s, idx, r), d, k), IndexA(shape, Insert(idx, d, j), r);
    forall i | 0 <= i < |shape| ensures a[i] == b[i] {
      if i < d { assert s[i] == shape[i]; } else if i > d { assert s[i - 1] == shape[i]; }
    }
  }

  lemma SelectTermB(l: LoraTensor, d: nat, j: nat, idx: seq<nat>, r: nat)
    requires l.Valid() && d < l.Dim() - 2 && j < l.B.shape[d] && |idx| == l.Dim() - 1
    requires InBounds(Select(l.B, d, j).shape, IndexB(idx, r))
    ensures InBounds(l.B.shape, IndexB(Insert(idx, d, j), r))
    ensures At(Select(l.B, d, j), IndexB(idx, r)) == At(l.B, IndexB(Insert(idx, d, j), r))
  {
    hide Flat;
    hide Prod;
    SelectAt(l.B, d, j, IndexB(idx, r));
    assert Insert(IndexB(idx, r), d, j) == IndexB(Insert(idx, d, j), r);
  }

  lemma SelectTerm(l: LoraTensor, m: LoraTensor, d: nat, j: nat, idx: seq<nat>, r: nat)
    requires l.Valid() && d < l.Dim() - 2 && j < l.B.shape[d] && m == SelectLora(l, d, j)
    requires m.Valid() && m.Rank() == l.Rank() && m.Shape() == l.Shape()[..d] + l.Shape()[d + 1..]
    requires InBounds(m.Shape(), idx) && r < l.Rank() && InBounds(l.Shape(), Insert(idx, d, j))
    ensures Term(m, idx, r) == Term(l, Insert(idx, d, j), r)
  {
    IndexBounds(m, idx, r);
    SelectTermB(l, d, j, idx, r);
    var k := j % l.A.shape[d];
    assert l.A.shape[d] == 1 || l.A.shape[d] == l.B.shape[d];
    ModBroadcast(j, l.A.shape[d]);
    SelectTermA(l.A, d, j, k, idx, r);
  }

  lemma ModBroadcast(j: nat, n: nat)
    requires n == 1 || j < n
    ensures j % n == if n == 1 then 0 else j
  {
  }

  lemma SelectTermA(A: Tensor, d: nat, j: nat, k: nat, idx: seq<nat>, r: nat)
    requires A.Valid() && |A.shape| == |idx| + 1 && d < |idx| - 1 && k < A.shape[d]
    requires k == if A.shape[d] == 1 then 0 else j
    requires InBounds(Select(A, d, k).shape, IndexA(Select(A, d, k).shape, idx, r))
    ensures InBounds(A.shape, IndexA(A.shape, Insert(idx, d, j), r))
    ensures At(Select(A, d, k), IndexA(Select(A, d, k).shape, idx, r)) == At(A, IndexA(A.shape, Insert(idx, d, j), r))
  {
    var s := A.shape[..d] + A.shape[d + 1..];
    SelectAt(A, d, k, IndexA(s, idx, r));
    InsertedA(A.shape, s, idx, r, d, j, k);
  }

  lemma SelectCommutes(l: LoraTensor, d: nat, j: nat)
    requires l.Valid() && d < l.Dim() - 2 && j < l.B.shape[d]
    ensures SelectLora(l, d, j).Valid() && SelectLora(l, d, j).Rank() == l.Rank()
    ensures Dense(SelectLora(l, d, j)) == Select(Dense(l), d, j)
  {
    hide Prod;
    hide Flat;
    hide At;
    hide Term;
    hide Dense;
    hide Select;
    var m := SelectLora(l, d, j);
    SelectValid(l, d, j);
    var from := (idx: seq<nat>) requires InBounds(m.Shape(), idx) => Insert(idx, d, j);
    forall idx | InBounds(m.Shape(), idx)
      ensures InBounds(l.Shape(), from(idx)) && At(Select(Dense(l), d, j), idx) == At(Dense(l), from(idx))
      ensures forall r :: 0 <= r < l.Rank() ==> Term(m, idx, r) == Term(l, from(idx), r)
    {
      SelectAt(Dense(l), d, j, idx);
      forall r | 0 <= r < l.Rank() ensures Term(m, idx, r) == Term(l, from(idx), r) {
        SelectTerm(l, m, d, j, idx, r);
      }
    }
    Rearranged(l, m, Select(Dense(l), d, j), from);
  }

  // ---- Permuting ----

  /** Dimensions of a tensor of `n`, negative ones counted from the end; `None` if they are not all of them. */
  function Axes(dims: seq<int>, n: nat): (r: Option<seq<nat>>)
    ensures r.Some? ==> |r.value| == n && IsPermutation(r.value)
  {
    if |dims| != n || !(forall i :: 0 <= i < n ==> 0 <= dims[i] + n && dims[i] < n) then None else
      var r := seq(n, i requires 0 <= i < n => if dims[i] < 0 then dims[i] + n else dims[i]);
      if IsPermutation(r) then Some(r) else None
  }

  /** `permute`; `None` where the code asserts or raises. */
  function PermuteLora(l: LoraTensor, dims: seq<int>): Option<LoraTensor>
    requires l.Valid()
  {
    var axes := Axes(dims, l.Dim());
    if axes.None? then None else PermuteAxes(l, axes.value)
  }

  function PermuteAxes(l: LoraTensor, dims: seq<nat>): Option<LoraTensor>
    requires l.Valid() && |dims| == l.Dim() && IsPermutation(dims)
  {
    var n := l.Dim();
    if dims[n - 1] == n - 1 then
      if l.UnitA() then Some(LoraTensor(l.A, Permute(l.B, dims))) else None
    else if n == 2 && dims[n - 1] == n - 2 && dims[n - 2] == n - 1 then
      Some(LoraTensor(Permute(l.B, dims), Permute(l.A, dims)))
    else None
  }

  /**
   * Dimensions name all axes exactly if each is in range, and no two are equal after counting negative ones from the
   * end; they then stand for the axes so counted.
   */
  lemma AxesExactly(dims: seq<int>, n: nat)
    ensures Axes(dims, n).Some? <==>
      && |dims| == n && (forall i :: 0 <= i < n ==> 0 <= dims[i] + n < 2 * n)
      && forall i, j :: 0 <= i < j < n ==> dims[i] != dims[j] && dims[i] != dims[j] - n && dims[i] != dims[j] + n
    ensures Axes(dims, n).Some? ==>
      forall i :: 0 <= i < n ==> Axes(dims, n).value[i] == if dims[i] < 0 then dims[i] + n else dims[i]
  {
    if |dims| == n && forall i :: 0 <= i < n ==> 0 <= dims[i] + n && dims[i] < n {
      var r: seq<nat> := seq(n, i requires 0 <= i < n => if dims[i] < 0 then dims[i] + n else dims[i]);
      forall i, j | 0 <= i < j < n
        ensures r[i] != r[j] <==> dims[i] != dims[j] && dims[i] != dims[j] - n && dims[i] != dims[j] + n
      {
      }
      if forall i, j :: 0 <= i < j < n ==> r[i] != r[j] { AllThere(r); }
    }
  }

  function Below(n: nat): (s: set<nat>)
    ensures |s| == n && forall i: nat :: i in s <==> i < n
  {
    if n == 0 then {} else Below(n - 1) + {n - 1}
  }

  function Members(r: seq<nat>): (s: set<nat>)
    ensures forall d :: d in s <==> d in r
  {
    if r == [] then {} else Members(r[..|r| - 1]) + {r[|r| - 1]}
  }

  lemma {:induction false} MembersSize(r: seq<nat>)
    requires forall i, j :: 0 <= i < j < |r| ==> r[i] != r[j]
    ensures |Members(r)| == |r|
    decreases |r|
  {
    if r != [] {
      var n := |r| - 1;
      MembersSize(r[..n]);
      assert r[n] !in r[..n];
    }
  }

  /** Distinct places below the number of places are all of them. */
  lemma AllThere(r: seq<nat>)
    requires forall i :: 0 <= i < |r| ==> r[i] < |r|
    requires forall i, j :: 0 <= i < j < |r| ==> r[i] != r[j]
    ensures IsPermutation(r)
  {
    MembersSize(r);
    SameSize(Members(r), Below(|r|));
    forall d | 0 <= d < |r| ensures d in r {
      assert d in Below(|r|);
    }
  }

  lemma SameSize(a: set<nat>, b: set<nat>)
    requires a <= b && |a| == |b|
    ensures a == b
  {
    if x :| x in b && x !in a {
      assert a <= b - {x};
      Smaller(a, b - {x});
    }
  }

  lemma {:induction false} Smaller(a: set<nat>, b: set<nat>)
    requires a <= b
    ensures |a| <= |b|
    decreases a
  {
    if x :| x in a { Smaller(a - {x}, b - {x}); }
  }

  /**
   * `permute` returns exactly if the dimensions name all axes, and either the last one stays and A is not batched, or
   * a matrix is transposed.
   */
  lemma PermuteAccepts(l: LoraTensor, dims: seq<int>)
    requires l.Valid()
    ensures PermuteLora(l, dims).Some? <==> Axes(dims, l.Dim()).Some? && var n, last := l.Dim(), dims[l.Dim() - 1];
      ((last == -1 || last == n - 1) && forall i :: 0 <= i < n - 2 ==> l.A.shape[i] == 1)
      || (n == 2 && (last == 0 || last == -2))
  {
    hide Permute;
    hide Prod;
    AxesExactly(dims, l.Dim());
  }

  lemma PermuteAt(t: Tensor, dims: seq<nat>, idx: seq<nat>)
    requires t.Valid() && |dims| == |t.shape| && IsPermutation(dims) && InBounds(Gather(t.shape, dims), idx)
    ensures InBounds(t.shape, Scatter(idx, dims)) && At(Permute(t, dims), idx) == At(t, Scatter(idx, dims))
  {
    ScatterBounds(t.shape, idx, dims);
    TabulateAt(Gather(t.shape, dims),
               i requires InBounds(Gather(t.shape, dims), i) =>
                 ScatterBounds(t.shape, i, dims); At(t, Scatter(i, dims)), idx);
  }

  lemma ScatterLast(idx: seq<nat>, dims: seq<nat>, r: nat)
    requires |idx| == |dims| > 0 && IsPermutation(dims) && dims[|dims| - 1] == |dims| - 1
    ensures Scatter(idx, dims)[|idx| - 1] == idx[|idx| - 1]
    ensures Scatter(IndexB(idx, r), dims) == IndexB(Scatter(idx, dims), r)
  {
    var n := |idx|;
    var a, b := Scatter(IndexB(idx, r), dims), IndexB(Scatter(idx, dims), r);
    assert Scatter(idx, dims)[dims[n - 1]] == idx[n - 1];
    forall d | 0 <= d < n ensures a[d] == b[d] {
      var i := Position(dims, d);
      assert a[dims[i]] == IndexB(idx, r)[i] && Scatter(idx, dims)[dims[i]] == idx[i];
      assert d < n - 1 ==> i < n - 1;
    }
  }

  /** Gathering that keeps the last place commutes with replacing it. */
  lemma GatherLast(s: seq<nat>, dims: seq<nat>, x: nat)
    requires |s| == |dims| > 0 && IsPermutation(dims) && dims[|dims| - 1] == |dims| - 1
    ensures Gather(s[|s| - 1 := x], dims) == Gather(s, dims)[|s| - 1 := x]
    ensures Gather(s, dims)[|s| - 1] == s[|s| - 1]
  {
    var n, t := |s|, s[|s| - 1 := x];
    forall i | 0 <= i < n ensures Gather(t, dims)[i] == Gather(s, dims)[n - 1 := x][i] {
      assert i < n - 1 ==> dims[i] != dims[n - 1];
    }
  }

  lemma KeepLastShape(l: LoraTensor, dims: seq<nat>)
    requires l.Valid() && |dims| == l.Dim() && IsPermutation(dims) && dims[l.Dim() - 1] == l.Dim() - 1 && l.UnitA()
    ensures var m := LoraTensor(l.A, Permute(l.B, dims));
      m.Valid() && m.Rank() == l.Rank() && m.Shape() == Gather(l.Shape(), dims)
  {
    hide Prod;
    hide Permute;
    hide IsPermutation;
    hide Gather;
    GatherLast(l.B.shape, dims, l.A.shape[l.Dim() - 1]);
  }

  lemma KeepLastEntry(l: LoraTensor, m: LoraTensor, dims: seq<nat>, idx: seq<nat>)
    requires l.Valid() && |dims| == l.Dim() && IsPermutation(dims) && dims[l.Dim() - 1] == l.Dim() - 1 && l.UnitA()
    requires m == LoraTensor(l.A, Permute(l.B, dims)) && m.Valid() && m.Rank() == l.Rank()
    requires m.Shape() == Gather(l.Shape(), dims) && InBounds(m.Shape(), idx)
    ensures InBounds(l.Shape(), Scatter(idx, dims)) && At(Permute(Dense(l), dims), idx) == At(Dense(l), Scatter(idx, dims))
    ensures forall r :: 0 <= r < l.Rank() ==> Term(m, idx, r) == Term(l, Scatter(idx, dims), r)
  {
    hide Flat;
    hide Prod;
    hide Dense;
    hide At;
    hide Term;
    PermuteAt(Dense(l), dims, idx);
    forall r | 0 <= r < l.Rank() ensures Term(m, idx, r) == Term(l, Scatter(idx, dims), r) {
      KeepLastTerm(l, m, dims, idx, r);
    }
  }

  lemma KeepLastCommutes(l: LoraTensor, dims: seq<nat>)
    requires l.Valid() && |dims| == l.Dim() && IsPermutation(dims) && dims[l.Dim() - 1] == l.Dim() - 1 && l.UnitA()
    ensures var m := LoraTensor(l.A, Permute(l.B, dims));
      m.Valid() && m.Rank() == l.Rank() && Dense(m) == Permute(Dense(l), dims)
  {
    hide Flat;
    hide Prod;
    hide Dense;
    hide At;
    hide Term;
    var m := LoraTensor(l.A, Permute(l.B, dims));
    KeepLastShape(l, dims);
    var from := (idx: seq<nat>) requires InBounds(m.Shape(), idx) => Scatter(idx, dims);
    forall idx | InBounds(m.Shape(), idx)
      ensures InBounds(l.Shape(), from(idx)) && At(Permute(Dense(l), dims), idx) == At(Dense(l), from(idx))
      ensures forall r :: 0 <= r < l.Rank() ==> Term(m, idx, r) == Term(l, from(idx), r)
    {
      KeepLastEntry(l, m, dims, idx);
    }
    Rearranged(l, m, Permute(Dense(l), dims), from);
  }

  lemma KeepLastTerm(l: LoraTensor, m: LoraTensor, dims: seq<nat>, idx: seq<nat>, r: nat)
    requires l.Valid() && |dims| == l.Dim() && IsPermutation(dims) && dims[l.Dim() - 1] == l.Dim() - 1 && l.UnitA()
    requires m == LoraTensor(l.A, Permute(l.B, dims)) && m.Valid() && m.Rank() == l.Rank()
    requires InBounds(m.Shape(), idx) && InBounds(l.Shape(), Scatter(idx, dims)) && r < l.Rank()
    ensures Term(m, idx, r) == Term(l, Scatter(idx, dims), r)
  {
    var jdx := Scatter(idx, dims);
    IndexBounds(m, idx, r);
    ScatterLast(idx, dims, r);
    PermuteAt(l.B, dims, IndexB(idx, r));
    assert IndexA(l.A.shape, jdx, r) == IndexA(l.A.shape, idx, r);
  }

  /** The swap of two dimensions. */
  lemma ScatterSwap(idx: seq<nat>)
    requires |idx| == 2
    ensures IsPermutation([1, 0]) && Scatter(idx, [1, 0]) == [idx[1], idx[0]] && Gather(idx, [1, 0]) == [idx[1], idx[0]]
  {
    var dims: seq<nat> := [1, 0];
    assert dims[0] == 1 && dims[1] == 0;
    assert forall d :: 0 <= d < 2 ==> d in dims;
    var s := Scatter(idx, dims);
    assert s[dims[0]] == idx[0] && s[dims[1]] == idx[1];
  }

  lemma SwapCommutes(l: LoraTensor)
    requires l.Valid() && l.Dim() == 2
    ensures IsPermutation([1, 0])
    ensures var m := LoraTensor(Permute(l.B, [1, 0]), Permute(l.A, [1, 0]));
      m.Valid() && m.Rank() == l.Rank() && Dense(m) == Permute(Dense(l), [1, 0])
  {
    ScatterSwap(l.B.shape);
    ScatterSwap(l.A.shape);
    ScatterSwap(l.Shape());
    var m := LoraTensor(Permute(l.B, [1, 0]), Permute(l.A, [1, 0]));
    forall idx | InBounds(m.Shape(), idx) ensures At(Dense(m), idx) == At(Permute(Dense(l), [1, 0]), idx) {
      PermuteAt(Dense(l), [1, 0], idx);
      ScatterSwap(idx);
      var jdx := [idx[1], idx[0]];
      forall r | 0 <= r < l.Rank() ensures Term(m, idx, r) == Term(l, jdx, r) {
        SwapTerm(l, m, idx, r);
      }
      EntryEqual(m, idx, l, jdx);
      DenseAt(m, idx);
      DenseAt(l, jdx);
    }
    Extensional(Dense(m), Permute(Dense(l), [1, 0]));
  }

  lemma SwapTerm(l: LoraTensor, m: LoraTensor, idx: seq<nat>, r: nat)
    requires l.Valid() && l.Dim() == 2 && IsPermutation([1, 0])
    requires m == LoraTensor(Permute(l.B, [1, 0]), Permute(l.A, [1, 0])) && m.Valid() && m.Rank() == l.Rank()
    requires InBounds(m.Shape(), idx) && InBounds(l.Shape(), [idx[1], idx[0]]) && r < l.Rank()
    ensures Term(m, idx, r) == Term(l, [idx[1], idx[0]], r)
  {
    hide Permute;
    hide Scatter;
    hide Flat;
    hide Prod;
    IndexBounds(m, idx, r);
    var b, a := IndexB(idx, r), IndexA(m.A.shape, idx, r);
    assert b == [idx[0], r] && a == [r, idx[1]];
    ScatterSwap(b);
    ScatterSwap(a);
    PermuteAt(l.A, [1, 0], b);
    PermuteAt(l.B, [1, 0], a);
    assert IndexB([idx[1], idx[0]], r) == [idx[1], r] && IndexA(l.A.shape, [idx[1], idx[0]], r) == [r, idx[0]];
  }

  lemma AxesCommute(l: LoraTensor, dims: seq<nat>)
    requires l.Valid() && |dims| == l.Dim() && IsPermutation(dims) && PermuteAxes(l, dims).Some?
    ensures var m := PermuteAxes(l, dims).value; m.Valid() && Dense(m) == Permute(Dense(l), dims)
  {
    if dims[l.Dim() - 1] == l.Dim() - 1 {
      KeepLastCommutes(l, dims);
    } else {
      assert dims == [1, 0];
      SwapCommutes(l);
    }
  }

  /** Whenever `permute` returns, its result stands for the permuted product. */
  lemma PermuteCommutes(l: LoraTensor, dims: seq<int>)
    requires l.Valid() && PermuteLora(l, dims).Some?
    ensures Axes(dims, l.Dim()).Some?
    ensures var m := PermuteLora(l, dims).value; m.Valid() && Dense(m) == Permute(Dense(l), Axes(dims, l.Dim()).value)
  {
    hide Dense;
    hide Permute;
    hide PermuteAxes;
    AxesCommute(l, Axes(dims, l.Dim()).value);
  }
}
