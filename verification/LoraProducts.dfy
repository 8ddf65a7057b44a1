/** Scaling, stacking, concatenating and reshaping low-rank tensors. */
module LoraProducts {
  import opened Text
  import opened Tensors
  import opened Lora

  // ---- Scaling on the output side ----

  /**
   * `__mul__`: a number, here a tensor without dimensions, or a multiplier whose last dimension is 1. One with more
   * dimensions than B would leave factors of different dimensions, which the constructor refuses.
   */
  predicate Scales(m: Tensor, l: LoraTensor)
    requires l.Valid()
  {
    && m.Valid() && |m.shape| <= l.Dim() && (m.shape != [] ==> m.shape[|m.shape| - 1] == 1)
    && Broadcasts(l.B.shape, Pad(m, l.Dim()).shape)
  }

  /** A multiplier is aligned with the last dimensions of B, the very last being 1, and one of each two is 1 or they agree. */
  lemma ScalesExactly(m: Tensor, l: LoraTensor)
    requires l.Valid()
    ensures Scales(m, l) <==>
      && m.Valid() && |m.shape| <= l.Dim() && (m.shape == [] || m.shape[|m.shape| - 1] == 1)
      && forall i :: 0 <= i < |m.shape| ==> Agree(l.B.shape[l.Dim() - |m.shape| + i], m.shape[i])
  {
    hide Prod;
    hide Broadcasts;
    hide Pad;
    hide Agree;
    if m.Valid() && |m.shape| <= l.Dim() {
      Aligned(l.B.shape, m.shape, Pad(m, l.Dim()).shape);
    }
  }

  lemma Aligned(b: seq<nat>, m: seq<nat>, p: seq<nat>)
    requires |m| <= |b| == |p|
    requires forall i :: 0 <= i < |b| ==> p[i] == if i < |b| - |m| then 1 else m[i - (|b| - |m|)]
    ensures Broadcasts(b, p) <==> forall i :: 0 <= i < |m| ==> Agree(b[|b| - |m| + i], m[i])
  {
    var k := |b| - |m|;
    if Broadcasts(b, p) {
      forall i | 0 <= i < |m| ensures Agree(b[k + i], m[i]) {
        assert p[k + i] == m[i];
      }
    }
    if forall i :: 0 <= i < |m| ==> Agree(b[k + i], m[i]) {
      forall i | 0 <= i < |b| ensures b[i] == 1 || p[i] == 1 || b[i] == p[i] {
        if i >= k { assert Agree(b[k + (i - k)], m[i - k]); }
      }
    }
  }

  predicate Agree(a: nat, b: nat) {
    a == 1 || b == 1 || a == b
  }

  function TimesLora(l: LoraTensor, m: Tensor): LoraTensor
    requires l.Valid() && Scales(m, l)
  {
    LoraTensor(l.A, Times(l.B, Pad(m, l.Dim())))
  }

  lemma TimesAt(t: Tensor, m: Tensor, idx: seq<nat>)
    requires t.Valid() && m.Valid() && Broadcasts(t.shape, m.shape) && InBounds(Broadcast(t.shape, m.shape), idx)
    ensures InBounds(t.shape, Clip(t.shape, idx)) && InBounds(m.shape, Clip(m.shape, idx))
    ensures At(Times(t, m), idx) == At(t, Clip(t.shape, idx)) * At(m, Clip(m.shape, idx))
  {
    ClipBounds(t.shape, m.shape, idx);
    TabulateAt(Broadcast(t.shape, m.shape), i requires InBounds(Broadcast(t.shape, m.shape), i) =>
      ClipBounds(t.shape, m.shape, i); At(t, Clip(t.shape, i)) * At(m, Clip(m.shape, i)), idx);
  }

  /** `k` is `l` with B multiplied by the padded `m`. */
  ghost predicate Scaled(l: LoraTensor, m: Tensor, k: LoraTensor) {
    && l.Valid() && m.Valid() && k.Valid() && |m.shape| == l.Dim() && m.shape[l.Dim() - 1] == 1
    && Broadcasts(l.B.shape, m.shape) && Broadcasts(l.Shape(), m.shape)
    && k == LoraTensor(l.A, Times(l.B, m)) && k.Rank() == l.Rank() && k.Shape() == Broadcast(l.Shape(), m.shape)
  }

  lemma ScaledShape(l: LoraTensor, m: Tensor)
    requires l.Valid() && Scales(m, l)
    ensures Scaled(l, Pad(m, l.Dim()), TimesLora(l, m))
  {
    hide Prod;
    hide Times;
    var n, p, k := l.Dim(), Pad(m, l.Dim()), TimesLora(l, m);
    assert p.shape[n - 1] == 1;
    assert k.B.shape[n - 1] == l.B.shape[n - 1];
    assert k.Valid();
    assert k.Shape() == Broadcast(l.Shape(), p.shape);
  }

  lemma ClippedIndices(l: LoraTensor, m: Tensor, k: LoraTensor, idx: seq<nat>, r: nat)
    requires Scaled(l, m, k) && InBounds(k.Shape(), idx) && r < l.Rank()
    ensures var jdx := Clip(l.Shape(), idx);
      && InBounds(l.Shape(), jdx) && Clip(l.B.shape, IndexB(idx, r)) == IndexB(jdx, r)
      && IndexA(l.A.shape, jdx, r) == IndexA(l.A.shape, idx, r)
      && Clip(m.shape, IndexB(idx, r)) == Clip(m.shape, idx)
  {
    hide Prod;
    hide Times;
    ClipBounds(l.Shape(), m.shape, idx);
  }

  lemma TimesTerm(l: LoraTensor, m: Tensor, k: LoraTensor, idx: seq<nat>, r: nat)
    requires Scaled(l, m, k) && InBounds(k.Shape(), idx) && r < l.Rank()
    requires InBounds(l.Shape(), Clip(l.Shape(), idx)) && InBounds(m.shape, Clip(m.shape, idx))
    ensures Term(k, idx, r) == Term(l, Clip(l.Shape(), idx), r) * At(m, Clip(m.shape, idx))
  {
    hide Prod;
    hide Flat;
    hide Times;
    var jdx := Clip(l.Shape(), idx);
    ClippedIndices(l, m, k, idx, r);
    IndexBounds(k, idx, r);
    IndexBounds(l, jdx, r);
    TimesAt(l.B, m, IndexB(idx, r));
    ScaledTerm(At(l.B, IndexB(jdx, r)), At(m, Clip(m.shape, idx)), At(l.A, IndexA(l.A.shape, jdx, r)));
  }

  /** Scaling B scales the product. */
  lemma TimesCommutes(l: LoraTensor, m: Tensor)
    requires l.Valid() && Scales(m, l)
    ensures TimesLora(l, m).Valid() && TimesLora(l, m).Rank() == l.Rank()
    ensures Broadcasts(l.Shape(), Pad(m, l.Dim()).shape) && Dense(TimesLora(l, m)) == Times(Dense(l), Pad(m, l.Dim()))
  {
    hide Prod;
    hide Flat;
    hide At;
    hide Dense;
    hide Entry;
    hide Times;
    var k, p := TimesLora(l, m), Pad(m, l.Dim());
    ScaledShape(l, m);
    forall idx | InBounds(k.Shape(), idx) ensures At(Dense(k), idx) == At(Times(Dense(l), p), idx) {
      TimesAt(Dense(l), p, idx);
      DenseAt(l, Clip(l.Shape(), idx));
      DenseAt(k, idx);
      TimesEntry(l, p, k, idx);
    }
    Extensional(Dense(k), Times(Dense(l), p));
  }

  lemma TimesEntry(l: LoraTensor, m: Tensor, k: LoraTensor, idx: seq<nat>)
    requires Scaled(l, m, k) && InBounds(k.Shape(), idx)
    requires InBounds(l.Shape(), Clip(l.Shape(), idx)) && InBounds(m.shape, Clip(m.shape, idx))
    ensures Entry(k, idx) == Entry(l, Clip(l.Shape(), idx)) * At(m, Clip(m.shape, idx))
  {
    hide Prod;
    hide Flat;
    hide At;
    hide Term;
    hide Times;
    var jdx := Clip(l.Shape(), idx);
    forall r | 0 <= r < l.Rank() ensures Term(k, idx, r) == Term(l, jdx, r) * At(m, Clip(m.shape, idx)) {
      TimesTerm(l, m, k, idx, r);
    }
    SumScaled(l.Rank(), r requires 0 <= r < l.Rank() => Term(l, jdx, r),
              r requires 0 <= r < k.Rank() => Term(k, idx, r), At(m, Clip(m.shape, idx)));
  }

  lemma ScaledTerm(b: int, c: int, a: int)
    ensures (b * c) * a == (b * a) * c
  {
  }

  // ---- Stacking along a new first dimension ----

  function As(ls: seq<LoraTensor>): (r: seq<Tensor>)
    ensures |r| == |ls| && forall i :: 0 <= i < |ls| ==> r[i] == ls[i].A
  {
    seq(|ls|, i requires 0 <= i < |ls| => ls[i].A)
  }

  function Bs(ls: seq<LoraTensor>): (r: seq<Tensor>)
    ensures |r| == |ls| && forall i :: 0 <= i < |ls| ==> r[i] == ls[i].B
  {
    seq(|ls|, i requires 0 <= i < |ls| => ls[i].B)
  }

  function Products(ls: seq<LoraTensor>): (r: seq<Tensor>)
    requires forall i :: 0 <= i < |ls| ==> ls[i].Valid()
    ensures |r| == |ls| && forall i :: 0 <= i < |ls| ==> r[i] == Dense(ls[i])
  {
    seq(|ls|, i requires 0 <= i < |ls| => Dense(ls[i]))
  }

  /** What `torch.stack` asks of both lists of factors. */
  predicate Stackable(ls: seq<LoraTensor>) {
    && ls != [] && (forall i :: 0 <= i < |ls| ==> ls[i].Valid())
    && SameShape(As(ls)) && SameShape(Bs(ls))
  }

  function StackLora(ls: seq<LoraTensor>): LoraTensor
    requires Stackable(ls)
  {
    LoraTensor(Stack(As(ls)), Stack(Bs(ls)))
  }

  lemma StackAt(ts: seq<Tensor>, idx: seq<nat>)
    requires SameShape(ts) && InBounds([|ts|] + ts[0].shape, idx)
    ensures idx[0] < |ts| && InBounds(ts[idx[0]].shape, idx[1..]) && At(Stack(ts), idx) == At(ts[idx[0]], idx[1..])
  {
    StackBounds(|ts|, ts[0].shape, idx);
    TabulateAt([|ts|] + ts[0].shape, i requires InBounds([|ts|] + ts[0].shape, i) =>
      StackBounds(|ts|, ts[0].shape, i); At(ts[i[0]], i[1..]), idx);
  }

  lemma StackPiece(ls: seq<LoraTensor>, i: nat)
    requires Stackable(ls) && i < |ls|
    ensures ls[i].A.shape == ls[0].A.shape && ls[i].B.shape == ls[0].B.shape
    ensures ls[i].Shape() == ls[0].Shape() && ls[i].Rank() == ls[0].Rank()
  {
    assert As(ls)[i].shape == As(ls)[0].shape && Bs(ls)[i].shape == Bs(ls)[0].shape;
  }

  /** Factors with one more, equal, first dimension. */
  lemma LeadValid(l: LoraTensor, A: Tensor, B: Tensor, n: nat)
    requires l.Valid() && A.Valid() && B.Valid() && A.shape == [n] + l.A.shape && B.shape == [n] + l.B.shape
    ensures var m := LoraTensor(A, B); m.Valid() && m.Rank() == l.Rank() && m.Shape() == [n] + l.Shape()
  {
    assert forall i :: 1 <= i <= l.Dim() ==> A.shape[i] == l.A.shape[i - 1] && B.shape[i] == l.B.shape[i - 1];
    assert LoraTensor(A, B).Valid();
    assert LoraTensor(A, B).Shape() == [n] + l.Shape();
  }

  lemma StackValid(ls: seq<LoraTensor>)
    requires Stackable(ls)
    ensures var m := StackLora(ls);
      m.Valid() && m.Rank() == ls[0].Rank() && m.Shape() == [|ls|] + ls[0].Shape()
    ensures SameShape(Products(ls))
  {
    LeadValid(ls[0], Stack(As(ls)), Stack(Bs(ls)), |ls|);
    forall i | 0 <= i < |ls| ensures Products(ls)[i].shape == Products(ls)[0].shape {
      StackPiece(ls, i);
    }
  }

  /** Index arithmetic of a leading dimension of size `n`. */
  lemma TailIndexB(idx: seq<nat>, r: nat)
    requires |idx| >= 2
    ensures IndexB(idx, r)[0] == idx[0] && IndexB(idx, r)[1..] == IndexB(idx[1..], r)
  {
    assert IndexB(idx, r)[1..] == IndexB(idx[1..], r);
  }

  lemma TailIndexA(n: nat, shape: seq<nat>, idx: seq<nat>, r: nat)
    requires |shape| >= 2 && |idx| == |shape| + 1 && idx[0] < n
    ensures IndexA([n] + shape, idx, r)[0] == idx[0]
    ensures IndexA([n] + shape, idx, r)[1..] == IndexA(shape, idx[1..], r)
  {
    var s, a, b := [n] + shape, IndexA([n] + shape, idx, r), IndexA(shape, idx[1..], r);
    forall i | 0 <= i < |shape| ensures a[i + 1] == b[i] {
      assert s[i + 1] == shape[i] && idx[1..][i] == idx[i + 1];
    }
    assert a[1..] == b;
  }

  lemma StackTerm(ls: seq<LoraTensor>, m: LoraTensor, idx: seq<nat>, r: nat)
    requires Stackable(ls) && m == StackLora(ls) && m.Valid() && InBounds(m.Shape(), idx) && r < m.Rank()
    requires idx[0] < |ls| && InBounds(ls[idx[0]].Shape(), idx[1..]) && r < ls[idx[0]].Rank()
    ensures Term(m, idx, r) == Term(ls[idx[0]], idx[1..], r)
  {
    IndexBounds(m, idx, r);
    IndexBounds(ls[idx[0]], idx[1..], r);
    TailIndexB(idx, r);
    TailIndexA(|ls|, ls[0].A.shape, idx, r);
    StackAt(Bs(ls), IndexB(idx, r));
    StackAt(As(ls), IndexA(m.A.shape, idx, r));
    assert As(ls)[idx[0]].shape == As(ls)[0].shape;
  }

  lemma StackCommutes(ls: seq<LoraTensor>)
    requires Stackable(ls)
    ensures StackLora(ls).Valid() && SameShape(Products(ls)) && Dense(StackLora(ls)) == Stack(Products(ls))
  {
    var m, ts := StackLora(ls), Products(ls);
    StackValid(ls);
    forall idx | InBounds(m.Shape(), idx) ensures At(Dense(m), idx) == At(Stack(ts), idx) {
      StackAt(ts, idx);
      var l := ls[idx[0]];
      StackPiece(ls, idx[0]);
      forall r | 0 <= r < m.Rank() ensures Term(m, idx, r) == Term(l, idx[1..], r) {
        StackTerm(ls, m, idx, r);
      }
      EntryEqual(m, idx, l, idx[1..]);
      DenseAt(m, idx);
      DenseAt(l, idx[1..]);
    }
    Extensional(Dense(m), Stack(ts));
  }

  // ---- Concatenating along the first dimension ----

  /** Matrices that share A. */
  predicate ColumnCatable(ls: seq<LoraTensor>) {
    && ls != [] && (forall i :: 0 <= i < |ls| ==> ls[i].Valid() && ls[i].Dim() == 2 && ls[i].A == ls[0].A)
  }

  function CatColumns(ls: seq<LoraTensor>): LoraTensor
    requires ColumnCatable(ls)
  {
    assert Catable(Bs(ls)) by {
      forall i | 0 <= i < |ls| ensures Bs(ls)[i].shape[1..] == Bs(ls)[0].shape[1..] {
        assert ls[i].B.shape[1] == ls[i].A.shape[0];
      }
    }
    LoraTensor(ls[0].A, Cat(Bs(ls)))
  }

  lemma CatAt(ts: seq<Tensor>, idx: seq<nat>)
    requires Catable(ts) && InBounds([Rows(ts)] + ts[0].shape[1..], idx)
    ensures idx[0] < Rows(ts)
    ensures var (k, j) := Locate(ts, idx[0]);
      InBounds(ts[k].shape, [j] + idx[1..]) && At(Cat(ts), idx) == At(ts[k], [j] + idx[1..])
  {
    CatBounds(ts, idx);
    TabulateAt([Rows(ts)] + ts[0].shape[1..], i requires InBounds([Rows(ts)] + ts[0].shape[1..], i) =>
      CatBounds(ts, i); At(ts[Locate(ts, i[0]).0], [Locate(ts, i[0]).1] + i[1..]), idx);
  }

  /** The row of the last piece, or one of the pieces before it. */
  lemma LocateLast(ts: seq<Tensor>, i: nat)
    requires (forall k :: 0 <= k < |ts| ==> ts[k].shape != []) && ts != []
    ensures var n := |ts| - 1; var before := Rows(ts[..n]);
      && Rows(ts) == before + ts[n].shape[0]
      && (i < before ==> Locate(ts, i) == Locate(ts[..n], i))
      && (before <= i < Rows(ts) ==> Locate(ts, i) == (n, i - before))
  {
  }

  lemma {:induction false} LocateRow(ts: seq<Tensor>, k: nat, j: nat)
    requires (forall i :: 0 <= i < |ts| ==> ts[i].shape != []) && k < |ts| && j < ts[k].shape[0]
    ensures Rows(ts[..k]) + j < Rows(ts) && Locate(ts, Rows(ts[..k]) + j) == (k, j)
    decreases |ts|
  {
    hide Rows;
    hide Locate;
    var n := |ts| - 1;
    LocateLast(ts, Rows(ts[..k]) + j);
    if k < n {
      LocateRow(ts[..n], k, j);
      assert ts[..n][..k] == ts[..k];
    }
  }

  /** In a concatenation, row `j` of piece `k` comes after all rows of the pieces before it. */
  lemma CatRow(ts: seq<Tensor>, k: nat, j: nat, rest: seq<nat>)
    requires Catable(ts) && k < |ts| && j < ts[k].shape[0] && InBounds(ts[0].shape[1..], rest)
    ensures var idx := [Rows(ts[..k]) + j] + rest;
      && InBounds(Cat(ts).shape, idx) && InBounds(ts[k].shape, [j] + rest) && At(Cat(ts), idx) == At(ts[k], [j] + rest)
    ensures Rows(ts[..0]) == 0 && Rows(ts[..k + 1]) == Rows(ts[..k]) + ts[k].shape[0] && Rows(ts[..|ts|]) == Cat(ts).shape[0]
  {
    hide Prod;
    hide At;
    hide Cat;
    hide Locate;
    LocateRow(ts, k, j);
    assert ts[..k + 1][..k] == ts[..k] && ts[..|ts|] == ts;
    hide Rows;
    CatAt(ts, [Rows(ts[..k]) + j] + rest);
  }

  /** Lists with the same first dimensions locate rows alike. */
  lemma {:induction false} LocateAlike(ts: seq<Tensor>, us: seq<Tensor>, i: nat)
    requires |ts| == |us|
    requires forall k :: 0 <= k < |ts| ==> ts[k].shape != [] && us[k].shape != [] && ts[k].shape[0] == us[k].shape[0]
    ensures Rows(ts) == Rows(us) && (i < Rows(ts) ==> Locate(ts, i) == Locate(us, i))
    decreases |ts|
  {
    if ts != [] {
      LocateAlike(ts[..|ts| - 1], us[..|us| - 1], i);
    }
  }

  lemma ColumnTerm(ls: seq<LoraTensor>, m: LoraTensor, idx: seq<nat>, r: nat, k: nat, j: nat)
    requires ColumnCatable(ls) && Catable(Bs(ls)) && m == LoraTensor(ls[0].A, Cat(Bs(ls))) && m.Valid()
    requires InBounds(m.Shape(), idx) && r < m.Rank() && idx[0] < Rows(Bs(ls)) && (k, j) == Locate(Bs(ls), idx[0])
    requires InBounds(ls[k].Shape(), [j] + idx[1..]) && r < ls[k].Rank()
    ensures Term(m, idx, r) == Term(ls[k], [j] + idx[1..], r)
  {
    hide Prod;
    hide Flat;
    hide Cat;
    hide Locate;
    var jdx := [j] + idx[1..];
    IndexBounds(m, idx, r);
    CatAt(Bs(ls), IndexB(idx, r));
    assert [j] + IndexB(idx, r)[1..] == IndexB(jdx, r);
    assert IndexA(m.A.shape, idx, r) == [r, idx[1]] == IndexA(m.A.shape, jdx, r);
  }

  lemma ColumnShapes(ls: seq<LoraTensor>)
    requires ColumnCatable(ls)
    ensures Catable(Bs(ls)) && Catable(Products(ls)) && Rows(Products(ls)) == Rows(Bs(ls))
    ensures var m := LoraTensor(ls[0].A, Cat(Bs(ls)));
      m.Valid() && m.Rank() == ls[0].Rank() && m.Shape() == [Rows(Bs(ls))] + Products(ls)[0].shape[1..]
  {
    hide Rows;
    hide Prod;
    hide Dense;
    hide Cat;
    hide Locate;
    forall i | 0 <= i < |ls|
      ensures Products(ls)[i].shape[1..] == Products(ls)[0].shape[1..] && Bs(ls)[i].shape[1..] == Bs(ls)[0].shape[1..]
    {
      assert ls[i].Shape()[1..] == [ls[0].A.shape[1]] && ls[0].Shape()[1..] == [ls[0].A.shape[1]];
      assert ls[i].B.shape[1..] == [ls[0].A.shape[0]] && ls[0].B.shape[1..] == [ls[0].A.shape[0]];
    }
    LocateAlike(Products(ls), Bs(ls), 0);
  }

  lemma ColumnEntry(ls: seq<LoraTensor>, m: LoraTensor, idx: seq<nat>)
    requires ColumnCatable(ls) && Catable(Bs(ls)) && m == LoraTensor(ls[0].A, Cat(Bs(ls))) && m.Valid()
    requires InBounds(m.Shape(), idx) && idx[0] < Rows(Bs(ls))
    requires var (k, j) := Locate(Bs(ls), idx[0]); InBounds(ls[k].Shape(), [j] + idx[1..])
    ensures var (k, j) := Locate(Bs(ls), idx[0]); Entry(m, idx) == Entry(ls[k], [j] + idx[1..])
  {
    hide Prod;
    hide Flat;
    hide At;
    hide Cat;
    hide Term;
    var (k, j) := Locate(Bs(ls), idx[0]);
    forall r | 0 <= r < m.Rank() ensures Term(m, idx, r) == Term(ls[k], [j] + idx[1..], r) {
      ColumnTerm(ls, m, idx, r, k, j);
    }
    EntryEqual(m, idx, ls[k], [j] + idx[1..]);
  }

  /** Matrices sharing A: concatenating the columns concatenates the products. */
  lemma CatColumnsCommutes(ls: seq<LoraTensor>)
    requires ColumnCatable(ls)
    ensures CatColumns(ls).Valid() && Catable(Products(ls)) && Dense(CatColumns(ls)) == Cat(Products(ls))
  {
    var m, ts := CatColumns(ls), Products(ls);
    ColumnShapes(ls);
    forall idx | InBounds(m.Shape(), idx) ensures At(Dense(m), idx) == At(Cat(ts), idx) {
      CatAt(ts, idx);
      var (k, j) := Locate(ts, idx[0]);
      LocateAlike(ts, Bs(ls), idx[0]);
      ColumnEntry(ls, m, idx);
      DenseAt(m, idx);
      DenseAt(ls[k], [j] + idx[1..]);
    }
    Extensional(Dense(m), Cat(ts));
  }
}
