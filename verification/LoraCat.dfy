/** Concatenating batches of low-rank tensors: when the concatenated factors have a product, and which. */
module LoraCat {
  import opened Text
  import opened Tensors
  import opened Lora
  import opened LoraProducts

  /** Batched tensors whose factors `torch.cat` can concatenate. */
  predicate Joinable(ls: seq<LoraTensor>) {
    && ls != [] && (forall i :: 0 <= i < |ls| ==> ls[i].Valid() && ls[i].Dim() == ls[0].Dim())
    && ls[0].Dim() > 2 && Catable(As(ls)) && Catable(Bs(ls))
  }

  /** What `torch.cat` makes of them, whether or not the factors fit each other. */
  function CatPair(ls: seq<LoraTensor>): LoraTensor
    requires Joinable(ls)
  {
    LoraTensor(Cat(As(ls)), Cat(Bs(ls)))
  }

  /** Every piece has as many batches in A as in B. */
  predicate Matching(ls: seq<LoraTensor>) {
    forall i :: 0 <= i < |ls| ==> ls[i].A.shape != [] && ls[i].B.shape != [] && ls[i].A.shape[0] == ls[i].B.shape[0]
  }

  /** The concatenated factors fit each other exactly when A has one batch in all or as many as B. */
  lemma CatPairValid(ls: seq<LoraTensor>)
    requires Joinable(ls)
    ensures CatPair(ls).Valid() <==> Rows(As(ls)) == 1 || Rows(As(ls)) == Rows(Bs(ls))
  {
    hide Prod;
    hide Cat;
    assert As(ls)[0] == ls[0].A && Bs(ls)[0] == ls[0].B;
    HeadFits(ls[0], CatPair(ls), Rows(As(ls)), Rows(Bs(ls)));
  }

  lemma HeadFits(l: LoraTensor, m: LoraTensor, a: nat, b: nat)
    requires l.Valid() && l.Dim() > 2 && m.A.Valid() && m.B.Valid()
    requires m.A.shape == [a] + l.A.shape[1..] && m.B.shape == [b] + l.B.shape[1..]
    ensures m.Valid() <==> a == 1 || a == b
  {
    hide Prod;
    assert |m.A.shape| == |m.B.shape| == l.Dim() == m.Dim() && m.A.shape[0] == a && m.B.shape[0] == b;
    assert m.Valid() ==> m.A.shape[0] == 1 || m.A.shape[0] == m.B.shape[0];
    assert forall i :: 0 < i < l.Dim() ==> m.A.shape[i] == l.A.shape[i] && m.B.shape[i] == l.B.shape[i];
  }

  lemma {:induction false} RowsCompare(ts: seq<Tensor>, us: seq<Tensor>)
    requires |ts| == |us|
    requires forall i :: 0 <= i < |ts| ==> ts[i].shape != [] && us[i].shape != [] && us[i].shape[0] > 0
    requires forall i :: 0 <= i < |ts| ==> ts[i].shape[0] == 1 || ts[i].shape[0] == us[i].shape[0]
    ensures |ts| <= Rows(ts) <= Rows(us)
    ensures Rows(ts) == Rows(us) <==> forall i :: 0 <= i < |ts| ==> ts[i].shape[0] == us[i].shape[0]
    decreases |ts|
  {
    if ts != [] {
      var n := |ts| - 1;
      RowsCompare(ts[..n], us[..n]);
      assert forall i :: 0 <= i < n ==> ts[..n][i] == ts[i] && us[..n][i] == us[i];
    }
  }

  /** If no batch is empty, they fit exactly when there is one piece or every piece's factors have the same batches. */
  lemma CatFits(ls: seq<LoraTensor>)
    requires Joinable(ls) && forall i :: 0 <= i < |ls| ==> ls[i].B.shape[0] > 0
    ensures CatPair(ls).Valid() <==> |ls| == 1 || Matching(ls)
  {
    CatPairValid(ls);
    var ts, us := As(ls), Bs(ls);
    forall i | 0 <= i < |ls| ensures ts[i].shape[0] == 1 || ts[i].shape[0] == us[i].shape[0] {
      assert ls[i].A.shape[0] == 1 || ls[i].A.shape[0] == ls[i].B.shape[0];
    }
    RowsCompare(ts, us);
    assert (forall i :: 0 <= i < |ts| ==> ts[i].shape[0] == us[i].shape[0]) <==> Matching(ls);
    if |ls| == 1 { OneRows(ts); OneRows(us); }
  }

  lemma OneRows(ts: seq<Tensor>)
    requires |ts| == 1 && ts[0].shape != []
    ensures Rows(ts) == ts[0].shape[0]
  {
    assert ts[..0] == [];
  }

  // ---- Which batches meet ----

  /** The row of the concatenated A that meets batch `i` of the concatenated B. */
  function RowOfA(ls: seq<LoraTensor>, i: nat): nat
    requires Joinable(ls)
  {
    if Rows(As(ls)) == 1 then 0 else i
  }

  /** All pieces agree beyond the first dimension. */
  lemma CatPiece(ls: seq<LoraTensor>, i: nat)
    requires Joinable(ls) && i < |ls|
    ensures ls[i].Dim() == ls[0].Dim() && ls[i].Rank() == ls[0].Rank()
    ensures ls[i].Shape()[1..] == ls[0].Shape()[1..]
    ensures ls[i].A.shape[1..] == ls[0].A.shape[1..] && ls[i].B.shape[1..] == ls[0].B.shape[1..]
  {
    assert As(ls)[i].shape[1..] == As(ls)[0].shape[1..] && Bs(ls)[i].shape[1..] == Bs(ls)[0].shape[1..];
    TailShape(ls[i]);
    TailShape(ls[0]);
  }

  lemma TailShape(l: LoraTensor)
    requires l.Valid() && l.Dim() > 2
    ensures |l.A.shape[1..]| == |l.B.shape[1..]| == l.Dim() - 1
    ensures l.Rank() == l.B.shape[1..][l.Dim() - 2]
    ensures l.Shape()[1..] == l.B.shape[1..][l.Dim() - 2 := l.A.shape[1..][l.Dim() - 2]]
  {
  }

  lemma PairShape(ls: seq<LoraTensor>)
    requires Joinable(ls) && CatPair(ls).Valid()
    ensures Catable(Products(ls)) && Rows(Products(ls)) == Rows(Bs(ls))
    ensures var m := CatPair(ls); m.Rank() == ls[0].Rank() && m.Shape() == [Rows(Bs(ls))] + ls[0].Shape()[1..]
    ensures Cat(Products(ls)).shape == CatPair(ls).Shape()
  {
    hide Prod;
    hide Dense;
    hide Rows;
    hide Locate;
    hide Cat;
    forall i | 0 <= i < |ls| ensures Products(ls)[i].shape[1..] == Products(ls)[0].shape[1..] {
      CatPiece(ls, i);
    }
    LocateAlike(Products(ls), Bs(ls), 0);
    HeadShape(ls[0], CatPair(ls), Rows(Bs(ls)));
  }

  lemma PairIndex(ls: seq<LoraTensor>, m: LoraTensor, idx: seq<nat>)
    requires Joinable(ls) && m == CatPair(ls) && m.Valid() && InBounds(m.Shape(), idx)
    ensures |idx| > 2 && idx[0] < Rows(Bs(ls)) && InBounds(ls[0].Shape()[1..], idx[1..])
  {
    hide Prod;
    hide Cat;
    hide CatPair;
    hide Rows;
    PairShape(ls);
    StackBounds(Rows(Bs(ls)), ls[0].Shape()[1..], idx);
  }

  lemma HeadShape(l: LoraTensor, m: LoraTensor, n: nat)
    requires l.Valid() && l.Dim() > 2 && m.Valid()
    requires m.A.shape[1..] == l.A.shape[1..] && m.B.shape == [n] + l.B.shape[1..]
    ensures m.Rank() == l.Rank() && m.Shape() == [n] + l.Shape()[1..]
  {
    assert m.Dim() == l.Dim() == |m.A.shape|;
    TailShape(l);
    TailShape(m);
    assert m.Shape() == [m.Shape()[0]] + m.Shape()[1..];
  }

  /** The terms of an entry of a concatenation, factor by factor. */
  lemma CatIndexB(ts: seq<Tensor>, idx: seq<nat>, r: nat)
    requires Catable(ts) && |idx| >= 2 && InBounds([Rows(ts)] + ts[0].shape[1..], IndexB(idx, r))
    ensures idx[0] < Rows(ts)
    ensures var (k, j) := Locate(ts, idx[0]);
      InBounds(ts[k].shape, IndexB([j] + idx[1..], r)) && At(Cat(ts), IndexB(idx, r)) == At(ts[k], IndexB([j] + idx[1..], r))
  {
    CatAt(ts, IndexB(idx, r));
    var (k, j) := Locate(ts, idx[0]);
    assert [j] + IndexB(idx, r)[1..] == IndexB([j] + idx[1..], r);
  }

  lemma CatIndexA(ts: seq<Tensor>, idx: seq<nat>, r: nat)
    requires Catable(ts) && |ts[0].shape| == |idx| > 2 && idx[0] < Rows(ts)
    requires InBounds([Rows(ts)] + ts[0].shape[1..], IndexA([Rows(ts)] + ts[0].shape[1..], idx, r))
    ensures var (k, j) := Locate(ts, idx[0]);
      && |ts[k].shape| == |idx|
      && InBounds(ts[k].shape, IndexA(ts[k].shape, [j] + idx[1..], r))
      && At(Cat(ts), IndexA([Rows(ts)] + ts[0].shape[1..], idx, r)) == At(ts[k], IndexA(ts[k].shape, [j] + idx[1..], r))
  {
    var s := [Rows(ts)] + ts[0].shape[1..];
    var (k, j) := Locate(ts, idx[0]);
    assert s[1..] == ts[0].shape[1..] == ts[k].shape[1..];
    assert |ts[k].shape| == |ts[k].shape[1..]| + 1;
    HeadIndexA(s, ts[k].shape, idx, j, r);
    CatAt(ts, IndexA(s, idx, r));
  }

  /** Index arithmetic of a first dimension that is not broadcast. */
  lemma HeadIndexA(s: seq<nat>, t: seq<nat>, idx: seq<nat>, j: nat, r: nat)
    requires |s| == |t| == |idx| > 2 && s[1..] == t[1..] && idx[0] < s[0] && j < t[0]
    ensures IndexA(s, idx, r)[0] == idx[0]
    ensures [j] + IndexA(s, idx, r)[1..] == IndexA(t, [j] + idx[1..], r)
  {
    var a, b := [j] + IndexA(s, idx, r)[1..], IndexA(t, [j] + idx[1..], r);
    forall i | 0 <= i < |idx| ensures a[i] == b[i] {
      if i > 0 { assert s[1..][i - 1] == t[1..][i - 1] && ([j] + idx[1..])[i] == idx[i]; }
    }
  }

  lemma IndexABroadcast(s: seq<nat>, idx: seq<nat>, r: nat)
    requires |s| == |idx| > 2 && s[0] == 1
    ensures IndexA(s, idx[0 := 0], r) == IndexA(s, idx, r)
  {
  }

  /** Where batch `i` of the concatenation comes from: the piece and row of B, and those of A. */
  ghost predicate Meet(ls: seq<LoraTensor>, i: nat, kb: nat, jb: nat, ka: nat, ja: nat) {
    && Joinable(ls) && i < Rows(Bs(ls)) && RowOfA(ls, i) < Rows(As(ls))
    && Locate(Bs(ls), i) == (kb, jb) && Locate(As(ls), RowOfA(ls, i)) == (ka, ja)
  }

  /** A term of the concatenated factors: row `jb` of piece `kb` of B times row `ja` of piece `ka` of A. */
  lemma CatTerm(ls: seq<LoraTensor>, idx: seq<nat>, r: nat, kb: nat, jb: nat, ka: nat, ja: nat)
    requires Joinable(ls) && CatPair(ls).Valid() && InBounds(CatPair(ls).Shape(), idx) && r < CatPair(ls).Rank()
    requires Meet(ls, idx[0], kb, jb, ka, ja)
    ensures var b, a := [jb] + idx[1..], [ja] + idx[1..];
      && |ls[ka].A.shape| == |idx| > 2
      && InBounds(ls[kb].B.shape, IndexB(b, r)) && InBounds(ls[ka].A.shape, IndexA(ls[ka].A.shape, a, r))
      && Term(CatPair(ls), idx, r) == At(ls[kb].B, IndexB(b, r)) * At(ls[ka].A, IndexA(ls[ka].A.shape, a, r))
  {
    hide Prod;
    hide Flat;
    hide At;
    hide Cat;
    hide Locate;
    hide Rows;
    var m := CatPair(ls);
    var adx := idx[0 := RowOfA(ls, idx[0])];
    IndexBounds(m, idx, r);
    CatIndexB(Bs(ls), idx, r);
    if Rows(As(ls)) == 1 { IndexABroadcast(m.A.shape, idx, r); } else { assert adx == idx; }
    assert adx[1..] == idx[1..];
    CatIndexA(As(ls), adx, r);
  }

  /** In the products, every piece meets itself. */
  lemma PieceBounds(ls: seq<LoraTensor>, m: LoraTensor, idx: seq<nat>, k: nat, j: nat)
    requires Joinable(ls) && m == CatPair(ls) && m.Valid() && InBounds(m.Shape(), idx)
    requires idx[0] < Rows(Bs(ls)) && Locate(Bs(ls), idx[0]) == (k, j)
    ensures ls[k].Rank() == m.Rank() && InBounds(ls[k].Shape(), [j] + idx[1..])
    ensures Catable(Products(ls)) && InBounds(Cat(Products(ls)).shape, idx)
    ensures At(Cat(Products(ls)), idx) == Entry(ls[k], [j] + idx[1..])
  {
    hide Prod;
    hide CatPair;
    hide Cat;
    PairShape(ls);
    CatPiece(ls, k);
    LocateAlike(Products(ls), Bs(ls), idx[0]);
    ProductsAt(ls, Products(ls), idx, k, j);
  }

  lemma ProductsAt(ls: seq<LoraTensor>, ts: seq<Tensor>, idx: seq<nat>, k: nat, j: nat)
    requires |ts| == |ls| && Catable(ts) && InBounds([Rows(ts)] + ts[0].shape[1..], idx)
    requires k < |ls| && ls[k].Valid() && ts[k] == Dense(ls[k])
    requires idx[0] < Rows(ts) && Locate(ts, idx[0]) == (k, j)
    ensures InBounds(ls[k].Shape(), [j] + idx[1..]) && At(Cat(ts), idx) == Entry(ls[k], [j] + idx[1..])
  {
    hide Prod;
    hide Cat;
    hide Flat;
    hide Entry;
    hide Locate;
    hide Rows;
    CatAt(ts, idx);
    DenseAt(ls[k], [j] + idx[1..]);
  }

  lemma RowOfOne(shape: seq<nat>, rest: seq<nat>, x: nat, y: nat, r: nat)
    requires |shape| == |rest| + 1 > 2 && (x == y || shape[0] == 1)
    ensures IndexA(shape, [x] + rest, r) == IndexA(shape, [y] + rest, r)
  {
    if x != y {
      assert ([x] + rest)[0 := 0] == ([y] + rest)[0 := 0];
      IndexABroadcast(shape, [x] + rest, r);
      IndexABroadcast(shape, [y] + rest, r);
    }
  }

  lemma SameTerm(m: LoraTensor, idx: seq<nat>, l: LoraTensor, b: seq<nat>, a: seq<nat>, r: nat)
    requires m.Valid() && InBounds(m.Shape(), idx) && r < m.Rank() && l.Valid() && InBounds(l.Shape(), b) && r < l.Rank()
    requires |l.A.shape| == |a| == |b| && IndexA(l.A.shape, a, r) == IndexA(l.A.shape, b, r)
    requires InBounds(l.B.shape, IndexB(b, r)) && InBounds(l.A.shape, IndexA(l.A.shape, a, r))
    requires Term(m, idx, r) == At(l.B, IndexB(b, r)) * At(l.A, IndexA(l.A.shape, a, r))
    ensures Term(m, idx, r) == Term(l, b, r)
  {
    hide At;
    hide Prod;
    hide IndexA;
  }

  lemma MetTerm(ls: seq<LoraTensor>, m: LoraTensor, idx: seq<nat>, r: nat, k: nat, l: LoraTensor, jb: nat, ja: nat)
    requires Joinable(ls) && m == CatPair(ls) && m.Valid() && InBounds(m.Shape(), idx) && r < m.Rank()
    requires Meet(ls, idx[0], k, jb, k, ja) && l == ls[k] && (jb == ja || l.A.shape[0] == 1)
    requires l.Valid() && r < l.Rank() && InBounds(l.Shape(), [jb] + idx[1..])
    ensures Term(m, idx, r) == Term(l, [jb] + idx[1..], r)
  {
    hide Prod;
    hide Term;
    hide At;
    hide Joinable;
    hide CatPair;
    hide InBounds;
    hide Meet;
    hide IndexA;
    CatTerm(ls, idx, r, k, jb, k, ja);
    RowOfOne(l.A.shape, idx[1..], jb, ja, r);
    SameTerm(m, idx, l, [jb] + idx[1..], [ja] + idx[1..], r);
  }

  /** A batch of the concatenation whose A comes from the same batch as its B. */
  lemma MetEntry(ls: seq<LoraTensor>, m: LoraTensor, idx: seq<nat>, k: nat, jb: nat, ja: nat)
    requires Joinable(ls) && m == CatPair(ls) && m.Valid() && InBounds(m.Shape(), idx)
    requires Meet(ls, idx[0], k, jb, k, ja) && (jb == ja || ls[k].A.shape[0] == 1)
    ensures Catable(Products(ls)) && InBounds(Cat(Products(ls)).shape, idx)
    ensures At(Dense(m), idx) == At(Cat(Products(ls)), idx)
  {
    hide Prod;
    hide At;
    hide Cat;
    hide CatPair;
    hide Dense;
    hide Term;
    hide Entry;
    hide InBounds;
    hide Products;
    PairIndex(ls, m, idx);
    var b, l := [jb] + idx[1..], ls[k];
    PieceBounds(ls, m, idx, k, jb);
    forall r | 0 <= r < m.Rank() ensures Term(m, idx, r) == Term(l, b, r) {
      MetTerm(ls, m, idx, r, k, l, jb, ja);
    }
    DenseAt(m, idx);
    EntryEqual(m, idx, l, b);
  }

  /** The result has a product, and it is the concatenation of the products. */
  ghost predicate JoinRight(ls: seq<LoraTensor>)
    requires Joinable(ls)
  {
    CatPair(ls).Valid() && Catable(Products(ls)) && Dense(CatPair(ls)) == Cat(Products(ls))
  }

  // ---- When that is right ----

  /** The products are zero or have no entries. */
  predicate NoValues(ls: seq<LoraTensor>)
    requires Joinable(ls)
  {
    ls[0].Rank() == 0 || Prod(ls[0].Shape()[1..]) == 0
  }

  /** A has one batch in all; or every piece has as many in A as in B; or there are no values and the factors fit. */
  predicate JoinWhole(ls: seq<LoraTensor>)
    requires Joinable(ls)
  {
    Rows(As(ls)) == 1 || Matching(ls) || (Rows(As(ls)) == Rows(Bs(ls)) && NoValues(ls))
  }

  lemma {:induction false} OnlyRow(ts: seq<Tensor>, k: nat)
    requires (forall i :: 0 <= i < |ts| ==> ts[i].shape != []) && k < |ts| && ts[k].shape[0] > 0
    ensures Rows(ts) >= ts[k].shape[0]
    ensures Rows(ts) == 1 ==> Locate(ts, 0) == (k, 0)
    decreases |ts|
  {
    var n := |ts| - 1;
    if k < n { OnlyRow(ts[..n], k); }
  }

  lemma WholeMeets(ls: seq<LoraTensor>, i: nat) returns (k: nat, jb: nat, ja: nat)
    requires Joinable(ls) && (Rows(As(ls)) == 1 || Matching(ls)) && i < Rows(Bs(ls))
    ensures Meet(ls, i, k, jb, k, ja) && (jb == ja || ls[k].A.shape[0] == 1)
  {
    hide Prod;
    k, jb := Locate(Bs(ls), i).0, Locate(Bs(ls), i).1;
    assert Bs(ls)[k].shape[0] > 0;
    assert ls[k].A.shape[0] == 1 || ls[k].A.shape[0] == ls[k].B.shape[0];
    if Rows(As(ls)) == 1 {
      ja := 0;
      OnlyRow(As(ls), k);
    } else {
      ja := jb;
      LocateAlike(As(ls), Bs(ls), i);
    }
  }

  lemma MatchingRows(ls: seq<LoraTensor>)
    requires Joinable(ls) && JoinWhole(ls)
    ensures CatPair(ls).Valid()
  {
    hide Prod;
    CatPairValid(ls);
    if Matching(ls) { LocateAlike(As(ls), Bs(ls), 0); }
  }

  lemma InBoundsProd(shape: seq<nat>, idx: seq<nat>)
    requires InBounds(shape, idx)
    ensures Prod(shape) > 0
  {
    assert Flat(shape, idx) < Prod(shape);
  }

  lemma RankZero(l: LoraTensor, idx: seq<nat>)
    requires l.Valid() && InBounds(l.Shape(), idx) && l.Rank() == 0
    ensures Entry(l, idx) == 0
  {
  }

  /** Without values nothing can differ. */
  lemma NoValuesEntry(ls: seq<LoraTensor>, m: LoraTensor, idx: seq<nat>)
    requires Joinable(ls) && m == CatPair(ls) && m.Valid() && NoValues(ls) && InBounds(m.Shape(), idx)
    ensures Catable(Products(ls)) && InBounds(Cat(Products(ls)).shape, idx)
    ensures At(Dense(m), idx) == At(Cat(Products(ls)), idx)
  {
    hide Prod;
    hide At;
    hide Cat;
    hide CatPair;
    hide Dense;
    hide Entry;
    hide InBounds;
    hide Products;
    PairIndex(ls, m, idx);
    PairShape(ls);
    InBoundsProd(ls[0].Shape()[1..], idx[1..]);
    var (k, j) := Locate(Bs(ls), idx[0]);
    PieceBounds(ls, m, idx, k, j);
    DenseAt(m, idx);
    RankZero(m, idx);
    RankZero(ls[k], [j] + idx[1..]);
  }

  lemma JoinWholeRight(ls: seq<LoraTensor>)
    requires Joinable(ls) && JoinWhole(ls)
    ensures JoinRight(ls)
  {
    hide Prod;
    hide At;
    hide Cat;
    hide Dense;
    hide CatPair;
    hide Rows;
    hide Locate;
    hide NoValues;
    var m := CatPair(ls);
    MatchingRows(ls);
    PairShape(ls);
    forall idx | InBounds(m.Shape(), idx) ensures At(Dense(m), idx) == At(Cat(Products(ls)), idx) {
      StackBounds(Rows(Bs(ls)), ls[0].Shape()[1..], idx);
      if Rows(As(ls)) == 1 || Matching(ls) {
        var k, jb, ja := WholeMeets(ls, idx[0]);
        MetEntry(ls, m, idx, k, jb, ja);
      } else {
        NoValuesEntry(ls, m, idx);
      }
    }
    Extensional(Dense(m), Cat(Products(ls)));
  }

  // ---- When it is wrong ----

  /** Lists with as many rows in all, but not piece by piece, locate some row in different pieces. */
  lemma {:induction false} Misaligned(ts: seq<Tensor>, us: seq<Tensor>) returns (i: nat)
    requires |ts| == |us| && forall k :: 0 <= k < |ts| ==> ts[k].shape != [] && us[k].shape != []
    requires forall k :: 0 <= k < |ts| ==> ts[k].shape[0] == 1 || ts[k].shape[0] == us[k].shape[0]
    requires Rows(ts) == Rows(us) && exists k :: 0 <= k < |ts| && ts[k].shape[0] != us[k].shape[0]
    ensures i < Rows(ts) && Locate(ts, i).0 != Locate(us, i).0
    decreases |ts|
  {
    var n := |ts| - 1;
    if ts[n].shape[0] == us[n].shape[0] {
      i := Misaligned(ts[..n], us[..n]);
    } else if us[n].shape[0] == 0 {
      i := Rows(ts) - 1;
    } else {
      i := Rows(ts) - 2;
    }
  }

  function Constant(shape: seq<nat>, c: int): (t: Tensor)
    ensures t.Valid() && t.shape == shape && forall idx :: InBounds(shape, idx) ==> At(t, idx) == c
  {
    Tensor(shape, seq(Prod(shape), _ => c))
  }

  /** Factors of the same shapes. */
  ghost predicate SameShapes(ms: seq<LoraTensor>, ls: seq<LoraTensor>) {
    |ms| == |ls| && forall i :: 0 <= i < |ls| ==>
      ms[i].A.Valid() && ms[i].B.Valid() && ms[i].A.shape == ls[i].A.shape && ms[i].B.shape == ls[i].B.shape
  }

  lemma SamePieces(ms: seq<LoraTensor>, ls: seq<LoraTensor>)
    requires SameShapes(ms, ls) && Joinable(ls)
    ensures Joinable(ms) && ms[0].Shape() == ls[0].Shape() && ms[0].Rank() == ls[0].Rank()
  {
    hide Prod;
    forall i | 0 <= i < |ms|
      ensures ms[i].Valid() && ms[i].Dim() == ms[0].Dim()
      ensures As(ms)[i].shape[1..] == As(ms)[0].shape[1..] && Bs(ms)[i].shape[1..] == Bs(ms)[0].shape[1..]
    {
      assert As(ls)[i].shape[1..] == As(ls)[0].shape[1..] && Bs(ls)[i].shape[1..] == Bs(ls)[0].shape[1..];
      assert ls[i].Valid();
    }
  }

  lemma SameMatching(ms: seq<LoraTensor>, ls: seq<LoraTensor>)
    requires SameShapes(ms, ls)
    ensures Matching(ms) <==> Matching(ls)
  {
    hide Prod;
  }

  lemma SameShapesJoinable(ms: seq<LoraTensor>, ls: seq<LoraTensor>)
    requires SameShapes(ms, ls) && Joinable(ls)
    ensures Joinable(ms) && (JoinWhole(ms) <==> JoinWhole(ls)) && (CatPair(ms).Valid() <==> CatPair(ls).Valid())
  {
    hide Prod;
    hide Rows;
    hide Locate;
    hide Matching;
    hide CatPair;
    SamePieces(ms, ls);
    SameMatching(ms, ls);
    LocateAlike(As(ms), As(ls), 0);
    LocateAlike(Bs(ms), Bs(ls), 0);
    CatPairValid(ms);
    CatPairValid(ls);
  }

  /** Piece `k` has `k` throughout A and 1 throughout B. */
  function Numbered(ls: seq<LoraTensor>): (ms: seq<LoraTensor>)
    ensures |ms| == |ls|
  {
    seq(|ls|, k requires 0 <= k < |ls| => LoraTensor(Constant(ls[k].A.shape, k), Constant(ls[k].B.shape, 1)))
  }

  lemma {:induction false} SumConstant(n: nat, f: nat --> int, c: int)
    requires forall r :: 0 <= r < n ==> f.requires(r) && f(r) == c
    ensures Sum(n, f) == n * c
    decreases n
  {
    if n > 0 { SumConstant(n - 1, f, c); }
  }

  lemma ConstantTerm(
    m: LoraTensor, idx: seq<nat>, r: nat, B: Tensor, A: Tensor, i: seq<nat>, j: seq<nat>, c: int)
    requires m.Valid() && InBounds(m.Shape(), idx) && r < m.Rank()
    requires A == Constant(A.shape, c) && B == Constant(B.shape, 1) && InBounds(B.shape, i) && InBounds(A.shape, j)
    requires Term(m, idx, r) == At(B, i) * At(A, j)
    ensures Term(m, idx, r) == c
  {
    hide Term;
    hide At;
    hide Prod;
    hide InBounds;
  }

  lemma ConstantEntry(m: LoraTensor, idx: seq<nat>, c: int)
    requires m.Valid() && InBounds(m.Shape(), idx)
    requires forall r :: 0 <= r < m.Rank() ==> Term(m, idx, r) == c
    ensures Entry(m, idx) == m.Rank() * c
  {
    hide Term;
    SumConstant(m.Rank(), r requires 0 <= r < m.Rank() => Term(m, idx, r), c);
  }

  /** An entry of the product of one numbered piece. */
  lemma NumberedPiece(l: LoraTensor, idx: seq<nat>, c: int)
    requires l.Valid() && l.A == Constant(l.A.shape, c) && l.B == Constant(l.B.shape, 1) && InBounds(l.Shape(), idx)
    ensures Entry(l, idx) == l.Rank() * c
  {
    hide Constant;
    hide At;
    hide Entry;
    forall r | 0 <= r < l.Rank() ensures Term(l, idx, r) == c {
      IndexBounds(l, idx, r);
      ConstantTerm(l, idx, r, l.B, l.A, IndexB(idx, r), IndexA(l.A.shape, idx, r), c);
    }
    ConstantEntry(l, idx, c);
  }

  /** An entry of the concatenated numbered pieces. */
  lemma NumberedPair(
    ms: seq<LoraTensor>, m: LoraTensor, idx: seq<nat>, kb: nat, jb: nat, ka: nat, ja: nat)
    requires Joinable(ms) && m == CatPair(ms) && m.Valid() && InBounds(m.Shape(), idx)
    requires Meet(ms, idx[0], kb, jb, ka, ja)
    requires ms[ka].A == Constant(ms[ka].A.shape, ka) && ms[kb].B == Constant(ms[kb].B.shape, 1)
    ensures Entry(m, idx) == m.Rank() * ka
  {
    hide Constant;
    hide At;
    hide Entry;
    hide CatPair;
    hide InBounds;
    hide Locate;
    hide Rows;
    hide Catable;
    forall r | 0 <= r < m.Rank() ensures Term(m, idx, r) == ka {
      CatTerm(ms, idx, r, kb, jb, ka, ja);
      ConstantTerm(m, idx, r, ms[kb].B, ms[ka].A, IndexB([jb] + idx[1..], r),
                   IndexA(ms[ka].A.shape, [ja] + idx[1..], r), ka);
    }
    ConstantEntry(m, idx, ka);
  }

  predicate NumberedPieces(ms: seq<LoraTensor>) {
    forall k :: 0 <= k < |ms| ==> ms[k].A == Constant(ms[k].A.shape, k) && ms[k].B == Constant(ms[k].B.shape, 1)
  }

  lemma UnequalEntry(ms: seq<LoraTensor>, m: LoraTensor, idx: seq<nat>)
    requires Joinable(ms) && m == CatPair(ms) && m.Valid() && InBounds(m.Shape(), idx)
    requires Catable(Products(ms)) && InBounds(Cat(Products(ms)).shape, idx)
    requires At(Dense(m), idx) != At(Cat(Products(ms)), idx)
    ensures !JoinRight(ms)
  {
    hide Prod;
    hide At;
    hide Cat;
    hide CatPair;
    hide Dense;
    hide InBounds;
    hide Products;
    hide Catable;
    hide Joinable;
  }

  /** A batch whose A and B come from pieces of different numbers is wrong. */
  lemma NumberedDiffer(
    ms: seq<LoraTensor>, m: LoraTensor, idx: seq<nat>, kb: nat, jb: nat, ka: nat, ja: nat)
    requires Joinable(ms) && m == CatPair(ms) && m.Valid() && m.Rank() > 0 && InBounds(m.Shape(), idx)
    requires Meet(ms, idx[0], kb, jb, ka, ja) && ka != kb && NumberedPieces(ms)
    ensures !JoinRight(ms)
  {
    hide Constant;
    hide At;
    hide Prod;
    hide Entry;
    hide CatPair;
    hide InBounds;
    hide Dense;
    hide Cat;
    hide Products;
    hide JoinRight;
    hide Catable;
    PairIndex(ms, m, idx);
    PieceBounds(ms, m, idx, kb, jb);
    DenseAt(m, idx);
    NumberedPair(ms, m, idx, kb, jb, ka, ja);
    NumberedPiece(ms[kb], [jb] + idx[1..], kb);
    Differs(m.Rank(), ka, kb);
    UnequalEntry(ms, m, idx);
  }

  /** A batch in which pieces of different numbers meet, if the factors fit but do not match. */
  lemma Mismatch(ms: seq<LoraTensor>) returns (i: nat)
    requires Joinable(ms) && CatPair(ms).Valid() && !JoinWhole(ms)
    ensures i < Rows(Bs(ms)) == Rows(As(ms)) && RowOfA(ms, i) == i
    ensures Locate(As(ms), i).0 != Locate(Bs(ms), i).0
  {
    hide Prod;
    hide Cat;
    CatPairValid(ms);
    forall k | 0 <= k < |ms| ensures As(ms)[k].shape[0] == 1 || As(ms)[k].shape[0] == Bs(ms)[k].shape[0] {
      assert ms[k].A.shape[0] == 1 || ms[k].A.shape[0] == ms[k].B.shape[0];
    }
    i := Misaligned(As(ms), Bs(ms));
  }

  lemma FirstEntry(shape: seq<nat>, n: nat, i: nat) returns (idx: seq<nat>)
    requires Prod(shape) > 0 && i < n
    ensures InBounds([n] + shape, idx) && idx[0] == i
  {
    idx := [i] + Unflat(shape, 0);
  }

  lemma NumberedAre(ls: seq<LoraTensor>)
    ensures NumberedPieces(Numbered(ls)) && SameShapes(Numbered(ls), ls)
  {
    hide Constant;
  }

  lemma NumberedWrong(ls: seq<LoraTensor>)
    requires Joinable(ls) && CatPair(ls).Valid() && !JoinWhole(ls)
    ensures SameShapes(Numbered(ls), ls) && Joinable(Numbered(ls)) && !JoinRight(Numbered(ls))
  {
    hide Prod;
    hide CatPair;
    hide JoinRight;
    hide Joinable;
    hide Rows;
    hide Locate;
    hide Numbered;
    hide NumberedPieces;
    hide SameShapes;
    hide InBounds;
    var ms := Numbered(ls);
    NumberedAre(ls);
    SameShapesJoinable(ms, ls);
    SomeWrong(ms);
  }

  lemma SomeWrong(ms: seq<LoraTensor>)
    requires Joinable(ms) && CatPair(ms).Valid() && !JoinWhole(ms) && NumberedPieces(ms)
    ensures !JoinRight(ms)
  {
    hide Prod;
    hide CatPair;
    hide JoinRight;
    hide NumberedPieces;
    hide InBounds;
    hide Catable;
    hide Matching;
    var m := CatPair(ms);
    var i := Mismatch(ms);
    PairShape(ms);
    var idx := FirstEntry(ms[0].Shape()[1..], Rows(Bs(ms)), i);
    var b, a := Locate(Bs(ms), i), Locate(As(ms), i);
    NumberedDiffer(ms, m, idx, b.0, b.1, a.0, a.1);
  }

  lemma Differs(n: nat, a: nat, b: nat)
    requires n > 0 && a != b
    ensures n * a != n * b
  {
  }

  /**
   * Concatenating batches is right for all factors of the given shapes if and only if A has one batch in all, or every
   * piece has as many batches in A as in B, or the factors fit and there are no values to get wrong.
   */
  lemma CatJoinsExactly(ls: seq<LoraTensor>)
    requires Joinable(ls)
    ensures (forall ms :: SameShapes(ms, ls) ==> Joinable(ms) && JoinRight(ms)) <==> JoinWhole(ls)
  {
    hide JoinWhole;
    hide Joinable;
    hide JoinRight;
    hide Rows;
    if JoinWhole(ls) {
      forall ms | SameShapes(ms, ls) ensures Joinable(ms) && JoinRight(ms) {
        SameShapesJoinable(ms, ls);
        JoinWholeRight(ms);
      }
    } else if CatPair(ls).Valid() {
      NumberedWrong(ls);
    } else {
      ItsOwnShapes(ls);
    }
  }

  lemma ItsOwnShapes(ls: seq<LoraTensor>)
    requires Joinable(ls)
    ensures SameShapes(ls, ls) && (JoinRight(ls) ==> CatPair(ls).Valid())
  {
    hide Prod;
    hide Dense;
    hide Cat;
  }
}
