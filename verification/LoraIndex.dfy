/** `__getitem__`: indexing low-rank tensors, and exactly when that indexes the product. */
module LoraIndex {
  import opened Text
  import opened Tensors
  import opened Lora

  /** An integer, or a slice with step 1; an absent start is 0. */
  datatype Index = Entry(j: int) | Slice(lo: int, hi: Option<int>)

  function From(i: Index, n: nat): (r: nat)
    requires i.Slice?
    ensures r <= n
  {
    Bound(i.lo, n)
  }

  function To(i: Index, n: nat): (r: nat)
    requires i.Slice?
    ensures From(i, n) <= r <= n
  {
    var hi := if i.hi.None? then n else Bound(i.hi.value, n);
    if hi < From(i, n) then From(i, n) else hi
  }

  /** The slice takes the whole dimension. */
  predicate Full(i: Index, n: nat)
    requires i.Slice?
  {
    From(i, n) == 0 && To(i, n) == n
  }

  predicate Fits(i: Index, n: nat) {
    i.Entry? ==> 0 <= i.j + n && i.j < n
  }

  /** Python's `%`. */
  function Wrap(j: int, size: nat): nat
    requires size > 0
  {
    j % size
  }

  function Item(t: Tensor, d: nat, i: Index): (r: Tensor)
    requires t.Valid() && d < |t.shape| && Fits(i, t.shape[d])
    ensures r.Valid() && |r.shape| == |t.shape| - (if i.Entry? then 1 else 0)
  {
    match i
    case Entry(j) => Select(t, d, Wrap(j, t.shape[d]))
    case Slice(_, _) => Narrow(t, d, From(i, t.shape[d]), To(i, t.shape[d]) - From(i, t.shape[d]))
  }

  /** Indices of the dimensions before `|idx|`, applied from the last to the first. */
  function Items(t: Tensor, idx: seq<Index>): (r: Option<Tensor>)
    requires t.Valid() && |idx| <= |t.shape|
    ensures r.Some? ==> r.value.Valid()
    decreases |idx|
  {
    if idx == [] then Some(t) else
      var d := |idx| - 1;
      if !Fits(idx[d], t.shape[d]) then None else Items(Item(t, d, idx[d]), idx[..d])
  }

  // ---- What indexing a tensor means ----

  /** A position in a dimension of size `n`, negative ones from the end, moved into the dimension. */
  function Clamped(x: int, n: nat): nat {
    var y := if x < 0 then x + n else x;
    if y < 0 then 0 else if y > n then n else y
  }

  /** The entries a slice takes of a dimension of size `n`. */
  function Taken(i: Index, n: nat): nat
    requires i.Slice?
  {
    var stop := if i.hi.None? then n else Clamped(i.hi.value, n);
    if stop < Clamped(i.lo, n) then 0 else stop - Clamped(i.lo, n)
  }

  /** How many indices keep their dimension. */
  function Slices(idx: seq<Index>): nat {
    if idx == [] then 0 else Slices(idx[..|idx| - 1]) + if idx[|idx| - 1].Slice? then 1 else 0
  }

  /** Where entry `jdx` of the indexed tensor comes from: integers fix their dimension, slices shift theirs. */
  ghost predicate Comes(shape: seq<nat>, idx: seq<Index>, jdx: seq<nat>, from: seq<nat>) {
    && |idx| <= |shape| == |from| && |jdx| == |shape| - |idx| + Slices(idx)
    && (forall d :: |idx| <= d < |shape| ==> from[d] == jdx[d - |idx| + Slices(idx)])
    && (forall d :: 0 <= d < |idx| ==> ComesAt(shape[d], idx, jdx, from[d], d))
  }

  ghost predicate ComesAt(n: nat, idx: seq<Index>, jdx: seq<nat>, from: nat, d: nat)
    requires d < |idx|
  {
    match idx[d]
    case Entry(j) => from == if j < 0 then j + n else j
    case Slice(lo, _) => Slices(idx[..d]) < |jdx| && from == Clamped(lo, n) + jdx[Slices(idx[..d])]
  }

  /** The sizes of the dimensions that are kept. */
  ghost predicate Sized(shape: seq<nat>, idx: seq<Index>, kept: seq<nat>) {
    && |idx| <= |shape| && |kept| == |shape| - |idx| + Slices(idx)
    && (forall d :: |idx| <= d < |shape| ==> kept[d - |idx| + Slices(idx)] == shape[d])
    && (forall d :: 0 <= d < |idx| && idx[d].Slice? ==>
          Slices(idx[..d]) < |kept| && kept[Slices(idx[..d])] == Taken(idx[d], shape[d]))
  }

  lemma WrapFits(j: int, n: nat)
    requires 0 <= j + n && j < n
    ensures Wrap(j, n) == if j < 0 then j + n else j
  {
  }

  lemma TakenIs(i: Index, n: nat)
    requires i.Slice?
    ensures From(i, n) == Clamped(i.lo, n) && To(i, n) - From(i, n) == Taken(i, n)
  {
  }

  /** One index: where an entry comes from. */
  lemma ItemAt(t: Tensor, d: nat, i: Index, idx: seq<nat>) returns (from: seq<nat>)
    requires t.Valid() && d < |t.shape| && Fits(i, t.shape[d]) && InBounds(Item(t, d, i).shape, idx)
    ensures InBounds(t.shape, from) && At(Item(t, d, i), idx) == At(t, from)
    ensures i.Slice? ==> |idx| == |from| && from == idx[d := Clamped(i.lo, t.shape[d]) + idx[d]]
    ensures i.Entry? ==> |from| == |idx| + 1 && from[d] == if i.j < 0 then i.j + t.shape[d] else i.j
    ensures i.Entry? ==> forall k :: 0 <= k < |from| && k != d ==> from[k] == idx[if k < d then k else k - 1]
    ensures Item(t, d, i).shape ==
      if i.Slice? then t.shape[d := Taken(i, t.shape[d])] else t.shape[..d] + t.shape[d + 1..]
  {
    hide Prod;
    hide Narrow;
    hide Select;
    hide At;
    var n := t.shape[d];
    match i
    case Entry(j) =>
      WrapFits(j, n);
      SelectAt(t, d, Wrap(j, n), idx);
      from := Insert(idx, d, Wrap(j, n));
    case Slice(_, _) =>
      TakenIs(i, n);
      NarrowAt(t, d, From(i, n), To(i, n) - From(i, n), idx);
      from := idx[d := From(i, n) + idx[d]];
  }

  lemma ComesStep(shape: seq<nat>, inner: seq<nat>, idx: seq<Index>, jdx: seq<nat>, mid: seq<nat>, from: seq<nat>)
    requires idx != [] && |idx| <= |shape| && |mid| == |inner|
    requires var d := |idx| - 1; Comes(inner, idx[..d], jdx, mid) && match idx[d]
      case Entry(j) =>
        && inner == shape[..d] + shape[d + 1..] && |from| == |shape| && from[d] == (if j < 0 then j + shape[d] else j)
        && forall k :: 0 <= k < |from| && k != d ==> from[k] == mid[if k < d then k else k - 1]
      case Slice(lo, _) =>
        && |inner| == |shape| && inner == shape[d := Taken(idx[d], shape[d])]
        && from == mid[d := Clamped(lo, shape[d]) + mid[d]]
    ensures Comes(shape, idx, jdx, from)
  {
    var d := |idx| - 1;
    var init := idx[..d];
    forall k | 0 <= k < |idx| ensures ComesAt(shape[k], idx, jdx, from[k], k) {
      if k < d {
        assert init[..k] == idx[..k] && ComesAt(inner[k], init, jdx, mid[k], k);
      } else if idx[d].Slice? {
        assert mid[d] == jdx[d - |init| + Slices(init)];
      }
    }
  }

  /** Entries of an indexed tensor are the entries of the tensor they should be. */
  lemma {:induction false} ItemsAt(t: Tensor, idx: seq<Index>, jdx: seq<nat>) returns (from: seq<nat>)
    requires t.Valid() && |idx| <= |t.shape| && Items(t, idx).Some? && InBounds(Items(t, idx).value.shape, jdx)
    ensures InBounds(t.shape, from) && At(Items(t, idx).value, jdx) == At(t, from) && Comes(t.shape, idx, jdx, from)
    decreases |idx|
  {
    hide Item;
    hide Prod;
    hide At;
    hide InBounds;
    hide Comes;
    if idx == [] {
      from := jdx;
      ComesNone(t.shape, jdx);
    } else {
      var d := |idx| - 1;
      var u := Item(t, d, idx[d]);
      var mid := ItemsAt(u, idx[..d], jdx);
      from := ItemAt(t, d, idx[d], mid);
      ComesLength(u.shape, idx[..d], jdx, mid);
      ComesStep(t.shape, u.shape, idx, jdx, mid, from);
    }
  }

  lemma ComesNone(shape: seq<nat>, jdx: seq<nat>)
    requires InBounds(shape, jdx)
    ensures Comes(shape, [], jdx, jdx)
  {
  }

  lemma ComesLength(shape: seq<nat>, idx: seq<Index>, jdx: seq<nat>, from: seq<nat>)
    requires Comes(shape, idx, jdx, from)
    ensures |from| == |shape|
  {
  }

  lemma SizedStep(shape: seq<nat>, inner: seq<nat>, idx: seq<Index>, kept: seq<nat>)
    requires idx != [] && |idx| <= |shape|
    requires Sized(inner, idx[..|idx| - 1], kept)
    requires var d := |idx| - 1;
      inner == if idx[d].Slice? then shape[d := Taken(idx[d], shape[d])] else shape[..d] + shape[d + 1..]
    ensures Sized(shape, idx, kept)
  {
    var d := |idx| - 1;
    var init := idx[..d];
    forall k | 0 <= k < |idx| && idx[k].Slice?
      ensures Slices(idx[..k]) < |kept| && kept[Slices(idx[..k])] == Taken(idx[k], shape[k])
    {
      if k < d {
        assert init[..k] == idx[..k] && init[k] == idx[k] && inner[k] == shape[k];
      } else {
        assert kept[d - |init| + Slices(init)] == inner[d];
      }
    }
    forall k | |idx| <= k < |shape| ensures kept[k - |idx| + Slices(idx)] == shape[k] {
      if idx[d].Slice? {
        assert kept[k - |init| + Slices(init)] == inner[k];
      } else {
        assert kept[k - 1 - |init| + Slices(init)] == inner[k - 1];
      }
    }
  }

  /** Integers drop their dimension, slices keep the part they take. */
  lemma {:induction false} ItemsSized(t: Tensor, idx: seq<Index>)
    requires t.Valid() && |idx| <= |t.shape| && Items(t, idx).Some?
    ensures Sized(t.shape, idx, Items(t, idx).value.shape)
    decreases |idx|
  {
    hide Prod;
    hide Narrow;
    hide Select;
    if idx != [] {
      hide Sized;
      var d := |idx| - 1;
      var u := Item(t, d, idx[d]);
      ItemsSized(u, idx[..d]);
      if idx[d].Slice? { TakenIs(idx[d], t.shape[d]); }
      SizedStep(t.shape, u.shape, idx, Items(t, idx).value.shape);
    }
  }

  // ---- What the script does to the factors ----

  /** The constructor's checks. */
  predicate Accepted(l: LoraTensor) {
    |l.A.shape| == |l.B.shape| && |l.A.shape| >= 2 && l.A.shape[|l.A.shape| - 2] == l.B.shape[|l.B.shape| - 1]
  }

  function Make(l: LoraTensor): Option<LoraTensor> {
    if Accepted(l) then Some(l) else None
  }

  /**
   * Index `d` of a tuple of `n`: the last goes to A, the others to B, and integers in leading dimensions also to A,
   * modulo its size.
   */
  function PairItem(l: LoraTensor, d: nat, n: nat, i: Index): (r: Option<LoraTensor>)
    requires l.A.Valid() && l.B.Valid() && d < n && d < |l.A.shape| && d < |l.B.shape|
    ensures r.Some? ==> r.value.A.Valid() && r.value.B.Valid() && d <= |r.value.A.shape| && d <= |r.value.B.shape|
  {
    if d == n - 1 then
      if Fits(i, l.A.shape[d]) then Some(LoraTensor(Item(l.A, d, i), l.B)) else None
    else if !Fits(i, l.B.shape[d]) then None
    else if d == n - 2 || i.Slice? then Some(LoraTensor(l.A, Item(l.B, d, i)))
    else if l.A.shape[d] == 0 then None
    else Some(LoraTensor(Select(l.A, d, Wrap(i.j, l.A.shape[d])), Item(l.B, d, i)))
  }

  function PairItems(l: LoraTensor, idx: seq<Index>, n: nat): (r: Option<LoraTensor>)
    requires l.A.Valid() && l.B.Valid() && |idx| <= n && |idx| <= |l.A.shape| && |idx| <= |l.B.shape|
    ensures r.Some? ==> r.value.A.Valid() && r.value.B.Valid()
    decreases |idx|
  {
    if idx == [] then Some(l) else
      var d := |idx| - 1;
      var one := PairItem(l, d, n, idx[d]);
      if one.None? then None else PairItems(one.value, idx[..d], n)
  }

  /** `l[idx]` for a tuple that names every dimension; `None` where it raises. */
  function TupleLora(l: LoraTensor, idx: seq<Index>): (r: Option<LoraTensor>)
    requires l.Valid() && |idx| == l.Dim()
    ensures r.Some? ==> r.value.A.Valid() && r.value.B.Valid()
  {
    var p := PairItems(l, idx, l.Dim());
    if p.None? then None else Make(p.value)
  }

  /** `l[i]` for one index: both factors are indexed, but only the columns of a matrix; `None` where it raises. */
  function PickLora(l: LoraTensor, i: Index): (r: Option<LoraTensor>)
    requires l.Valid()
    ensures r.Some? ==> r.value.A.Valid() && r.value.B.Valid()
  {
    if l.Dim() == 2 then
      if i.Slice? then Make(LoraTensor(l.A, Item(l.B, 0, i))) else None
    else if Fits(i, l.A.shape[0]) && Fits(i, l.B.shape[0]) then
      Make(LoraTensor(Item(l.A, 0, i), Item(l.B, 0, i)))
    else None
  }

  // ---- When that is right ----

  /** Slices of the last two dimensions, and of leading ones only where A is broadcast or they are full. */
  predicate TupleWhole(l: LoraTensor, idx: seq<Index>)
    requires l.Valid() && |idx| == l.Dim()
  {
    && idx[l.Dim() - 1].Slice? && idx[l.Dim() - 2].Slice?
    && forall d :: 0 <= d < l.Dim() - 2 && idx[d].Slice? ==> l.A.shape[d] == 1 || Full(idx[d], l.A.shape[d])
  }

  /** Factors with the same batches; else entry 0 or -1, or a slice that keeps A's one batch, or an empty one of B. */
  predicate PickWhole(l: LoraTensor, i: Index)
    requires l.Valid()
  {
    if l.Dim() == 2 then i.Slice?
    else
      || l.A.shape[0] == l.B.shape[0]
      || (if i.Entry? then i.j == 0 || i.j == -1 else Full(i, 1) || From(i, l.B.shape[0]) == To(i, l.B.shape[0]))
  }

  lemma WrapBroadcast(j: int, size: nat, a: nat)
    requires 0 <= j + size && j < size && (a == 1 || a == size)
    ensures Wrap(j, a) == Wrap(j, size) % a && Wrap(j, size) < size
  {
  }

  lemma NarrowFull(t: Tensor, d: nat)
    requires t.Valid() && d < |t.shape|
    ensures Narrow(t, d, 0, t.shape[d]) == t
  {
    hide Prod;
    hide Flat;
    hide Narrow;
    var len := t.shape[d];
    assert t.shape[d := len] == t.shape;
    forall idx | InBounds(t.shape, idx) ensures At(Narrow(t, d, 0, len), idx) == At(t, idx) {
      NarrowAt(t, d, 0, len, idx);
      assert idx[d := 0 + idx[d]] == idx;
    }
    Extensional(Narrow(t, d, 0, len), t);
  }

  /** One index of a tuple that is right: the factors' item is the product's. */
  lemma PairItemRight(l: LoraTensor, d: nat, i: Index)
    requires l.Valid() && d < l.Dim() && Fits(i, l.Shape()[d]) && (i.Entry? ==> d < l.Dim() - 2)
    requires i.Slice? && d < l.Dim() - 2 ==> l.A.shape[d] == 1 || Full(i, l.A.shape[d])
    ensures PairItem(l, d, l.Dim(), i).Some?
    ensures var m := PairItem(l, d, l.Dim(), i).value;
      && m.Valid() && Dense(m) == Item(Dense(l), d, i) && m.Dim() == l.Dim() - (if i.Entry? then 1 else 0)
      && m.A.shape[..d] == l.A.shape[..d] && m.B.shape[..d] == l.B.shape[..d]
  {
    hide Prod;
    hide Dense;
    hide Narrow;
    hide Select;
    match i
    case Entry(j) =>
      WrapBroadcast(j, l.B.shape[d], l.A.shape[d]);
      SelectCommutes(l, d, Wrap(j, l.B.shape[d]));
    case Slice(_, _) =>
      var n := l.Shape()[d];
      if d < l.Dim() - 2 && l.A.shape[d] != 1 { NarrowFull(l.A, d); }
      NarrowCommutes(l, d, From(i, n), To(i, n) - From(i, n));
  }

  /** The first `|idx|` indices of a tuple, all of leading dimensions. */
  lemma {:induction false} LeadingRight(l: LoraTensor, idx: seq<Index>, n: nat)
    requires l.Valid() && |idx| + 2 <= l.Dim() && |idx| + 2 <= n && Items(Dense(l), idx).Some?
    requires forall d :: 0 <= d < |idx| && idx[d].Slice? ==> l.A.shape[d] == 1 || Full(idx[d], l.A.shape[d])
    ensures PairItems(l, idx, n).Some? && PairItems(l, idx, n).value.Valid()
    ensures Items(Dense(l), idx) == Some(Dense(PairItems(l, idx, n).value))
    decreases |idx|
  {
    hide Dense;
    hide Item;
    hide Prod;
    if idx != [] {
      var d := |idx| - 1;
      PairItemRight(l, d, idx[d]);
      var m := PairItem(l, d, l.Dim(), idx[d]).value;
      assert PairItem(l, d, n, idx[d]) == PairItem(l, d, l.Dim(), idx[d]);
      forall k | 0 <= k < d ensures l.A.shape[k] == m.A.shape[k] {
        assert m.A.shape[..d][k] == l.A.shape[..d][k];
      }
      LeadingRight(m, idx[..d], n);
    }
  }

  // ---- When it is wrong ----

  /** A leading dimension, at `k` or later, in which the factors do not fit each other. */
  predicate Misfit(l: LoraTensor, k: nat) {
    |l.A.shape| == |l.B.shape| &&
    exists q :: k <= q < |l.B.shape| - 2 && l.A.shape[q] != 1 && l.A.shape[q] != l.B.shape[q]
  }

  lemma {:induction false} MisfitStays(l: LoraTensor, idx: seq<Index>, n: nat)
    requires l.A.Valid() && l.B.Valid() && |idx| + 2 <= n && |idx| <= |l.A.shape| && Misfit(l, |idx|)
    ensures PairItems(l, idx, n).Some? ==> Misfit(PairItems(l, idx, n).value, 0)
    decreases |idx|
  {
    if idx != [] {
      var d := |idx| - 1;
      var one := PairItem(l, d, n, idx[d]);
      if one.Some? {
        var q :| |idx| <= q < |l.B.shape| - 2 && l.A.shape[q] != 1 && l.A.shape[q] != l.B.shape[q];
        MisfitMoves(l, one.value, d, q, idx[d], n);
        MisfitStays(one.value, idx[..d], n);
      }
    }
  }

  lemma MisfitMoves(l: LoraTensor, m: LoraTensor, d: nat, q: nat, i: Index, n: nat)
    requires l.A.Valid() && l.B.Valid() && d + 2 < n && |l.A.shape| == |l.B.shape| && d < q < |l.B.shape| - 2
    requires l.A.shape[q] != 1 && l.A.shape[q] != l.B.shape[q] && PairItem(l, d, n, i) == Some(m)
    ensures Misfit(m, d)
  {
    hide Prod;
    hide Narrow;
    hide Select;
    var p := if i.Entry? then q - 1 else q;
    assert m.A.shape[p] == l.A.shape[q] && m.B.shape[p] == l.B.shape[q];
  }

  /** A partial slice of a leading dimension where A has more than one batch leaves a misfit. */
  lemma PartialSlice(l: LoraTensor, d: nat, i: Index, n: nat)
    requires l.Valid() && d < l.Dim() - 2 && l.Dim() == n && i.Slice? && l.A.shape[d] != 1 && !Full(i, l.A.shape[d])
    ensures PairItem(l, d, n, i).Some? && Misfit(PairItem(l, d, n, i).value, d)
  {
    hide Prod;
    hide Narrow;
    var m := PairItem(l, d, n, i).value;
    assert l.A.shape[d] == l.B.shape[d];
    assert m.A.shape[d] == l.A.shape[d] && m.B.shape[d] == To(i, l.B.shape[d]) - From(i, l.B.shape[d]);
  }

  /** Leading indices that are not right leave factors without a product. */
  lemma {:induction false} LeadingWrong(l: LoraTensor, idx: seq<Index>, n: nat)
    requires l.Valid() && |idx| + 2 <= l.Dim() && |idx| + 2 <= n
    requires exists d :: 0 <= d < |idx| && idx[d].Slice? && l.A.shape[d] != 1 && !Full(idx[d], l.A.shape[d])
    requires forall d :: 0 <= d < |idx| ==> Fits(idx[d], l.Shape()[d])
    ensures PairItems(l, idx, n).Some? ==> Misfit(PairItems(l, idx, n).value, 0)
    decreases |idx|
  {
    hide Item;
    hide Prod;
    var d := |idx| - 1;
    if idx[d].Slice? && l.A.shape[d] != 1 && !Full(idx[d], l.A.shape[d]) {
      PartialSlice(l, d, idx[d], l.Dim());
      assert PairItem(l, d, n, idx[d]) == PairItem(l, d, l.Dim(), idx[d]);
      MisfitStays(PairItem(l, d, n, idx[d]).value, idx[..d], n);
    } else {
      PairItemRight(l, d, idx[d]);
      assert PairItem(l, d, n, idx[d]) == PairItem(l, d, l.Dim(), idx[d]);
      var m := PairItem(l, d, n, idx[d]).value;
      SameLeading(l, m, d);
      LeadingWrong(m, idx[..d], n);
    }
  }

  lemma SameLeading(l: LoraTensor, m: LoraTensor, d: nat)
    requires l.Valid() && m.Valid() && d + 2 <= l.Dim() && d + 2 <= m.Dim()
    requires m.A.shape[..d] == l.A.shape[..d] && m.B.shape[..d] == l.B.shape[..d]
    ensures forall k :: 0 <= k < d ==> m.A.shape[k] == l.A.shape[k] && m.Shape()[k] == l.Shape()[k]
  {
    forall k | 0 <= k < d ensures m.A.shape[k] == l.A.shape[k] && m.B.shape[k] == l.B.shape[k] {
      assert m.A.shape[..d][k] == l.A.shape[..d][k] && m.B.shape[..d][k] == l.B.shape[..d][k];
    }
  }

  /** Integers in a list of indices. */
  function Entries(idx: seq<Index>): nat {
    if idx == [] then 0 else Entries(idx[..|idx| - 1]) + if idx[|idx| - 1].Entry? then 1 else 0
  }

  lemma {:induction false} Lengths(l: LoraTensor, t: Tensor, idx: seq<Index>, n: nat)
    requires l.A.Valid() && l.B.Valid() && t.Valid() && |idx| + 2 <= n
    requires |idx| <= |l.A.shape| && |idx| <= |l.B.shape| && |idx| <= |t.shape|
    ensures Items(t, idx).Some? ==> |Items(t, idx).value.shape| == |t.shape| - Entries(idx)
    ensures PairItems(l, idx, n).Some? ==>
      var p := PairItems(l, idx, n).value; |p.A.shape| == |l.A.shape| - Entries(idx) && |p.B.shape| == |l.B.shape| - Entries(idx)
    decreases |idx|
  {
    hide Prod;
    hide Narrow;
    hide Select;
    if idx != [] {
      var d := |idx| - 1;
      var one := PairItem(l, d, n, idx[d]);
      var m := if one.Some? then one.value else l;
      var u := if Fits(idx[d], t.shape[d]) then Item(t, d, idx[d]) else t;
      Lengths(m, u, idx[..d], n);
    }
  }

  // ---- Tuples, exactly ----

  lemma {:induction false} ItemsFit(t: Tensor, idx: seq<Index>)
    requires t.Valid() && |idx| <= |t.shape| && Items(t, idx).Some?
    ensures forall d :: 0 <= d < |idx| ==> Fits(idx[d], t.shape[d])
    decreases |idx|
  {
    hide Prod;
    hide Narrow;
    hide Select;
    if idx != [] {
      var d := |idx| - 1;
      var u := Item(t, d, idx[d]);
      ItemsFit(u, idx[..d]);
      assert forall k :: 0 <= k < d ==> u.shape[k] == t.shape[k] && idx[..d][k] == idx[k];
    }
  }

  /** The result on factors means what indexing the product gives. */
  ghost predicate Means(p: Option<LoraTensor>, t: Option<Tensor>) {
    p.Some? && p.value.Valid() && t == Some(Dense(p.value))
  }

  /** The last two indices of a tuple. */
  lemma LastTwo(l: LoraTensor, t: Tensor, idx: seq<Index>)
    requires l.Valid() && t.Valid() && |idx| == l.Dim() == |t.shape|
    ensures Items(t, idx).Some? ==>
      var n := l.Dim();
      && Fits(idx[n - 1], t.shape[n - 1]) && Fits(idx[n - 2], Item(t, n - 1, idx[n - 1]).shape[n - 2])
      && Items(t, idx) == Items(Item(Item(t, n - 1, idx[n - 1]), n - 2, idx[n - 2]), idx[..n - 2])
    ensures PairItems(l, idx, l.Dim()).Some? ==>
      var n := l.Dim();
      && PairItem(l, n - 1, n, idx[n - 1]).Some?
      && PairItem(PairItem(l, n - 1, n, idx[n - 1]).value, n - 2, n, idx[n - 2]).Some?
      && PairItems(l, idx, n)
         == PairItems(PairItem(PairItem(l, n - 1, n, idx[n - 1]).value, n - 2, n, idx[n - 2]).value, idx[..n - 2], n)
  {
    hide Prod;
    hide Item;
    hide PairItem;
    var n := l.Dim();
    var init := idx[..n - 1];
    assert init[..n - 2] == idx[..n - 2] && init[n - 2] == idx[n - 2];
    if Items(t, idx).Some? {
      assert Items(t, idx) == Items(Item(t, n - 1, idx[n - 1]), init);
    }
    if PairItems(l, idx, n).Some? {
      assert PairItems(l, idx, n) == PairItems(PairItem(l, n - 1, n, idx[n - 1]).value, init, n);
    }
  }

  /** An integer among the last two indices is refused or gives a tensor with a dimension too many. */
  lemma LastEntries(l: LoraTensor, idx: seq<Index>)
    requires l.Valid() && |idx| == l.Dim() && (idx[l.Dim() - 1].Entry? || idx[l.Dim() - 2].Entry?)
    ensures !Means(TupleLora(l, idx), Items(Dense(l), idx))
  {
    hide Prod;
    hide Narrow;
    hide Select;
    hide Dense;
    hide Items;
    hide PairItems;
    var n, t := l.Dim(), Dense(l);
    LastTwo(l, t, idx);
    if PairItems(l, idx, n).Some? && Items(t, idx).Some? {
      var p := PairItem(PairItem(l, n - 1, n, idx[n - 1]).value, n - 2, n, idx[n - 2]).value;
      var u := Item(Item(t, n - 1, idx[n - 1]), n - 2, idx[n - 2]);
      Lengths(p, u, idx[..n - 2], n);
    }
  }

  lemma TakeTake(s: seq<nat>, t: seq<nat>, i: nat, j: nat)
    requires j <= i <= |s| && i <= |t| && s[..i] == t[..i]
    ensures s[..j] == t[..j]
  {
    assert s[..j] == s[..i][..j] && t[..j] == t[..i][..j];
  }

  lemma LastSlices(l: LoraTensor, idx: seq<Index>) returns (m: LoraTensor)
    requires l.Valid() && |idx| == l.Dim() && idx[l.Dim() - 1].Slice? && idx[l.Dim() - 2].Slice?
    ensures m.Valid() && m.Dim() == l.Dim()
    ensures forall k :: 0 <= k < l.Dim() - 2 ==> m.A.shape[k] == l.A.shape[k] && m.Shape()[k] == l.Shape()[k]
    ensures PairItems(l, idx, l.Dim()) == PairItems(m, idx[..l.Dim() - 2], l.Dim())
    ensures Items(Dense(l), idx) == Items(Dense(m), idx[..l.Dim() - 2])
  {
    hide Prod;
    hide Item;
    hide PairItem;
    hide Dense;
    var n := l.Dim();
    PairItemRight(l, n - 1, idx[n - 1]);
    var k := PairItem(l, n - 1, n, idx[n - 1]).value;
    PairItemRight(k, n - 2, idx[n - 2]);
    m := PairItem(k, n - 2, n, idx[n - 2]).value;
    TakeTake(l.A.shape, k.A.shape, n - 1, n - 2);
    TakeTake(l.B.shape, k.B.shape, n - 1, n - 2);
    SameLeading(l, m, n - 2);
    assert idx[..n - 1][..n - 2] == idx[..n - 2];
  }

  /**
   * Indexing the factors with a tuple gives the indexed product if and only if the product can be indexed, the last
   * two indices are slices, and slices of leading dimensions are full wherever A is not broadcast.
   */
  lemma TupleExactly(l: LoraTensor, idx: seq<Index>)
    requires l.Valid() && |idx| == l.Dim()
    ensures Means(TupleLora(l, idx), Items(Dense(l), idx)) <==> TupleWhole(l, idx) && Items(Dense(l), idx).Some?
  {
    hide Prod;
    hide Dense;
    hide Items;
    hide PairItems;
    hide Item;
    var n := l.Dim();
    if idx[n - 1].Entry? || idx[n - 2].Entry? {
      LastEntries(l, idx);
    } else if Items(Dense(l), idx).Some? {
      var m := LastSlices(l, idx);
      var rest := idx[..n - 2];
      ItemsFit(Dense(m), rest);
      if TupleWhole(l, idx) {
        LeadingRight(m, rest, n);
      } else {
        var d :| 0 <= d < n - 2 && idx[d].Slice? && !(l.A.shape[d] == 1 || Full(idx[d], l.A.shape[d]));
        assert rest[d] == idx[d];
        LeadingWrong(m, rest, n);
      }
    }
  }

  // ---- Single indices, exactly ----

  lemma {:induction false} ProdZero(s: seq<nat>)
    requires s != [] && s[0] == 0
    ensures Prod(s) == 0
    decreases |s|
  {
    if |s| > 1 { ProdZero(s[..|s| - 1]); }
  }

  /** Two tensors of the same shape without entries are equal. */
  lemma NoEntries(t: Tensor, u: Tensor)
    requires t.Valid() && u.Valid() && t.shape == u.shape && t.shape != [] && t.shape[0] == 0
    ensures t == u
  {
    ProdZero(t.shape);
  }

  lemma FirstFits(l: LoraTensor, m: LoraTensor, x: nat, y: nat)
    requires l.Valid() && l.Dim() > 2 && m.A.Valid() && m.B.Valid()
    requires m.A.shape == l.A.shape[0 := x] && m.B.shape == l.B.shape[0 := y]
    ensures Accepted(m) && (m.Valid() <==> x == 1 || x == y)
  {
    hide Prod;
    assert |m.A.shape| == |m.B.shape| == l.Dim() == m.Dim() && m.A.shape[0] == x && m.B.shape[0] == y;
    assert m.Valid() ==> m.A.shape[0] == 1 || m.A.shape[0] == m.B.shape[0];
    assert forall i :: 0 < i < l.Dim() ==> m.A.shape[i] == l.A.shape[i] && m.B.shape[i] == l.B.shape[i];
  }

  /** A slice of both factors' batches. */
  lemma SlicedBatches(l: LoraTensor, i: Index)
    requires l.Valid() && l.Dim() > 2 && i.Slice?
    ensures var m := LoraTensor(Item(l.A, 0, i), Item(l.B, 0, i));
      && Accepted(m) && (m.Valid() <==> PickWhole(l, i)) && (m.Valid() ==> Dense(m) == Item(Dense(l), 0, i))
  {
    hide Prod;
    hide Dense;
    hide Narrow;
    var m := LoraTensor(Item(l.A, 0, i), Item(l.B, 0, i));
    var a, b := l.A.shape[0], l.B.shape[0];
    var x, y := To(i, a) - From(i, a), To(i, b) - From(i, b);
    assert m.A.shape == l.A.shape[0 := x] && m.B.shape == l.B.shape[0 := y];
    FirstFits(l, m, x, y);
    assert l.Shape()[0] == b;
    if a != 1 {
      NarrowCommutes(l, 0, From(i, b), y);
    } else if x == 1 {
      NarrowFull(l.A, 0);
      NarrowCommutes(l, 0, From(i, b), y);
    } else if y == 0 {
      assert Dense(m).shape[0] == 0;
      NoEntries(Dense(m), Item(Dense(l), 0, i));
    }
  }

  /** An integer for both factors' batches. */
  lemma PickedBatch(l: LoraTensor, i: Index)
    requires l.Valid() && l.Dim() > 2 && i.Entry? && Fits(i, l.B.shape[0])
    ensures PickWhole(l, i) <==> Fits(i, l.A.shape[0])
    ensures PickWhole(l, i) ==> Means(PickLora(l, i), Some(Item(Dense(l), 0, i)))
  {
    hide Prod;
    hide Dense;
    hide Select;
    if PickWhole(l, i) {
      WrapBroadcast(i.j, l.B.shape[0], l.A.shape[0]);
      SelectCommutes(l, 0, Wrap(i.j, l.B.shape[0]));
    }
  }

  /**
   * Indexing the factors with one integer or slice gives the indexed product if and only if the product can be
   * indexed and A has the same batches as B, or the index keeps A's only batch, or it takes nothing.
   */
  lemma PickExactly(l: LoraTensor, i: Index)
    requires l.Valid()
    ensures var t := if Fits(i, l.Shape()[0]) then Some(Item(Dense(l), 0, i)) else None;
      Means(PickLora(l, i), t) <==> PickWhole(l, i) && t.Some?
  {
    hide Prod;
    hide Dense;
    hide Item;
    if l.Dim() == 2 {
      if i.Slice? { PairItemRight(l, 0, i); }
    } else if i.Slice? {
      SlicedBatches(l, i);
    } else if Fits(i, l.B.shape[0]) {
      PickedBatch(l, i);
    }
  }
}
