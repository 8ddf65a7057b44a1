/** Splitting, and every finite composition of the operations on `LoraTorchTensor`. */
module LoraAlgebra {
  import opened Text
  import opened Tensors
  import opened Lora
  import opened LoraCat
  import opened LoraIndex
  import opened LoraKeys
  import opened LoraProducts
  import opened LoraReshape

  // ---- split ----

  /** `split_size`: one size for every part, or the list of sizes. */
  datatype Sizes = Each(n: nat) | Exactly(ns: seq<nat>)

  function Chunks(total: nat, n: nat): seq<nat>
    requires n > 0
  {
    if total <= n then [total] else [n] + Chunks(total - n, n)
  }

  function Total(ns: seq<nat>): nat {
    if ns == [] then 0 else ns[0] + Total(ns[1..])
  }

  /** The sizes of the parts; `None` where torch rejects them. */
  function SizesOf(total: nat, s: Sizes): Option<seq<nat>> {
    match s
    case Each(n) => if n > 0 then Some(Chunks(total, n)) else if total == 0 then Some([0]) else None
    case Exactly(ns) => if Total(ns) == total then Some(ns) else None
  }

  lemma {:induction false} ChunksTotal(total: nat, n: nat)
    requires n > 0
    ensures Total(Chunks(total, n)) == total
    decreases total
  {
    if total > n { ChunksTotal(total - n, n); }
  }

  /** Where part `k` starts. */
  function Offset(ns: seq<nat>, k: nat): (o: nat)
    requires k < |ns|
    ensures o + ns[k] <= Total(ns)
  {
    if k == 0 then 0 else ns[0] + Offset(ns[1..], k - 1)
  }

  function Dimension(n: nat, d: int): int {
    if d < 0 then d + n else d
  }

  /** Part `k` of `torch.split(t, sizes, d)`. */
  function PartOf(t: Tensor, s: Sizes, d: int, k: nat): (r: Option<Tensor>)
    requires t.Valid()
    ensures r.Some? ==> r.value.Valid()
  {
    var e := Dimension(|t.shape|, d);
    if !(0 <= e < |t.shape|) then None else
      match SizesOf(t.shape[e], s)
      case None => None
      case Some(ns) =>
        if k >= |ns| then None else
          SizesTotal(t.shape[e], s);
          Some(Narrow(t, e, Offset(ns, k), ns[k]))
  }

  lemma SizesTotal(total: nat, s: Sizes)
    requires SizesOf(total, s).Some?
    ensures Total(SizesOf(total, s).value) == total
  {
    if s.Each? && s.n > 0 { ChunksTotal(total, s.n); }
  }

  /** `p` is the stretch of dimension `e` from `start` on that is `size` long. */
  ghost predicate Stretch(t: Tensor, p: Tensor, e: nat, start: nat, size: nat) {
    && t.Valid() && p.Valid() && e < |t.shape| && start + size <= t.shape[e] && p.shape == t.shape[e := size]
    && forall idx :: InBounds(p.shape, idx) ==>
         InBounds(t.shape, idx[e := start + idx[e]]) && At(p, idx) == At(t, idx[e := start + idx[e]])
  }

  lemma NarrowStretch(t: Tensor, e: nat, start: nat, size: nat)
    requires t.Valid() && e < |t.shape| && start + size <= t.shape[e]
    ensures Stretch(t, Narrow(t, e, start, size), e, start, size)
  {
    hide Prod;
    hide Narrow;
    hide At;
    forall idx | InBounds(t.shape[e := size], idx)
      ensures InBounds(t.shape, idx[e := start + idx[e]])
      ensures At(Narrow(t, e, start, size), idx) == At(t, idx[e := start + idx[e]])
    {
      NarrowAt(t, e, start, size, idx);
    }
  }

  /**
   * `p` is part `k` of `t` split along `d`: a part starts where the listed sizes before it end; parts of a chunk size
   * start at its multiples, and only the last may be shorter.
   */
  ghost predicate IsPart(t: Tensor, p: Tensor, s: Sizes, d: int, k: nat) {
    && t.Valid() && 0 <= (if d < 0 then d + |t.shape| else d) < |t.shape|
    && var e := if d < 0 then d + |t.shape| else d; var total := t.shape[e];
       match s
       case Exactly(ns) => k < |ns| && Total(ns) == total && Stretch(t, p, e, Total(ns[..k]), ns[k])
       case Each(n) => k * n <= total && Stretch(t, p, e, k * n, if total < (k + 1) * n then total - k * n else n)
  }

  /** A part exists. */
  predicate HasPart(t: Tensor, s: Sizes, d: int, k: nat) {
    && 0 <= (if d < 0 then d + |t.shape| else d) < |t.shape|
    && var total := t.shape[if d < 0 then d + |t.shape| else d];
       match s
       case Exactly(ns) => k < |ns| && Total(ns) == total
       case Each(n) => (n > 0 && k * n < total) || (k == 0 && total == 0)
  }

  lemma {:induction false} OffsetTotal(ns: seq<nat>, k: nat)
    requires k < |ns|
    ensures Offset(ns, k) == Total(ns[..k])
    decreases k
  {
    if k > 0 {
      OffsetTotal(ns[1..], k - 1);
      assert ns[..k][1..] == ns[1..][..k - 1];
    }
  }

  /** The chunks of a dimension, one by one. */
  lemma {:induction false} ChunkAt(total: nat, n: nat, k: nat)
    requires n > 0
    ensures var ns := Chunks(total, n);
      && (k < |ns| <==> k * n < total || k == 0)
      && (k < |ns| ==> Offset(ns, k) == k * n && ns[k] == if total < (k + 1) * n then total - k * n else n)
    decreases k
  {
    if k > 0 {
      if total > n {
        ChunkAt(total - n, n, k - 1);
        assert Chunks(total, n)[1..] == Chunks(total - n, n);
      }
      assert (k - 1) * n == k * n - n && (k + 1) * n == k * n + n;
    } else {
      assert 0 * n == 0 && 1 * n == n;
    }
  }

  /** `torch.split` has exactly these parts, and they are where they should be. */
  lemma SplitParts(t: Tensor, s: Sizes, d: int, k: nat)
    requires t.Valid()
    ensures PartOf(t, s, d, k).Some? <==> HasPart(t, s, d, k)
    ensures PartOf(t, s, d, k).Some? ==> IsPart(t, PartOf(t, s, d, k).value, s, d, k)
  {
    hide Prod;
    hide Narrow;
    hide Stretch;
    hide Offset;
    hide Chunks;
    hide Total;
    var e := Dimension(|t.shape|, d);
    if 0 <= e < |t.shape| {
      var total := t.shape[e];
      if s.Each? && s.n > 0 { ChunkAt(total, s.n, k); } else if s.Each? { OneOffset(); }
      if SizesOf(total, s).Some? && k < |SizesOf(total, s).value| {
        var ns := SizesOf(total, s).value;
        SizesTotal(total, s);
        if s.Exactly? { OffsetTotal(ns, k); }
        NarrowStretch(t, e, Offset(ns, k), ns[k]);
      }
    }
  }

  lemma OneOffset()
    ensures Offset([0], 0) == 0
  {
  }

  /**
   * Part `k` of `split` before the constructor checks it: the chunks of A, of B, or of both zipped. A dimension that
   * is still negative after adding the rank once is left to torch, which adds it again.
   */
  function RawPart(l: LoraTensor, s: Sizes, d: int, k: nat): Option<LoraTensor>
    requires l.Valid()
  {
    var e := Dimension(l.Dim(), d);
    if e == l.Dim() - 1 then
      match PartOf(l.A, s, -1, k) case Some(a) => Some(LoraTensor(a, l.B)) case None => None
    else if e == l.Dim() - 2 then
      match PartOf(l.B, s, -2, k) case Some(b) => Some(LoraTensor(l.A, b)) case None => None
    else if !(0 <= e + l.Dim() && e < l.Dim()) then None
    else if l.A.shape[Dimension(l.Dim(), e)] == 1 then
      match PartOf(l.B, s, e, k) case Some(b) => Some(LoraTensor(l.A, b)) case None => None
    else
      match (PartOf(l.A, s, e, k), PartOf(l.B, s, e, k))
      case (Some(a), Some(b)) => Some(LoraTensor(a, b))
      case _ => None
  }

  /** Part `k` of `split`, which raises if the constructor refuses any part. */
  ghost function PartLora(l: LoraTensor, s: Sizes, d: int, k: nat): Option<LoraTensor>
    requires l.Valid()
  {
    if forall j: nat :: RawPart(l, s, d, j).Some? ==> Accepted(RawPart(l, s, d, j).value) then RawPart(l, s, d, k)
    else None
  }

  lemma RawCommutes(l: LoraTensor, s: Sizes, d: int, k: nat)
    requires l.Valid() && d + l.Dim() >= 0
    ensures RawPart(l, s, d, k).Some? <==> PartOf(Dense(l), s, d, k).Some?
    ensures RawPart(l, s, d, k).Some? ==>
      && RawPart(l, s, d, k).value.Valid()
      && Some(Dense(RawPart(l, s, d, k).value)) == PartOf(Dense(l), s, d, k)
  {
    hide Prod;
    hide Dense;
    hide Narrow;
    hide Offset;
    var e := Dimension(l.Dim(), d);
    if 0 <= e < l.Dim() {
      var total := l.Shape()[e];
      assert e < l.Dim() - 2 && l.A.shape[e] != 1 ==> l.A.shape[e] == l.B.shape[e];
      if SizesOf(total, s).Some? && k < |SizesOf(total, s).value| {
        var ns := SizesOf(total, s).value;
        SizesTotal(total, s);
        NarrowCommutes(l, e, Offset(ns, k), ns[k]);
      }
    }
  }

  /**
   * Part `k` of the split stands for part `k` of the split product, and the parts are as many, unless the dimension is
   * below minus the rank of the tensor, where the product cannot be split.
   */
  lemma SplitCommutes(l: LoraTensor, s: Sizes, d: int, k: nat)
    requires l.Valid()
    ensures PartLora(l, s, d, k).Some? && d + l.Dim() >= 0 ==>
      var p := PartLora(l, s, d, k).value; p.Valid() && IsPart(Dense(l), Dense(p), s, d, k)
    ensures var p, t := PartLora(l, s, d, k), PartOf(Dense(l), s, d, k);
      if d + l.Dim() >= 0 then (p.Some? <==> t.Some?) && (p.Some? ==> Means(p, t)) else t.None?
  {
    hide Prod;
    hide Dense;
    hide RawPart;
    hide IsPart;
    hide HasPart;
    if d + l.Dim() >= 0 {
      forall j: nat ensures RawPart(l, s, d, j).Some? ==> Accepted(RawPart(l, s, d, j).value) {
        RawCommutes(l, s, d, j);
      }
      RawCommutes(l, s, d, k);
      SplitParts(Dense(l), s, d, k);
    }
  }

  /** There the code splits a leading dimension all the same, counted from the end once more. */
  lemma SplitBelow(l: LoraTensor, s: Sizes, d: int, k: nat)
    requires l.Valid() && d + l.Dim() + 2 < 0
    ensures var c := d + 2 * l.Dim();
      PartLora(l, s, d, k) == if c >= 0 then PartLora(l, s, c, k) else None
  {
    hide Prod;
    hide SizesOf;
    hide Narrow;
    var c := d + 2 * l.Dim();
    if c >= 0 {
      assert forall j: nat :: RawPart(l, s, d, j) == RawPart(l, s, c, j);
    }
  }

  // ---- Compositions ----

  /** An operation on one tensor. */
  datatype Op =
    | Permuting(dims: seq<int>)
    | Taking(sizes: Sizes, dim: int, k: nat)
    | Indexing(keys: seq<Key>)
    | Picking(i: Index)
    | Scaling(m: Tensor)
    | Reshaping(shape: seq<int>)

  /** What the script computes on factors; `None` where it raises or the indexing is not right. */
  ghost function OpLora(l: LoraTensor, op: Op): (r: Option<LoraTensor>)
    requires l.Valid()
  {
    match op
    case Permuting(dims) => PermuteLora(l, dims)
    case Taking(s, d, k) => if d + l.Dim() >= 0 then PartLora(l, s, d, k) else None
    case Indexing(keys) => if KeysWhole(l, keys) then KeysLora(l, keys) else None
    case Picking(i) => if PickWhole(l, i) && Fits(i, l.Shape()[0]) then PickLora(l, i) else None
    case Scaling(m) => if Scales(m, l) then Some(TimesLora(l, m)) else None
    case Reshaping(dims) => if KeepsCount(l, dims) then ReshapeLora(l, dims) else None
  }

  /** The target shape has as many entries; of the accepted ones, only a rank of zero allows others. */
  predicate KeepsCount(l: LoraTensor, dims: seq<int>)
    requires l.Valid()
  {
    var s := Expand(dims, Prod(l.Shape()));
    s.Some? && Prod(s.value) == Prod(l.Shape())
  }

  /** The same operation on a dense tensor. */
  function OpDense(t: Tensor, op: Op): (r: Option<Tensor>)
    requires t.Valid()
    ensures r.Some? ==> r.value.Valid()
  {
    match op
    case Permuting(dims) =>
      var axes := Axes(dims, |t.shape|);
      if axes.Some? then Some(Permute(t, axes.value)) else None
    case Taking(s, d, k) => PartOf(t, s, d, k)
    case Indexing(keys) => if Single(keys) then KeysDense(t, keys) else None
    case Picking(i) => if t.shape != [] && Fits(i, t.shape[0]) then Some(Item(t, 0, i)) else None
    case Scaling(m) =>
      if m.Valid() && |m.shape| <= |t.shape| && Broadcasts(t.shape, Pad(m, |t.shape|).shape)
      then Some(Times(t, Pad(m, |t.shape|))) else None
    case Reshaping(dims) => ReshapedTo(t, dims)
  }

  /** Reshaping a dense tensor, with -1 expanded. */
  function ReshapedTo(t: Tensor, dims: seq<int>): (r: Option<Tensor>)
    requires t.Valid()
    ensures r.Some? ==> r.value.Valid()
  {
    var s := Expand(dims, Prod(t.shape));
    if s.Some? && Prod(s.value) == Prod(t.shape) then Some(Reshape(t, s.value)) else None
  }

  lemma ReshapedToCommutes(l: LoraTensor, dims: seq<int>)
    requires l.Valid() && ReshapeLora(l, dims).Some?
    ensures ReshapeLora(l, dims).value.Valid()
    ensures ReshapedTo(Dense(l), dims) == Some(Dense(ReshapeLora(l, dims).value)) <==> KeepsCount(l, dims)
  {
    hide Prod;
    hide Reshape;
    ReshapeCommutes(l, dims);
  }

  /** Every operation on factors stands for the operation on the product. */
  lemma OpCommutes(l: LoraTensor, op: Op)
    requires l.Valid() && OpLora(l, op).Some?
    ensures OpLora(l, op).value.Valid() && OpDense(Dense(l), op) == Some(Dense(OpLora(l, op).value))
  {
    hide Prod;
    hide Permute;
    hide PermuteLora;
    hide PartLora;
    hide PartOf;
    hide KeysLora;
    hide KeysDense;
    hide TupleWhole;
    hide PickWhole;
    hide Pad;
    hide Dense;
    hide Axes;
    hide TimesLora;
    hide Times;
    hide ReshapeLora;
    hide ReshapedTo;
    hide PickLora;
    hide Item;
    match op
    case Permuting(dims) => PermuteCommutes(l, dims);
    case Taking(s, d, k) => SplitCommutes(l, s, d, k);
    case Indexing(keys) => KeysExactly(l, keys);
    case Picking(i) => PickExactly(l, i);
    case Scaling(m) => TimesCommutes(l, m);
    case Reshaping(dims) => ReshapedToCommutes(l, dims);
  }

  /** Combining a list: stacking, or concatenating along the first dimension. */
  function GroupLora(ls: seq<LoraTensor>, stack: bool): Option<LoraTensor> {
    if stack then if Stackable(ls) then Some(StackLora(ls)) else None
    else if Joinable(ls) && JoinWhole(ls) then Some(CatPair(ls))
    else if ColumnCatable(ls) then Some(CatColumns(ls))
    else None
  }

  function GroupDense(ts: seq<Tensor>, stack: bool): (r: Option<Tensor>)
    requires forall i :: 0 <= i < |ts| ==> ts[i].Valid()
    ensures r.Some? ==> r.value.Valid()
  {
    if stack then if SameShape(ts) then Some(Stack(ts)) else None
    else if Catable(ts) then Some(Cat(ts))
    else None
  }

  lemma GroupCommutes(ls: seq<LoraTensor>, stack: bool)
    requires (forall i :: 0 <= i < |ls| ==> ls[i].Valid()) && GroupLora(ls, stack).Some?
    ensures GroupLora(ls, stack).value.Valid()
    ensures GroupDense(Products(ls), stack) == Some(Dense(GroupLora(ls, stack).value))
  {
    hide Dense;
    hide Stack;
    hide Cat;
    hide CatPair;
    hide CatColumns;
    hide StackLora;
    hide Products;
    if stack {
      StackCommutes(ls);
    } else if Joinable(ls) && JoinWhole(ls) {
      JoinWholeRight(ls);
    } else {
      CatColumnsCommutes(ls);
    }
  }

  datatype Expr = Leaf(l: LoraTensor) | Applied(op: Op, e: Expr) | Grouped(stack: bool, es: seq<Expr>)

  ghost function EvalLora(e: Expr): (r: Option<LoraTensor>)
    ensures r.Some? ==> r.value.Valid()
    decreases e, 1
  {
    match e
    case Leaf(l) => if l.Valid() then Some(l) else None
    case Applied(op, f) =>
      var l := EvalLora(f);
      if l.None? || OpLora(l.value, op).None? then None else
        OpCommutes(l.value, op);
        OpLora(l.value, op)
    case Grouped(stack, es) =>
      var ls := EvalLoras(es);
      if ls.None? || GroupLora(ls.value, stack).None? then None else
        GroupCommutes(ls.value, stack);
        GroupLora(ls.value, stack)
  }

  ghost function EvalLoras(es: seq<Expr>): (r: Option<seq<LoraTensor>>)
    ensures r.Some? ==> |r.value| == |es| && forall i :: 0 <= i < |es| ==> r.value[i].Valid()
    decreases es, 0
  {
    if es == [] then Some([]) else
      var l, ls := EvalLora(es[0]), EvalLoras(es[1..]);
      if l.Some? && ls.Some? then Some([l.value] + ls.value) else None
  }

  /** The same composition on dense tensors. */
  function EvalDense(e: Expr): (r: Option<Tensor>)
    ensures r.Some? ==> r.value.Valid()
    decreases e, 1
  {
    match e
    case Leaf(l) => if l.Valid() then Some(Dense(l)) else None
    case Applied(op, f) =>
      var t := EvalDense(f);
      if t.Some? then OpDense(t.value, op) else None
    case Grouped(stack, es) =>
      var ts := EvalDenses(es);
      if ts.Some? then GroupDense(ts.value, stack) else None
  }

  function EvalDenses(es: seq<Expr>): (r: Option<seq<Tensor>>)
    ensures r.Some? ==> |r.value| == |es| && forall i :: 0 <= i < |es| ==> r.value[i].Valid()
    decreases es, 0
  {
    if es == [] then Some([]) else
      var t, ts := EvalDense(es[0]), EvalDenses(es[1..]);
      if t.Some? && ts.Some? then Some([t.value] + ts.value) else None
  }

  /** Every composition the script carries out on factors stands for the same composition of products. */
  lemma {:induction false} AlgebraCommutes(e: Expr)
    requires EvalLora(e).Some?
    ensures EvalDense(e) == Some(Dense(EvalLora(e).value))
    decreases e, 1
  {
    hide Dense;
    hide OpLora;
    hide OpDense;
    hide GroupLora;
    hide GroupDense;
    match e
    case Leaf(_) =>
    case Applied(op, f) =>
      AlgebraCommutes(f);
      OpCommutes(EvalLora(f).value, op);
    case Grouped(stack, es) =>
      AlgebraCommutesAll(es);
      GroupCommutes(EvalLoras(es).value, stack);
  }

  lemma ProductsCons(l: LoraTensor, ls: seq<LoraTensor>)
    requires l.Valid() && forall i :: 0 <= i < |ls| ==> ls[i].Valid()
    ensures Products([l] + ls) == [Dense(l)] + Products(ls)
  {
    hide Dense;
  }

  lemma {:induction false} AlgebraCommutesAll(es: seq<Expr>)
    requires EvalLoras(es).Some?
    ensures EvalDenses(es) == Some(Products(EvalLoras(es).value))
    decreases es, 0
  {
    hide Dense;
    if es != [] {
      hide Products;
      AlgebraCommutes(es[0]);
      AlgebraCommutesAll(es[1..]);
      ProductsCons(EvalLora(es[0]).value, EvalLoras(es[1..]).value);
    }
  }
}
