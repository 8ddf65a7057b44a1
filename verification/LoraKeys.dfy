/** Tuples of indices with an ellipsis: the dimensions the script lets every index fall on, and when they are right. */
module LoraKeys {
  import opened Text
  import opened Tensors
  import opened Lora
  import opened LoraIndex

  /** A member of an index tuple: `...`, or an integer or slice. */
  datatype Key = Dots | One(i: Index)

  const WHOLE := Slice(0, None)

  function Whole(n: nat): (r: seq<Index>)
    ensures |r| == n && forall i :: 0 <= i < n ==> r[i] == WHOLE
  {
    seq(n, _ => WHOLE)
  }

  /** Every ellipsis replaced by `k` full slices. */
  function Spread(keys: seq<Key>, k: nat): seq<Index> {
    if keys == [] then [] else
      var n := |keys| - 1;
      Spread(keys[..n], k) + match keys[n] case Dots => Whole(k) case One(i) => [i]
  }

  /**
   * What the script makes of a tuple for a tensor of `n` dimensions: a last ellipsis is dropped, any other stands for
   * one slice less than the tuple is long, and full slices follow. `None` where it raises.
   */
  function Expanded(keys: seq<Key>, n: nat): (r: Option<seq<Index>>)
    ensures r.Some? ==> |r.value| == n
  {
    if keys == [] then None
    else if keys[|keys| - 1].Dots? then Expanded(keys[..|keys| - 1], n)
    else
      var s := Spread(keys, |keys| - 1);
      if |s| > n then None else Some(s + Whole(n - |s|))
  }

  predicate Single(keys: seq<Key>) {
    forall i, j :: 0 <= i < j < |keys| ==> !(keys[i].Dots? && keys[j].Dots?)
  }

  /** Where the first ellipsis stands, or the length of the tuple. */
  function DotsAt(keys: seq<Key>): (p: nat)
    ensures p <= |keys| && (p < |keys| ==> keys[p].Dots?)
    ensures forall i :: 0 <= i < p ==> keys[i].One?
  {
    if keys == [] || keys[0].Dots? then 0 else 1 + DotsAt(keys[1..])
  }

  /** What a tuple with at most one ellipsis means: it, or the end of the tuple, stands for the missing dimensions. */
  function Standard(keys: seq<Key>, n: nat): Option<seq<Index>> {
    var others := if DotsAt(keys) < |keys| then |keys| - 1 else |keys|;
    if others > n then None
    else if DotsAt(keys) < |keys| then Some(Spread(keys, n - others))
    else Some(Spread(keys, 0) + Whole(n - others))
  }

  /**
   * The script lets every index fall on its dimension: there is an index; and an ellipsis is last, or half of the
   * dimensions are indexed, or only full slices follow it, or there are too many indices anyway.
   */
  predicate Placed(keys: seq<Key>, n: nat) {
    var p, m := DotsAt(keys), |keys| - 1;
    if p >= m then |keys| > 1 || (keys != [] && keys[0].One?)
    else n == 2 * m || m > n || (2 * m < n && forall i :: p < i <= m ==> keys[i] == One(WHOLE))
  }

  lemma {:induction false} SpreadPlain(keys: seq<Key>, k: nat)
    requires forall i :: 0 <= i < |keys| ==> keys[i].One?
    ensures |Spread(keys, k)| == |keys| && forall i :: 0 <= i < |keys| ==> keys[i] == One(Spread(keys, k)[i])
    decreases |keys|
  {
    if keys != [] { SpreadPlain(keys[..|keys| - 1], k); }
  }

  lemma {:induction false} SpreadConcat(a: seq<Key>, b: seq<Key>, k: nat)
    ensures Spread(a + b, k) == Spread(a, k) + Spread(b, k)
    decreases |b|
  {
    if b == [] {
      assert a + b == a;
    } else {
      assert (a + b)[..|a + b| - 1] == a + b[..|b| - 1];
      SpreadConcat(a, b[..|b| - 1], k);
    }
  }

  lemma PlainAlike(keys: seq<Key>, k: nat, j: nat)
    requires forall i :: 0 <= i < |keys| ==> keys[i].One?
    ensures Spread(keys, k) == Spread(keys, j)
  {
    SpreadPlain(keys, k);
    SpreadPlain(keys, j);
    assert forall i :: 0 <= i < |keys| ==> One(Spread(keys, k)[i]) == One(Spread(keys, j)[i]);
  }

  /** A tuple with one ellipsis, taken apart there. */
  lemma SpreadDots(keys: seq<Key>, p: nat, k: nat)
    requires p < |keys| && keys[p].Dots?
    ensures Spread(keys, k) == Spread(keys[..p], k) + Whole(k) + Spread(keys[p + 1..], k)
  {
    assert keys == keys[..p] + [Dots] + keys[p + 1..];
    SpreadConcat(keys[..p] + [Dots], keys[p + 1..], k);
    SpreadConcat(keys[..p], [Dots], k);
    assert [Dots][..0] == [] && Spread([Dots], k) == Spread([], k) + Whole(k);
  }

  lemma {:induction false} FullFrom(s: seq<Index>, d: nat, i: nat)
    requires d > 0 && s + Whole(d) == Whole(d) + s && i < |s|
    ensures s[i] == WHOLE
    decreases i
  {
    assert s[i] == (Whole(d) + s)[i];
    if i >= d { FullFrom(s, d, i - d); }
  }

  /** Full slices can change places with other indices only if those are full slices, too. */
  lemma Commutes(s: seq<Index>, d: nat)
    requires d > 0
    ensures s + Whole(d) == Whole(d) + s <==> forall i :: 0 <= i < |s| ==> s[i] == WHOLE
  {
    if s + Whole(d) == Whole(d) + s {
      forall i | 0 <= i < |s| ensures s[i] == WHOLE {
        FullFrom(s, d, i);
      }
    }
  }

  lemma WholeSplit(a: nat, b: nat)
    ensures Whole(a + b) == Whole(a) + Whole(b)
  {
  }

  lemma Cancels(p: seq<Index>, a: seq<Index>, b: seq<Index>)
    ensures p + a == p + b <==> a == b
  {
    if p + a == p + b { assert a == (p + a)[|p|..] && b == (p + b)[|p|..]; }
  }

  /** The two expansions of an ellipsis between `pre` and `post` that leaves `d` dimensions over. */
  lemma ExpansionsAgree(pre: seq<Index>, m: nat, post: seq<Index>, d: nat)
    requires d > 0
    ensures pre + Whole(m) + post + Whole(d) == pre + Whole(m + d) + post
      <==> forall i :: 0 <= i < |post| ==> post[i] == WHOLE
  {
    var head := pre + Whole(m);
    WholeSplit(m, d);
    assert pre + Whole(m + d) + post == head + (Whole(d) + post);
    assert pre + Whole(m) + post + Whole(d) == head + (post + Whole(d));
    Cancels(head, post + Whole(d), Whole(d) + post);
    Commutes(post, d);
  }

  /** Both expansions of an ellipsis that is not last, from the indices before and behind it. */
  lemma InnerForms(keys: seq<Key>, n: nat, p: nat, m: nat) returns (pre: seq<Index>, post: seq<Index>)
    requires Single(keys) && p == DotsAt(keys) < m == |keys| - 1
    ensures |pre| == p && |post| == m - p && forall i :: p < i <= m ==> keys[i] == One(post[i - p - 1])
    ensures Expanded(keys, n) == if 2 * m > n then None else Some(pre + Whole(m) + post + Whole(n - 2 * m))
    ensures Standard(keys, n) == if m > n then None else Some(pre + Whole(n - m) + post)
  {
    hide Spread;
    hide Whole;
    pre, post := Spread(keys[..p], m), Spread(keys[p + 1..], m);
    SpreadDots(keys, p, m);
    SpreadPlain(keys[..p], m);
    SpreadPlain(keys[p + 1..], m);
    if m <= n {
      SpreadDots(keys, p, n - m);
      PlainAlike(keys[..p], m, n - m);
      PlainAlike(keys[p + 1..], m, n - m);
    }
  }

  lemma WholeAfter(keys: seq<Key>, p: nat, m: nat, post: seq<Index>)
    requires p < m == |keys| - 1 && |post| == m - p && forall i :: p < i <= m ==> keys[i] == One(post[i - p - 1])
    ensures (forall i :: 0 <= i < |post| ==> post[i] == WHOLE) <==> forall i :: p < i <= m ==> keys[i] == One(WHOLE)
  {
    assert forall i :: 0 <= i < |post| ==> keys[p + 1 + i] == One(post[i]);
  }

  /** An ellipsis that is not last. */
  lemma InnerDots(keys: seq<Key>, n: nat)
    requires Single(keys) && DotsAt(keys) < |keys| - 1
    ensures Expanded(keys, n) == Standard(keys, n) <==> Placed(keys, n)
  {
    hide Expanded;
    hide Standard;
    hide Whole;
    var p, m := DotsAt(keys), |keys| - 1;
    var pre, post := InnerForms(keys, n, p, m);
    WholeAfter(keys, p, m, post);
    if 2 * m < n {
      ExpansionsAgree(pre, m, post, n - 2 * m);
    } else if n == 2 * m {
      assert pre + Whole(m) + post + Whole(0) == pre + Whole(m) + post;
    }
  }

  /** A last ellipsis, or none. */
  lemma OuterDots(keys: seq<Key>, n: nat)
    requires Single(keys) && DotsAt(keys) >= |keys| - 1
    ensures Expanded(keys, n) == Standard(keys, n) <==> Placed(keys, n)
  {
    hide Spread;
    hide Whole;
    var p := DotsAt(keys);
    if keys == [] {
    } else if p == |keys| {
      SpreadPlain(keys, p - 1);
      PlainAlike(keys, p - 1, 0);
    } else if p > 0 {
      var init := keys[..p];
      SpreadPlain(init, p - 1);
      assert Expanded(keys, n) == Expanded(init, n);
      if p <= n {
        SpreadDots(keys, p, n - p);
        PlainAlike(init, p - 1, n - p);
        LastSpread(keys, n - p);
      }
    } else {
      assert keys[..0] == [];
    }
  }

  lemma LastSpread(keys: seq<Key>, k: nat)
    requires keys != []
    ensures Spread(keys[|keys|..], k) == [] && forall s: seq<Index> :: s + Spread(keys[|keys|..], k) == s
  {
  }

  /** Which tuples with at most one ellipsis the script expands as they are meant. */
  lemma PlacedExactly(keys: seq<Key>, n: nat)
    requires Single(keys)
    ensures Expanded(keys, n) == Standard(keys, n) <==> Placed(keys, n)
  {
    if DotsAt(keys) < |keys| - 1 { InnerDots(keys, n); } else { OuterDots(keys, n); }
  }

  /** For three dimensions the index after an ellipsis falls on the second. */
  lemma DotsMisplaced(i: Index)
    ensures Expanded([Dots, One(i)], 3) == Some([WHOLE, i, WHOLE])
    ensures Standard([Dots, One(i)], 3) == Some([WHOLE, WHOLE, i])
  {
    var keys := [Dots, One(i)];
    SpreadDots(keys, 0, 1);
    SpreadDots(keys, 0, 2);
    SpreadPlain(keys[1..], 1);
    SpreadPlain(keys[1..], 2);
    assert Spread(keys, 1) == [WHOLE, i] && Spread(keys, 2) == [WHOLE, WHOLE, i];
    assert [WHOLE, i] + Whole(1) == [WHOLE, i, WHOLE];
  }

  /** `l[keys]` for a tuple; `None` where it raises. */
  function KeysLora(l: LoraTensor, keys: seq<Key>): (r: Option<LoraTensor>)
    requires l.Valid()
  {
    match Expanded(keys, l.Dim())
    case None => None
    case Some(idx) => TupleLora(l, idx)
  }

  /** Indexing a dense tensor with a tuple. */
  function KeysDense(t: Tensor, keys: seq<Key>): (r: Option<Tensor>)
    requires t.Valid()
    ensures r.Some? ==> r.value.Valid()
  {
    match Standard(keys, |t.shape|)
    case None => None
    case Some(idx) => if |idx| == |t.shape| then Items(t, idx) else None
  }

  /** The indices fall on their dimensions, the product can be indexed, and the full tuple is right for the factors. */
  predicate KeysWhole(l: LoraTensor, keys: seq<Key>)
    requires l.Valid()
  {
    && Single(keys) && Placed(keys, l.Dim()) && KeysDense(Dense(l), keys).Some?
    && TupleWhole(l, Standard(keys, l.Dim()).value)
  }

  /** Where the indices fall on their dimensions, the result is right exactly as for full tuples. */
  lemma KeysExactly(l: LoraTensor, keys: seq<Key>)
    requires l.Valid() && Single(keys) && Placed(keys, l.Dim())
    ensures Means(KeysLora(l, keys), KeysDense(Dense(l), keys)) <==> KeysWhole(l, keys)
  {
    hide Dense;
    hide Items;
    hide TupleLora;
    hide TupleWhole;
    PlacedExactly(keys, l.Dim());
    if Standard(keys, l.Dim()).Some? {
      TupleExactly(l, Standard(keys, l.Dim()).value);
    }
  }

  lemma ItemWhole(t: Tensor, d: nat)
    requires t.Valid() && d < |t.shape|
    ensures Item(t, d, WHOLE) == t
  {
    hide Prod;
    hide Narrow;
    NarrowFull(t, d);
  }

  /** Full slices first change nothing. */
  lemma {:induction false} OnlyWhole(t: Tensor, n: nat)
    requires t.Valid() && n <= |t.shape|
    ensures Items(t, Whole(n)) == Some(t)
    decreases n
  {
    hide Item;
    if n > 0 {
      assert Whole(n)[..n - 1] == Whole(n - 1);
      ItemWhole(t, n - 1);
      OnlyWhole(t, n - 1);
    }
  }

  /** The last of some indices is applied first. */
  lemma LastItem(t: Tensor, idx: seq<Index>)
    requires t.Valid() && idx != [] && |idx| <= |t.shape| && idx[|idx| - 1].Slice?
    ensures Items(t, idx) == Items(Item(t, |idx| - 1, idx[|idx| - 1]), idx[..|idx| - 1])
  {
    hide Item;
  }

  /** One slice before full ones and behind full ones. */
  lemma OneSlice(t: Tensor, idx: seq<Index>, d: nat, i: Index)
    requires t.Valid() && |idx| == d + 1 <= |t.shape| && idx[..d] == Whole(d) && idx[d] == i && i.Slice?
    ensures Items(t, idx) == Some(Item(t, d, i))
  {
    hide Items;
    hide Item;
    hide Prod;
    hide Whole;
    LastItem(t, idx);
    OnlyWhole(Item(t, d, i), d);
  }

  lemma DropWhole(t: Tensor, idx: seq<Index>)
    requires t.Valid() && idx != [] && |idx| <= |t.shape| && idx[|idx| - 1] == WHOLE
    ensures Items(t, idx) == Items(t, idx[..|idx| - 1])
  {
    hide Items;
    hide Item;
    hide Prod;
    LastItem(t, idx);
    ItemWhole(t, |idx| - 1);
  }

  /** A slice behind an ellipsis, in three dimensions: right only if it slices nothing. */
  lemma DotsSlice(l: LoraTensor, i: Index)
    requires l.Valid() && l.Dim() == 3 && i.Slice?
    ensures var keys := [Dots, One(i)];
      Means(KeysLora(l, keys), KeysDense(Dense(l), keys)) <==> Full(i, l.Shape()[1]) && Full(i, l.Shape()[2])
  {
    hide Dense;
    hide Items;
    hide TupleLora;
    hide Expanded;
    hide Standard;
    hide Prod;
    hide Narrow;
    var t := Dense(l);
    DotsMisplaced(i);
    DropWhole(t, [WHOLE, i, WHOLE]);
    assert [WHOLE, i, WHOLE][..2] == [WHOLE, i] && [WHOLE, i][..1] == Whole(1) && [WHOLE, WHOLE, i][..2] == Whole(2);
    OneSlice(t, [WHOLE, i], 1, i);
    OneSlice(t, [WHOLE, WHOLE, i], 2, i);
    TupleExactly(l, [WHOLE, i, WHOLE]);
    var y, z := To(i, t.shape[1]) - From(i, t.shape[1]), To(i, t.shape[2]) - From(i, t.shape[2]);
    assert Item(t, 1, i).shape == t.shape[1 := y] && Item(t, 2, i).shape == t.shape[2 := z];
    if Full(i, t.shape[1]) && Full(i, t.shape[2]) {
      NarrowFull(t, 1);
      NarrowFull(t, 2);
    } else {
      assert t.shape[1 := y][1] == y && t.shape[2 := z][2] == z;
      assert t.shape[1 := y] != t.shape[2 := z];
    }
  }
}
