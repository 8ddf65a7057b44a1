/** Row-major tensors with exact integer entries, and the dense operations of the conversion script. */
module Tensors {

  function Prod(s: seq<nat>): nat {
    if s == [] then 1 else Prod(s[..|s| - 1]) * s[|s| - 1]
  }

  datatype Tensor = Tensor(shape: seq<nat>, data: seq<int>) {
    predicate Valid() {
      |data| == Prod(shape)
    }
  }

  predicate InBounds(shape: seq<nat>, idx: seq<nat>) {
    |idx| == |shape| && forall i :: 0 <= i < |shape| ==> idx[i] < shape[i]
  }

  // ---- Row-major order ----

  lemma MulMonotone(a: int, b: int, n: nat)
    ensures a <= b ==> a * n <= b * n
  {
  }

  lemma MulAddBound(q: nat, p: nat, r: nat, n: nat)
    requires q < p && r < n
    ensures q * n + r < p * n
  {
    MulMonotone(q + 1, p, n);
  }

  lemma DivModUnique(q: nat, r: nat, n: nat)
    requires r < n
    ensures (q * n + r) / n == q && (q * n + r) % n == r
  {
    var k := q * n + r;
    assert k == (k / n) * n + k % n;
    MulMonotone(q + 1, k / n, n);
    MulMonotone(k / n + 1, q, n);
  }

  lemma DivBound(k: nat, p: nat, n: nat)
    requires k < p * n
    ensures n > 0 && k / n < p && k % n < n && (k / n) * n + k % n == k
  {
    assert p * 0 == 0;
    MulMonotone(p, k / n, n);
  }

  function Flat(shape: seq<nat>, idx: seq<nat>): (k: nat)
    requires InBounds(shape, idx)
    ensures k < Prod(shape)
  {
    if shape == [] then 0 else
      var n := |shape| - 1;
      var q := Flat(shape[..n], idx[..n]);
      MulAddBound(q, Prod(shape[..n]), idx[n], shape[n]);
      q * shape[n] + idx[n]
  }

  function Unflat(shape: seq<nat>, k: nat): (idx: seq<nat>)
    requires k < Prod(shape)
    ensures InBounds(shape, idx) && Flat(shape, idx) == k
  {
    if shape == [] then [] else
      var n := |shape| - 1;
      DivBound(k, Prod(shape[..n]), shape[n]);
      var q := Unflat(shape[..n], k / shape[n]);
      var idx := q + [k % shape[n]];
      assert idx[..n] == q;
      idx
  }

  lemma {:induction false} UnflatFlat(shape: seq<nat>, idx: seq<nat>)
    requires InBounds(shape, idx)
    ensures Unflat(shape, Flat(shape, idx)) == idx
    decreases |shape|
  {
    if shape != [] {
      var n := |shape| - 1;
      UnflatFlat(shape[..n], idx[..n]);
      DivModUnique(Flat(shape[..n], idx[..n]), idx[n], shape[n]);
      assert idx[..n] + [idx[n]] == idx;
    }
  }

  function At(t: Tensor, idx: seq<nat>): int
    requires t.Valid() && InBounds(t.shape, idx)
  {
    t.data[Flat(t.shape, idx)]
  }

  /** The tensor whose entry at `idx` is `f(idx)`. */
  function Tabulate(shape: seq<nat>, f: seq<nat> --> int): (t: Tensor)
    requires forall idx :: InBounds(shape, idx) ==> f.requires(idx)
    ensures t.Valid() && t.shape == shape
  {
    Tensor(shape, seq(Prod(shape), k requires 0 <= k < Prod(shape) => f(Unflat(shape, k))))
  }

  lemma TabulateAt(shape: seq<nat>, f: seq<nat> --> int, idx: seq<nat>)
    requires forall i :: InBounds(shape, i) ==> f.requires(i)
    requires InBounds(shape, idx)
    ensures At(Tabulate(shape, f), idx) == f(idx)
  {
    UnflatFlat(shape, idx);
  }

  lemma Extensional(t: Tensor, u: Tensor)
    requires t.Valid() && u.Valid() && t.shape == u.shape
    requires forall idx :: InBounds(t.shape, idx) ==> At(t, idx) == At(u, idx)
    ensures t == u
  {
    forall k | 0 <= k < Prod(t.shape) ensures t.data[k] == u.data[k] {
      assert At(t, Unflat(t.shape, k)) == At(u, Unflat(t.shape, k));
    }
  }

  // ---- Dense operations ----

  /** Broadcasting: an index into a dimension of size 1 is 0. */
  function Clip(shape: seq<nat>, idx: seq<nat>): (r: seq<nat>)
    requires |shape| == |idx|
    ensures |r| == |idx| && forall i :: 0 <= i < |idx| ==> r[i] == if shape[i] == 1 then 0 else idx[i]
  {
    seq(|idx|, i requires 0 <= i < |idx| => if shape[i] == 1 then 0 else idx[i])
  }

  /** Shapes of equal length that broadcast to a common one. */
  predicate Broadcasts(s: seq<nat>, t: seq<nat>) {
    |s| == |t| && forall i :: 0 <= i < |t| ==> s[i] == 1 || t[i] == 1 || s[i] == t[i]
  }

  function Broadcast(s: seq<nat>, t: seq<nat>): (r: seq<nat>)
    requires Broadcasts(s, t)
    ensures |r| == |s| && forall i :: 0 <= i < |s| ==> r[i] == if s[i] == 1 then t[i] else s[i]
  {
    seq(|s|, i requires 0 <= i < |s| => if s[i] == 1 then t[i] else s[i])
  }

  function Ones(n: nat): (r: seq<nat>)
    ensures |r| == n && forall i :: 0 <= i < n ==> r[i] == 1
  {
    seq(n, _ => 1)
  }

  lemma {:induction false} ProdOnes(n: nat, s: seq<nat>)
    ensures Prod(Ones(n) + s) == Prod(s)
    decreases n
  {
    if n == 0 {
      assert Ones(0) + s == s;
    } else {
      ProdOnes(n - 1, s);
      assert Ones(n) + s == [1] + (Ones(n - 1) + s);
      ProdUnitHead(Ones(n - 1) + s);
    }
  }

  lemma {:induction false} ProdUnitHead(s: seq<nat>)
    ensures Prod([1] + s) == Prod(s)
    decreases |s|
  {
    if s == [] {
      assert [1] + s == [1] && [1][..0] == [];
    } else {
      assert ([1] + s)[..|s|] == [1] + s[..|s| - 1];
      ProdUnitHead(s[..|s| - 1]);
    }
  }

  /** A tensor of a lower dimension gets leading dimensions of size 1. */
  function Pad(m: Tensor, n: nat): (r: Tensor)
    requires m.Valid() && |m.shape| <= n
    ensures r.Valid() && |r.shape| == n && r.data == m.data
    ensures forall i :: 0 <= i < n ==> r.shape[i] == if i < n - |m.shape| then 1 else m.shape[i - (n - |m.shape|)]
  {
    ProdOnes(n - |m.shape|, m.shape);
    Tensor(Ones(n - |m.shape|) + m.shape, m.data)
  }

  /** Part `[off, off + len)` of dimension `d`. */
  function Narrow(t: Tensor, d: nat, off: nat, len: nat): (r: Tensor)
    requires t.Valid() && d < |t.shape| && off + len <= t.shape[d]
    ensures r.Valid() && r.shape == t.shape[d := len]
  {
    Tabulate(t.shape[d := len], (idx: seq<nat>) requires InBounds(t.shape[d := len], idx) => At(t, idx[d := off + idx[d]]))
  }

  /** Entry `j` of dimension `d`, which disappears. */
  function Select(t: Tensor, d: nat, j: nat): (r: Tensor)
    requires t.Valid() && d < |t.shape| && j < t.shape[d]
    ensures r.Valid() && r.shape == t.shape[..d] + t.shape[d + 1..]
  {
    Tabulate(t.shape[..d] + t.shape[d + 1..],
             idx requires InBounds(t.shape[..d] + t.shape[d + 1..], idx) =>
               assert InBounds(t.shape, idx[..d] + [j] + idx[d..]) by { InsertBounds(t.shape, idx, d, j); }
               At(t, idx[..d] + [j] + idx[d..]))
  }

  lemma InsertBounds(shape: seq<nat>, idx: seq<nat>, d: nat, j: nat)
    requires d < |shape| && j < shape[d] && InBounds(shape[..d] + shape[d + 1..], idx)
    ensures InBounds(shape, idx[..d] + [j] + idx[d..])
  {
    var s := shape[..d] + shape[d + 1..];
    var full := idx[..d] + [j] + idx[d..];
    forall i | 0 <= i < |shape| ensures full[i] < shape[i] {
      if i < d { assert s[i] == shape[i]; } else if i > d { assert s[i - 1] == shape[i] && full[i] == idx[i - 1]; }
    }
  }

  predicate IsPermutation(dims: seq<nat>) {
    && (forall i :: 0 <= i < |dims| ==> dims[i] < |dims|)
    && (forall i, j :: 0 <= i < j < |dims| ==> dims[i] != dims[j])
    && (forall d :: 0 <= d < |dims| ==> d in dims)
  }

  /** Where `d` stands in `dims`. */
  function Position(dims: seq<nat>, d: nat): (i: nat)
    requires d in dims
    ensures i < |dims| && dims[i] == d
  {
    if dims[|dims| - 1] == d then |dims| - 1 else Position(dims[..|dims| - 1], d)
  }

  function Gather(s: seq<nat>, dims: seq<nat>): (r: seq<nat>)
    requires |s| == |dims| && IsPermutation(dims)
    ensures |r| == |s| && forall i :: 0 <= i < |s| ==> r[i] == s[dims[i]]
  {
    seq(|s|, i requires 0 <= i < |s| => s[dims[i]])
  }

  /** The index whose gathering is `idx`. */
  function Scatter(idx: seq<nat>, dims: seq<nat>): (r: seq<nat>)
    requires |idx| == |dims| && IsPermutation(dims)
    ensures |r| == |idx| && forall i :: 0 <= i < |idx| ==> r[dims[i]] == idx[i]
  {
    var r := seq(|idx|, d requires 0 <= d < |idx| => idx[Position(dims, d)]);
    assert forall i :: 0 <= i < |idx| ==> Position(dims, dims[i]) == i;
    r
  }

  lemma ScatterBounds(shape: seq<nat>, idx: seq<nat>, dims: seq<nat>)
    requires |shape| == |dims| && IsPermutation(dims) && InBounds(Gather(shape, dims), idx)
    ensures InBounds(shape, Scatter(idx, dims))
  {
    forall d | 0 <= d < |shape| ensures Scatter(idx, dims)[d] < shape[d] {
      var i := Position(dims, d);
      assert Gather(shape, dims)[i] == shape[d] && Scatter(idx, dims)[dims[i]] == idx[i];
    }
  }

  function Permute(t: Tensor, dims: seq<nat>): (r: Tensor)
    requires t.Valid() && |dims| == |t.shape| && IsPermutation(dims)
    ensures r.Valid() && r.shape == Gather(t.shape, dims)
  {
    Tabulate(Gather(t.shape, dims),
             idx requires InBounds(Gather(t.shape, dims), idx) =>
               ScatterBounds(t.shape, idx, dims); At(t, Scatter(idx, dims)))
  }

  lemma ClipBounds(s: seq<nat>, t: seq<nat>, idx: seq<nat>)
    requires Broadcasts(s, t) && InBounds(Broadcast(s, t), idx)
    ensures InBounds(s, Clip(s, idx)) && InBounds(t, Clip(t, idx))
  {
  }

  /** `t * m` with broadcasting. */
  function Times(t: Tensor, m: Tensor): (r: Tensor)
    requires t.Valid() && m.Valid() && Broadcasts(t.shape, m.shape)
    ensures r.Valid() && r.shape == Broadcast(t.shape, m.shape)
  {
    Tabulate(Broadcast(t.shape, m.shape), idx requires InBounds(Broadcast(t.shape, m.shape), idx) =>
      ClipBounds(t.shape, m.shape, idx); At(t, Clip(t.shape, idx)) * At(m, Clip(m.shape, idx)))
  }

  predicate SameShape(ts: seq<Tensor>) {
    && ts != [] && (forall i :: 0 <= i < |ts| ==> ts[i].Valid() && ts[i].shape == ts[0].shape)
  }

  function Stack(ts: seq<Tensor>): (r: Tensor)
    requires SameShape(ts)
    ensures r.Valid() && r.shape == [|ts|] + ts[0].shape
  {
    Tabulate([|ts|] + ts[0].shape, idx requires InBounds([|ts|] + ts[0].shape, idx) =>
      StackBounds(|ts|, ts[0].shape, idx); At(ts[idx[0]], idx[1..]))
  }

  lemma StackBounds(n: nat, shape: seq<nat>, idx: seq<nat>)
    requires InBounds([n] + shape, idx)
    ensures idx[0] < n && InBounds(shape, idx[1..])
  {
    assert ([n] + shape)[0] == n;
    assert forall i :: 0 <= i < |shape| ==> ([n] + shape)[i + 1] == shape[i];
  }

  // ---- Concatenation along the first dimension ----

  predicate Catable(ts: seq<Tensor>) {
    && ts != [] && ts[0].shape != []
    && (forall i :: 0 <= i < |ts| ==> ts[i].Valid() && ts[i].shape != [] && ts[i].shape[1..] == ts[0].shape[1..])
  }

  function Rows(ts: seq<Tensor>): nat
    requires forall i :: 0 <= i < |ts| ==> ts[i].shape != []
  {
    if ts == [] then 0 else Rows(ts[..|ts| - 1]) + ts[|ts| - 1].shape[0]
  }

  /** The tensor and the row in it where row `i` of the concatenation comes from. */
  function Locate(ts: seq<Tensor>, i: nat): (r: (nat, nat))
    requires forall k :: 0 <= k < |ts| ==> ts[k].shape != []
    requires i < Rows(ts)
    ensures r.0 < |ts| && r.1 < ts[r.0].shape[0]
  {
    var n := |ts| - 1;
    var before := Rows(ts[..n]);
    if i < before then Locate(ts[..n], i) else (n, i - before)
  }

  lemma CatBounds(ts: seq<Tensor>, idx: seq<nat>)
    requires Catable(ts) && InBounds([Rows(ts)] + ts[0].shape[1..], idx)
    ensures idx[0] < Rows(ts) && InBounds(ts[Locate(ts, idx[0]).0].shape, [Locate(ts, idx[0]).1] + idx[1..])
  {
    hide Prod;
    StackBounds(Rows(ts), ts[0].shape[1..], idx);
    var s := ts[Locate(ts, idx[0]).0].shape;
    assert s == [s[0]] + s[1..];
  }

  function Cat(ts: seq<Tensor>): (r: Tensor)
    requires Catable(ts)
    ensures r.Valid() && r.shape == [Rows(ts)] + ts[0].shape[1..]
  {
    Tabulate([Rows(ts)] + ts[0].shape[1..], idx requires InBounds([Rows(ts)] + ts[0].shape[1..], idx) =>
      CatBounds(ts, idx); At(ts[Locate(ts, idx[0]).0], [Locate(ts, idx[0]).1] + idx[1..]))
  }

  function Reshape(t: Tensor, shape: seq<nat>): (r: Tensor)
    requires t.Valid() && Prod(shape) == Prod(t.shape)
    ensures r.Valid()
  {
    Tensor(shape, t.data)
  }
}
