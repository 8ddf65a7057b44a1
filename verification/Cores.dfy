/** The end of `detect`: one CPU per physical core, dealt round-robin over the dies. */
module Cores {
  type Cpu = int

  predicate Duplicates(v: seq<Cpu>) { exists i, j :: 0 <= i < j < |v| && v[i] == v[j] }

  /** Dies share no CPU and list none twice. */
  ghost predicate Disjoint(dies: seq<seq<Cpu>>) {
    && (forall a :: 0 <= a < |dies| ==> !Duplicates(dies[a]))
    && (forall a, b, c :: 0 <= a < |dies| && 0 <= b < |dies| && c in dies[a] && c in dies[b] ==> a == b)
  }

  /** The members of `v` in `keep`, in the order of `v`. */
  function Kept(v: seq<Cpu>, keep: set<Cpu>): (r: seq<Cpu>)
    ensures forall c :: c in r <==> c in v && c in keep
  {
    if v == [] then []
    else Kept(v[..|v| - 1], keep) + (if v[|v| - 1] in keep then [v[|v| - 1]] else [])
  }

  function Longest(dies: seq<seq<Cpu>>): (n: nat)
    ensures forall a :: 0 <= a < |dies| ==> |dies[a]| <= n
    ensures n > 0 ==> exists a :: 0 <= a < |dies| && |dies[a]| == n
  {
    if dies == [] then 0
    else
      var n := Longest(dies[1..]);
      assert forall a :: 0 < a < |dies| ==> dies[a] == dies[1..][a - 1];
      assert n > 0 ==> exists a :: 0 < a < |dies| && |dies[a]| == n by {
        if n > 0 {
          var a :| 0 <= a < |dies[1..]| && |dies[1..][a]| == n;
          assert |dies[a + 1]| == n;
        }
      }
      if |dies[0]| > n then |dies[0]| else n
  }

  /** What has been dealt after `k` full rounds and the first `d` dies of the next one. */
  function Dealt(dies: seq<seq<Cpu>>, k: nat, d: nat): seq<Cpu>
    requires d <= |dies|
    decreases k, d
  {
    if d > 0 then Dealt(dies, k, d - 1) + (if k < |dies[d - 1]| then [dies[d - 1][k]] else [])
    else if k > 0 then Dealt(dies, k - 1, |dies|)
    else []
  }

  function Order(dies: seq<seq<Cpu>>): seq<Cpu> { Dealt(dies, Longest(dies), 0) }

  /** How many cores die `a` has given by then. */
  function Given(dies: seq<seq<Cpu>>, k: nat, d: nat, a: nat): (n: nat)
    requires a < |dies|
    ensures n <= |dies[a]|
  {
    var turns := if a < d then k + 1 else k;
    if turns < |dies[a]| then turns else |dies[a]|
  }

  /** The members of `order` that belong to the die `v`, in the order dealt. */
  function FromDie(order: seq<Cpu>, v: seq<Cpu>): (r: seq<Cpu>) {
    Kept(order, set c | c in v)
  }

  method KeepPhysical(dies: seq<seq<Cpu>>, first: set<Cpu>) returns (perDie: seq<seq<Cpu>>)
    ensures perDie == Physical(dies, first)
  {
    perDie := [];
    for a := 0 to |dies|
      invariant |perDie| == a && forall b :: 0 <= b < a ==> perDie[b] == Kept(dies[b], first)
    {
      var v: seq<Cpu> := [];
      for j := 0 to |dies[a]|
        invariant v == Kept(dies[a][..j], first)
      {
        assert dies[a][..j + 1][..j] == dies[a][..j];
        if dies[a][j] in first {
          v := v + [dies[a][j]];
        }
      }
      assert dies[a][..|dies[a]|] == dies[a];
      perDie := perDie + [v];
    }
  }

  /** One round of the deal: the `k`-th core of every die that has one. */
  method DealRound(perDie: seq<seq<Cpu>>, k: nat, before: seq<Cpu>) returns (order: seq<Cpu>, any: bool)
    requires before == Dealt(perDie, k, 0)
    ensures order == Dealt(perDie, k, |perDie|)
    ensures any <==> More(perDie, k)
  {
    order, any := before, false;
    for d := 0 to |perDie|
      invariant order == Dealt(perDie, k, d)
      invariant any <==> exists a :: 0 <= a < d && k < |perDie[a]|
    {
      if k < |perDie[d]| {
        order := order + [perDie[d][k]];
        any := true;
      }
    }
  }

  /** Some die has a core left for round `k`. */
  predicate More(perDie: seq<seq<Cpu>>, k: nat) {
    exists a :: 0 <= a < |perDie| && k < |perDie[a]|
  }

  lemma RoundsLeft(perDie: seq<seq<Cpu>>, k: nat)
    requires k <= Longest(perDie)
    ensures More(perDie, k) <==> k < Longest(perDie)
    ensures !More(perDie, k) ==> Dealt(perDie, k, |perDie|) == Order(perDie)
  {
    if !More(perDie, k) {
      assert forall a :: 0 <= a < |perDie| ==> |perDie[a]| <= k;
      NothingDealt(perDie, k, |perDie|);
    }
  }

  /** Dealing until a round deals nothing. */
  method Deal(perDie: seq<seq<Cpu>>) returns (order: seq<Cpu>)
    ensures order == Order(perDie)
  {
    order := [];
    var k := 0;
    while true
      invariant k <= Longest(perDie) && order == Dealt(perDie, k, 0)
      decreases Longest(perDie) - k
    {
      var any;
      order, any := DealRound(perDie, k, order);
      RoundsLeft(perDie, k);
      if !any { break; }
      k := k + 1;
    }
  }

  method DealCores(dies: seq<seq<Cpu>>, first: set<Cpu>) returns (order: seq<Cpu>)
    ensures order == Order(Physical(dies, first))
  {
    var perDie := KeepPhysical(dies, first);
    order := Deal(perDie);
  }

  /** The CPUs of each die that stand for a physical core. */
  function Physical(dies: seq<seq<Cpu>>, first: set<Cpu>): (r: seq<seq<Cpu>>)
    ensures |r| == |dies|
    ensures forall a, c :: 0 <= a < |dies| ==> (c in r[a] <==> c in dies[a] && c in first)
  {
    seq(|dies|, a requires 0 <= a < |dies| => Kept(dies[a], first))
  }

  lemma {:induction false} NothingDealt(dies: seq<seq<Cpu>>, k: nat, d: nat)
    requires d <= |dies| && forall a :: 0 <= a < |dies| ==> |dies[a]| <= k
    ensures Dealt(dies, k, d) == Dealt(dies, k, 0)
    decreases d
  {
    if d > 0 { NothingDealt(dies, k, d - 1); }
  }

  lemma KeptSnoc(s: seq<Cpu>, x: Cpu, keep: set<Cpu>)
    ensures Kept(s + [x], keep) == Kept(s, keep) + if x in keep then [x] else []
  {
    assert (s + [x])[..|s|] == s;
  }

  lemma Assoc(a: seq<Cpu>, b: seq<Cpu>, c: seq<Cpu>)
    ensures a + (b + c) == (a + b) + c
  {
  }

  lemma AppendSnoc(s: seq<Cpu>, u: seq<Cpu>, x: Cpu, keep: set<Cpu>)
    requires Kept(s + u, keep) == Kept(s, keep) + Kept(u, keep)
    ensures Kept(s + (u + [x]), keep) == Kept(s, keep) + Kept(u + [x], keep)
  {
    hide Kept;
    KeptSnoc(s + u, x, keep);
    KeptSnoc(u, x, keep);
    Assoc(s, u, [x]);
    Assoc(Kept(s, keep), Kept(u, keep), if x in keep then [x] else []);
  }

  lemma {:induction false} KeptAppend(s: seq<Cpu>, t: seq<Cpu>, keep: set<Cpu>)
    ensures Kept(s + t, keep) == Kept(s, keep) + Kept(t, keep)
    decreases |t|
  {
    if t == [] {
      assert s + t == s;
    } else {
      var u, x := t[..|t| - 1], t[|t| - 1];
      assert t == u + [x];
      KeptAppend(s, u, keep);
      AppendSnoc(s, u, x, keep);
    }
  }

  lemma GivenStep(dies: seq<seq<Cpu>>, k: nat, d: nat, a: nat)
    requires a < |dies| && 0 < d <= |dies|
    ensures Given(dies, k, d, a) == Given(dies, k, d - 1, a) + if a == d - 1 && k < |dies[a]| then 1 else 0
  {
  }

  /** At any moment, a die has given its leading cores, in its own order. */
  lemma {:induction false} GivenLeads(dies: seq<seq<Cpu>>, k: nat, d: nat, a: nat)
    requires Disjoint(dies) && a < |dies| && d <= |dies|
    ensures FromDie(Dealt(dies, k, d), dies[a]) == dies[a][..Given(dies, k, d, a)]
    decreases k, d
  {
    hide Kept;
    if d > 0 {
      GivenLeads(dies, k, d - 1, a);
      GivenStep(dies, k, d, a);
      DealtStep(dies, k, d, a);
    } else if k > 0 {
      GivenLeads(dies, k - 1, |dies|, a);
    } else {
      NoneKept(set c | c in dies[a]);
    }
  }

  lemma NoneKept(keep: set<Cpu>)
    ensures Kept([], keep) == []
  {
  }

  lemma DealtStep(dies: seq<seq<Cpu>>, k: nat, d: nat, a: nat)
    requires Disjoint(dies) && a < |dies| && 0 < d <= |dies|
    ensures FromDie(Dealt(dies, k, d), dies[a]) ==
      FromDie(Dealt(dies, k, d - 1), dies[a]) + if a == d - 1 && k < |dies[a]| then [dies[a][k]] else []
  {
    var before := Dealt(dies, k, d - 1);
    if k < |dies[d - 1]| {
      var c := dies[d - 1][k];
      assert Dealt(dies, k, d) == before + [c];
      OneFromDie(c, dies, d - 1, a);
      KeptAppend(before, [c], set x | x in dies[a]);
    } else {
      assert Dealt(dies, k, d) == before;
    }
  }

  lemma OneFromDie(c: Cpu, dies: seq<seq<Cpu>>, d: nat, a: nat)
    requires Disjoint(dies) && a < |dies| && d < |dies| && c in dies[d]
    ensures FromDie([c], dies[a]) == if a == d then [c] else []
  {
    var keep := set x | x in dies[a];
    assert [c][..0] == [] && [c][0] == c;
    assert Kept([c], keep) == Kept([c][..0], keep) + (if c in keep then [c] else []);
    assert c in keep <==> a == d;
  }

  /** Every prefix of the order is what was dealt at some moment. */
  lemma {:induction false} PrefixMoment(dies: seq<seq<Cpu>>, k: nat, d: nat, n: nat) returns (i: nat, j: nat)
    requires d <= |dies| && n <= |Dealt(dies, k, d)|
    ensures j <= |dies| && Dealt(dies, i, j) == Dealt(dies, k, d)[..n]
    decreases k, d
  {
    if n == |Dealt(dies, k, d)| {
      assert Dealt(dies, k, d)[..n] == Dealt(dies, k, d);
      return k, d;
    }
    if d > 0 {
      i, j := PrefixMoment(dies, k, d - 1, n);
    } else {
      i, j := PrefixMoment(dies, k - 1, |dies|, n);
    }
  }

  /**
   * Dealing is fair at every moment: in every prefix of the order each die has given its leading cores, and no die is
   * more than one core behind another, or behind a later one at all, unless it has none left.
   */
  lemma DealingIsFair(dies: seq<seq<Cpu>>, n: nat, a: nat, b: nat)
    requires Disjoint(dies) && n <= |Order(dies)| && a < |dies| && b < |dies|
    ensures var prefix := Order(dies)[..n];
      && FromDie(prefix, dies[a]) <= dies[a]
      && (|FromDie(prefix, dies[b])| <= |FromDie(prefix, dies[a])| + 1 || FromDie(prefix, dies[a]) == dies[a])
      && (a < b ==> |FromDie(prefix, dies[b])| <= |FromDie(prefix, dies[a])| || FromDie(prefix, dies[a]) == dies[a])
  {
    var i, j := PrefixMoment(dies, Longest(dies), 0, n);
    GivenLeads(dies, i, j, a);
    GivenLeads(dies, i, j, b);
  }

  lemma {:induction false} DealtFrom(dies: seq<seq<Cpu>>, k: nat, d: nat)
    requires d <= |dies|
    ensures forall c :: c in Dealt(dies, k, d) ==> exists a :: 0 <= a < |dies| && c in dies[a]
    decreases k, d
  {
    if d > 0 {
      DealtFrom(dies, k, d - 1);
    } else if k > 0 {
      DealtFrom(dies, k - 1, |dies|);
    }
  }

  lemma {:induction false} KeptCount(s: seq<Cpu>, keep: set<Cpu>, c: Cpu)
    requires c in keep
    ensures multiset(Kept(s, keep))[c] == multiset(s)[c]
  {
    if s != [] {
      KeptCount(s[..|s| - 1], keep, c);
      assert s == s[..|s| - 1] + [s[|s| - 1]];
    }
  }

  lemma ButLast(v: seq<Cpu>)
    requires !Duplicates(v) && v != []
    ensures !Duplicates(v[..|v| - 1]) && v[|v| - 1] !in v[..|v| - 1]
  {
    var u := v[..|v| - 1];
    assert forall i :: 0 <= i < |u| ==> u[i] == v[i] && v[i] != v[|v| - 1];
  }

  lemma {:induction false} CountOnce(v: seq<Cpu>, c: Cpu)
    requires !Duplicates(v)
    ensures multiset(v)[c] == if c in v then 1 else 0
  {
    if v != [] {
      var u := v[..|v| - 1];
      assert v == u + [v[|v| - 1]];
      ButLast(v);
      CountOnce(u, c);
    }
  }

  /** The whole order holds every core of every die exactly once, each die's in its own order, and nothing else. */
  lemma DealingConserves(dies: seq<seq<Cpu>>)
    requires Disjoint(dies)
    ensures forall a :: 0 <= a < |dies| ==> FromDie(Order(dies), dies[a]) == dies[a]
    ensures forall c :: multiset(Order(dies))[c] == if exists a :: 0 <= a < |dies| && c in dies[a] then 1 else 0
  {
    forall a | 0 <= a < |dies| ensures FromDie(Order(dies), dies[a]) == dies[a] {
      GivenLeads(dies, Longest(dies), 0, a);
      assert dies[a][..|dies[a]|] == dies[a];
    }
    DealtFrom(dies, Longest(dies), 0);
    forall c ensures multiset(Order(dies))[c] == if exists a :: 0 <= a < |dies| && c in dies[a] then 1 else 0 {
      if a :| 0 <= a < |dies| && c in dies[a] {
        KeptCount(Order(dies), (set x | x in dies[a]), c);
        CountOnce(dies[a], c);
      } else {
        assert c !in Order(dies);
      }
    }
  }

  /** `std::min_element` over a sibling set. */
  method Least(m: seq<Cpu>) returns (c: Cpu)
    requires m != []
    ensures IsLeast(c, m)
  {
    c := m[0];
    for i := 1 to |m|
      invariant c in m && forall j :: 0 <= j < i ==> c <= m[j]
    {
      if m[i] < c { c := m[i]; }
    }
  }

  predicate IsLeast(c: Cpu, m: seq<Cpu>) {
    c in m && forall j :: 0 <= j < |m| ==> c <= m[j]
  }

  lemma LeastExactly(c: Cpu, m: seq<Cpu>)
    requires c in m
    ensures IsLeast(c, m) <==> forall x :: x in m ==> c <= x
  {
    if forall x :: x in m ==> c <= x {
      assert forall j :: 0 <= j < |m| ==> m[j] in m;
    }
  }

  /** One CPU per physical core; without sibling sets every logical CPU is a core. */
  method FirstCpus(siblings: seq<seq<Cpu>>, logical: nat) returns (first: set<Cpu>)
    requires forall g :: 0 <= g < |siblings| ==> siblings[g] != []
    ensures Firsts(first, siblings, logical)
  {
    first := {};
    if siblings != [] {
      for g := 0 to |siblings|
        invariant forall c :: c in first <==> exists h :: 0 <= h < g && IsLeast(c, siblings[h])
      {
        var c := Least(siblings[g]);
        ghost var before := first;
        first := first + {c};
        forall x ensures x in first <==> exists h :: 0 <= h < g + 1 && IsLeast(x, siblings[h]) {
          if x in before {
            var h :| 0 <= h < g && IsLeast(x, siblings[h]);
            assert h < g + 1;
          }
          if h :| 0 <= h < g + 1 && IsLeast(x, siblings[h]) {
            if h == g { assert x == c; }
          }
        }
      }
    } else {
      for i := 0 to logical
        invariant forall c :: c in first <==> 0 <= c < i
      {
        first := first + {i};
      }
    }
  }

  ghost predicate Firsts(first: set<Cpu>, siblings: seq<seq<Cpu>>, logical: nat) {
    if siblings != [] then forall c :: c in first <==> exists g :: 0 <= g < |siblings| && IsLeast(c, siblings[g])
    else forall c :: c in first <==> 0 <= c < logical
  }

  lemma {:induction false} KeptOnce(v: seq<Cpu>, keep: set<Cpu>)
    requires !Duplicates(v)
    ensures !Duplicates(Kept(v, keep))
  {
    if v != [] {
      var u := v[..|v| - 1];
      ButLast(v);
      KeptOnce(u, keep);
      var r := Kept(u, keep);
      var all := Kept(v, keep);
      forall i, j | 0 <= i < j < |all| ensures all[i] != all[j] {
        assert all[i] == r[i] && r[i] in r;
        if j < |r| { assert r[i] != r[j]; }
      }
    }
  }

  lemma PhysicalDisjoint(dies: seq<seq<Cpu>>, first: set<Cpu>)
    requires Disjoint(dies)
    ensures Disjoint(Physical(dies, first))
  {
    forall a | 0 <= a < |dies| ensures !Duplicates(Physical(dies, first)[a]) {
      KeptOnce(dies[a], first);
    }
  }

  /**
   * With disjoint dies and disjoint sibling sets, the dealt order has exactly one CPU of each physical core
   * whose lowest CPU is on a die, namely that CPU, and none of the others.
   */
  lemma OneCpuPerCore(dies: seq<seq<Cpu>>, siblings: seq<seq<Cpu>>, logical: nat, first: set<Cpu>, g: nat, c: Cpu)
    requires Disjoint(dies) && Disjoint(siblings) && Firsts(first, siblings, logical)
    requires g < |siblings| && c in siblings[g]
    ensures multiset(Order(Physical(dies, first)))[c] ==
      if (forall x :: x in siblings[g] ==> c <= x) && exists a :: 0 <= a < |dies| && c in dies[a] then 1 else 0
  {
    var perDie := Physical(dies, first);
    PhysicalDisjoint(dies, first);
    DealingConserves(perDie);
    assert c in first <==> IsLeast(c, siblings[g]);
    LeastExactly(c, siblings[g]);
    assert (exists a :: 0 <= a < |perDie| && c in perDie[a]) <==> c in first && exists a :: 0 <= a < |dies| && c in dies[a];
  }
}
