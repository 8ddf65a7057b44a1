/** `common_chat_peg_builder::permute`: a memoised rule per set of parsers still to match. */
module ParserOrders {

  /** The parsers that `permute` combines, and the paths (lists of parser indices) they match. */
  datatype Parser =
    | Eps
    | Atom(i: nat)
    | Then(first: Parser, second: Parser)
    | Choice(alternatives: seq<Parser>)
    | Rule(mask: nat, body: Parser)

  ghost predicate Matches(p: Parser, path: seq<nat>) {
    match p
    case Eps => path == []
    case Atom(i) => path == [i]
    case Then(a, b) => exists k :: 0 <= k <= |path| && Matches(a, path[..k]) && Matches(b, path[k..])
    case Choice(ps) => exists j :: 0 <= j < |ps| && Matches(ps[j], path)
    case Rule(_, b) => Matches(b, path)
  }

  const MAX_PERMUTE := 6

  // ---- Bit masks of parsers, as numbers ----

  /** `(1u << n) - 1` */
  function Full(n: nat): nat {
    if n == 0 then 0 else 2 * Full(n - 1) + 1
  }

  /** `mask & (1u << i)` is not zero. */
  predicate Has(mask: nat, i: nat) {
    if i == 0 then mask % 2 == 1 else Has(mask / 2, i - 1)
  }

  /** `mask & ~(1u << i)` */
  function Without(mask: nat, i: nat): nat {
    if i == 0 then mask - mask % 2 else 2 * Without(mask / 2, i - 1) + mask % 2
  }

  /** Only the first `n` bits are used. */
  predicate Within(mask: nat, n: nat) {
    if n == 0 then mask == 0 else Within(mask / 2, n - 1)
  }

  /** The indices in a mask. */
  function Members(mask: nat, n: nat): set<nat> {
    set i: nat | i < n && Has(mask, i)
  }

  lemma {:induction false} BitsApart(mask: nat, i: nat, j: nat)
    ensures Has(Without(mask, i), j) <==> j != i && Has(mask, j)
    decreases i
  {
    if i > 0 && j > 0 {
      BitsApart(mask / 2, i - 1, j - 1);
      assert Without(mask, i) / 2 == Without(mask / 2, i - 1);
    } else if i == 0 && j > 0 {
      assert Without(mask, 0) / 2 == mask / 2;
    }
  }

  lemma {:induction false} WithoutWithin(mask: nat, i: nat, n: nat)
    requires Within(mask, n)
    ensures Within(Without(mask, i), n)
    decreases n
  {
    if n == 0 {
      WithoutZero(i);
    } else if i == 0 {
      assert Without(mask, 0) / 2 == mask / 2;
    } else {
      WithoutWithin(mask / 2, i - 1, n - 1);
      assert Without(mask, i) / 2 == Without(mask / 2, i - 1);
    }
  }

  lemma {:induction false} WithoutZero(i: nat)
    ensures Without(0, i) == 0
    decreases i
  {
    if i > 0 { WithoutZero(i - 1); }
  }

  lemma {:induction false} EmptyMask(mask: nat, n: nat)
    requires Within(mask, n) && forall i: nat :: i < n ==> !Has(mask, i)
    ensures mask == 0
    decreases n
  {
    if n > 0 {
      assert !Has(mask, 0);
      forall i: nat | i < n - 1 ensures !Has(mask / 2, i) {
        assert !Has(mask, i + 1);
      }
      EmptyMask(mask / 2, n - 1);
    }
  }

  /** Removing a member makes the set smaller: the recursion ends. */
  lemma WithoutMembers(mask: nat, i: nat, n: nat)
    requires i < n && Has(mask, i)
    ensures Members(Without(mask, i), n) == Members(mask, n) - {i}
    ensures |Members(Without(mask, i), n)| < |Members(mask, n)|
  {
    hide Has;
    hide Without;
    forall j: nat ensures j in Members(Without(mask, i), n) <==> j in Members(mask, n) - {i} {
      BitsApart(mask, i, j);
    }
    assert Members(Without(mask, i), n) == Members(mask, n) - {i};
    SmallerSet(Members(mask, n), i);
  }

  lemma SmallerSet(s: set<nat>, i: nat)
    requires i in s
    ensures |s - {i}| < |s|
  {
  }

  // ---- The plain recursion ----

  function Build(n: nat, mask: nat): Parser
    decreases |Members(mask, n)|, n + 1
  {
    if mask == 0 then Eps else Rule(mask, Choice(Alternatives(n, mask, 0)))
  }

  function Alternatives(n: nat, mask: nat, i: nat): seq<Parser>
    requires i <= n
    decreases |Members(mask, n)|, n - i
  {
    if i == n then []
    else if Has(mask, i) then
      WithoutMembers(mask, i, n);
      [Then(Atom(i), Build(n, Without(mask, i)))] + Alternatives(n, mask, i + 1)
    else Alternatives(n, mask, i + 1)
  }

  /** `permute` for any number of parsers. */
  function Permuted(n: nat): Parser {
    if n == 0 then Eps else if n == 1 || n > MAX_PERMUTE then Sequence(n) else Build(n, Full(n))
  }

  function Sequence(n: nat): Parser {
    if n == 0 then Eps else Then(Sequence(n - 1), Atom(n - 1))
  }

  // ---- The memoised construction ----

  class Permuter {
    const n: nat
    var rules: map<nat, Parser>

    ghost predicate Valid()
      reads this
    {
      forall m :: m in rules ==> rules[m] == Build(n, m)
    }

    constructor (n: nat)
      ensures Valid() && this.n == n
    {
      this.n := n;
      rules := map[];
    }

    /** `remaining_of`: every cached rule is the one the plain recursion builds. */
    method RemainingOf(remaining: nat) returns (p: Parser)
      requires Valid()
      modifies this
      ensures Valid() && p == Build(n, remaining)
      ensures forall m :: m in old(rules) ==> m in rules
      ensures remaining != 0 ==> remaining in rules
      decreases |Members(remaining, n)|
    {
      if remaining == 0 {
        return Eps;
      }
      if remaining in rules {
        return rules[remaining];
      }
      var alternatives: seq<Parser> := [];
      for i := 0 to n
        invariant Valid() && alternatives + Alternatives(n, remaining, i) == Alternatives(n, remaining, 0)
        invariant forall m :: m in old(rules) ==> m in rules
      {
        if Has(remaining, i) {
          WithoutMembers(remaining, i, n);
          var rest := RemainingOf(Without(remaining, i));
          alternatives := alternatives + [Then(Atom(i), rest)];
        }
      }
      assert alternatives + [] == alternatives;
      p := Rule(remaining, Choice(alternatives));
      assert p == Build(n, remaining);
      rules := rules[remaining := p];
    }
  }

  method Permute(n: nat) returns (p: Parser)
    ensures p == Permuted(n)
  {
    if n == 0 {
      return Eps;
    }
    if n == 1 || n > MAX_PERMUTE {
      return Sequence(n);
    }
    var permuter := new Permuter(n);
    p := permuter.RemainingOf(Full(n));
  }

  // ---- The language ----

  /** An ordering of `s`: every element exactly once. */
  ghost predicate IsOrdering(path: seq<nat>, s: set<nat>) {
    && (forall i, j :: 0 <= i < j < |path| ==> path[i] != path[j])
    && (forall x :: x in path <==> x in s)
  }

  lemma OrderingHead(path: seq<nat>, s: set<nat>)
    requires path != [] && path[0] in s
    ensures IsOrdering(path, s) <==> IsOrdering(path[1..], s - {path[0]})
  {
    var x, t := path[0], path[1..];
    assert path == [x] + t;
    if IsOrdering(path, s) {
      assert forall i :: 0 <= i < |t| ==> t[i] == path[i + 1];
      assert x !in t;
    }
    if IsOrdering(t, s - {x}) {
      assert x !in t;
      forall i, j | 0 <= i < j < |path| ensures path[i] != path[j] {
        if i > 0 { assert t[i - 1] != t[j - 1]; } else { assert path[j] == t[j - 1] && t[j - 1] in t; }
      }
      forall y ensures y in path <==> y in s {
        assert y in path <==> y == x || y in t;
      }
    }
  }

  lemma ThenAtom(i: nat, p: Parser, path: seq<nat>)
    ensures Matches(Then(Atom(i), p), path) <==> path != [] && path[0] == i && Matches(p, path[1..])
  {
    if path != [] && path[0] == i {
      assert path[..1] == [i];
    }
    if Matches(Then(Atom(i), p), path) {
      var k :| 0 <= k <= |path| && Matches(Atom(i), path[..k]) && Matches(p, path[k..]);
      assert path[..k][0] == i;
    }
  }

  /** An alternative matches exactly when it starts with a member not below `i` and orders the rest. */
  lemma {:induction false} AlternativesMatch(n: nat, mask: nat, i: nat, path: seq<nat>)
    requires i <= n && Within(mask, n)
    ensures Matches(Choice(Alternatives(n, mask, i)), path) <==>
      path != [] && i <= path[0] && path[0] in Members(mask, n) && IsOrdering(path, Members(mask, n))
    decreases |Members(mask, n)|, n - i
  {
    if i < n {
      AlternativesMatch(n, mask, i + 1, path);
      var alts, rest := Alternatives(n, mask, i), Alternatives(n, mask, i + 1);
      if Has(mask, i) {
        WithoutMembers(mask, i, n);
        WithoutWithin(mask, i, n);
        var sub := Build(n, Without(mask, i));
        ThenAtom(i, sub, path);
        if path != [] && path[0] == i {
          BuildMatches(n, Without(mask, i), path[1..]);
          OrderingHead(path, Members(mask, n));
        }
        ChoiceCons(Then(Atom(i), sub), rest, path);
      }
    }
  }

  lemma ChoiceCons(p: Parser, rest: seq<Parser>, path: seq<nat>)
    ensures Matches(Choice([p] + rest), path) <==> Matches(p, path) || Matches(Choice(rest), path)
  {
    var all := [p] + rest;
    if Matches(p, path) { assert Matches(all[0], path); }
    if Matches(Choice(rest), path) {
      var j :| 0 <= j < |rest| && Matches(rest[j], path);
      assert Matches(all[j + 1], path);
    }
    if Matches(Choice(all), path) {
      var j :| 0 <= j < |all| && Matches(all[j], path);
      assert j > 0 ==> Matches(rest[j - 1], path);
    }
  }

  /** The rule for a mask matches exactly the orderings of its members. */
  lemma {:induction false} BuildMatches(n: nat, mask: nat, path: seq<nat>)
    requires Within(mask, n)
    ensures Matches(Build(n, mask), path) <==> IsOrdering(path, Members(mask, n))
    decreases |Members(mask, n)|, n + 1
  {
    if mask == 0 {
      NoMembers(n);
      if path != [] { assert path[0] in path; }
    } else {
      AlternativesMatch(n, mask, 0, path);
      if path == [] {
        if IsOrdering(path, Members(mask, n)) {
          forall i: nat | i < n ensures !Has(mask, i) {
            assert i !in Members(mask, n);
          }
          EmptyMask(mask, n);
        }
      } else {
        assert path[0] in path;
      }
    }
  }

  /** The alternatives of a rule are tried in ascending order of their first parser, from `i` on. */
  lemma {:induction false} AlternativesAscend(n: nat, mask: nat, i: nat) returns (order: seq<nat>)
    requires i <= n
    ensures |order| == |Alternatives(n, mask, i)|
    ensures forall j :: 0 <= j < |order| ==>
      i <= order[j] < n && Alternatives(n, mask, i)[j] == Then(Atom(order[j]), Build(n, Without(mask, order[j])))
    ensures forall j, k :: 0 <= j < k < |order| ==> order[j] < order[k]
    decreases n - i
  {
    order := [];
    if i < n {
      var rest := AlternativesAscend(n, mask, i + 1);
      if Has(mask, i) {
        order := [i] + rest;
      } else {
        order := rest;
      }
    }
  }

  /** Rules are named apart: every rule in `p` with the name of a mask is the one built for that mask. */
  ghost predicate NamedApart(n: nat, p: Parser) {
    match p
    case Then(a, b) => NamedApart(n, a) && NamedApart(n, b)
    case Choice(ps) => forall j :: 0 <= j < |ps| ==> NamedApart(n, ps[j])
    case Rule(m, b) => p == Build(n, m) && NamedApart(n, b)
    case _ => true
  }

  lemma {:induction false} BuildNamed(n: nat, mask: nat)
    ensures NamedApart(n, Build(n, mask))
    decreases |Members(mask, n)|, n + 1
  {
    if mask != 0 { AlternativesNamed(n, mask, 0); }
  }

  lemma {:induction false} AlternativesNamed(n: nat, mask: nat, i: nat)
    requires i <= n
    ensures forall j :: 0 <= j < |Alternatives(n, mask, i)| ==> NamedApart(n, Alternatives(n, mask, i)[j])
    decreases |Members(mask, n)|, n - i
  {
    if i < n {
      AlternativesNamed(n, mask, i + 1);
      if Has(mask, i) {
        WithoutMembers(mask, i, n);
        BuildNamed(n, Without(mask, i));
      }
    }
  }

  lemma {:induction false} NoBits(i: nat)
    ensures !Has(0, i)
    decreases i
  {
    if i > 0 { NoBits(i - 1); }
  }

  lemma NoMembers(n: nat)
    ensures Members(0, n) == {}
  {
    forall i: nat | i < n ensures !Has(0, i) {
      NoBits(i);
    }
  }

  lemma {:induction false} FullBits(n: nat, i: nat)
    ensures Within(Full(n), n) && (Has(Full(n), i) <==> i < n)
    decreases n
  {
    if n == 0 {
      NoBits(i);
    } else {
      assert Full(n) / 2 == Full(n - 1) && Full(n) % 2 == 1;
      FullBits(n - 1, if i > 0 then i - 1 else 0);
    }
  }

  lemma FullMembers(n: nat)
    ensures Within(Full(n), n) && forall i: nat :: i in Members(Full(n), n) <==> i < n
  {
    FullBits(n, 0);
    forall i: nat ensures i in Members(Full(n), n) <==> i < n {
      FullBits(n, i);
    }
  }

  lemma ThenLast(p: Parser, i: nat, path: seq<nat>)
    ensures Matches(Then(p, Atom(i)), path) <==>
      path != [] && path[|path| - 1] == i && Matches(p, path[..|path| - 1])
  {
    if path != [] && path[|path| - 1] == i && Matches(p, path[..|path| - 1]) {
      assert path[|path| - 1..] == [i];
      assert Matches(Atom(i), path[|path| - 1..]);
    }
    if Matches(Then(p, Atom(i)), path) {
      var k :| 0 <= k <= |path| && Matches(p, path[..k]) && Matches(Atom(i), path[k..]);
      assert path[k..] == [i];
    }
  }

  lemma CountUp(n: nat, path: seq<nat>)
    ensures path == seq(n + 1, i => i) <==> path != [] && path[|path| - 1] == n && path[..|path| - 1] == seq(n, i => i)
  {
    if path != [] && path[|path| - 1] == n && path[..|path| - 1] == seq(n, i => i) {
      assert |path| == n + 1;
      assert forall k :: 0 <= k < n ==> path[k] == path[..n][k];
    }
  }

  lemma {:induction false} SequenceMatches(n: nat, path: seq<nat>)
    ensures Matches(Sequence(n), path) <==> path == seq(n, i => i)
    decreases n
  {
    if n > 0 {
      hide Matches;
      ThenLast(Sequence(n - 1), n - 1, path);
      CountUp(n - 1, path);
      if path != [] { SequenceMatches(n - 1, path[..|path| - 1]); }
    }
  }

  /** Every index below `n` exactly once. */
  ghost predicate UsesEachOnce(path: seq<nat>, n: nat) {
    && (forall i, j :: 0 <= i < j < |path| ==> path[i] != path[j])
    && (forall x: nat :: x in path <==> x < n)
  }

  /** Two to six parsers: exactly the orderings using every parser once. Otherwise: the given order. */
  lemma PermutedMatches(n: nat, path: seq<nat>)
    ensures 2 <= n <= 6 ==> (Matches(Permuted(n), path) <==> UsesEachOnce(path, n))
    ensures !(2 <= n <= 6) ==> (Matches(Permuted(n), path) <==> path == seq(n, i => i))
  {
    if 2 <= n <= 6 {
      FullMembers(n);
      BuildMatches(n, Full(n), path);
    } else {
      SequenceMatches(n, path);
    }
  }
}
