/** `calculate_diff_split`: a marker-aware split of two texts into prefix, left, right and suffix. */
module DiffSplit {
  import opened Segments

  datatype Split = Split(prefix: string, left: string, right: string, suffix: string)

  // ---- Common prefixes and suffixes ----

  predicate IsCommonPrefix(a: string, b: string, n: nat) {
    && n <= |a| && n <= |b| && a[..n] == b[..n]
    && (n < |a| && n < |b| ==> a[n] != b[n])
  }

  predicate IsCommonSuffix(a: string, b: string, n: nat) {
    && n <= |a| && n <= |b| && a[|a| - n..] == b[|b| - n..]
    && (n < |a| && n < |b| ==> a[|a| - 1 - n] != b[|b| - 1 - n])
  }

  function PrefixFrom(a: string, b: string, n: nat): (r: nat)
    requires n <= |a| && n <= |b| && a[..n] == b[..n]
    ensures IsCommonPrefix(a, b, r)
    decreases |a| - n
  {
    if n < |a| && n < |b| && a[n] == b[n] then
      assert a[..n + 1] == a[..n] + [a[n]] && b[..n + 1] == b[..n] + [b[n]];
      PrefixFrom(a, b, n + 1)
    else n
  }

  function SuffixFrom(a: string, b: string, n: nat): (r: nat)
    requires n <= |a| && n <= |b| && a[|a| - n..] == b[|b| - n..]
    ensures IsCommonSuffix(a, b, r)
    decreases |a| - n
  {
    if n < |a| && n < |b| && a[|a| - 1 - n] == b[|b| - 1 - n] then
      assert a[|a| - 1 - n..] == [a[|a| - 1 - n]] + a[|a| - n..];
      assert b[|b| - 1 - n..] == [b[|b| - 1 - n]] + b[|b| - n..];
      SuffixFrom(a, b, n + 1)
    else n
  }

  lemma TailStep(a: string, n: nat)
    requires n < |a|
    ensures a[|a| - 1 - n..] == [a[|a| - 1 - n]] + a[|a| - n..]
  {
  }

  method CommonPrefixLen(a: string, b: string) returns (n: nat)
    ensures n == PrefixFrom(a, b, 0)
  {
    n := 0;
    while n < |a| && n < |b| && a[n] == b[n]
      invariant n <= |a| && n <= |b| && a[..n] == b[..n]
      invariant PrefixFrom(a, b, n) == PrefixFrom(a, b, 0)
    {
      assert a[..n + 1] == a[..n] + [a[n]] && b[..n + 1] == b[..n] + [b[n]];
      n := n + 1;
    }
  }

  /** One step of the backward scan. */
  lemma SuffixStep(a: string, b: string, n: nat)
    requires n <= |a| && n <= |b| && a[|a| - n..] == b[|b| - n..]
    ensures if n < |a| && n < |b| && a[|a| - 1 - n] == b[|b| - 1 - n]
      then a[|a| - (n + 1)..] == b[|b| - (n + 1)..] && SuffixFrom(a, b, n) == SuffixFrom(a, b, n + 1)
      else SuffixFrom(a, b, n) == n
  {
    if n < |a| && n < |b| {
      TailStep(a, n);
      TailStep(b, n);
    }
  }

  method CommonSuffixLen(a: string, b: string) returns (n: nat)
    ensures n == SuffixFrom(a, b, 0)
  {
    hide SuffixFrom;
    n := 0;
    SuffixStep(a, b, 0);
    while n < |a| && n < |b| && a[|a| - 1 - n] == b[|b| - 1 - n]
      invariant n <= |a| && n <= |b| && a[|a| - n..] == b[|b| - n..]
      invariant SuffixFrom(a, b, n) == SuffixFrom(a, b, 0)
    {
      SuffixStep(a, b, n);
      n := n + 1;
    }
    SuffixStep(a, b, n);
  }

  // ---- The two-ended matching loop ----

  /** The four (inclusive) iterators, the consumed flags and the texts collected so far. */
  datatype Ends = Ends(ls: int, le: int, rs: int, re: int, lDone: bool, rDone: bool, prefix: string, suffix: string)

  predicate InRange(e: Ends, L: seq<Segment>, R: seq<Segment>) {
    && 0 <= e.ls <= e.le < |L| && 0 <= e.rs <= e.re < |R|
    && (e.lDone ==> e.ls == e.le) && (e.rDone ==> e.rs == e.re)
  }

  predicate Going(e: Ends) {
    e.ls != e.le && e.rs != e.re
  }

  function MatchFront(L: seq<Segment>, R: seq<Segment>, e: Ends): (r: Ends)
    requires InRange(e, L, R) && Going(e)
    ensures InRange(r, L, R)
  {
    if L[e.ls] == R[e.rs] then e.(prefix := e.prefix + L[e.ls].value, ls := e.ls + 1, rs := e.rs + 1) else e
  }

  function MatchBack(L: seq<Segment>, R: seq<Segment>, e: Ends): (r: Ends)
    requires InRange(e, L, R)
    ensures InRange(r, L, R)
  {
    if L[e.le] == R[e.re] then
      e.(suffix := L[e.le].value + e.suffix,
         le := if e.ls != e.le then e.le - 1 else e.le, lDone := e.lDone || e.ls == e.le,
         re := if e.rs != e.re then e.re - 1 else e.re, rDone := e.rDone || e.rs == e.re)
    else e
  }

  function Match(L: seq<Segment>, R: seq<Segment>, e: Ends): (r: Ends)
    requires InRange(e, L, R)
    ensures InRange(r, L, R)
    decreases e.le - e.ls + e.re - e.rs
  {
    if !Going(e) || (L[e.ls] != R[e.rs] && L[e.le] != R[e.re]) then e
    else
      var f := MatchFront(L, R, e);
      if L[f.le] == R[f.re] || f != e then Match(L, R, MatchBack(L, R, f)) else e
  }

  function Start(L: seq<Segment>, R: seq<Segment>): Ends {
    Ends(0, |L| - 1, 0, |R| - 1, false, false, "", "")
  }

  /** The branches after the loop. */
  function Settle(L: seq<Segment>, R: seq<Segment>, e: Ends): (r: Ends)
    requires InRange(e, L, R)
    ensures InRange(r, L, R)
  {
    if e.ls == e.le && e.rs != e.re then
      if L[e.ls] == R[e.re] then e.(suffix := R[e.re].value + e.suffix, re := e.re - 1, lDone := true)
      else if L[e.ls] == R[e.rs] then e.(prefix := e.prefix + R[e.rs].value, rs := e.rs + 1, lDone := true)
      else e
    else if e.rs == e.re && e.ls != e.le then
      if L[e.le] == R[e.rs] then e.(suffix := L[e.le].value + e.suffix, le := e.le - 1, rDone := true)
      else if L[e.ls] == R[e.rs] then e.(prefix := e.prefix + L[e.ls].value, ls := e.ls + 1, rDone := true)
      else e
    else if e.ls == e.le && e.rs == e.re && L[e.ls] == R[e.rs] && L[e.ls].kind == MARKER then
      e.(prefix := e.prefix + R[e.rs].value, lDone := true, rDone := true)
    else e
  }

  function Rest(S: seq<Segment>, from: int, to: int, done: bool): string
    requires 0 <= from <= to < |S|
  {
    Concat(if done then S[from..to] else S[from..to + 1])
  }

  /** Trimming what the remaining texts `a` and `b` share; the prefix may not overlap the suffix. */
  function Trimmed(e: Ends, a: string, b: string, textSuffix: bool, textPrefix: bool): Split {
    var s := if textSuffix then SuffixFrom(a, b, 0) else 0;
    var a', b' := a[..|a| - s], b[..|b| - s];
    var p := if textPrefix then PrefixFrom(a', b', 0) else 0;
    Split(e.prefix + a[..p], a'[p..], b'[p..], a[|a| - s..] + e.suffix)
  }

  function TrimShared(L: seq<Segment>, R: seq<Segment>, e: Ends): Split
    requires InRange(e, L, R)
  {
    Trimmed(e, Rest(L, e.ls, e.le, e.lDone), Rest(R, e.rs, e.re, e.rDone),
            L[e.le].kind == TEXT && R[e.re].kind == TEXT, R[e.rs].kind == TEXT && L[e.ls].kind == TEXT)
  }

  /** The two repairs at the end. */
  function Repair(left: string, right: string, r: Split): Split {
    var r1 := if r.left == "" && r.right == "" then r.(prefix := left, suffix := "") else r;
    if r1.left == "" && r1.right != "" && left <= right then
      Split(left, "", right[|left|..], "")
    else r1
  }

  function SplitOf(left: string, right: string): Split {
    var L, R := Segmentize(left), Segmentize(right);
    if L == [] then Split("", "", right, "")
    else if R == [] then Split("", left, "", "")
    else Repair(left, right, TrimShared(L, R, Settle(L, R, Match(L, R, Start(L, R)))))
  }

  method CalculateDiffSplit(left: string, right: string) returns (result: Split)
    ensures result == SplitOf(left, right)
  {
    var L := SegmentizeMarkers(left);
    var R := SegmentizeMarkers(right);
    if L == [] {
      return Split("", "", right, "");
    }
    if R == [] {
      return Split("", left, "", "");
    }
    var e := MatchEnds(L, R);
    e := SettleEnds(L, R, e);
    result := TrimTexts(L, R, e);
    result := RepairParts(left, right, result);
  }

  /** The matching loop, its iterators and flags as local variables. */
  method MatchEnds(L: seq<Segment>, R: seq<Segment>) returns (e: Ends)
    requires L != [] && R != []
    ensures e == Match(L, R, Start(L, R)) && InRange(e, L, R)
  {
    var leftStart, leftEnd, rightStart, rightEnd := 0, |L| - 1, 0, |R| - 1;
    var leftDone, rightDone := false, false;
    var prefix, suffix := "", "";
    while leftStart != leftEnd && rightStart != rightEnd
      invariant InRange(Ends(leftStart, leftEnd, rightStart, rightEnd, leftDone, rightDone, prefix, suffix), L, R)
      invariant Match(L, R, Ends(leftStart, leftEnd, rightStart, rightEnd, leftDone, rightDone, prefix, suffix))
             == Match(L, R, Start(L, R))
      decreases leftEnd - leftStart + rightEnd - rightStart
    {
      ghost var e0 := Ends(leftStart, leftEnd, rightStart, rightEnd, leftDone, rightDone, prefix, suffix);
      var advanced := false;
      if L[leftStart] == R[rightStart] {
        prefix := prefix + L[leftStart].value;
        leftStart := leftStart + 1;
        rightStart := rightStart + 1;
        advanced := true;
      }
      ghost var e1 := Ends(leftStart, leftEnd, rightStart, rightEnd, leftDone, rightDone, prefix, suffix);
      assert e1 == MatchFront(L, R, e0);
      if L[leftEnd] == R[rightEnd] {
        suffix := L[leftEnd].value + suffix;
        if leftStart != leftEnd {
          leftEnd := leftEnd - 1;
        } else {
          leftDone := true;
        }
        if rightStart != rightEnd {
          rightEnd := rightEnd - 1;
        } else {
          rightDone := true;
        }
        advanced := true;
      }
      assert Ends(leftStart, leftEnd, rightStart, rightEnd, leftDone, rightDone, prefix, suffix) == MatchBack(L, R, e1);
      if !advanced {
        break;
      }
    }
    e := Ends(leftStart, leftEnd, rightStart, rightEnd, leftDone, rightDone, prefix, suffix);
  }

  /** The branches after the loop. */
  method SettleEnds(L: seq<Segment>, R: seq<Segment>, e: Ends) returns (r: Ends)
    requires InRange(e, L, R)
    ensures r == Settle(L, R, e)
  {
    var leftStart, leftEnd, rightStart, rightEnd := e.ls, e.le, e.rs, e.re;
    var leftDone, rightDone, prefix, suffix := e.lDone, e.rDone, e.prefix, e.suffix;
    if leftStart == leftEnd && rightStart != rightEnd {
      if L[leftStart] == R[rightEnd] {
        suffix := R[rightEnd].value + suffix;
        rightEnd := rightEnd - 1;
        leftDone := true;
      } else if L[leftStart] == R[rightStart] {
        prefix := prefix + R[rightStart].value;
        rightStart := rightStart + 1;
        leftDone := true;
      }
    } else if rightStart == rightEnd && leftStart != leftEnd {
      if L[leftEnd] == R[rightStart] {
        suffix := L[leftEnd].value + suffix;
        leftEnd := leftEnd - 1;
        rightDone := true;
      } else if L[leftStart] == R[rightStart] {
        prefix := prefix + L[leftStart].value;
        leftStart := leftStart + 1;
        rightDone := true;
      }
    } else if leftStart == leftEnd && rightStart == rightEnd && L[leftStart] == R[rightStart] && L[leftStart].kind == MARKER {
      prefix := prefix + R[rightStart].value;
      leftDone, rightDone := true, true;
    }
    r := Ends(leftStart, leftEnd, rightStart, rightEnd, leftDone, rightDone, prefix, suffix);
  }

  /** The no-difference case and the repair of a left text that is a prefix of the right one. */
  method RepairParts(left: string, right: string, parts: Split) returns (result: Split)
    ensures result == Repair(left, right, parts)
  {
    result := parts;
    if result.left == "" && result.right == "" {
      result := result.(prefix := left, suffix := "");
    }
    if result.left == "" && result.right != "" && |left| <= |right| && right[..|left|] == left {
      result := result.(prefix := left, suffix := "", right := right[|left|..]);
    }
  }

  /** Concatenating what is left and trimming the shared text. */
  method TrimTexts(L: seq<Segment>, R: seq<Segment>, e: Ends) returns (result: Split)
    requires InRange(e, L, R)
    ensures result == TrimShared(L, R, e)
  {
    var a := Accumulate(if e.lDone then L[e.ls..e.le] else L[e.ls..e.le + 1]);
    var b := Accumulate(if e.rDone then R[e.rs..e.re] else R[e.rs..e.re + 1]);
    assert a == Rest(L, e.ls, e.le, e.lDone) && b == Rest(R, e.rs, e.re, e.rDone);
    result := TrimPair(e, a, b, L[e.le].kind == TEXT && R[e.re].kind == TEXT, R[e.rs].kind == TEXT && L[e.ls].kind == TEXT);
  }

  method TrimPair(e: Ends, a: string, b: string, textSuffix: bool, textPrefix: bool) returns (result: Split)
    ensures result == Trimmed(e, a, b, textSuffix, textPrefix)
  {
    var s := 0;
    if textSuffix {
      s := CommonSuffixLen(a, b);
    }
    var a', b' := a[..|a| - s], b[..|b| - s];
    var p := 0;
    if textPrefix {
      p := CommonPrefixLen(a', b');
    }
    result := Split(e.prefix + a[..p], a'[p..], b'[p..], a[|a| - s..] + e.suffix);
  }

  /** `std::accumulate` with `eat_segment` */
  method Accumulate(segs: seq<Segment>) returns (s: string)
    ensures s == Concat(segs)
  {
    s := "";
    for i := 0 to |segs|
      invariant s == Concat(segs[..i])
    {
      assert segs[..i + 1] == segs[..i] + [segs[i]];
      ConcatSnoc(segs[..i], segs[i]);
      s := s + segs[i].value;
    }
    assert segs[..|segs|] == segs;
  }
}
