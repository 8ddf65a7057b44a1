/** What `calculate_diff_split` guarantees: exactly when both inputs are rebuilt, and that nothing shared is left. */
module DiffSplitLaws {
  import opened Text
  import opened Segments
  import opened DiffSplit

  predicate Rebuilds(r: Split, left: string, right: string) {
    && r.prefix + r.left + r.suffix == left
    && r.prefix + r.right + r.suffix == right
  }

  // ---- The loop loses nothing ----

  lemma ConcatHead(S: seq<Segment>, i: int, j: int)
    requires 0 <= i < j <= |S|
    ensures Concat(S[i..j]) == S[i].value + Concat(S[i + 1..j])
  {
    assert S[i..j][1..] == S[i + 1..j];
  }

  lemma ConcatLast(S: seq<Segment>, i: int, j: int)
    requires 0 <= i < j <= |S|
    ensures Concat(S[i..j]) == Concat(S[i..j - 1]) + S[j - 1].value
  {
    assert S[i..j] == S[i..j - 1] + [S[j - 1]];
    ConcatSnoc(S[i..j - 1], S[j - 1]);
  }

  /** One side: the collected texts around what remains give the input. */
  ghost predicate Side(S: seq<Segment>, from: int, to: int, done: bool, p: string, s: string, text: string) {
    0 <= from <= to < |S| && p + Rest(S, from, to, done) + s == text
  }

  lemma Assoc(p: string, v: string, c: string, s: string)
    ensures (p + v) + c + s == p + (v + c) + s
    ensures p + c + (v + s) == p + (c + v) + s
    ensures p + "" + s == p + s
  {
  }

  /** Moving the first remaining segment to the prefix; the only one, if `done`. */
  lemma SideFront(S: seq<Segment>, from: int, to: int, p: string, s: string, text: string, done: bool)
    requires Side(S, from, to, false, p, s, text) && (done <==> from == to)
    ensures Side(S, if done then from else from + 1, to, done, p + S[from].value, s, text)
  {
    ConcatHead(S, from, to + 1);
    Assoc(p, S[from].value, Concat(S[from + 1..to + 1]), s);
  }

  /** Moving the last remaining segment to the suffix. */
  lemma SideBack(S: seq<Segment>, from: int, to: int, p: string, s: string, text: string, done: bool)
    requires Side(S, from, to, false, p, s, text) && (done <==> from == to)
    ensures Side(S, from, if done then to else to - 1, done, p, S[to].value + s, text)
  {
    ConcatLast(S, from, to + 1);
    Assoc(p, S[to].value, Concat(S[from..to]), s);
  }

  /** The collected texts around what remains of each side give the inputs. */
  ghost predicate Covers(L: seq<Segment>, R: seq<Segment>, e: Ends, left: string, right: string) {
    && InRange(e, L, R)
    && Side(L, e.ls, e.le, e.lDone, e.prefix, e.suffix, left)
    && Side(R, e.rs, e.re, e.rDone, e.prefix, e.suffix, right)
  }

  lemma FrontCovers(L: seq<Segment>, R: seq<Segment>, e: Ends, left: string, right: string)
    requires Covers(L, R, e, left, right) && Going(e)
    ensures Covers(L, R, MatchFront(L, R, e), left, right)
  {
    if L[e.ls] == R[e.rs] {
      SideFront(L, e.ls, e.le, e.prefix, e.suffix, left, false);
      SideFront(R, e.rs, e.re, e.prefix, e.suffix, right, false);
    }
  }

  lemma BackCovers(L: seq<Segment>, R: seq<Segment>, e: Ends, left: string, right: string)
    requires Covers(L, R, e, left, right) && !e.lDone && !e.rDone
    ensures Covers(L, R, MatchBack(L, R, e), left, right)
  {
    if L[e.le] == R[e.re] {
      SideBack(L, e.ls, e.le, e.prefix, e.suffix, left, e.ls == e.le);
      SideBack(R, e.rs, e.re, e.prefix, e.suffix, right, e.rs == e.re);
    }
  }

  lemma {:induction false} MatchCovers(L: seq<Segment>, R: seq<Segment>, e: Ends, left: string, right: string)
    requires Covers(L, R, e, left, right)
    ensures var r := Match(L, R, e);
      Covers(L, R, r, left, right) && (Going(r) ==> L[r.ls] != R[r.rs] && L[r.le] != R[r.re])
    decreases e.le - e.ls + e.re - e.rs
  {
    if Going(e) && (L[e.ls] == R[e.rs] || L[e.le] == R[e.re]) {
      var f := MatchFront(L, R, e);
      FrontCovers(L, R, e, left, right);
      BackCovers(L, R, f, left, right);
      MatchCovers(L, R, MatchBack(L, R, f), left, right);
    }
  }

  // ---- The branches after the loop ----

  /**
   * One side was used up inside the loop, the other was not, and a branch after the loop still finds its
   * last segment equal to an end of the other side: that segment is counted a second time.
   */
  predicate CountsTwice(L: seq<Segment>, R: seq<Segment>, e: Ends)
    requires InRange(e, L, R)
  {
    e.lDone != e.rDone &&
    if e.ls == e.le && e.rs == e.re then L[e.ls] == R[e.rs] && L[e.ls].kind == MARKER
    else L[e.ls] == R[e.rs] || L[e.le] == R[e.re]
  }

  lemma SettleCovers(L: seq<Segment>, R: seq<Segment>, e: Ends, left: string, right: string)
    requires Covers(L, R, e, left, right) && !(e.lDone && e.rDone) && !CountsTwice(L, R, e)
    ensures Covers(L, R, Settle(L, R, e), left, right)
  {
    if !e.lDone && !e.rDone {
      var backward := L[e.le] == R[e.re] && !(e.ls == e.le && e.rs == e.re);
      if backward {
        SideBack(L, e.ls, e.le, e.prefix, e.suffix, left, e.ls == e.le);
        SideBack(R, e.rs, e.re, e.prefix, e.suffix, right, e.rs == e.re);
      } else {
        SideFront(L, e.ls, e.le, e.prefix, e.suffix, left, e.ls == e.le);
        SideFront(R, e.rs, e.re, e.prefix, e.suffix, right, e.rs == e.re);
      }
    }
  }

  /** Trimming a common prefix and suffix off one side. */
  lemma TrimmedSide(x: string, y: string, a: string, p: nat, s: nat)
    requires s <= |a| && p <= |a| - s
    ensures (x + a[..p]) + a[..|a| - s][p..] + (a[|a| - s..] + y) == x + a + y
  {
    var m := a[..|a| - s][p..];
    assert a == a[..p] + m + a[|a| - s..];
    assert (x + a[..p]) + m + (a[|a| - s..] + y) == x + (a[..p] + m + a[|a| - s..]) + y;
  }

  /** What is trimmed is shared by both sides. */
  lemma TrimmedParts(e: Ends, a: string, b: string, ts: bool, tp: bool) returns (p: nat, s: nat)
    ensures s <= |a| && s <= |b| && p <= |a| - s && p <= |b| - s
    ensures a[..p] == b[..p] && a[|a| - s..] == b[|b| - s..]
    ensures Trimmed(e, a, b, ts, tp)
         == Split(e.prefix + a[..p], a[..|a| - s][p..], b[..|b| - s][p..], a[|a| - s..] + e.suffix)
  {
    s := if ts then SuffixFrom(a, b, 0) else 0;
    var a', b' := a[..|a| - s], b[..|b| - s];
    p := if tp then PrefixFrom(a', b', 0) else 0;
    assert a'[..p] == a[..p] && b'[..p] == b[..p];
  }

  lemma TrimmedRebuilds(e: Ends, a: string, b: string, ts: bool, tp: bool, left: string, right: string)
    requires e.prefix + a + e.suffix == left && e.prefix + b + e.suffix == right
    ensures Rebuilds(Trimmed(e, a, b, ts, tp), left, right)
  {
    var p, s := TrimmedParts(e, a, b, ts, tp);
    TrimmedSide(e.prefix, e.suffix, a, p, s);
    TrimmedSide(e.prefix, e.suffix, b, p, s);
  }

  lemma RepairRebuilds(left: string, right: string, r: Split)
    requires Rebuilds(r, left, right) || (r.left == "" && r.right == "" && left == right)
    ensures Rebuilds(Repair(left, right, r), left, right)
  {
    if r.left == "" && r.right == "" {
      assert left == right;
    }
  }

  /** Whether the split rebuilds its inputs; decided by the state in which the matching loop stops. */
  predicate Faithful(left: string, right: string) {
    var L, R := Segmentize(left), Segmentize(right);
    L == [] || R == [] ||
    var e := Match(L, R, Start(L, R));
    !CountsTwice(L, R, e) || (e.lDone && e.rs != e.re && left <= right)
  }

  lemma StartSide(S: seq<Segment>, text: string)
    requires S != [] && Concat(S) == text
    ensures Side(S, 0, |S| - 1, false, "", "", text)
  {
    hide Concat;
    assert S[0..|S|] == S;
    assert "" + text + "" == text;
  }

  lemma StartCovers(L: seq<Segment>, R: seq<Segment>, left: string, right: string)
    requires L != [] && R != [] && Concat(L) == left && Concat(R) == right
    ensures Covers(L, R, Start(L, R), left, right)
  {
    StartSide(L, left);
    StartSide(R, right);
  }

  predicate NonEmptyValues(S: seq<Segment>) {
    forall i :: 0 <= i < |S| ==> S[i].value != ""
  }

  lemma RestNonEmpty(S: seq<Segment>, from: int, to: int)
    requires 0 <= from <= to < |S| && NonEmptyValues(S)
    ensures Rest(S, from, to, false) != ""
  {
    ConcatHead(S, from, to + 1);
  }

  /** Settling collects the segment once more. */
  lemma TwiceSettled(L: seq<Segment>, R: seq<Segment>, e: Ends)
    requires InRange(e, L, R) && CountsTwice(L, R, e) && NonEmptyValues(L) && NonEmptyValues(R)
    ensures var f := Settle(L, R, e);
      && |f.prefix| + |f.suffix| > |e.prefix| + |e.suffix|
      && (if e.ls == e.le && e.rs == e.re then f.lDone && f.rDone else f.lDone == e.lDone && f.rDone == e.rDone)
  {
  }

  /** A segment counted twice makes one side longer than its input, unless the last repair undoes it. */
  lemma TwiceBreaks(L: seq<Segment>, R: seq<Segment>, e: Ends, left: string, right: string)
    requires Covers(L, R, e, left, right) && CountsTwice(L, R, e) && NonEmptyValues(L) && NonEmptyValues(R)
    ensures Rebuilds(Repair(left, right, TrimShared(L, R, Settle(L, R, e))), left, right)
       <==> (e.lDone && e.rs != e.re && left <= right)
  {
    var f := Settle(L, R, e);
    TwiceSettled(L, R, e);
    if e.lDone {
      RestNonEmpty(R, e.rs, e.re);
      if e.rs != e.re { RestNonEmpty(R, f.rs, f.re); }
    } else {
      RestNonEmpty(L, e.ls, e.le);
      if e.ls != e.le { RestNonEmpty(L, f.ls, f.le); }
    }
    TwiceTrimmed(e, f, Rest(L, f.ls, f.le, f.lDone), Rest(R, f.rs, f.re, f.rDone), left, right);
  }

  lemma TwiceTrimmed(e: Ends, f: Ends, a: string, b: string, left: string, right: string)
    requires e.lDone != e.rDone && |f.prefix| + |f.suffix| > |e.prefix| + |e.suffix|
    requires e.lDone ==> a == "" && |left| == |e.prefix| + |e.suffix| && (b == "" <==> e.rs == e.re)
    requires e.rDone ==> b == "" && |right| == |e.prefix| + |e.suffix| && (a == "" <==> e.ls == e.le)
    requires e.lDone && e.rs == e.re ==> left != right
    requires e.rDone && e.ls == e.le ==> left != right
    ensures forall ts, tp :: (Rebuilds(Repair(left, right, Trimmed(f, a, b, ts, tp)), left, right)
       <==> (e.lDone && e.rs != e.re && left <= right))
  {
    forall ts, tp ensures Rebuilds(Repair(left, right, Trimmed(f, a, b, ts, tp)), left, right)
       <==> (e.lDone && e.rs != e.re && left <= right)
    {
      var r := Trimmed(f, a, b, ts, tp);
      assert r == Split(f.prefix + "", a, b, "" + f.suffix);
      assert |r.prefix| + |r.suffix| == |f.prefix| + |f.suffix|;
      if e.lDone && e.rs != e.re && left <= right {
        assert right == left + right[|left|..] + "";
      }
    }
  }

  lemma {:induction false} ValuesNonEmpty(segs: seq<Segment>)
    requires Valid(segs)
    ensures NonEmptyValues(segs)
    decreases |segs|
  {
    if segs != [] {
      ConcatFirst(segs);
      ValuesNonEmpty(segs[1..]);
      assert forall i :: 1 <= i < |segs| ==> segs[i] == segs[1..][i - 1];
    }
  }

  /** Both sides used up inside the loop: the inputs are equal and the no-difference repair says so. */
  lemma BothDone(L: seq<Segment>, R: seq<Segment>, e: Ends, left: string, right: string)
    requires Covers(L, R, e, left, right) && e.lDone && e.rDone
    ensures left == right
    ensures var r := TrimShared(L, R, Settle(L, R, e)); r.left == "" && r.right == ""
  {
    assert Rest(L, e.ls, e.le, true) == "" && Rest(R, e.rs, e.re, true) == "";
    var f := Settle(L, R, e);
    assert f.ls == e.ls && f.le == e.le && f.rs == e.rs && f.re == e.re && f.lDone && f.rDone;
  }

  lemma OtherwiseRebuilds(L: seq<Segment>, R: seq<Segment>, e: Ends, left: string, right: string)
    requires Covers(L, R, e, left, right) && !(e.lDone && e.rDone) && !CountsTwice(L, R, e)
    ensures Rebuilds(TrimShared(L, R, Settle(L, R, e)), left, right)
  {
    var f := Settle(L, R, e);
    SettleCovers(L, R, e, left, right);
    TrimmedRebuilds(f, Rest(L, f.ls, f.le, f.lDone), Rest(R, f.rs, f.re, f.rDone),
                    L[f.le].kind == TEXT && R[f.re].kind == TEXT, R[f.rs].kind == TEXT && L[f.ls].kind == TEXT,
                    left, right);
  }

  /** Nothing is lost or duplicated, exactly when no segment is counted twice or the last repair applies. */
  lemma SplitRebuilds(left: string, right: string)
    ensures Rebuilds(SplitOf(left, right), left, right) <==> Faithful(left, right)
  {
    var L, R := Segmentize(left), Segmentize(right);
    if L != [] && R != [] {
      var e := Match(L, R, Start(L, R));
      StartCovers(L, R, left, right);
      MatchCovers(L, R, Start(L, R), left, right);
      if CountsTwice(L, R, e) {
        ValuesNonEmpty(L);
        ValuesNonEmpty(R);
        TwiceBreaks(L, R, e, left, right);
      } else {
        if e.lDone && e.rDone {
          BothDone(L, R, e, left, right);
        } else {
          OtherwiseRebuilds(L, R, e, left, right);
        }
        RepairRebuilds(left, right, TrimShared(L, R, Settle(L, R, e)));
      }
    }
  }

  // ---- Nothing shared is left on both sides ----

  predicate IsCloser(c: char) {
    c == '>' || c == ']'
  }

  lemma {:induction false} MarkersAt(segs: seq<Segment>, i: nat)
    requires Valid(segs) && i < |segs| && segs[i].kind == MARKER
    ensures IsMarker(segs[i].value)
    decreases |segs|
  {
    if i > 0 {
      MarkersAt(segs[1..], i - 1);
    }
  }

  /** Two non-empty remainders differ in their first and last characters, up to the brackets of markers. */
  predicate Separated(a: string, b: string) {
    a != "" && b != "" ==>
      && (a[0] == b[0] ==> IsOpener(a[0]))
      && (a[|a| - 1] == b[|b| - 1] ==> IsCloser(a[|a| - 1]))
  }

  lemma RestEnds(S: seq<Segment>, from: int, to: int)
    requires 0 <= from <= to < |S| && Valid(S) && NonEmptyValues(S)
    ensures var a := Rest(S, from, to, false);
      && a != "" && a[0] == S[from].value[0] && a[|a| - 1] == S[to].value[|S[to].value| - 1]
      && (S[from].kind == MARKER ==> IsOpener(a[0])) && (S[to].kind == MARKER ==> IsCloser(a[|a| - 1]))
  {
    ConcatHead(S, from, to + 1);
    ConcatLast(S, from, to + 1);
    if S[from].kind == MARKER { MarkersAt(S, from); }
    if S[to].kind == MARKER { MarkersAt(S, to); }
  }

  lemma TrimmedEnds(a: string, p: nat, s: nat)
    requires s <= |a| && p < |a| - s
    ensures var x := a[..|a| - s][p..]; x != "" && x[0] == a[p] && x[|x| - 1] == a[|a| - 1 - s]
  {
  }

  lemma TrimmedSeparated(e: Ends, a: string, b: string, ts: bool, tp: bool)
    requires a != "" && b != ""
    requires !tp ==> (IsOpener(a[0]) || IsOpener(b[0]))
    requires !ts ==> (IsCloser(a[|a| - 1]) || IsCloser(b[|b| - 1]))
    ensures var r := Trimmed(e, a, b, ts, tp); Separated(r.left, r.right)
  {
    var s := if ts then SuffixFrom(a, b, 0) else 0;
    var a', b' := a[..|a| - s], b[..|b| - s];
    var p := if tp then PrefixFrom(a', b', 0) else 0;
    if p < |a| - s && p < |b| - s {
      TrimmedEnds(a, p, s);
      TrimmedEnds(b, p, s);
      assert tp ==> a'[p] != b'[p];
    }
  }

  /** For all inputs: if both differing parts are non-empty, no text they share at either end is left in them. */
  lemma SplitSeparates(left: string, right: string)
    ensures Separated(SplitOf(left, right).left, SplitOf(left, right).right)
  {
    var L, R := Segmentize(left), Segmentize(right);
    if L != [] && R != [] {
      var f := Settle(L, R, Match(L, R, Start(L, R)));
      SettledSeparates(L, R, f);
    }
  }

  lemma SettledSeparates(L: seq<Segment>, R: seq<Segment>, f: Ends)
    requires InRange(f, L, R) && Valid(L) && Valid(R)
    ensures var r := TrimShared(L, R, f); Separated(r.left, r.right)
  {
    var a, b := Rest(L, f.ls, f.le, f.lDone), Rest(R, f.rs, f.re, f.rDone);
    if a != "" && b != "" {
      ValuesNonEmpty(L);
      ValuesNonEmpty(R);
      RestEnds(L, f.ls, f.le);
      RestEnds(R, f.rs, f.re);
      TrimmedSeparated(f, a, b, L[f.le].kind == TEXT && R[f.re].kind == TEXT, R[f.rs].kind == TEXT && L[f.ls].kind == TEXT);
    }
  }

  // ---- Equal inputs, and the inputs on which a segment is counted twice ----

  lemma {:induction false} MatchSelf(L: seq<Segment>, e: Ends)
    requires InRange(e, L, L) && e.ls == e.rs && e.le == e.re && e.lDone == e.rDone
    ensures var r := Match(L, L, e); r.ls == r.le == r.rs == r.re && r.lDone == r.rDone
    decreases e.le - e.ls + e.re - e.rs
  {
    if Going(e) {
      MatchSelf(L, MatchBack(L, L, MatchFront(L, L, e)));
    }
  }

  lemma SettleSelf(L: seq<Segment>, e: Ends)
    requires InRange(e, L, L) && e.ls == e.le == e.rs == e.re && e.lDone == e.rDone
    ensures var f := Settle(L, L, e); f.ls == f.le == f.rs == f.re && f.lDone == f.rDone
    ensures Settle(L, L, e).ls == e.ls && (L[e.ls].kind == MARKER ==> Settle(L, L, e).lDone)
  {
  }

  /** Equal inputs have no difference: everything is prefix. */
  lemma SplitSame(text: string)
    ensures SplitOf(text, text) == Split(text, "", "", "")
  {
    hide Segmentize;
    hide Match;
    hide Settle;
    hide Trimmed;
    hide Rest;
    var L := Segmentize(text);
    if L != [] {
      var e := Match(L, L, Start(L, L));
      MatchSelf(L, Start(L, L));
      SettleSelf(L, e);
      var f := Settle(L, L, e);
      RestSelf(L, f);
      SuffixSelf(f, Rest(L, f.ls, f.le, f.lDone), L[f.le].kind == TEXT);
    } else {
      assert text == "";
    }
  }

  lemma RestSelf(L: seq<Segment>, f: Ends)
    requires InRange(f, L, L) && f.ls == f.le == f.rs == f.re && f.lDone == f.rDone
    ensures f.lDone ==> Rest(L, f.ls, f.le, true) == ""
    ensures Rest(L, f.ls, f.le, f.lDone) == Rest(L, f.rs, f.re, f.rDone)
  {
  }

  lemma SuffixSelf(f: Ends, a: string, text: bool)
    requires text || a == ""
    ensures var r := Trimmed(f, a, a, text, text); r.left == "" && r.right == ""
  {
    if text {
      assert IsCommonSuffix(a, a, SuffixFrom(a, a, 0));
    }
  }

  lemma SegmentizeIs(text: string, segs: seq<Segment>)
    requires Valid(segs) && Concat(segs) == text
    ensures Segmentize(text) == segs
  {
    ValidUnique(segs, Segmentize(text));
  }

  lemma MarkerAdded(text: string, segs: seq<Segment>, x: string, all: seq<Segment>)
    requires Valid(segs) && Concat(segs) == text && Complete(segs) && IsMarker(x) && all == segs + [Segment(MARKER, x)]
    ensures Valid(all) && Concat(all) == text + x && Complete(all) && Segmentize(text + x) == all
  {
    hide Segmentize;
    var X := Segment(MARKER, x);
    assert [X][1..] == [];
    assert Valid([X]);
    ValidSnoc(segs, X);
    ConcatSnoc(segs, X);
    SegmentizeIs(text + x, all);
  }

  /** `a`, `x` and `y` as markers. */
  lemma MarkerTexts(a: string, x: string, y: string)
    requires IsMarker(a) && IsMarker(x) && IsMarker(y)
    ensures var A, X, Y := Segment(MARKER, a), Segment(MARKER, x), Segment(MARKER, y);
      && Segmentize(a + x) == [A, X]
      && Segmentize(a + x + x) == [A, X, X]
      && Segmentize(a + y + x + x) == [A, Y, X, X]
  {
    var A, X, Y := Segment(MARKER, a), Segment(MARKER, x), Segment(MARKER, y);
    hide Valid;
    hide Concat;
    hide IsMarker;
    hide Segmentize;
    hide Complete;
    NoMarkers();
    MarkerAdded("", [], a, [A]);
    assert "" + a == a;
    MarkerAdded(a, [A], x, [A, X]);
    MarkerAdded(a + x, [A, X], x, [A, X, X]);
    MarkerAdded(a, [A], y, [A, Y]);
    MarkerAdded(a + y, [A, Y], x, [A, Y, X]);
    MarkerAdded(a + y + x, [A, Y, X], x, [A, Y, X, X]);
  }

  lemma NoMarkers()
    ensures Valid([]) && Concat([]) == "" && Complete([])
  {
  }

  /** The matching of two markers against the same with the last repeated. */
  lemma RepeatedMatch(A: Segment, X: Segment)
    requires A.kind == MARKER && X.kind == MARKER
    ensures var L, R := [A, X], [A, X, X];
      var f := Match(L, R, Start(L, R));
      f == Ends(1, 1, 1, 1, true, false, A.value, X.value + "")
  {
    var L, R := [A, X], [A, X, X];
    var m := MatchFront(L, R, Start(L, R));
    assert m == Ends(1, 1, 1, 2, false, false, "" + A.value, "");
    assert "" + A.value == A.value;
    var f := MatchBack(L, R, m);
    assert f == Ends(1, 1, 1, 1, true, false, A.value, X.value + "");
    assert Match(L, R, f) == f;
  }

  lemma RepeatedTrim(A: Segment, X: Segment, f: Ends)
    requires A.kind == MARKER && X.kind == MARKER
    requires f == Ends(1, 1, 1, 1, true, false, A.value, X.value + "")
    ensures var L, R := [A, X], [A, X, X]; var t := TrimShared(L, R, Settle(L, R, f)); t.left == "" && t.right == ""
  {
    var L, R := [A, X], [A, X, X];
    var g := Settle(L, R, f);
    assert g.ls == 1 && g.le == 1 && g.rs == 1 && g.re == 1 && g.lDone && g.rDone;
    assert L[1..1] == [] && R[1..1] == [];
    SuffixSelf(g, "", false);
  }

  /** Repeating the last marker is reported as no difference at all. */
  lemma RepeatedMarkerLost(a: string, x: string)
    requires IsMarker(a) && IsMarker(x)
    ensures SplitOf(a + x, a + x + x) == Split(a + x, "", "", "") && !Faithful(a + x, a + x + x)
  {
    hide Segmentize;
    hide Match;
    hide Settle;
    hide TrimShared;
    MarkerTexts(a, x, x);
    var A, X := Segment(MARKER, a), Segment(MARKER, x);
    RepeatedMatch(A, X);
    RepeatedTrim(A, X, Match([A, X], [A, X, X], Start([A, X], [A, X, X])));
  }

  lemma BetweenMatch(A: Segment, X: Segment, Y: Segment)
    requires X != Y
    ensures var L, R := [A, X], [A, Y, X, X];
      Match(L, R, Start(L, R)) == Ends(1, 1, 1, 2, true, false, A.value, X.value + "")
  {
    var L, R := [A, X], [A, Y, X, X];
    var m := MatchFront(L, R, Start(L, R));
    assert "" + A.value == A.value;
    var f := MatchBack(L, R, m);
    assert f == Ends(1, 1, 1, 2, true, false, A.value, X.value + "");
    assert Match(L, R, f) == f;
  }

  /** No marker starts another: its first closer is its end. */
  lemma MarkersApart(x: string, y: string, rest: string)
    requires IsMarker(x) && IsMarker(y) && x <= y + rest
    ensures x == y
  {
    var both := y + rest;
    assert forall i :: 0 <= i < |y| ==> both[i] == y[i];
    assert x[0] == y[0];
  }

  /** With another marker between, the left input is not rebuilt. */
  lemma RepeatedMarkerDoubled(a: string, x: string, y: string)
    requires IsMarker(a) && IsMarker(x) && IsMarker(y) && x != y
    ensures !Faithful(a + x, a + y + x + x)
  {
    hide Segmentize;
    hide Match;
    hide IsMarker;
    MarkerTexts(a, x, y);
    BetweenMatch(Segment(MARKER, a), Segment(MARKER, x), Segment(MARKER, y));
    if a + x <= a + y + x + x {
      assert a + y + x + x == a + (y + (x + x));
      PrefixOfConcat(a, x, y + (x + x));
      MarkersApart(x, y, x + x);
    }
  }

  /** `segs` segments `text`, which ends in a complete segment. */
  predicate Whole(text: string, segs: seq<Segment>) {
    Valid(segs) && Concat(segs) == text && Complete(segs)
  }

  lemma OneMarker(text: string, segs: seq<Segment>, x: string, all: seq<Segment>)
    requires Whole(text, segs) && IsMarker(x) && all == segs + [Segment(MARKER, x)]
    ensures Whole(text + x, all) && Segmentize(text + x) == all
  {
    hide Valid;
    hide Concat;
    hide IsMarker;
    hide Segmentize;
    hide Complete;
    MarkerAdded(text, segs, x, all);
  }

  lemma TwoMarkers(a: string, l: string)
    requires IsMarker(a) && IsMarker(l)
    ensures Whole(a + l, [Segment(MARKER, a), Segment(MARKER, l)])
  {
    hide Segmentize;
    NoMarkers();
    OneMarker("", [], a, [Segment(MARKER, a)]);
    assert "" + a == a;
    OneMarker(a, [Segment(MARKER, a)], l, [Segment(MARKER, a), Segment(MARKER, l)]);
  }

  /** Three more markers. */
  lemma ThreeMore(text: string, segs: seq<Segment>, x: string, y: string, z: string)
    requires Whole(text, segs) && IsMarker(x) && IsMarker(y) && IsMarker(z)
    ensures Segmentize(text + x + y + z) == segs + [Segment(MARKER, x)] + [Segment(MARKER, y)] + [Segment(MARKER, z)]
  {
    hide IsMarker;
    hide Segmentize;
    hide Whole;
    var one := segs + [Segment(MARKER, x)];
    var two := one + [Segment(MARKER, y)];
    OneMarker(text, segs, x, one);
    OneMarker(text + x, one, y, two);
    OneMarker(text + x + y, two, z, two + [Segment(MARKER, z)]);
  }

  /** `a`, `l`, `b` and `a`, `l`, `c`, `l`, `b` as markers. */
  lemma SandwichTexts(a: string, l: string, c: string, b: string)
    requires IsMarker(a) && IsMarker(l) && IsMarker(c) && IsMarker(b)
    ensures var A, M, C, B := Segment(MARKER, a), Segment(MARKER, l), Segment(MARKER, c), Segment(MARKER, b);
      Segmentize(a + l + b) == [A, M] + [B] && Segmentize(a + l + c + l + b) == [A, M] + [C] + [M] + [B]
  {
    hide IsMarker;
    hide Segmentize;
    hide Whole;
    var two := [Segment(MARKER, a), Segment(MARKER, l)];
    TwoMarkers(a, l);
    OneMarker(a + l, two, b, two + [Segment(MARKER, b)]);
    ThreeMore(a + l, two, c, l, b);
  }

  /** The loop matches `a` and `b`; one segment is left on the shorter side, three on the other. */
  lemma SandwichMatch(A: Segment, M: Segment, C: Segment, B: Segment)
    ensures var S, T := [A, M, B], [A, M, C, M, B];
      && Match(S, T, Start(S, T)) == Ends(1, 1, 1, 3, false, false, A.value, B.value)
      && Match(T, S, Start(T, S)) == Ends(1, 3, 1, 1, false, false, A.value, B.value)
  {
    var S, T := [A, M, B], [A, M, C, M, B];
    assert "" + A.value == A.value && B.value + "" == B.value;
    var f := MatchBack(S, T, MatchFront(S, T, Start(S, T)));
    assert f == Ends(1, 1, 1, 3, false, false, A.value, B.value) && Match(S, T, f) == f;
    var g := MatchBack(T, S, MatchFront(T, S, Start(T, S)));
    assert g == Ends(1, 3, 1, 1, false, false, A.value, B.value) && Match(T, S, g) == g;
  }

  lemma SandwichSettled(A: Segment, M: Segment, C: Segment, B: Segment)
    ensures var S, T := [A, M, B], [A, M, C, M, B]; var n := M.value + B.value;
      && Settle(S, T, Ends(1, 1, 1, 3, false, false, A.value, B.value)) == Ends(1, 1, 1, 2, true, false, A.value, n)
      && Settle(T, S, Ends(1, 3, 1, 1, false, false, A.value, B.value)) == Ends(1, 2, 1, 1, false, true, A.value, n)
  {
  }

  lemma PairConcat(x: Segment, y: Segment)
    ensures Concat([]) == "" && Concat([x, y]) == x.value + y.value
  {
    assert [x, y][1..] == [y] && [y][1..] == [];
    assert Concat([y]) == y.value + Concat([]);
    assert y.value + "" == y.value;
  }

  lemma SandwichRests(A: Segment, M: Segment, C: Segment, B: Segment)
    ensures var S, T := [A, M, B], [A, M, C, M, B];
      Rest(S, 1, 1, true) == "" && Rest(T, 1, 2, false) == M.value + C.value
  {
    hide Concat;
    PairConcat(M, C);
    assert [A, M, B][1..1] == [] && [A, M, C, M, B][1..3] == [M, C];
  }

  /** Nothing is trimmed next to markers. */
  lemma Untrimmed(e: Ends, a: string, b: string)
    ensures Trimmed(e, a, b, false, false) == Split(e.prefix, a, b, e.suffix)
  {
    assert e.prefix + a[..0] == e.prefix && a[..|a| - 0][0..] == a && b[..|b| - 0][0..] == b;
    assert a[|a| - 0..] + e.suffix == e.suffix;
  }

  lemma SandwichSplit(A: Segment, M: Segment, C: Segment, B: Segment)
    requires A.kind == MARKER && M.kind == MARKER && C.kind == MARKER && B.kind == MARKER
    ensures var S, T := [A, M, B], [A, M, C, M, B]; var n := M.value + B.value;
      && TrimShared(S, T, Ends(1, 1, 1, 2, true, false, A.value, n)) == Split(A.value, "", M.value + C.value, n)
      && TrimShared(T, S, Ends(1, 2, 1, 1, false, true, A.value, n)) == Split(A.value, M.value + C.value, "", n)
  {
    hide Rest;
    hide Trimmed;
    var n := M.value + B.value;
    SandwichRests(A, M, C, B);
    Untrimmed(Ends(1, 1, 1, 2, true, false, A.value, n), "", M.value + C.value);
    Untrimmed(Ends(1, 2, 1, 1, false, true, A.value, n), M.value + C.value, "");
  }

  /** A segment that both ends of the longer text could match is matched at its end, on either side. */
  lemma SharedAtEnd(a: string, l: string, c: string, b: string)
    requires IsMarker(a) && IsMarker(l) && IsMarker(c) && IsMarker(b) && b != c
    ensures SplitOf(a + l + b, a + l + c + l + b) == Split(a, "", l + c, l + b)
    ensures SplitOf(a + l + c + l + b, a + l + b) == Split(a, l + c, "", l + b)
  {
    hide Segmentize;
    hide Match;
    hide Settle;
    hide TrimShared;
    hide IsMarker;
    var A, M, C, B := Segment(MARKER, a), Segment(MARKER, l), Segment(MARKER, c), Segment(MARKER, b);
    SandwichTexts(a, l, c, b);
    assert [A, M] + [B] == [A, M, B] && [A, M] + [C] + [M] + [B] == [A, M, C, M, B];
    SandwichMatch(A, M, C, B);
    SandwichSettled(A, M, C, B);
    SandwichSplit(A, M, C, B);
    if a + l + b <= a + l + c + l + b {
      assert a + l + c + l + b == (a + l) + (c + (l + b));
      PrefixOfConcat(a + l, b, c + (l + b));
      MarkersApart(b, c, l + b);
    }
    NotEmptyPair(l, c);
  }

  lemma NotEmptyPair(l: string, c: string)
    requires IsMarker(l)
    ensures l + c != ""
  {
  }
}
