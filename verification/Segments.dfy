/** `segmentize_markers`: cutting a text into markers `<...>`, `[...]` and the text between them. */
module Segments {

  datatype Kind = TEXT | MARKER

  datatype Segment = Segment(kind: Kind, value: string)

  predicate IsOpener(c: char) {
    c == '<' || c == '['
  }

  function Closer(opener: char): char {
    if opener == '<' then '>' else ']'
  }

  predicate HasOpener(s: string) {
    exists i :: 0 <= i < |s| && IsOpener(s[i])
  }

  function Concat(segs: seq<Segment>): string {
    if segs == [] then "" else segs[0].value + Concat(segs[1..])
  }

  /** An opener, then up to and including the first matching closer. */
  predicate IsMarker(s: string) {
    && |s| >= 2 && IsOpener(s[0]) && s[|s| - 1] == Closer(s[0])
    && forall i :: 1 <= i < |s| - 1 ==> s[i] != Closer(s[0])
  }

  /** `open`, then text without `close`, then `close`. */
  predicate Between(s: string, open: char, close: char) {
    |s| >= 2 && s[0] == open && s[|s| - 1] == close && close !in s[1..|s| - 1]
  }

  lemma MarkerExactly(s: string)
    ensures IsMarker(s) <==> Between(s, '<', '>') || Between(s, '[', ']')
  {
    if |s| >= 2 {
      var inner := s[1..|s| - 1];
      assert forall i :: 1 <= i < |s| - 1 ==> s[i] == inner[i - 1];
      assert forall i :: 0 <= i < |inner| ==> inner[i] == s[i + 1];
    }
  }

  /** A text holds no `<` and no `[`, but for one that is never closed. */
  lemma TextExactly(s: string)
    ensures HasOpener(s) <==> '<' in s || '[' in s
    ensures IsUnclosed(s) <==> s != "" && ((s[0] == '<' && '>' !in s[1..]) || (s[0] == '[' && ']' !in s[1..]))
  {
    if s != "" {
      assert forall i :: 1 <= i < |s| ==> s[i] == s[1..][i - 1];
      assert forall i :: 0 <= i < |s[1..]| ==> s[1..][i] == s[i + 1];
    }
  }

  /** An opener that is never closed. */
  predicate IsUnclosed(s: string) {
    s != "" && IsOpener(s[0]) && forall i :: 1 <= i < |s| ==> s[i] != Closer(s[0])
  }

  /**
   * The form of a segmentation: markers, texts without openers, no two such texts in a row, and at the
   * very end perhaps a text that is an unclosed marker.
   */
  predicate Valid(segs: seq<Segment>) {
    segs == [] ||
    match segs[0].kind
    case MARKER => IsMarker(segs[0].value) && Valid(segs[1..])
    case TEXT =>
      if segs[0].value != "" && !HasOpener(segs[0].value) then
        (|segs| > 1 ==> IsOpener(First(segs[1..]))) && Valid(segs[1..])
      else |segs| == 1 && IsUnclosed(segs[0].value)
  }

  function First(segs: seq<Segment>): char
    requires segs != []
  {
    if segs[0].value != "" then segs[0].value[0] else ' '
  }

  lemma ConcatFirst(segs: seq<Segment>)
    requires Valid(segs) && segs != []
    ensures segs[0].value != "" && Concat(segs) != "" && Concat(segs)[0] == First(segs)
  {
  }

  /** There is at most one segmentation of a text. */
  lemma {:induction false} ValidUnique(a: seq<Segment>, b: seq<Segment>)
    requires Valid(a) && Valid(b) && Concat(a) == Concat(b)
    ensures a == b
    decreases |a|
  {
    if a == [] {
      if b != [] { ConcatFirst(b); }
    } else if b == [] {
      ConcatFirst(a);
    } else {
      var s := Concat(a);
      var x, y := a[0].value, b[0].value;
      assert s[..|x|] == x && s[..|y|] == y;
      assert x[0] == y[0] == s[0];
      if !IsOpener(x[0]) {
        TextLength(a);
        TextLength(b);
      } else {
        MarkerLength(a);
        MarkerLength(b);
      }
      assert a[0] == b[0];
      assert s[|x|..] == Concat(a[1..]) == Concat(b[1..]);
      ValidUnique(a[1..], b[1..]);
    }
  }

  /** The position of the first `c` satisfying the search at or after `i`. */
  function FindOpener(s: string, i: nat): (r: nat)
    requires i <= |s|
    ensures i <= r <= |s| && (forall k :: i <= k < r ==> !IsOpener(s[k])) && (r < |s| ==> IsOpener(s[r]))
    decreases |s| - i
  {
    if i == |s| || IsOpener(s[i]) then i else FindOpener(s, i + 1)
  }

  function FindChar(s: string, i: nat, c: char): (r: nat)
    requires i <= |s|
    ensures i <= r <= |s| && (forall k :: i <= k < r ==> s[k] != c) && (r < |s| ==> s[r] == c)
    decreases |s| - i
  {
    if i == |s| || s[i] == c then i else FindChar(s, i + 1, c)
  }

  /** A leading text without openers ends at the first opener of the whole. */
  lemma TextLength(a: seq<Segment>)
    requires Valid(a) && a != [] && !IsOpener(First(a))
    ensures a[0].kind == TEXT && |a[0].value| == FindOpener(Concat(a), 0)
  {
    var s, x := Concat(a), a[0].value;
    var r := FindOpener(s, 0);
    assert a[0].kind == TEXT && x != "" && !HasOpener(x);
    assert forall i :: 0 <= i < |x| ==> s[i] == x[i];
    if |a| > 1 {
      ConcatFirst(a[1..]);
      assert s == x + Concat(a[1..]);
      assert s[|x|] == First(a[1..]);
    } else {
      assert s == x;
    }
  }

  /** A leading opener starts a marker up to its first closer, or the unclosed rest. */
  lemma MarkerLength(a: seq<Segment>)
    requires Valid(a) && a != [] && IsOpener(First(a))
    ensures var s := Concat(a);
      var r := FindChar(s, 1, Closer(s[0]));
      if r < |s| then a[0].kind == MARKER && |a[0].value| == r + 1 else a[0].kind == TEXT && a[0].value == s
  {
    var s, x := Concat(a), a[0].value;
    assert forall i :: 0 <= i < |x| ==> s[i] == x[i];
    var r := FindChar(s, 1, Closer(s[0]));
    if a[0].kind == MARKER {
      assert s[|x| - 1] == Closer(s[0]);
    } else {
      assert HasOpener(x) by { assert IsOpener(x[0]); }
      assert s == x;
    }
  }

  lemma {:induction false} ConcatSnoc(segs: seq<Segment>, g: Segment)
    ensures Concat(segs + [g]) == Concat(segs) + g.value
    decreases |segs|
  {
    if segs == [] {
      assert segs + [g] == [g] && [g][1..] == [];
    } else {
      assert (segs + [g])[1..] == segs[1..] + [g];
      ConcatSnoc(segs[1..], g);
    }
  }

  /** A segmentation whose last segment is not an unclosed marker and may be followed by any segment. */
  predicate Complete(segs: seq<Segment>) {
    segs == [] || segs[|segs| - 1].kind == MARKER
  }

  /** Adding a marker, a text after a marker, or both a text and what its opener starts. */
  lemma {:induction false} ValidSnoc(segs: seq<Segment>, g: Segment)
    requires Valid(segs)
    requires segs != [] && segs[|segs| - 1].kind == TEXT ==> !HasOpener(segs[|segs| - 1].value) && g.value != "" && IsOpener(g.value[0])
    requires Valid([g])
    ensures Valid(segs + [g])
    decreases |segs|
  {
    if segs == [] {
      assert segs + [g] == [g];
    } else {
      var r := segs + [g];
      assert r[1..] == segs[1..] + [g] && r[0] == segs[0];
      ValidSnoc(segs[1..], g);
    }
  }

  lemma OneValid(text: string, from: nat, to: nat, kind: Kind)
    requires from < to <= |text|
    requires kind == MARKER ==> IsMarker(text[from..to])
    requires kind == TEXT && IsOpener(text[from]) ==> IsUnclosed(text[from..to])
    requires kind == TEXT && !IsOpener(text[from]) ==> forall k :: from <= k < to ==> !IsOpener(text[k])
    ensures Valid([Segment(kind, text[from..to])])
  {
    var g := Segment(kind, text[from..to]);
    assert [g][1..] == [] && g.value[0] == text[from];
    if kind == TEXT && IsOpener(text[from]) {
      assert HasOpener(g.value) by { assert IsOpener(g.value[0]); }
    }
  }

  /** What one `push_back` in the loop achieves. */
  lemma Append(retval: seq<Segment>, text: string, from: nat, to: nat, kind: Kind)
    requires from < to <= |text| && Valid(retval) && Concat(retval) == text[..from]
    requires retval != [] && retval[|retval| - 1].kind == TEXT ==>
      !HasOpener(retval[|retval| - 1].value) && IsOpener(text[from])
    requires kind == MARKER ==> IsMarker(text[from..to])
    requires kind == TEXT && IsOpener(text[from]) ==> to == |text| && IsUnclosed(text[from..to])
    requires kind == TEXT && !IsOpener(text[from]) ==> forall k :: from <= k < to ==> !IsOpener(text[k])
    ensures var r := retval + [Segment(kind, text[from..to])];
      Valid(r) && Concat(r) == text[..to]
  {
    hide Valid;
    hide Concat;
    hide IsMarker;
    hide IsUnclosed;
    OneValid(text, from, to, kind);
    ValidSnoc(retval, Segment(kind, text[from..to]));
    ConcatSnoc(retval, Segment(kind, text[from..to]));
    assert text[..from] + text[from..to] == text[..to];
  }

  /** The one segmentation of `text`. */
  function Segmentize(text: string): (segs: seq<Segment>)
    ensures Valid(segs) && Concat(segs) == text
    decreases |text|
  {
    if text == "" then [] else
      var r := if IsOpener(text[0]) then FindChar(text, 1, Closer(text[0])) else FindOpener(text, 0);
      if IsOpener(text[0]) then
        if r == |text| then
          assert HasOpener(text) && [Segment(TEXT, text)][1..] == [];
          [Segment(TEXT, text)]
        else
          assert IsMarker(text[..r + 1]) && text == text[..r + 1] + text[r + 1..];
          [Segment(MARKER, text[..r + 1])] + Segmentize(text[r + 1..])
      else
        assert text == text[..r] + text[r..] && !HasOpener(text[..r]);
        var rest := Segmentize(text[r..]);
        assert rest != [] ==> IsOpener(First(rest)) by { if rest != [] { ConcatFirst(rest); } }
        [Segment(TEXT, text[..r])] + rest
  }

  lemma NoSegments()
    ensures Valid([]) && Concat([]) == ""
  {
  }

  method SegmentizeMarkers(text: string) returns (retval: seq<Segment>)
    ensures Valid(retval) && Concat(retval) == text
    ensures retval == Segmentize(text)
  {
    hide Valid;
    hide Concat;
    hide Segmentize;
    NoSegments();
    retval := [];
    var inMarker := false;
    var opener := ' ';
    var lastBorder := 0;
    for cur := 0 to |text|
      invariant 0 <= lastBorder <= cur
      invariant Valid(retval) && Concat(retval) == text[..lastBorder]
      invariant !inMarker ==> Complete(retval) && forall k :: lastBorder <= k < cur ==> !IsOpener(text[k])
      invariant inMarker ==> lastBorder < cur && opener == text[lastBorder] && IsOpener(opener)
      invariant inMarker ==> forall k :: lastBorder < k < cur ==> text[k] != Closer(opener)
      invariant inMarker && retval != [] && retval[|retval| - 1].kind == TEXT ==> !HasOpener(retval[|retval| - 1].value)
    {
      if !inMarker && IsOpener(text[cur]) {
        if lastBorder < cur {
          Append(retval, text, lastBorder, cur, TEXT);
          retval := retval + [Segment(TEXT, text[lastBorder..cur])];
          assert !HasOpener(text[lastBorder..cur]);
        }
        lastBorder := cur;
        inMarker := true;
        opener := text[cur];
      } else if inMarker && text[cur] == Closer(opener) {
        Append(retval, text, lastBorder, cur + 1, MARKER);
        retval := retval + [Segment(MARKER, text[lastBorder..cur + 1])];
        lastBorder := cur + 1;
        inMarker := false;
        opener := ' ';
      }
    }
    if lastBorder < |text| {
      Append(retval, text, lastBorder, |text|, TEXT);
      retval := retval + [Segment(TEXT, text[lastBorder..])];
    }
    assert text[..|text|] == text;
    ValidUnique(retval, Segmentize(text));
  }
}
