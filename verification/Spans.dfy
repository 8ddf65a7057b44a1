/** `common_chat_msg_delimiters::split`: cutting a token stream into message spans at delimiters. */
module Spans {
  import opened Text

  type Token = int

  datatype Role = Unknown | System | Assistant | User | Tool

  datatype Delimiter = Delimiter(role: Role, tokens: seq<Token>)

  datatype Span = Span(role: Role, pos: nat, len: nat)

  /** One entry of the ordered map `skips`: a start and a length. */
  datatype Skip = Skip(start: nat, len: nat)

  /** Keys of an ordered map. */
  predicate Ordered(skips: seq<Skip>) {
    forall k :: 0 <= k < |skips| - 1 ==> skips[k].start < skips[k + 1].start
  }

  /** No region starts inside the one before it. */
  predicate Disjoint(skips: seq<Skip>) {
    forall k :: 0 <= k < |skips| - 1 ==> skips[k].start + skips[k].len <= skips[k + 1].start
  }

  /**
   * How many regions the scan honours: the iterator never moves past a region whose start has already been
   * jumped over, so every region from the first overlapping one on is ignored.
   */
  function Honoured(skips: seq<Skip>): (n: nat)
    ensures n <= |skips| && Disjoint(skips[..n]) && (n == |skips| <==> Disjoint(skips))
    ensures n < |skips| ==> 0 < n && skips[n].start < skips[n - 1].start + skips[n - 1].len
  {
    if |skips| < 2 then |skips|
    else
      var n := Honoured(skips[..|skips| - 1]);
      var last := |skips| - 1;
      assert skips[..last][..n] == skips[..n];
      assert Disjoint(skips) ==> Disjoint(skips[..last]);
      if n < last || skips[last].start < skips[last - 1].start + skips[last - 1].len then n else
        assert skips[..|skips|] == skips;
        n + 1
  }

  predicate Skipped(skips: seq<Skip>, i: nat) {
    exists k :: 0 <= k < |skips| && skips[k].start <= i < skips[k].start + skips[k].len
  }

  predicate MatchesAt(d: Delimiter, tokens: seq<Token>, i: nat) {
    i + |d.tokens| <= |tokens| && tokens[i..i + |d.tokens|] == d.tokens
  }

  /** The role of the first listed delimiter that matches at `i`. */
  function RoleAt(ds: seq<Delimiter>, tokens: seq<Token>, i: nat): Option<Role> {
    if ds == [] then None
    else if MatchesAt(ds[0], tokens, i) then Some(ds[0].role)
    else RoleAt(ds[1..], tokens, i)
  }

  // ---- What the spans of a stream are ----

  /** The tokens of `d` stand at `i`; a delimiter without tokens stands everywhere. */
  predicate Occurs(d: Delimiter, tokens: seq<Token>, i: nat) {
    i + |d.tokens| <= |tokens| && forall j :: 0 <= j < |d.tokens| ==> tokens[i + j] == d.tokens[j]
  }

  /** Some delimiter stands at `i`, and `role` is that of the first listed one that does. */
  ghost predicate FirstListed(ds: seq<Delimiter>, tokens: seq<Token>, i: nat, role: Role) {
    exists k :: 0 <= k < |ds| && ds[k].role == role && Occurs(ds[k], tokens, i) &&
                forall j :: 0 <= j < k ==> !Occurs(ds[j], tokens, i)
  }

  /** Position `i` begins a message. */
  predicate Begins(ds: seq<Delimiter>, tokens: seq<Token>, skips: seq<Skip>, i: nat) {
    i < |tokens| && !Skipped(skips, i) && exists k :: 0 <= k < |ds| && Occurs(ds[k], tokens, i)
  }

  lemma MatchOccurs(d: Delimiter, tokens: seq<Token>, i: nat)
    ensures MatchesAt(d, tokens, i) <==> Occurs(d, tokens, i)
  {
    if i + |d.tokens| <= |tokens| {
      var part := tokens[i..i + |d.tokens|];
      assert forall j :: 0 <= j < |d.tokens| ==> part[j] == tokens[i + j];
    }
  }

  /** Behind a delimiter that does not stand there, the first listed one is that of the others. */
  lemma FirstOfRest(ds: seq<Delimiter>, tokens: seq<Token>, i: nat, role: Role)
    requires ds != [] && !Occurs(ds[0], tokens, i)
    ensures FirstListed(ds, tokens, i, role) <==> FirstListed(ds[1..], tokens, i, role)
  {
    hide Occurs;
    var rest := ds[1..];
    if FirstListed(rest, tokens, i, role) {
      var k :| 0 <= k < |rest| && rest[k].role == role && Occurs(rest[k], tokens, i) &&
               forall j :: 0 <= j < k ==> !Occurs(rest[j], tokens, i);
      assert ds[k + 1] == rest[k];
      assert forall j :: 0 < j < k + 1 ==> ds[j] == rest[j - 1];
    }
    if FirstListed(ds, tokens, i, role) {
      var k :| 0 <= k < |ds| && ds[k].role == role && Occurs(ds[k], tokens, i) &&
               forall j :: 0 <= j < k ==> !Occurs(ds[j], tokens, i);
      assert rest[k - 1] == ds[k];
      assert forall j :: 0 <= j < k - 1 ==> rest[j] == ds[j + 1];
    }
  }

  /** A first delimiter that stands there gives the role. */
  lemma FirstOfAll(ds: seq<Delimiter>, tokens: seq<Token>, i: nat, role: Role)
    requires ds != [] && Occurs(ds[0], tokens, i)
    ensures FirstListed(ds, tokens, i, role) <==> ds[0].role == role
  {
    hide Occurs;
  }

  /** The scan over the delimiters finds the first listed one, exactly when there is one. */
  lemma {:induction false} RoleAtFirst(ds: seq<Delimiter>, tokens: seq<Token>, i: nat, role: Role)
    ensures RoleAt(ds, tokens, i) == Some(role) <==> FirstListed(ds, tokens, i, role)
    ensures RoleAt(ds, tokens, i).Some? <==> exists k :: 0 <= k < |ds| && Occurs(ds[k], tokens, i)
    decreases |ds|
  {
    hide MatchesAt;
    hide Occurs;
    if ds == [] {
      assert !FirstListed(ds, tokens, i, role);
    } else {
      hide FirstListed;
      var rest := ds[1..];
      MatchOccurs(ds[0], tokens, i);
      if Occurs(ds[0], tokens, i) {
        FirstOfAll(ds, tokens, i, role);
      } else {
        RoleAtFirst(rest, tokens, i, role);
        FirstOfRest(ds, tokens, i, role);
        if k :| 0 <= k < |ds| && Occurs(ds[k], tokens, i) { assert rest[k - 1] == ds[k]; }
        if k :| 0 <= k < |rest| && Occurs(rest[k], tokens, i) { assert ds[k + 1] == rest[k]; }
      }
    }
  }

  lemma BeginsStarts(ds: seq<Delimiter>, tokens: seq<Token>, skips: seq<Skip>, i: nat)
    ensures Begins(ds, tokens, skips, i) <==> Starts(ds, tokens, skips, i)
  {
    hide Occurs;
    hide RoleAt;
    RoleAtFirst(ds, tokens, i, Unknown);
  }

  /** The same by the scan: position `i` starts a message. */
  predicate Starts(ds: seq<Delimiter>, tokens: seq<Token>, skips: seq<Skip>, i: nat) {
    i < |tokens| && !Skipped(skips, i) && RoleAt(ds, tokens, i).Some?
  }

  predicate HasStart(spans: seq<Span>, p: nat) {
    exists k :: 0 <= k < |spans| && spans[k].pos == p
  }

  predicate Contiguous(spans: seq<Span>) {
    forall k :: 0 <= k < |spans| - 1 ==> spans[k].len > 0 && spans[k].pos + spans[k].len == spans[k + 1].pos
  }

  /**
   * The spans of a stream: one for each starting position, in order, each with the role of the first
   * delimiter there and reaching to the next one or to the end of the stream.
   */
  ghost predicate IsSplit(ds: seq<Delimiter>, tokens: seq<Token>, skips: seq<Skip>, spans: seq<Span>) {
    && (forall k :: 0 <= k < |spans| ==>
          Begins(ds, tokens, skips, spans[k].pos) && FirstListed(ds, tokens, spans[k].pos, spans[k].role))
    && (forall i: nat :: Begins(ds, tokens, skips, i) ==> HasStart(spans, i))
    && Contiguous(spans)
    && (spans != [] ==> spans[|spans| - 1].pos + spans[|spans| - 1].len == |tokens|)
  }

  datatype Match = Match(role: Role, pos: nat)

  /** What the scan has found below `i`. */
  ghost predicate Found(ds: seq<Delimiter>, tokens: seq<Token>, skips: seq<Skip>, matches: seq<Match>, i: nat) {
    && (forall k :: 0 <= k < |matches| ==>
          && matches[k].pos < i && Starts(ds, tokens, skips, matches[k].pos)
          && RoleAt(ds, tokens, matches[k].pos) == Some(matches[k].role))
    && (forall k :: 0 <= k < |matches| - 1 ==> matches[k].pos < matches[k + 1].pos)
    && (forall j: nat :: j < i && Starts(ds, tokens, skips, j) ==> exists k :: 0 <= k < |matches| && matches[k].pos == j)
  }

  /** All skips below index `n` end at or before `i`, the others start at or after `i`. */
  ghost predicate Passed(skips: seq<Skip>, n: nat, i: nat) {
    && n <= |skips|
    && (forall k :: 0 <= k < n ==> skips[k].start + skips[k].len <= i)
    && (forall k :: n <= k < |skips| ==> i <= skips[k].start)
  }

  lemma {:induction false} DisjointOrder(skips: seq<Skip>, j: nat, k: nat)
    requires Disjoint(skips) && j < k < |skips|
    ensures skips[j].start + skips[j].len <= skips[k].start
    decreases k
  {
    if j < k - 1 {
      DisjointOrder(skips, j, k - 1);
      assert skips[k - 1].start + skips[k - 1].len <= skips[k - 1 + 1].start;
    } else {
      assert skips[j].start + skips[j].len <= skips[j + 1].start;
    }
  }

  lemma {:induction false} OrderedStarts(skips: seq<Skip>, j: nat, k: nat)
    requires Ordered(skips) && j < k < |skips|
    ensures skips[j].start < skips[k].start
    decreases k
  {
    if j < k - 1 { OrderedStarts(skips, j, k - 1); }
    assert skips[k - 1].start < skips[k - 1 + 1].start;
  }

  /** A position that opens no pending region lies in none. */
  lemma NotSkipped(skips: seq<Skip>, n: nat, i: nat)
    requires Ordered(skips) && Passed(skips, n, i) && (n < |skips| ==> skips[n].start != i)
    ensures !Skipped(skips, i)
  {
    forall k | 0 <= k < |skips| ensures !(skips[k].start <= i < skips[k].start + skips[k].len) {
      if n < k { OrderedStarts(skips, n, k); }
    }
  }

  /** Jumping over the pending region passes it. */
  lemma JumpOver(skips: seq<Skip>, n: nat, i: nat)
    requires Ordered(skips) && Disjoint(skips) && Passed(skips, n, i) && n < |skips| && skips[n].start == i
    ensures Passed(skips, n + 1, i + skips[n].len)
    ensures forall j: nat :: i <= j < i + skips[n].len ==> Skipped(skips, j)
  {
    forall k | n < k < |skips| ensures i + skips[n].len <= skips[k].start {
      DisjointOrder(skips, n, k);
    }
  }

  lemma FoundStart(ds: seq<Delimiter>, tokens: seq<Token>, skips: seq<Skip>, matches: seq<Match>, i: nat, role: Role)
    requires Found(ds, tokens, skips, matches, i)
    requires i < |tokens| && !Skipped(skips, i) && RoleAt(ds, tokens, i) == Some(role)
    ensures Found(ds, tokens, skips, matches + [Match(role, i)], i + 1)
  {
    var after := matches + [Match(role, i)];
    forall j: nat | j < i + 1 && Starts(ds, tokens, skips, j) ensures exists k :: 0 <= k < |after| && after[k].pos == j {
      if j == i {
        assert after[|matches|].pos == j;
      } else {
        var k :| 0 <= k < |matches| && matches[k].pos == j;
        assert after[k].pos == j;
      }
    }
  }

  lemma FoundNothing(ds: seq<Delimiter>, tokens: seq<Token>, skips: seq<Skip>, matches: seq<Match>, i: nat, end: nat)
    requires Found(ds, tokens, skips, matches, i) && i <= end
    requires forall j: nat :: i <= j < end ==> !Starts(ds, tokens, skips, j)
    ensures Found(ds, tokens, skips, matches, end)
  {
  }

  method RoleOf(ds: seq<Delimiter>, tokens: seq<Token>, i: nat) returns (r: Option<Role>)
    requires i < |tokens|
    ensures r == RoleAt(ds, tokens, i)
  {
    for k := 0 to |ds|
      invariant RoleAt(ds[k..], tokens, i) == RoleAt(ds, tokens, i)
    {
      assert ds[k..][0] == ds[k] && ds[k..][1..] == ds[k + 1..];
      if i + |ds[k].tokens| > |tokens| {
        continue;
      }
      if tokens[i..i + |ds[k].tokens|] == ds[k].tokens {
        return Some(ds[k].role);
      }
    }
    return None;
  }

  /** One unskipped position. */
  method ScanAt(ds: seq<Delimiter>, tokens: seq<Token>, ghost skips: seq<Skip>, ghost skip: nat, i: nat, before: seq<Match>)
    returns (matches: seq<Match>)
    requires Ordered(skips) && Passed(skips, skip, i) && (skip < |skips| ==> skips[skip].start != i)
    requires Found(ds, tokens, skips, before, i) && i < |tokens|
    ensures Passed(skips, skip, i + 1) && Found(ds, tokens, skips, matches, i + 1)
  {
    hide Found;
    hide Passed;
    NotSkipped(skips, skip, i);
    PassOne(skips, skip, i);
    matches := before;
    var r := RoleOf(ds, tokens, i);
    if r.Some? {
      FoundStart(ds, tokens, skips, matches, i, r.value);
      matches := matches + [Match(r.value, i)];
    } else {
      FoundNothing(ds, tokens, skips, matches, i, i + 1);
    }
  }

  /** The pending region. */
  lemma FoundJump(ds: seq<Delimiter>, tokens: seq<Token>, skips: seq<Skip>, skip: nat, i: nat, matches: seq<Match>)
    requires Ordered(skips) && Disjoint(skips) && Passed(skips, skip, i) && skip < |skips| && skips[skip].start == i
    requires Found(ds, tokens, skips, matches, i)
    ensures Passed(skips, skip + 1, i + skips[skip].len) && Found(ds, tokens, skips, matches, i + skips[skip].len)
  {
    hide Found;
    hide Passed;
    JumpOver(skips, skip, i);
    FoundNothing(ds, tokens, skips, matches, i, i + skips[skip].len);
  }

  lemma NothingFound(ds: seq<Delimiter>, tokens: seq<Token>, skips: seq<Skip>)
    ensures Found(ds, tokens, skips, [], 0) && Passed(skips, 0, 0)
  {
  }

  /** The first loop: every start outside the honoured regions. */
  method Scan(ds: seq<Delimiter>, tokens: seq<Token>, skips: seq<Skip>) returns (matches: seq<Match>)
    requires Ordered(skips)
    ensures Found(ds, tokens, skips[..Honoured(skips)], matches, |tokens|)
  {
    hide Found;
    hide Passed;
    NothingFound(ds, tokens, skips[..Honoured(skips)]);
    matches := [];
    var skip, i := 0, 0;
    ghost var honoured := skips[..Honoured(skips)];
    while i < |tokens|
      invariant skip <= |honoured|
      invariant skip == |honoured| < |skips| ==> skips[skip].start < i
      invariant Passed(honoured, skip, i) && Found(ds, tokens, honoured, matches, i)
      decreases |tokens| - i, |skips| - skip
    {
      if skip < |skips| && i == skips[skip].start {
        FoundJump(ds, tokens, honoured, skip, i, matches);
        i := i + skips[skip].len;
        skip := skip + 1;
        continue;
      }
      matches := ScanAt(ds, tokens, honoured, skip, i, matches);
      i := i + 1;
    }
    FoundBelow(ds, tokens, honoured, matches, i);
  }

  /** Both loops of the splitter; only the leading disjoint regions are skipped. */
  method Split(ds: seq<Delimiter>, tokens: seq<Token>, skips: seq<Skip>) returns (spans: seq<Span>)
    requires Ordered(skips)
    ensures IsSplit(ds, tokens, skips[..Honoured(skips)], spans)
  {
    var found := Scan(ds, tokens, skips);
    var matches := found + [Match(Unknown, |tokens|)];
    FoundIncreases(ds, tokens, skips[..Honoured(skips)], found);
    spans := [];
    for k := 0 to |matches| - 1
      invariant |spans| == k
      invariant forall j :: 0 <= j < k ==> SpanOf(matches, j, spans[j])
    {
      assert matches[k].pos < matches[k + 1].pos;
      spans := spans + [Span(matches[k].role, matches[k].pos, matches[k + 1].pos - matches[k].pos)];
    }
    FoundSplits(ds, tokens, skips[..Honoured(skips)], found, spans);
  }

  /** `span` is the one of match `j`, reaching to the next match. */
  predicate SpanOf(matches: seq<Match>, j: nat, span: Span)
    requires j + 1 < |matches|
  {
    span.role == matches[j].role && span.pos == matches[j].pos && span.pos + span.len == matches[j + 1].pos
  }

  lemma PassOne(skips: seq<Skip>, n: nat, i: nat)
    requires Ordered(skips) && Passed(skips, n, i) && (n < |skips| ==> skips[n].start != i)
    ensures Passed(skips, n, i + 1)
  {
    forall k | n <= k < |skips| ensures i + 1 <= skips[k].start {
      if n < k { OrderedStarts(skips, n, k); }
    }
  }

  lemma FoundBelow(ds: seq<Delimiter>, tokens: seq<Token>, skips: seq<Skip>, matches: seq<Match>, i: nat)
    requires Found(ds, tokens, skips, matches, i) && |tokens| <= i
    ensures Found(ds, tokens, skips, matches, |tokens|)
  {
  }

  lemma FoundIncreases(ds: seq<Delimiter>, tokens: seq<Token>, skips: seq<Skip>, found: seq<Match>)
    requires Found(ds, tokens, skips, found, |tokens|)
    ensures var matches := found + [Match(Unknown, |tokens|)];
      forall k :: 0 <= k < |matches| - 1 ==> matches[k].pos < matches[k + 1].pos
  {
    var matches := found + [Match(Unknown, |tokens|)];
    forall k | 0 <= k < |found| ensures matches[k].pos < matches[k + 1].pos {
      assert matches[k] == found[k];
      if k < |found| - 1 { assert found[k].pos < found[k + 1].pos; }
    }
  }

  /** What the scan has found, said without it. */
  lemma FoundBegins(ds: seq<Delimiter>, tokens: seq<Token>, skips: seq<Skip>, i: nat, role: Role)
    ensures Begins(ds, tokens, skips, i) <==> Starts(ds, tokens, skips, i)
    ensures FirstListed(ds, tokens, i, role) <==> RoleAt(ds, tokens, i) == Some(role)
  {
    BeginsStarts(ds, tokens, skips, i);
    RoleAtFirst(ds, tokens, i, role);
  }

  lemma SpanEnds(found: seq<Match>, spans: seq<Span>, end: nat, j: nat)
    requires |spans| == |found| && j < |spans|
    requires SpanOf(found + [Match(Unknown, end)], j, spans[j])
    ensures spans[j].role == found[j].role && spans[j].pos == found[j].pos
    ensures spans[j].pos + spans[j].len == if j < |spans| - 1 then found[j + 1].pos else end
  {
  }

  lemma FoundSplits(ds: seq<Delimiter>, tokens: seq<Token>, skips: seq<Skip>, found: seq<Match>, spans: seq<Span>)
    requires Found(ds, tokens, skips, found, |tokens|) && |spans| == |found|
    requires var matches := found + [Match(Unknown, |tokens|)];
      forall j :: 0 <= j < |spans| ==> SpanOf(matches, j, spans[j])
    ensures IsSplit(ds, tokens, skips, spans)
  {
    hide RoleAt;
    hide FirstListed;
    hide Begins;
    hide Starts;
    hide SpanOf;
    forall j | 0 <= j < |spans|
      ensures spans[j].role == found[j].role && spans[j].pos == found[j].pos
      ensures spans[j].pos + spans[j].len == if j < |spans| - 1 then found[j + 1].pos else |tokens|
      ensures Begins(ds, tokens, skips, spans[j].pos) && FirstListed(ds, tokens, spans[j].pos, spans[j].role)
    {
      SpanEnds(found, spans, |tokens|, j);
      FoundBegins(ds, tokens, skips, found[j].pos, found[j].role);
    }
    forall p: nat | Begins(ds, tokens, skips, p) ensures HasStart(spans, p) {
      FoundBegins(ds, tokens, skips, p, Unknown);
      StartsInside(ds, tokens, skips, p);
      var k :| 0 <= k < |found| && found[k].pos == p;
      assert spans[k].pos == p;
    }
    forall j | 0 <= j < |spans| - 1
      ensures spans[j].len > 0 && spans[j].pos + spans[j].len == spans[j + 1].pos
    {
      SpanEnds(found, spans, |tokens|, j);
      SpanEnds(found, spans, |tokens|, j + 1);
      assert found[j].pos < found[j + 1].pos;
    }
    if spans != [] { SpanEnds(found, spans, |tokens|, |spans| - 1); }
    assert Contiguous(spans);
  }

  lemma StartsInside(ds: seq<Delimiter>, tokens: seq<Token>, skips: seq<Skip>, i: nat)
    requires Starts(ds, tokens, skips, i)
    ensures i < |tokens|
  {
  }

  lemma {:induction false} PositionsIncrease(spans: seq<Span>, i: nat, j: nat)
    requires Contiguous(spans) && i < j < |spans|
    ensures spans[i].pos < spans[j].pos
    decreases j
  {
    assert spans[j - 1].pos + spans[j - 1].len == spans[j - 1 + 1].pos;
    if i < j - 1 { PositionsIncrease(spans, i, j - 1); }
  }

  lemma SameAt(a: seq<Span>, b: seq<Span>, m: nat, k: nat, j: nat)
    requires Contiguous(a) && Contiguous(b) && m < |a| && m <= |b|
    requires forall i :: 0 <= i < m ==> a[i].pos == b[i].pos
    requires k < |b| && b[k].pos == a[m].pos
    requires m < |b| ==> j < |a| && a[j].pos == b[m].pos
    ensures k == m
  {
    if k < m {
      PositionsIncrease(a, k, m);
    } else if m < k {
      PositionsIncrease(b, m, k);
      if j < m {
        PositionsIncrease(b, j, m);
      } else if m < j {
        PositionsIncrease(a, m, j);
      }
    }
  }

  predicate Covers(a: seq<Span>, b: seq<Span>) {
    forall k {:trigger HasStart(b, a[k].pos)} :: 0 <= k < |a| ==> HasStart(b, a[k].pos)
  }

  lemma StartIndex(spans: seq<Span>, p: nat) returns (k: nat)
    requires HasStart(spans, p)
    ensures k < |spans| && spans[k].pos == p
  {
    k :| 0 <= k < |spans| && spans[k].pos == p;
  }

  /** Two increasing lists with the same positions agree, position by position. */
  lemma {:induction false} SamePositions(a: seq<Span>, b: seq<Span>, n: nat)
    requires Contiguous(a) && Contiguous(b) && n <= |a| && Covers(a, b) && Covers(b, a)
    ensures n <= |b| && forall k :: 0 <= k < n ==> a[k].pos == b[k].pos
    decreases n
  {
    if n > 0 {
      var m := n - 1;
      SamePositions(a, b, m);
      var k := StartIndex(b, a[m].pos);
      var j := 0;
      if m < |b| { j := StartIndex(a, b[m].pos); }
      SameAt(a, b, m, k, j);
    }
  }

  lemma SplitCovers(ds: seq<Delimiter>, tokens: seq<Token>, skips: seq<Skip>, a: seq<Span>, b: seq<Span>)
    requires IsSplit(ds, tokens, skips, a) && IsSplit(ds, tokens, skips, b)
    ensures Covers(a, b)
  {
    forall k | 0 <= k < |a| ensures HasStart(b, a[k].pos) {
      assert Begins(ds, tokens, skips, a[k].pos);
    }
  }

  /** A stream has at most one split, so the properties above determine the result of `Split`. */
  lemma SplitUnique(ds: seq<Delimiter>, tokens: seq<Token>, skips: seq<Skip>, a: seq<Span>, b: seq<Span>)
    requires IsSplit(ds, tokens, skips, a) && IsSplit(ds, tokens, skips, b)
    ensures a == b
  {
    SplitCovers(ds, tokens, skips, a, b);
    SplitCovers(ds, tokens, skips, b, a);
    SamePositions(a, b, |a|);
    SamePositions(b, a, |b|);
    forall k | 0 <= k < |a| ensures a[k] == b[k] {
      SameSpan(ds, tokens, skips, a, b, k);
    }
  }

  lemma SameSpan(ds: seq<Delimiter>, tokens: seq<Token>, skips: seq<Skip>, a: seq<Span>, b: seq<Span>, k: nat)
    requires IsSplit(ds, tokens, skips, a) && IsSplit(ds, tokens, skips, b) && k < |a| == |b|
    requires forall j :: 0 <= j < |a| ==> a[j].pos == b[j].pos
    ensures a[k] == b[k]
  {
    RoleAtFirst(ds, tokens, a[k].pos, a[k].role);
    RoleAtFirst(ds, tokens, b[k].pos, b[k].role);
    if k < |a| - 1 {
      assert a[k].pos + a[k].len == a[k + 1].pos && b[k].pos + b[k].len == b[k + 1].pos;
    }
  }
}
