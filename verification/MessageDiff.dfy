/** `common_chat_msg_diff::compute_diffs`: deltas between two successive partial messages. */
module MessageDiff {
  import opened Text
  import opened Mapper

  datatype Error = InvalidDiff | FewerToolCalls | ToolCallMismatch

  /** `callIndex` is `None` for `std::string::npos`. */
  datatype Diff = Diff(reasoning: string, content: string, callIndex: Option<nat>, call: Call)

  const NO_CALL := Call("", "", "")

  function StringDiff(last: string, current: string): Result<string, Error> {
    if last == "" then Ok(current)
    else if last <= current then Ok(current[|last|..])
    else if current <= last then Ok("")
    else Err(InvalidDiff)
  }

  function TextDiff(last: string, current: string, reasoning: bool): Result<seq<Diff>, Error> {
    if last == current then Ok([]) else
      match StringDiff(last, current)
      case Err(e) => Err(e)
      case Ok(d) => Ok([if reasoning then Diff(d, "", None, NO_CALL) else Diff("", d, None, NO_CALL)])
  }

  /** The delta for a call present in both messages. */
  function CallDiff(i: nat, p: Call, n: Call): Result<seq<Diff>, Error> {
    if p.name != n.name && p.name != "" && n.name != "" && !(p.name <= n.name) then Err(ToolCallMismatch) else
      match StringDiff(p.arguments, n.arguments)
      case Err(e) => Err(e)
      case Ok(args) =>
        if args == "" && p.id == n.id && p.name == n.name then Ok([]) else
          var header := p.id != n.id || p.name != n.name;
          Ok([Diff("", "", Some(i), Call(if header then n.name else "", args, if header then n.id else ""))])
  }

  /** Whole calls that the previous message did not have. */
  function NewCalls(from: nat, calls: seq<Call>): seq<Diff>
    decreases |calls| - from
  {
    if from >= |calls| then [] else [Diff("", "", Some(from), calls[from])] + NewCalls(from + 1, calls)
  }

  function Diffs(prv: Message, new_: Message): Result<seq<Diff>, Error> {
    match TextDiff(prv.reasoning, new_.reasoning, true)
    case Err(e) => Err(e)
    case Ok(r) =>
      match TextDiff(prv.content, new_.content, false)
      case Err(e) => Err(e)
      case Ok(c) =>
        if |new_.calls| < |prv.calls| then Err(FewerToolCalls) else
          var last := |prv.calls| - 1;
          match if last < 0 then Ok([]) else CallDiff(last, prv.calls[last], new_.calls[last])
          case Err(e) => Err(e)
          case Ok(k) => Ok(r + c + k + NewCalls(|prv.calls|, new_.calls))
  }

  // ---- What the result says ----

  /** Neither text is a prefix of the other. */
  predicate Apart(a: string, b: string) {
    !(a <= b) && !(b <= a)
  }

  /** Exactly when `compute_diffs` throws, and what. */
  function Thrown(prv: Message, new_: Message): Option<Error> {
    if Apart(prv.reasoning, new_.reasoning) || Apart(prv.content, new_.content) then Some(InvalidDiff)
    else if |new_.calls| < |prv.calls| then Some(FewerToolCalls)
    else if prv.calls == [] then None
    else
      var p, n := prv.calls[|prv.calls| - 1], new_.calls[|prv.calls| - 1];
      if n.name != "" && !(p.name <= n.name) then Some(ToolCallMismatch)
      else if Apart(p.arguments, n.arguments) then Some(InvalidDiff)
      else None
  }

  lemma ThrowsExactly(prv: Message, new_: Message)
    ensures match Thrown(prv, new_) case Some(e) => Diffs(prv, new_) == Err(e) case None => Diffs(prv, new_).Ok?
  {
  }

  /** `d` is the text appended to `last`; nothing, if it was cut short. */
  predicate Appended(last: string, d: string, current: string) {
    if last <= current then last + d == current else d == ""
  }

  predicate ReasoningDelta(d: Diff, last: string, current: string) {
    d.callIndex == None && d.call == Call("", "", "") && d.content == "" && Appended(last, d.reasoning, current)
  }

  predicate ContentDelta(d: Diff, last: string, current: string) {
    d.callIndex == None && d.call == Call("", "", "") && d.reasoning == "" && Appended(last, d.content, current)
  }

  /** The appended arguments; name and id only if one of them is new. */
  predicate CallDelta(d: Diff, i: nat, p: Call, n: Call) {
    && d.reasoning == "" && d.content == "" && d.callIndex == Some(i)
    && Appended(p.arguments, d.call.arguments, n.arguments)
    && (if p.name == n.name && p.id == n.id then d.call.name == "" && d.call.id == ""
        else d.call.name == n.name && d.call.id == n.id)
  }

  /** Nothing was appended to the call, and its name and id are the same. */
  predicate Unchanged(p: Call, n: Call) {
    p.name == n.name && p.id == n.id && n.arguments <= p.arguments
  }

  /** The deltas, one by one: of reasoning, content and the last shared call at most one each, then new calls whole. */
  predicate Reports(prv: Message, new_: Message, ds: seq<Diff>) {
    var k := |prv.calls|;
    var a := if prv.reasoning == new_.reasoning then 0 else 1;
    var b := a + if prv.content == new_.content then 0 else 1;
    && k <= |new_.calls|
    && var c := b + if k == 0 || Unchanged(prv.calls[k - 1], new_.calls[k - 1]) then 0 else 1;
       && |ds| == c + |new_.calls| - k
       && (a == 1 ==> ReasoningDelta(ds[0], prv.reasoning, new_.reasoning))
       && (b == a + 1 ==> ContentDelta(ds[a], prv.content, new_.content))
       && (c == b + 1 ==> CallDelta(ds[b], k - 1, prv.calls[k - 1], new_.calls[k - 1]))
       && (forall i :: k <= i < |new_.calls| ==> ds[c + i - k] == Diff("", "", Some(i), new_.calls[i]))
  }

  lemma TextReported(last: string, current: string, reasoning: bool)
    requires TextDiff(last, current, reasoning).Ok?
    ensures var ds := TextDiff(last, current, reasoning).value;
      && |ds| == (if last == current then 0 else 1)
      && (ds != [] ==>
            if reasoning then ReasoningDelta(ds[0], last, current) else ContentDelta(ds[0], last, current))
  {
  }

  lemma CallReported(i: nat, p: Call, n: Call)
    requires CallDiff(i, p, n).Ok?
    ensures var ds := CallDiff(i, p, n).value;
      |ds| == (if Unchanged(p, n) then 0 else 1) && (ds != [] ==> CallDelta(ds[0], i, p, n))
  {
  }

  lemma {:induction false} CallsReported(from: nat, calls: seq<Call>)
    requires from <= |calls|
    ensures var ds := NewCalls(from, calls);
      && |ds| == |calls| - from
      && forall i :: from <= i < |calls| ==> ds[i - from] == Diff("", "", Some(i), calls[i])
    decreases |calls| - from
  {
    if from < |calls| {
      var rest := NewCalls(from + 1, calls);
      CallsReported(from + 1, calls);
      forall i | from <= i < |calls| ensures NewCalls(from, calls)[i - from] == Diff("", "", Some(i), calls[i]) {
        if i > from { assert NewCalls(from, calls)[i - from] == rest[i - (from + 1)]; }
      }
    }
  }

  /** Every delta holds what was appended, and names and ids only when they are new. */
  lemma DeltasReport(prv: Message, new_: Message)
    requires Diffs(prv, new_).Ok?
    ensures Reports(prv, new_, Diffs(prv, new_).value)
  {
    hide TextDiff;
    hide CallDiff;
    hide NewCalls;
    hide ReasoningDelta;
    hide ContentDelta;
    hide CallDelta;
    hide Unchanged;
    TextReported(prv.reasoning, new_.reasoning, true);
    TextReported(prv.content, new_.content, false);
    var k := |prv.calls|;
    if k > 0 { CallReported(k - 1, prv.calls[k - 1], new_.calls[k - 1]); }
    CallsReported(k, new_.calls);
  }

  method ComputeDiffs(prv: Message, new_: Message) returns (r: Result<seq<Diff>, Error>)
    ensures r == Diffs(prv, new_)
    ensures match Thrown(prv, new_) case Some(e) => r == Err(e) case None => r.Ok? && Reports(prv, new_, r.value)
  {
    hide Thrown;
    hide Reports;
    ThrowsExactly(prv, new_);
    if Diffs(prv, new_).Ok? { DeltasReport(prv, new_); }
    var diffs: seq<Diff> := [];
    if prv.reasoning != new_.reasoning {
      var d := StringDiff(prv.reasoning, new_.reasoning);
      if d.Err? {
        return Err(d.error);
      }
      diffs := diffs + [Diff(d.value, "", None, NO_CALL)];
    }
    ghost var r0 := TextDiff(prv.reasoning, new_.reasoning, true).value;
    assert diffs == r0;
    if prv.content != new_.content {
      var d := StringDiff(prv.content, new_.content);
      if d.Err? {
        return Err(d.error);
      }
      diffs := diffs + [Diff("", d.value, None, NO_CALL)];
    }
    ghost var c0 := TextDiff(prv.content, new_.content, false).value;
    assert diffs == r0 + c0;
    if |new_.calls| < |prv.calls| {
      return Err(FewerToolCalls);
    }
    if prv.calls != [] {
      var idx := |prv.calls| - 1;
      var p, n := prv.calls[idx], new_.calls[idx];
      if p.name != n.name && p.name != "" && n.name != "" {
        if !(p.name <= n.name) {
          return Err(ToolCallMismatch);
        }
      }
      var d := StringDiff(p.arguments, n.arguments);
      if d.Err? {
        return Err(d.error);
      }
      if d.value != "" || p.id != n.id || p.name != n.name {
        var delta := Call("", d.value, "");
        if p.id != n.id || p.name != n.name {
          delta := delta.(id := n.id, name := n.name);
        }
        diffs := diffs + [Diff("", "", Some(idx), delta)];
      }
    }
    ghost var last := |prv.calls| - 1;
    assert diffs == r0 + c0 + if last < 0 then [] else CallDiff(last, prv.calls[last], new_.calls[last]).value;
    ghost var all := diffs + NewCalls(|prv.calls|, new_.calls);
    for idx := |prv.calls| to |new_.calls|
      invariant diffs + NewCalls(idx, new_.calls) == all
    {
      diffs := diffs + [Diff("", "", Some(idx), new_.calls[idx])];
    }
    assert diffs == diffs + NewCalls(|new_.calls|, new_.calls);
    return Ok(diffs);
  }

  // ---- What a client rebuilds from the deltas ----

  /** Non-empty name and id replace, arguments append, an index one past the end adds a call. */
  function ApplyDiff(m: Message, d: Diff): Message {
    var m' := m.(reasoning := m.reasoning + d.reasoning, content := m.content + d.content);
    match d.callIndex
    case None => m'
    case Some(i) =>
      if i < |m.calls| then
        var c := m.calls[i];
        m'.(calls := m.calls[i := Call(
          if d.call.name != "" then d.call.name else c.name,
          c.arguments + d.call.arguments,
          if d.call.id != "" then d.call.id else c.id)])
      else m'.(calls := m.calls + [d.call])
  }

  function ApplyDiffs(m: Message, ds: seq<Diff>): Message
    decreases |ds|
  {
    if ds == [] then m else ApplyDiffs(ApplyDiff(m, ds[0]), ds[1..])
  }

  predicate CallExtends(p: Call, n: Call) {
    && p.name <= n.name
    && p.arguments <= n.arguments
    && (n.id == p.id || n.id != "")
  }

  /** The next message only grows: text and last call are extended, earlier calls are final. */
  ghost predicate Extends(prv: Message, new_: Message) {
    && prv.content <= new_.content
    && prv.reasoning <= new_.reasoning
    && |prv.calls| <= |new_.calls|
    && (forall i :: 0 <= i < |prv.calls| - 1 ==> prv.calls[i] == new_.calls[i])
    && (prv.calls != [] ==> CallExtends(prv.calls[|prv.calls| - 1], new_.calls[|prv.calls| - 1]))
  }

  lemma ExtendsRefl(m: Message)
    ensures Extends(m, m)
  {
  }

  lemma ExtendsTrans(a: Message, b: Message, c: Message)
    requires Extends(a, b) && Extends(b, c)
    ensures Extends(a, c)
  {
    if a.calls != [] {
      var k := |a.calls| - 1;
      assert CallExtends(a.calls[k], b.calls[k]);
      if |a.calls| == |b.calls| {
        assert CallExtends(b.calls[k], c.calls[k]);
      }
    }
  }

  lemma {:induction false} ApplyConcat(m: Message, a: seq<Diff>, b: seq<Diff>)
    ensures ApplyDiffs(m, a + b) == ApplyDiffs(ApplyDiffs(m, a), b)
    decreases |a|
  {
    if a == [] {
      assert a + b == b;
    } else {
      ApplyConcat(ApplyDiff(m, a[0]), a[1..], b);
      assert (a + b)[1..] == a[1..] + b;
    }
  }

  lemma {:induction false} ApplyNewCalls(m: Message, from: nat, calls: seq<Call>)
    requires |m.calls| == from <= |calls|
    ensures ApplyDiffs(m, NewCalls(from, calls)) == m.(calls := m.calls + calls[from..])
    decreases |calls| - from
  {
    if from < |calls| {
      var ds := NewCalls(from, calls);
      assert m.reasoning + "" == m.reasoning && m.content + "" == m.content;
      var m' := m.(calls := m.calls + [calls[from]]);
      assert ApplyDiff(m, ds[0]) == m';
      ApplyNewCalls(m', from + 1, calls);
      assert ds[1..] == NewCalls(from + 1, calls);
      assert calls[from..] == [calls[from]] + calls[from + 1..];
    }
  }

  lemma ApplyText(m: Message, last: string, current: string, reasoning: bool)
    requires TextDiff(last, current, reasoning).Ok?
    requires last == if reasoning then m.reasoning else m.content
    ensures var got := if last <= current then current else last;
      ApplyDiffs(m, TextDiff(last, current, reasoning).value)
      == if reasoning then m.(reasoning := got) else m.(content := got)
  {
    var ds := TextDiff(last, current, reasoning).value;
    if ds != [] {
      assert ApplyDiffs(m, ds) == ApplyDiff(m, ds[0]);
    }
  }

  lemma ApplyCall(m: Message, i: nat, n: Call)
    requires i < |m.calls| && CallDiff(i, m.calls[i], n).Ok?
    ensures var p := m.calls[i];
      var got := ApplyDiffs(m, CallDiff(i, p, n).value);
      |got.calls| == |m.calls| && got == m.(calls := m.calls[i := got.calls[i]]) && (got.calls[i] == n <==> CallExtends(p, n))
  {
    var ds := CallDiff(i, m.calls[i], n).value;
    if ds != [] {
      assert m.reasoning + "" == m.reasoning && m.content + "" == m.content;
      assert ApplyDiffs(m, ds) == ApplyDiff(m, ds[0]);
    }
  }

  /** What the client has after the deltas: each text is extended if possible and kept otherwise. */
  lemma Rebuilt(prv: Message, new_: Message) returns (last: Option<Call>)
    requires Diffs(prv, new_).Ok?
    ensures |prv.calls| <= |new_.calls| && (last.Some? <==> prv.calls != [])
    ensures ApplyDiffs(prv, Diffs(prv, new_).value) == Message(
      if prv.content <= new_.content then new_.content else prv.content,
      if prv.reasoning <= new_.reasoning then new_.reasoning else prv.reasoning,
      (if last.Some? then prv.calls[|prv.calls| - 1 := last.value] else prv.calls) + new_.calls[|prv.calls|..])
    ensures last.Some? ==>
      (last.value == new_.calls[|prv.calls| - 1] <==> CallExtends(prv.calls[|prv.calls| - 1], new_.calls[|prv.calls| - 1]))
  {
    var r, c := TextDiff(prv.reasoning, new_.reasoning, true).value, TextDiff(prv.content, new_.content, false).value;
    var i := |prv.calls| - 1;
    var k := if i < 0 then [] else CallDiff(i, prv.calls[i], new_.calls[i]).value;
    ApplyConcat(prv, r + c + k, NewCalls(|prv.calls|, new_.calls));
    ApplyConcat(prv, r + c, k);
    ApplyConcat(prv, r, c);
    ApplyText(prv, prv.reasoning, new_.reasoning, true);
    var m1 := ApplyDiffs(prv, r);
    ApplyText(m1, prv.content, new_.content, false);
    var m2 := ApplyDiffs(m1, c);
    var m3 := ApplyDiffs(m2, k);
    last := None;
    if i >= 0 {
      ApplyCall(m2, i, new_.calls[i]);
      last := Some(m3.calls[i]);
    }
    ApplyNewCalls(m3, |prv.calls|, new_.calls);
  }

  lemma JoinedCalls(a: seq<Call>, n: seq<Call>, last: Call)
    requires a != [] && |a| <= |n|
    ensures a[|a| - 1 := last] + n[|a|..] == n
       <==> last == n[|a| - 1] && forall i :: 0 <= i < |a| - 1 ==> a[i] == n[i]
  {
    var all := a[|a| - 1 := last] + n[|a|..];
    assert forall i :: 0 <= i < |a| - 1 ==> all[i] == a[i];
    assert all[|a| - 1] == last;
  }

  /** The deltas rebuild the new message exactly when it extends the previous one. */
  lemma DiffsRebuild(prv: Message, new_: Message)
    ensures (Diffs(prv, new_).Ok? && ApplyDiffs(prv, Diffs(prv, new_).value) == new_) <==> Extends(prv, new_)
  {
    ThrowsExactly(prv, new_);
    if Diffs(prv, new_).Ok? {
      var last := Rebuilt(prv, new_);
      if last.Some? {
        JoinedCalls(prv.calls, new_.calls, last.value);
      } else {
        assert prv.calls + new_.calls[0..] == new_.calls;
      }
    }
  }

  /** Every consecutive pair of a run of messages extends. */
  ghost predicate Chain(ms: seq<Message>) {
    forall i :: 0 <= i < |ms| - 1 ==> Extends(ms[i], ms[i + 1])
  }

  /** The deltas of a whole run, in order. */
  function RunDiffs(ms: seq<Message>): Result<seq<Diff>, Error> {
    if |ms| <= 1 then Ok([]) else
      match Diffs(ms[0], ms[1])
      case Err(e) => Err(e)
      case Ok(d) =>
        match RunDiffs(ms[1..])
        case Err(e) => Err(e)
        case Ok(ds) => Ok(d + ds)
  }

  /** No step of a growing run throws, and its deltas take the first message to the last. */
  lemma {:induction false} ChainRebuild(ms: seq<Message>)
    requires ms != [] && Chain(ms)
    ensures RunDiffs(ms).Ok? && ApplyDiffs(ms[0], RunDiffs(ms).value) == ms[|ms| - 1]
    decreases |ms|
  {
    if |ms| > 1 {
      DiffsRebuild(ms[0], ms[1]);
      assert Extends(ms[0], ms[0 + 1]);
      ChainRebuild(ms[1..]);
      ApplyConcat(ms[0], Diffs(ms[0], ms[1]).value, RunDiffs(ms[1..]).value);
    }
  }
}
