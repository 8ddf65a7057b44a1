/** Partial replies: every step of a well-formed stream only extends the message, so diffs never throw. */
module Streaming {
  import opened Text
  import opened JsonText
  import opened Mapper
  import opened MessageDiff
  import PythonJson

  // ---- One node ----

  /** A call is pending only until it gets a name. */
  predicate PendingUnnamed(st: State) {
    st.pending.Some? ==> st.pending.value.name == ""
  }

  /** What a node must respect when `current_tool` is a call that is already visible in the message. */
  predicate Admissible(st: State, e: Event)
    requires st.Valid()
  {
    st.cursor.AtLast? ==>
      var c := st.Current();
      match e
      case ToolName(t) => c.name <= TrimTrailing(t) && (st.buffer != "" ==> c.arguments <= st.buffer)
      case ToolId(t) => Unquote(t) == c.id || Unquote(t) != ""
      case ToolArgs(t) =>
        var text := TrimTrailing(t);
        text != "" && text[0] == '{' && c.name != "" ==> c.arguments <= text
      case ToolClose =>
        c.name == "" && st.buffer != "" ==>
          var text := st.buffer + if st.quotePending then "\"" else "";
          c.arguments <= text + Closers(BraceDepth(text))
      case _ => true
  }

  lemma DropBlankExtends(a: Message, b: Message)
    requires Extends(a, b)
    ensures Extends(DropBlank(a), DropBlank(b))
  {
    if !Blank(a.reasoning) {
      var i :| 0 <= i < |a.reasoning| && !(a.reasoning[i] == ' ' || a.reasoning[i] == '\n' || a.reasoning[i] == '\r' || a.reasoning[i] == '\t');
      assert b.reasoning[i] == a.reasoning[i];
    }
  }

  /** Replacing the last call: the message is extended exactly when the call is. */
  lemma SetLastExtends(m: Message, c: Call)
    requires m.calls != []
    ensures Extends(m, m.(calls := m.calls[|m.calls| - 1 := c])) <==> CallExtends(m.calls[|m.calls| - 1], c)
  {
  }

  /** A node for a visible call replaces that call. */
  lemma LastReplaced(st: State, e: Event)
    requires st.Valid() && st.cursor.AtLast? && NeedsTool(e) && st.pending.None?
    ensures Apply(st, e).cursor.AtLast? && Apply(st, e).pending.None?
    ensures Apply(st, e).msg == st.msg.(calls := st.msg.calls[|st.msg.calls| - 1 := Apply(st, e).Current()])
  {
    hide BraceDepth;
    hide Escape;
    hide Dump;
    hide TrimTrailing;
    hide Closers;
  }

  /** What that node does to the call. */
  lemma LastAdmissible(st: State, e: Event)
    requires st.Valid() && st.cursor.AtLast? && NeedsTool(e) && st.pending.None?
    ensures CallExtends(st.Current(), Apply(st, e).Current()) <==> Admissible(st, e)
  {
    hide BraceDepth;
    hide Escape;
    hide Dump;
    hide TrimTrailing;
    hide Closers;
  }

  /** Any other node only appends. */
  lemma OtherAppends(st: State, e: Event)
    requires st.Valid() && PendingUnnamed(st) && !(st.cursor.AtLast? && NeedsTool(e))
    ensures PendingUnnamed(Apply(st, e)) && Extends(st.msg, Apply(st, e).msg) && Admissible(st, e)
  {
    hide BraceDepth;
    hide Escape;
    hide Dump;
    hide TrimTrailing;
    hide Closers;
  }

  /** One node extends the raw message exactly when it is admissible. */
  lemma StepExtends(st: State, e: Event)
    requires st.Valid() && PendingUnnamed(st)
    ensures PendingUnnamed(Apply(st, e))
    ensures Extends(st.msg, Apply(st, e).msg) <==> Admissible(st, e)
  {
    hide Apply;
    hide Extends;
    hide Admissible;
    hide CallExtends;
    if st.cursor.AtLast? && NeedsTool(e) {
      LastReplaced(st, e);
      LastAdmissible(st, e);
      SetLastExtends(st.msg, Apply(st, e).Current());
    } else {
      OtherAppends(st, e);
    }
  }

  lemma StepFinishExtends(st: State, e: Event)
    requires st.Valid() && PendingUnnamed(st) && Admissible(st, e)
    ensures Extends(Finish(st), Finish(Apply(st, e)))
  {
    StepExtends(st, e);
    DropBlankExtends(st.msg, Apply(st, e).msg);
  }

  // ---- Well-formed streams ----

  /**
   * Phases of a reply. `bare`: no argument text yet; `quoted`: a string value is open.
   * `Done` follows the end of a named call.
   */
  datatype Phase = Idle | Unnamed(bare: bool, quoted: bool) | Open(bare: bool, quoted: bool) | Done

  predicate JsonArgs(t: string) {
    var text := TrimTrailing(t);
    text != "" && text[0] == '{'
  }

  /** The grammar of node sequences: `None` if `e` may not come next. */
  function Next(p: Phase, e: Event): Option<Phase> {
    if (NeedsTool(e) || e.ArgOpen?) && (p.Idle? || p.Done?) then None else
      match e
      case Content(_) => Some(p)
      case Reasoning(_) => Some(p)
      case Untagged => Some(p)
      case ToolOpen => Some(Unnamed(true, false))
      case ToolName(t) => if p.Unnamed? && TrimTrailing(t) != "" then Some(Open(p.bare, p.quoted)) else None
      case ToolId(t) => if p.Unnamed? || Unquote(t) != "" then Some(p) else None
      case ToolArgs(t) =>
        if !JsonArgs(t) then Some(p) else if p.bare then Some(p.(bare := false)) else None
      case ArgOpen => Some(p.(quoted := false))
      case ArgName(_) => Some(p.(bare := false))
      case ArgValue(_) => Some(p.(bare := false))
      case ArgString(t) => if p.quoted && t == "" then None else Some(p.(bare := false, quoted := true))
      case ArgClose => Some(p.(quoted := false))
      case ToolClose => Some(if p.Open? then Done else Idle)
  }

  function PhaseOf(es: seq<Event>): Option<Phase>
    decreases |es|
  {
    if es == [] then Some(Idle) else
      match PhaseOf(es[..|es| - 1])
      case None => None
      case Some(p) => Next(p, es[|es| - 1])
  }

  predicate WellFormed(es: seq<Event>) {
    PhaseOf(es).Some?
  }

  ghost predicate Tracks(p: Phase, st: State) {
    && st.Valid() && PendingUnnamed(st)
    && match p
       case Idle => st.cursor.NoTool?
       case Done => st.cursor.AtLast? && st.Current().name != ""
       case Unnamed(f, q) =>
         st.cursor.AtPending? && st.quotePending == q && (f ==> !q && st.buffer == "" && st.Current().arguments == "")
       case Open(f, q) =>
         && st.cursor.AtLast? && st.Current().name != "" && st.buffer == "" && st.quotePending == q
         && (f ==> !q && st.Current().arguments == "{")
  }

  lemma TracksStep(p: Phase, st: State, e: Event)
    requires Tracks(p, st) && Next(p, e).Some?
    ensures Tracks(Next(p, e).value, Apply(st, e)) && Admissible(st, e)
  {
    StepExtends(st, e);
    if e.ToolArgs? {
      var text := TrimTrailing(e.text);
      if text != "" && text[0] == '{' { assert "{" <= text; }
    }
  }

  lemma {:induction false} TracksRun(es: seq<Event>)
    requires WellFormed(es)
    ensures Tracks(PhaseOf(es).value, Run(INIT, es))
    decreases |es|
  {
    if es != [] {
      var n := |es| - 1;
      TracksRun(es[..n]);
      TracksStep(PhaseOf(es[..n]).value, Run(INIT, es[..n]), es[n]);
    }
  }

  lemma {:induction false} PrefixWellFormed(es: seq<Event>, k: nat)
    requires WellFormed(es) && k <= |es|
    ensures WellFormed(es[..k])
    decreases |es|
  {
    if k == |es| {
      assert es[..k] == es;
    } else {
      assert es[..|es| - 1][..k] == es[..k];
      PrefixWellFormed(es[..|es| - 1], k);
    }
  }

  /** The message after any prefix of the nodes is extended by the message after all of them. */
  lemma {:induction false} PrefixExtends(es: seq<Event>, k: nat)
    requires WellFormed(es) && k <= |es|
    ensures Extends(MessageOf(es[..k]), MessageOf(es))
    decreases |es|
  {
    if k == |es| {
      assert es[..k] == es;
      ExtendsRefl(MessageOf(es));
    } else {
      var n := |es| - 1;
      assert es[..n][..k] == es[..k];
      PrefixWellFormed(es, n);
      PrefixExtends(es[..n], k);
      TracksRun(es[..n]);
      TracksStep(PhaseOf(es[..n]).value, Run(INIT, es[..n]), es[n]);
      StepFinishExtends(Run(INIT, es[..n]), es[n]);
      ExtendsTrans(MessageOf(es[..k]), MessageOf(es[..n]), MessageOf(es));
    }
  }

  // ---- Replies cut in the middle of a node ----

  /** `part` is `e` with its text cut short, at a place the value rewriting can continue from. */
  predicate Truncates(part: Event, e: Event) {
    match (part, e)
    case (Content(a), Content(b)) => a <= b
    case (Reasoning(a), Reasoning(b)) => a <= b
    case (ToolArgs(a), ToolArgs(b)) => a <= b
    case (ArgString(a), ArgString(b)) => a <= b
    case (ArgValue(a), ArgValue(b)) =>
      a <= b && PythonJson.Continues(PythonJson.CutOf(a, PythonJson.Outside(false)), b[|a|..])
    case _ => false
  }

  /** An earlier node and the same node later: the region around tagged arguments grows while they are read. */
  predicate Grows(part: Event, e: Event) {
    part == e || (part.ToolArgs? && e.ToolArgs? && part.text <= e.text && !JsonArgs(e.text))
  }

  /** Nodes, none of them ignored: whole ones inside regions that still grow, then perhaps a cut one. */
  predicate StreamedNodes(part: seq<Event>, es: seq<Event>) {
    && |part| <= |es| && (forall i :: 0 <= i < |part| - 1 ==> Grows(part[i], es[i]))
    && (part != [] ==> var n := |part| - 1; Grows(part[n], es[n]) || Truncates(part[n], es[n]))
  }

  /** `part` is what was parsed of the reply `es` at an earlier time; ignored nodes may stand anywhere. */
  predicate Streamed(part: seq<Event>, es: seq<Event>) {
    StreamedNodes(Tagged(part), Tagged(es))
  }

  lemma {:induction false} TaggedPhase(es: seq<Event>)
    ensures PhaseOf(Tagged(es)) == PhaseOf(es)
    decreases |es|
  {
    if es != [] {
      var init, e := es[..|es| - 1], es[|es| - 1];
      TaggedPhase(init);
      if e.Untagged? {
        assert Tagged(init) + [] == Tagged(init);
      } else {
        assert (Tagged(init) + [e])[..|Tagged(init)|] == Tagged(init);
      }
    }
  }

  lemma TaggedMessage(es: seq<Event>)
    ensures MessageOf(Tagged(es)) == MessageOf(es) && (WellFormed(Tagged(es)) <==> WellFormed(es))
  {
    TaggedRun(INIT, es);
    TaggedPhase(es);
  }

  lemma GrowsSame(p: Phase, st: State, part: Event, e: Event)
    requires st.Valid() && Grows(part, e)
    ensures Apply(st, part) == Apply(st, e) && Next(p, part) == Next(p, e)
  {
    if part != e && JsonArgs(part.text) { NotJsonArgs(part.text, e.text); }
  }

  lemma NotJsonArgs(a: string, b: string)
    requires a <= b && JsonArgs(a)
    ensures JsonArgs(b)
  {
    TrimPrefix(a, b);
  }

  lemma {:induction false} TrimPrefix(a: string, b: string)
    requires a <= b
    ensures TrimTrailing(a) <= TrimTrailing(b)
    decreases |b|
  {
    if a != b && b != [] && IsSpace(b[|b| - 1]) {
      TrimPrefix(a, b[..|b| - 1]);
    }
  }

  /** Growing regions do not matter: the nodes leave the same state and phase. */
  lemma {:induction false} GrowsRun(a: seq<Event>, b: seq<Event>)
    requires |a| == |b| && forall i :: 0 <= i < |a| ==> Grows(a[i], b[i])
    ensures Run(INIT, a) == Run(INIT, b) && PhaseOf(a) == PhaseOf(b)
    decreases |a|
  {
    if a != [] {
      var n := |a| - 1;
      GrowsRun(a[..n], b[..n]);
      GrowsSame(if PhaseOf(a[..n]).Some? then PhaseOf(a[..n]).value else Idle, Run(INIT, a[..n]), a[n], b[n]);
    }
  }

  lemma EscapePrefix(a: string, b: string)
    requires a <= b
    ensures Escape(a) <= Escape(b)
  {
    FlatMapConcat(EscapeChar, a, b[|a|..]);
    assert a + b[|a|..] == b;
  }

  /** The text a cut value node adds is a prefix of what the whole node adds. */
  lemma TruncatedText(st: State, part: Event, e: Event)
    requires Truncates(part, e)
    requires part.ArgString? && part.text == "" ==> !st.quotePending
    ensures part.ArgString? ==> ArgStringText(st, part.text) <= ArgStringText(st, e.text)
    ensures part.ArgValue? ==> PythonJson.Normalize(part.text) <= PythonJson.Normalize(e.text)
  {
    if part.ArgString? && part.text != "" {
      EscapePrefix(part.text, e.text);
    } else if part.ArgValue? {
      assert e.text == part.text + e.text[|part.text|..];
      PythonJson.PrefixMonotone(part.text, e.text[|part.text|..], PythonJson.Outside(false));
    }
  }

  lemma TruncatedExtends(p: Phase, st: State, part: Event, e: Event)
    requires Tracks(p, st) && Next(p, part).Some? && Next(p, e).Some? && Truncates(part, e)
    ensures Extends(Finish(Apply(st, part)), Finish(Apply(st, e)))
  {
    TracksStep(p, st, e);
    StepExtends(st, part);
    StepExtends(st, e);
    if part.ToolArgs? {
      ArgsExtend(p, st, part.text, e.text);
    } else {
      TruncatedText(st, part, e);
    }
    var a, b := Apply(st, part), Apply(st, e);
    assert Extends(a.msg, b.msg);
    DropBlankExtends(a.msg, b.msg);
  }

  /** A JSON argument object that is still being read. */
  lemma ArgsExtend(p: Phase, st: State, a: string, b: string)
    requires Tracks(p, st) && Next(p, ToolArgs(b)).Some? && a <= b
    ensures PendingUnnamed(Apply(st, ToolArgs(a))) && PendingUnnamed(Apply(st, ToolArgs(b)))
    ensures Extends(Apply(st, ToolArgs(a)).msg, Apply(st, ToolArgs(b)).msg)
  {
    TracksStep(p, st, ToolArgs(b));
    StepExtends(st, ToolArgs(a));
    StepExtends(st, ToolArgs(b));
    TrimPrefix(a, b);
    if JsonArgs(a) { NotJsonArgs(a, b); }
  }

  lemma NodesExtend(part: seq<Event>, es: seq<Event>)
    requires WellFormed(part) && WellFormed(es) && StreamedNodes(part, es)
    ensures Extends(MessageOf(part), MessageOf(es))
  {
    hide Apply;
    hide Extends;
    hide Tracks;
    hide Next;
    hide Truncates;
    var k := |part|;
    PrefixExtends(es, k);
    PrefixWellFormed(es, k);
    if k > 0 {
      var n, common := k - 1, es[..k - 1];
      GrowsRun(part[..n], common);
      assert es[..k][..n] == common && es[..k][n] == es[n];
      if Grows(part[n], es[n]) {
        GrowsRun(part, es[..k]);
      } else {
        TracksRun(part[..n]);
        TruncatedExtends(PhaseOf(common).value, Run(INIT, common), part[n], es[n]);
        ExtendsTrans(MessageOf(part), MessageOf(es[..k]), MessageOf(es));
      }
    }
  }

  /** An earlier partial parse of a reply, even cut inside a node, is extended by the whole reply. */
  lemma StreamedExtends(part: seq<Event>, es: seq<Event>)
    requires WellFormed(part) && WellFormed(es) && Streamed(part, es)
    ensures Extends(MessageOf(part), MessageOf(es))
  {
    hide StreamedNodes;
    hide WellFormed;
    hide Extends;
    hide MessageOf;
    TaggedMessage(part);
    TaggedMessage(es);
    NodesExtend(Tagged(part), Tagged(es));
  }

  /**
   * A value of a call that is already visible, cut and then read further: the differ throws exactly when the
   * rest does not complete what the cut interrupted.
   */
  lemma CutThrows(p: Phase, st: State, a: string, b: string)
    requires st.Valid() && Tracks(p, st) && p.Open? && a <= b
    ensures Diffs(Finish(Apply(st, ArgValue(a))), Finish(Apply(st, ArgValue(b)))).Err?
      <==> !PythonJson.Continues(PythonJson.CutOf(a, PythonJson.Outside(false)), b[|a|..])
  {
    hide Apply;
    hide Finish;
    hide Diffs;
    hide Tracks;
    hide PythonJson.Norm;
    hide PythonJson.Continues;
    hide PythonJson.CutOf;
    var out, t := PythonJson.Outside(false), b[|a|..];
    assert b == a + t;
    ValueMessages(p, st, a, b);
    PythonJson.PrefixMonotone(a, t, out);
    if !PythonJson.Continues(PythonJson.CutOf(a, out), t) { PythonJson.CutDiverges(a, t, out); }
    StringsThrow(st.Current().arguments, PythonJson.Norm(a, out), PythonJson.Norm(b, out));
  }

  lemma StringsThrow(p: string, x: string, y: string)
    ensures PythonJson.Diverge(x, y) ==> StringDiff(p + x, p + y).Err?
    ensures x <= y ==> StringDiff(p + x, p + y).Ok?
  {
    if PythonJson.Diverge(x, y) { PythonJson.DivergeAfter(p, x, y); }
  }

  lemma EscapeHead(s: string)
    requires s != ""
    ensures Escape(s) != "" && Escape(s)[0] != '"'
  {
  }

  /**
   * A piece of a string of a visible call, cut and then read further: the differ throws exactly when the string was
   * already open and the cut left nothing of the piece.
   */
  lemma StringCutThrows(p: Phase, st: State, a: string, b: string)
    requires st.Valid() && Tracks(p, st) && p.Open? && a <= b
    ensures Diffs(Finish(Apply(st, ArgString(a))), Finish(Apply(st, ArgString(b)))).Err?
      <==> p.quoted && a == "" && b != ""
  {
    hide Escape;
    hide StringDiff;
    var x, y := ArgStringText(st, a), ArgStringText(st, b);
    StringMessages(p, st, a, b);
    if p.quoted && a == "" && b != "" {
      EscapeHead(b);
      PythonJson.DivergeHead(x, y);
    } else if a != "" || b != "" {
      TruncatedText(st, ArgString(a), ArgString(b));
    }
    StringsThrow(st.Current().arguments, x, y);
  }

  lemma StringMessages(p: Phase, st: State, a: string, b: string)
    requires Tracks(p, st) && p.Open?
    ensures st.Valid() && !st.cursor.NoTool? && (p.quoted <==> st.quotePending)
    ensures var m, n := Finish(Apply(st, ArgString(a))), Finish(Apply(st, ArgString(b)));
      var args := st.Current().arguments;
      Diffs(m, n).Err? <==> StringDiff(args + ArgStringText(st, a), args + ArgStringText(st, b)).Err?
  {
    hide ArgStringText;
    var m, n := Finish(Apply(st, ArgString(a))), Finish(Apply(st, ArgString(b)));
    assert m.reasoning == n.reasoning && m.content == n.content && |m.calls| == |n.calls| == |st.msg.calls|;
    ThrowsExactly(m, n);
  }

  /** The two messages differ in the arguments of the last call only. */
  lemma ValueMessages(p: Phase, st: State, a: string, b: string)
    requires Tracks(p, st) && p.Open?
    ensures st.Valid() && !st.cursor.NoTool?
    ensures var m, n := Finish(Apply(st, ArgValue(a))), Finish(Apply(st, ArgValue(b)));
      var args, out := st.Current().arguments, PythonJson.Outside(false);
      && (Diffs(m, n).Err? <==> StringDiff(args + PythonJson.Norm(a, out), args + PythonJson.Norm(b, out)).Err?)
  {
    var m, n := Finish(Apply(st, ArgValue(a))), Finish(Apply(st, ArgValue(b)));
    assert m.reasoning == n.reasoning && m.content == n.content && |m.calls| == |n.calls| == |st.msg.calls|;
    ThrowsExactly(m, n);
  }

  /** The last node is an empty piece of a string that is already open: the mapper would write a second quote. */
  predicate EndsDoubleQuoted(nodes: seq<Event>) {
    nodes != [] && nodes[|nodes| - 1] == ArgString("") && var p := PhaseOf(nodes[..|nodes| - 1]);
      p.Some? && (p.value.Unnamed? || p.value.Open?) && p.value.quoted
  }

  predicate DoubleQuoted(es: seq<Event>) {
    EndsDoubleQuoted(Tagged(es))
  }

  lemma NotDoubleQuoted(es: seq<Event>)
    requires WellFormed(es)
    ensures !DoubleQuoted(es)
  {
    TaggedMessage(es);
  }

  lemma NodesWellFormed(part: seq<Event>, es: seq<Event>)
    requires StreamedNodes(part, es) && WellFormed(es) && !EndsDoubleQuoted(part)
    ensures WellFormed(part)
  {
    hide Next;
    hide Truncates;
    var k := |part|;
    PrefixWellFormed(es, k);
    if k > 0 {
      var n := k - 1;
      assert es[..k][..n] == es[..n] && es[..k][n] == es[n];
      GrowsRun(part[..n], es[..n]);
      if Grows(part[n], es[n]) {
        GrowsRun(part, es[..k]);
      } else {
        PartNext(PhaseOf(es[..n]).value, part[n], es[n]);
      }
    }
  }

  /** What was parsed of a well-formed reply is well-formed, unless it ends in such a piece. */
  lemma PartWellFormed(part: seq<Event>, es: seq<Event>)
    requires Streamed(part, es) && WellFormed(es) && !DoubleQuoted(part)
    ensures WellFormed(part)
  {
    hide StreamedNodes;
    hide EndsDoubleQuoted;
    hide WellFormed;
    hide MessageOf;
    TaggedMessage(part);
    TaggedMessage(es);
    NodesWellFormed(Tagged(part), Tagged(es));
  }

  lemma PartNext(p: Phase, part: Event, e: Event)
    requires Truncates(part, e) && Next(p, e).Some?
    requires part == ArgString("") ==> !((p.Unnamed? || p.Open?) && p.quoted)
    ensures Next(p, part).Some?
  {
    if part.ToolArgs? && JsonArgs(part.text) { NotJsonArgs(part.text, e.text); }
  }

  /** The partial parses of one growing reply, from nothing to the whole. */
  ghost predicate StreamOf(parts: seq<seq<Event>>) {
    && parts != [] && Tagged(parts[0]) == [] && WellFormed(parts[|parts| - 1])
    && (forall i :: 0 <= i < |parts| ==> !DoubleQuoted(parts[i]))
    && (forall i :: 0 <= i < |parts| - 1 ==> Streamed(parts[i], parts[i + 1]))
  }

  function Prefixes(es: seq<Event>): seq<seq<Event>> {
    seq(|es| + 1, i requires 0 <= i <= |es| => es[..i])
  }

  /** Receiving a well-formed reply node by node. */
  lemma PrefixesStream(es: seq<Event>)
    requires WellFormed(es)
    ensures StreamOf(Prefixes(es))
  {
    hide WellFormed;
    hide DoubleQuoted;
    hide Streamed;
    var parts := Prefixes(es);
    assert es[..|es|] == es;
    forall i | 0 <= i < |parts| ensures !DoubleQuoted(parts[i]) {
      PrefixWellFormed(es, i);
      NotDoubleQuoted(es[..i]);
    }
    forall i | 0 <= i < |parts| - 1 ensures Streamed(parts[i], parts[i + 1]) {
      assert parts[i + 1][..i] == parts[i];
      OneMore(parts[i + 1]);
    }
  }

  lemma OneMore(es: seq<Event>)
    requires es != []
    ensures Streamed(es[..|es| - 1], es)
  {
  }

  lemma {:induction false} PartsWellFormed(parts: seq<seq<Event>>, i: nat)
    requires StreamOf(parts) && i < |parts|
    ensures WellFormed(parts[i])
    decreases |parts| - i
  {
    hide WellFormed;
    hide DoubleQuoted;
    hide Streamed;
    if i < |parts| - 1 {
      PartsWellFormed(parts, i + 1);
      PartWellFormed(parts[i], parts[i + 1]);
    }
  }

  /** No `compute_diffs` call of a stream throws, and the deltas together give the final message. */
  lemma StreamingSafe(parts: seq<seq<Event>>)
    requires StreamOf(parts)
    ensures var ms := seq(|parts|, i requires 0 <= i < |parts| => MessageOf(parts[i]));
      RunDiffs(ms).Ok? && ApplyDiffs(EMPTY, RunDiffs(ms).value) == MessageOf(parts[|parts| - 1])
  {
    hide Streamed;
    hide DoubleQuoted;
    hide WellFormed;
    hide Extends;
    hide RunDiffs;
    var ms := seq(|parts|, i requires 0 <= i < |parts| => MessageOf(parts[i]));
    forall i | 0 <= i < |ms| - 1 ensures Extends(ms[i], ms[i + 1]) {
      PartsWellFormed(parts, i);
      PartsWellFormed(parts, i + 1);
      StreamedExtends(parts[i], parts[i + 1]);
    }
    ChainRebuild(ms);
    TaggedMessage(parts[0]);
    assert ms[0] == EMPTY;
  }
}
