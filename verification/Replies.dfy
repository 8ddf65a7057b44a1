/** Whole replies: text, reasoning and tool calls of every supported shape, in any order. */
module Replies {
  import opened Text
  import opened JsonText
  import opened Mapper
  import opened PythonValues
  import opened ToolCalls
  import MessageDiff
  import PythonJson
  import Streaming

  datatype Block =
    | TextBlock(node: Event)
    | TaggedTool(pre: seq<Item>, name: string, post: seq<Item>)
    | JsonTool(nameFirst: bool, name: string, args: Value, space: string)
    | UnnamedTool(items: seq<Item>)

  predicate ValidItems(items: seq<Item>) {
    forall i :: i in items ==> ValidItem(i)
  }

  predicate ValidBlock(b: Block) {
    match b
    case TextBlock(e) => e.Content? || e.Reasoning?
    case TaggedTool(pre, _, post) => ValidItems(pre) && ValidItems(post)
    case JsonTool(_, _, v, ws) => v.Dict? && ValidValue(v) && Spaces(ws)
    case UnnamedTool(items) => ValidItems(items)
  }

  /** The nodes of a block that have a tag. */
  function BlockEvents(b: Block): seq<Event> {
    match b
    case TextBlock(e) => [e]
    case TaggedTool(pre, name, post) => TaggedEvents(pre, name, post)
    case JsonTool(nameFirst, name, v, ws) =>
      var args := ToolArgs(Print(Json, v) + ws);
      if nameFirst then [ToolOpen, ToolName(name), args, ToolClose] else [ToolOpen, args, ToolName(name), ToolClose]
    case UnnamedTool(items) => [ToolOpen] + ItemsEvents(items) + [ToolClose]
  }

  function ReplyEvents(bs: seq<Block>): seq<Event> {
    if bs == [] then [] else ReplyEvents(bs[..|bs| - 1]) + BlockEvents(bs[|bs| - 1])
  }

  /** The call a block stands for. */
  function BlockCall(b: Block): Option<Call> {
    match b
    case TaggedTool(pre, name, post) =>
      Some(Call(TrimTrailing(name),
                ClosedText(TrimTrailing(name), Texts(Args(pre)), Texts(Args(post))),
                LastId(LastId("", pre), post)))
    case JsonTool(_, name, v, _) => Some(Call(TrimTrailing(name), Print(Json, v), ""))
    case _ => None
  }

  function AddBlock(m: Message, b: Block): Message {
    match b
    case TextBlock(Content(t)) => m.(content := m.content + t)
    case TextBlock(Reasoning(t)) => m.(reasoning := m.reasoning + t)
    case _ =>
      match BlockCall(b)
      case Some(c) => m.(calls := m.calls + [c])
      case None => m
  }

  /** The message a reply stands for, block by block. */
  function ReplyMessage(bs: seq<Block>): Message {
    if bs == [] then EMPTY else AddBlock(ReplyMessage(bs[..|bs| - 1]), bs[|bs| - 1])
  }

  lemma PrintedObject(v: Value, ws: string)
    requires v.Dict? && ValidValue(v) && Spaces(ws)
    ensures var s := Print(Json, v); s != "" && s[0] == '{' && TrimTrailing(s + ws) == s && BraceDepth(s) == 0
  {
    NeutralValue(Json, v);
    var s := Print(Json, v);
    assert s[|s| - 1] == '}';
    TrimTail(s, ws);
    assert Scan(s, Braces(0, false, false)) == Braces(0, false, false);
  }

  /** The call is listed and holds `s`, directly or, if its name is blank, in the buffer. */
  ghost predicate ReadyToClose(r: State, before: Message, n: string, s: string) {
    && r.Valid() && r.cursor.AtLast? && !r.quotePending
    && r.Current().name == n && r.Current().id == ""
    && s == (if n == "" && r.buffer != "" then r.buffer else r.Current().arguments)
    && r.msg == before.(calls := before.calls + [r.Current()])
  }

  lemma JsonOpened(st: State, name: string, t: string, s: string)
    requires st.Valid() && s != "" && s[0] == '{' && TrimTrailing(t) == s
    ensures ReadyToClose(Apply(Apply(Apply(st, ToolOpen), ToolName(name)), ToolArgs(t)), st.msg, TrimTrailing(name), s)
  {
  }

  lemma JsonNamedLast(st: State, name: string, t: string, s: string)
    requires st.Valid() && s != "" && s[0] == '{' && TrimTrailing(t) == s
    ensures ReadyToClose(Apply(Apply(Apply(st, ToolOpen), ToolArgs(t)), ToolName(name)), st.msg, TrimTrailing(name), s)
  {
    var s1 := Apply(st, ToolOpen);
    var s2 := Apply(s1, ToolArgs(t));
    assert s2.buffer == s && s2.pending == Some(Call("", "", "")) && s2.msg == st.msg;
  }

  lemma JsonNodes(st: State, b: Block)
    requires st.Valid() && b.JsonTool? && ValidBlock(b)
    ensures Run(st, BlockEvents(b)).msg == AddBlock(st.msg, b)
  {
    var s, n := Print(Json, b.args), TrimTrailing(b.name);
    var es := BlockEvents(b);
    PrintedObject(b.args, b.space);
    RunFour(st, es);
    if b.nameFirst { JsonOpened(st, b.name, s + b.space, s); } else { JsonNamedLast(st, b.name, s + b.space, s); }
    var r := Apply(Apply(Apply(st, es[0]), es[1]), es[2]);
    assert ReadyToClose(r, st.msg, n, s);
    ReadyClosed(r, st.msg, n, s);
  }

  /** A call written in JSON, with ignored nodes, such as those of the argument object's rules, anywhere. */
  lemma JsonToolBlock(st: State, b: Block, es: seq<Event>)
    requires st.Valid() && b.JsonTool? && ValidBlock(b) && Tagged(es) == BlockEvents(b)
    ensures Run(st, es).msg == AddBlock(st.msg, b)
  {
    hide Run;
    hide Tagged;
    hide BlockEvents;
    hide AddBlock;
    TaggedRun(st, es);
    JsonNodes(st, b);
  }

  lemma ReadyClosed(r: State, before: Message, n: string, s: string)
    requires ReadyToClose(r, before, n, s) && BraceDepth(s) == 0
    ensures Apply(r, ToolClose).msg == before.(calls := before.calls + [Call(n, s, "")])
  {
    ClosedBalanced(r, before.calls, s);
  }

  lemma RunFour(st: State, es: seq<Event>)
    requires st.Valid() && |es| == 4
    ensures Run(st, es) == Apply(Apply(Apply(Apply(st, es[0]), es[1]), es[2]), es[3])
  {
    RunConcat(st, es[..1], es[1..]);
    RunConcat(Run(st, es[..1]), es[1..2], es[2..]);
    RunConcat(Run(Run(st, es[..1]), es[1..2]), es[2..3], es[3..]);
    assert es == es[..1] + es[1..] && es[1..] == es[1..2] + es[2..] && es[2..] == es[2..3] + es[3..];
    assert es[..1] == [es[0]] && es[1..2] == [es[1]] && es[2..3] == [es[2]] && es[3..] == [es[3]];
    RunOne(st, es[0]);
    RunOne(Apply(st, es[0]), es[1]);
    RunOne(Apply(Apply(st, es[0]), es[1]), es[2]);
    RunOne(Apply(Apply(Apply(st, es[0]), es[1]), es[2]), es[3]);
  }

  /** Closing a listed call whose arguments are balanced. */
  lemma ClosedBalanced(st: State, calls: seq<Call>, args: string)
    requires st.Valid() && st.cursor.AtLast? && !st.quotePending
    requires st.msg.calls == calls + [st.Current()]
    requires args == if st.Current().name == "" && st.buffer != "" then st.buffer else st.Current().arguments
    requires BraceDepth(args) == 0
    ensures Apply(st, ToolClose).msg == st.msg.(calls := calls + [st.Current().(arguments := args)])
  {
    assert args + "" == args && Closers(0) == "";
    var c' := st.Current().(arguments := args);
    assert (calls + [st.Current()])[|calls| := c'] == calls + [c'];
  }

  lemma UnnamedNodes(st: State, items: seq<Item>)
    requires st.Valid() && ValidItems(items)
    ensures Run(st, BlockEvents(UnnamedTool(items))).msg == st.msg
  {
    hide Closers;
    hide BraceDepth;
    hide Dump;
    hide Escape;
    var e1 := [ToolOpen];
    RunOne(st, ToolOpen);
    assert InsideCall(Run(st, e1), st.msg, None, "", "", false, 0, []);
    RunConcat(st, e1, ItemsEvents(items));
    ItemsStep(Run(st, e1), st.msg, None, "", "", false, 0, [], items);
    RunConcat(st, e1 + ItemsEvents(items), [ToolClose]);
    RunOne(Run(st, e1 + ItemsEvents(items)), ToolClose);
  }

  /** A call that never got a name is dropped. */
  lemma UnnamedToolBlock(st: State, items: seq<Item>, es: seq<Event>)
    requires st.Valid() && ValidItems(items) && Tagged(es) == BlockEvents(UnnamedTool(items))
    ensures Run(st, es).msg == st.msg
  {
    hide Run;
    hide Tagged;
    hide BlockEvents;
    TaggedRun(st, es);
    UnnamedNodes(st, items);
  }

  lemma BlockStep(st: State, b: Block)
    requires st.Valid() && ValidBlock(b)
    ensures Run(st, BlockEvents(b)).msg == AddBlock(st.msg, b)
  {
    match b
    case TextBlock(e) => RunOne(st, e);
    case TaggedTool(pre, name, post) => TaggedNodes(st, pre, name, post);
    case JsonTool(_, _, _, _) => JsonNodes(st, b);
    case UnnamedTool(items) => UnnamedNodes(st, items);
  }

  lemma {:induction false} ReplyRun(bs: seq<Block>)
    requires forall b :: b in bs ==> ValidBlock(b)
    ensures Run(INIT, ReplyEvents(bs)).msg == ReplyMessage(bs)
    decreases |bs|
  {
    if bs != [] {
      var init := bs[..|bs| - 1];
      ReplyRun(init);
      assert ValidBlock(bs[|bs| - 1]);
      RunConcat(INIT, ReplyEvents(init), BlockEvents(bs[|bs| - 1]));
      BlockStep(Run(INIT, ReplyEvents(init)), bs[|bs| - 1]);
    }
  }

  lemma {:induction false} UnnamedAlways(es: seq<Event>)
    ensures Streaming.PendingUnnamed(Run(INIT, es))
    decreases |es|
  {
    if es != [] {
      UnnamedAlways(es[..|es| - 1]);
      Streaming.StepExtends(Run(INIT, es[..|es| - 1]), es[|es| - 1]);
    }
  }

  /**
   * The mapper turns the nodes of a reply, ignored ones anywhere among them, into the message it stands for; only
   * blank reasoning is dropped.
   */
  lemma ReplyIsMapped(bs: seq<Block>, es: seq<Event>)
    requires (forall b :: b in bs ==> ValidBlock(b)) && Tagged(es) == ReplyEvents(bs)
    ensures MessageOf(es) == DropBlank(ReplyMessage(bs))
  {
    hide Tagged;
    hide ReplyEvents;
    TaggedRun(INIT, es);
    ReplyRun(bs);
    UnnamedAlways(ReplyEvents(bs));
  }

  // ---- Replies are well-formed streams ----

  predicate StreamableItem(i: Item, named: bool) {
    && (named && i.IdItem? ==> Unquote(i.text) != "")
    && (i.ArgItem? && i.arg.StrArg? ==> LaterEmpties(i.arg.chunks) == 0)
  }

  predicate StreamableItems(items: seq<Item>, named: bool) {
    forall i :: i in items ==> StreamableItem(i, named)
  }

  /** Names are not blank, an id after the name is not empty, nor is a piece of a string after its first. */
  predicate Streamable(b: Block) {
    match b
    case TaggedTool(pre, name, post) =>
      TrimTrailing(name) != "" && StreamableItems(pre, false) && StreamableItems(post, true)
    case UnnamedTool(items) => StreamableItems(items, false)
    case JsonTool(_, name, _, _) => TrimTrailing(name) != ""
    case _ => true
  }

  /** `Streaming.PhaseOf` started in phase `p`. */
  function PhaseFrom(p: Streaming.Phase, es: seq<Event>): Option<Streaming.Phase>
    decreases |es|
  {
    if es == [] then Some(p) else
      match PhaseFrom(p, es[..|es| - 1])
      case None => None
      case Some(q) => Streaming.Next(q, es[|es| - 1])
  }

  lemma {:induction false} PhaseConcat(p: Streaming.Phase, a: seq<Event>, b: seq<Event>)
    requires PhaseFrom(p, a).Some?
    ensures PhaseFrom(p, a + b) == PhaseFrom(PhaseFrom(p, a).value, b)
    decreases |b|
  {
    if b == [] {
      assert a + b == a;
    } else {
      assert (a + b)[..|a + b| - 1] == a + b[..|b| - 1];
      PhaseConcat(p, a, b[..|b| - 1]);
    }
  }

  lemma PhaseOne(p: Streaming.Phase, e: Event)
    ensures PhaseFrom(p, [e]) == Streaming.Next(p, e)
  {
    assert [e][..0] == [];
  }

  /** One more node. */
  lemma PhaseSnoc(p: Streaming.Phase, es: seq<Event>, q: Streaming.Phase, e: Event)
    requires PhaseFrom(p, es) == Some(q)
    ensures PhaseFrom(p, es + [e]) == Streaming.Next(q, e)
  {
    assert (es + [e])[..|es|] == es;
  }

  lemma {:induction false} PhaseOfIs(es: seq<Event>)
    ensures Streaming.PhaseOf(es) == PhaseFrom(Streaming.Idle, es)
    decreases |es|
  {
    if es != [] {
      PhaseOfIs(es[..|es| - 1]);
    }
  }

  /** Items keep the phase, apart from its flags, and leave no string open. */
  ghost predicate Kept(p: Streaming.Phase, q: Option<Streaming.Phase>) {
    q.Some? && (p.Unnamed? <==> q.value.Unnamed?) && (p.Open? <==> q.value.Open?) &&
    (q.value.Unnamed? || q.value.Open?) && !q.value.quoted
  }

  lemma {:induction false} PhaseChunks(p: Streaming.Phase, cs: seq<string>)
    requires (p.Unnamed? || p.Open?) && !p.quoted && cs != [] && LaterEmpties(cs) == 0
    ensures PhaseFrom(p, ChunkEvents(cs)) == Some(p.(bare := false, quoted := true))
    decreases |cs|
  {
    hide PhaseFrom;
    var n := |cs| - 1;
    var e := ArgString(cs[n]);
    if n == 0 {
      assert ChunkEvents(cs) == [e];
      PhaseOne(p, e);
    } else {
      PhaseChunks(p, cs[..n]);
      PhaseConcat(p, ChunkEvents(cs[..n]), [e]);
      PhaseOne(p.(bare := false, quoted := true), e);
    }
  }

  lemma PhaseArgHead(p: Streaming.Phase, n: string)
    requires p.Unnamed? || p.Open?
    ensures PhaseFrom(p, [ArgOpen, ArgName(n)]) == Some(p.(bare := false, quoted := false))
  {
    PhaseOne(p, ArgOpen);
    PhaseSnoc(p, [ArgOpen], p.(quoted := false), ArgName(n));
    assert [ArgOpen] + [ArgName(n)] == [ArgOpen, ArgName(n)];
  }

  lemma PhaseString(p: Streaming.Phase, n: string, cs: seq<string>)
    requires (p.Unnamed? || p.Open?) && cs != [] && LaterEmpties(cs) == 0
    ensures Kept(p, PhaseFrom(p, [ArgOpen, ArgName(n)] + ChunkEvents(cs) + [ArgClose]))
  {
    var head, q := [ArgOpen, ArgName(n)], p.(bare := false, quoted := false);
    PhaseArgHead(p, n);
    PhaseChunks(q, cs);
    PhaseConcat(p, head, ChunkEvents(cs));
    PhaseSnoc(p, head + ChunkEvents(cs), q.(quoted := true), ArgClose);
  }

  lemma PhaseValue(p: Streaming.Phase, n: string, text: string)
    requires p.Unnamed? || p.Open?
    ensures Kept(p, PhaseFrom(p, [ArgOpen, ArgName(n), ArgValue(text), ArgClose]))
  {
    var head, q := [ArgOpen, ArgName(n)], p.(bare := false, quoted := false);
    PhaseArgHead(p, n);
    PhaseSnoc(p, head, q, ArgValue(text));
    PhaseSnoc(p, head + [ArgValue(text)], q, ArgClose);
    assert [ArgOpen, ArgName(n), ArgValue(text), ArgClose] == head + [ArgValue(text)] + [ArgClose];
  }

  lemma PhaseItem(p: Streaming.Phase, i: Item)
    requires (p.Unnamed? || p.Open?) && !p.quoted && ValidItem(i)
    requires StreamableItem(i, p.Open?)
    ensures Kept(p, PhaseFrom(p, ItemEvents(i)))
  {
    match i
    case ArgItem(StrArg(n, cs)) => PhaseString(p, n, cs);
    case ArgItem(ValArg(n, v)) => PhaseValue(p, n, Print(Python, v));
    case IdItem(t) => PhaseOne(p, ToolId(t));
    case SpanItem(t) => PhaseOne(p, ToolArgs(t));
  }

  lemma {:induction false} PhaseItems(p: Streaming.Phase, items: seq<Item>)
    requires (p.Unnamed? || p.Open?) && !p.quoted && ValidItems(items) && StreamableItems(items, p.Open?)
    ensures Kept(p, PhaseFrom(p, ItemsEvents(items)))
    decreases |items|
  {
    if items != [] {
      var init, i := items[..|items| - 1], items[|items| - 1];
      assert i in items;
      PhaseItems(p, init);
      PhaseConcat(p, ItemsEvents(init), ItemEvents(i));
      PhaseItem(PhaseFrom(p, ItemsEvents(init)).value, i);
    }
  }

  /** Opening a call and the items before its name or its end. */
  lemma PhaseOpening(p: Streaming.Phase, items: seq<Item>)
    requires ValidItems(items) && StreamableItems(items, false)
    ensures Kept(Streaming.Unnamed(true, false), PhaseFrom(p, [ToolOpen] + ItemsEvents(items)))
  {
    PhaseOne(p, ToolOpen);
    PhaseConcat(p, [ToolOpen], ItemsEvents(items));
    PhaseItems(Streaming.Unnamed(true, false), items);
  }

  lemma PhaseTagged(p: Streaming.Phase, b: Block)
    requires b.TaggedTool? && ValidBlock(b) && Streamable(b)
    ensures PhaseFrom(p, BlockEvents(b)) == Some(Streaming.Done)
  {
    hide PhaseFrom;
    hide TrimTrailing;
    var e2 := [ToolOpen] + ItemsEvents(b.pre);
    PhaseOpening(p, b.pre);
    var q2 := PhaseFrom(p, e2).value;
    PhaseSnoc(p, e2, q2, ToolName(b.name));
    var e3, q3 := e2 + [ToolName(b.name)], Streaming.Open(q2.bare, q2.quoted);
    PhaseItems(q3, b.post);
    PhaseConcat(p, e3, ItemsEvents(b.post));
    PhaseSnoc(p, e3 + ItemsEvents(b.post), PhaseFrom(q3, ItemsEvents(b.post)).value, ToolClose);
  }

  lemma PhaseJson(p: Streaming.Phase, b: Block)
    requires b.JsonTool? && ValidBlock(b) && Streamable(b)
    ensures PhaseFrom(p, BlockEvents(b)) == Some(Streaming.Done)
  {
    hide PhaseFrom;
    hide Print;
    hide BraceDepth;
    var x := BlockEvents(b);
    PrintedObject(b.args, b.space);
    PhaseOne(p, ToolOpen);
    PhaseSnoc(p, [ToolOpen], Streaming.Unnamed(true, false), x[1]);
    var q := if b.nameFirst then Streaming.Open(true, false) else Streaming.Unnamed(false, false);
    PhaseSnoc(p, [ToolOpen] + [x[1]], q, x[2]);
    PhaseSnoc(p, [ToolOpen] + [x[1]] + [x[2]], Streaming.Open(false, false), ToolClose);
    assert x == [ToolOpen] + [x[1]] + [x[2]] + [ToolClose];
  }

  lemma PhaseBlock(p: Streaming.Phase, b: Block)
    requires (p.Idle? || p.Done?) && ValidBlock(b) && Streamable(b)
    ensures var q := PhaseFrom(p, BlockEvents(b)); q.Some? && (q.value.Idle? || q.value.Done?)
  {
    match b
    case TextBlock(e) => PhaseOne(p, e);
    case TaggedTool(_, _, _) => PhaseTagged(p, b);
    case JsonTool(_, _, _, _) => PhaseJson(p, b);
    case UnnamedTool(items) =>
      PhaseOpening(p, items);
      var e2 := [ToolOpen] + ItemsEvents(items);
      PhaseSnoc(p, e2, PhaseFrom(p, e2).value, ToolClose);
  }

  lemma {:induction false} PhaseReply(bs: seq<Block>)
    requires forall b :: b in bs ==> ValidBlock(b) && Streamable(b)
    ensures var q := PhaseFrom(Streaming.Idle, ReplyEvents(bs)); q.Some? && (q.value.Idle? || q.value.Done?)
    decreases |bs|
  {
    if bs != [] {
      var init := bs[..|bs| - 1];
      PhaseReply(init);
      assert ValidBlock(bs[|bs| - 1]) && Streamable(bs[|bs| - 1]);
      PhaseConcat(Streaming.Idle, ReplyEvents(init), BlockEvents(bs[|bs| - 1]));
      PhaseBlock(PhaseFrom(Streaming.Idle, ReplyEvents(init)).value, bs[|bs| - 1]);
    }
  }

  /** A reply whose names are not blank is a well-formed stream: its partial parses can be diffed safely. */
  lemma ReplyWellFormed(bs: seq<Block>, es: seq<Event>)
    requires (forall b :: b in bs ==> ValidBlock(b) && Streamable(b)) && Tagged(es) == ReplyEvents(bs)
    ensures Streaming.WellFormed(es)
  {
    hide Tagged;
    hide ReplyEvents;
    PhaseReply(bs);
    PhaseOfIs(ReplyEvents(bs));
    Streaming.TaggedPhase(es);
  }

  /**
   * A Python value of a visible call that is cut while it streams: the differ throws if and only if the cut
   * separates a backslash from the single quote it escapes inside a single-quoted literal.
   */
  lemma ValueCut(p: Streaming.Phase, st: State, v: Value, k: nat)
    requires st.Valid() && Streaming.Tracks(p, st) && p.Open? && ValidValue(v) && k <= |Print(Python, v)|
    ensures var s := Print(Python, v);
      MessageDiff.Diffs(Finish(Apply(st, ArgValue(s[..k]))), Finish(Apply(st, ArgValue(s)))).Err? <==>
      PythonJson.CutOf(s[..k], PythonJson.Outside(false)).InEscape? && k < |s| && s[k] == '\''
  {
    hide Apply;
    hide Finish;
    hide MessageDiff.Diffs;
    hide Streaming.Tracks;
    hide Print;
    hide PythonJson.Norm;
    hide PythonJson.CutOf;
    hide PythonJson.Continues;
    var s := Print(Python, v);
    assert s == s[..k] + s[k..];
    StreamedPrefix(v, k);
    PythonJson.PrefixMonotone(s[..k], s[k..], PythonJson.Outside(false));
    Streaming.CutThrows(p, st, s[..k], s);
  }

  /**
   * Streaming a reply: over all its partial parses, cut anywhere the parser may stop and with ignored nodes anywhere,
   * every diff succeeds and the deltas rebuild the reply's message.
   */
  lemma ReplyStreams(bs: seq<Block>, parts: seq<seq<Event>>)
    requires forall b :: b in bs ==> ValidBlock(b)
    requires Streaming.StreamOf(parts) && Tagged(parts[|parts| - 1]) == ReplyEvents(bs)
    ensures var ms := seq(|parts|, i requires 0 <= i < |parts| => MessageOf(parts[i]));
      && MessageDiff.RunDiffs(ms).Ok?
      && MessageDiff.ApplyDiffs(EMPTY, MessageDiff.RunDiffs(ms).value) == DropBlank(ReplyMessage(bs))
  {
    ReplyIsMapped(bs, parts[|parts| - 1]);
    Streaming.StreamingSafe(parts);
  }

  /** Node by node is one way to stream a reply whose names are not blank. */
  lemma NodesStream(bs: seq<Block>, es: seq<Event>)
    requires (forall b :: b in bs ==> ValidBlock(b) && Streamable(b)) && Tagged(es) == ReplyEvents(bs)
    ensures Streaming.StreamOf(Streaming.Prefixes(es))
  {
    ReplyWellFormed(bs, es);
    Streaming.PrefixesStream(es);
  }
}
