/** `common_chat_peg_mapper`: building a message from the nodes of a parsed reply, visited in order. */
module Mapper {
  import opened Text
  import opened JsonText
  import PythonJson

  /**
   * One visited node: its tag and its (sanitized) text. `Untagged` are the nodes the mapper ignores: those of grammar
   * rules, which have no tag, and those that only group others.
   */
  datatype Event =
    | ToolOpen
    | ToolName(text: string)
    | ToolId(text: string)
    | ToolArgs(text: string)
    | ToolClose
    | ArgOpen
    | ArgName(text: string)
    | ArgValue(text: string)
    | ArgString(text: string)
    | ArgClose
    | Content(text: string)
    | Reasoning(text: string)
    | Untagged

  datatype Call = Call(name: string, arguments: string, id: string)

  datatype Message = Message(content: string, reasoning: string, calls: seq<Call>)

  /** Where `current_tool` points: nowhere, at the pending call, at the last element of `tool_calls`. */
  datatype Cursor = NoTool | AtPending | AtLast

  datatype State = State(
    msg: Message,
    pending: Option<Call>,
    cursor: Cursor,
    argCount: nat,
    quotePending: bool,
    buffer: string)
  {
    predicate Valid() {
      && (cursor.AtPending? <==> pending.Some?)
      && (cursor.AtLast? ==> msg.calls != [])
    }

    function Current(): Call
      requires Valid() && !cursor.NoTool?
    {
      if cursor.AtPending? then pending.value else msg.calls[|msg.calls| - 1]
    }

    function SetCurrent(c: Call): (st: State)
      requires Valid() && !cursor.NoTool?
      ensures st.Valid()
    {
      if cursor.AtPending? then this.(pending := Some(c))
      else this.(msg := msg.(calls := msg.calls[|msg.calls| - 1 := c]))
    }

    /** `args_target()`: the buffer until the current call has a name. */
    function Target(): string
      requires Valid()
    {
      if !cursor.NoTool? && Current().name != "" then Current().arguments else buffer
    }

    function SetTarget(s: string): (st: State)
      requires Valid()
      ensures st.Valid()
    {
      if !cursor.NoTool? && Current().name != "" then SetCurrent(Current().(arguments := s))
      else this.(buffer := s)
    }
  }

  const EMPTY := Message("", "", [])
  const INIT := State(EMPTY, None, NoTool, 0, false, "")

  function Unquote(text: string): string {
    var t := TrimTrailing(text);
    if |t| >= 2 && t[0] == '"' && t[|t| - 1] == '"' then t[1..|t| - 1] else t
  }

  /** An id loses its quotes, if it has two, and the white space behind it. */
  lemma UnquoteExactly(x: string, ws: string)
    requires Spaces(ws)
    ensures Unquote("\"" + x + "\"" + ws) == x
    ensures (x == "" || !IsSpace(x[|x| - 1])) && !(|x| >= 2 && x[0] == '"' && x[|x| - 1] == '"') ==> Unquote(x + ws) == x
  {
    var quoted := "\"" + x + "\"";
    TrimTail(quoted, ws);
    assert quoted[1..|quoted| - 1] == x;
    if x == "" || !IsSpace(x[|x| - 1]) { TrimTail(x, ws); }
  }

  function Closers(depth: int): string {
    if depth > 0 then seq(depth, _ => '}') else ""
  }

  function Named(st: State, text: string): (r: State)
    requires st.Valid() && !st.cursor.NoTool?
    ensures r.Valid()
  {
    var c := st.Current();
    var args := if st.buffer != "" then st.buffer else if c.arguments == "" then "{" else c.arguments;
    var c' := c.(name := TrimTrailing(text), arguments := args);
    if st.pending.Some? then
      st.(msg := st.msg.(calls := st.msg.calls + [c']), pending := None, cursor := AtLast, buffer := "")
    else
      st.SetCurrent(c').(buffer := "")
  }

  function Closed(st: State): (r: State)
    requires st.Valid() && !st.cursor.NoTool?
    ensures r.Valid()
  {
    var c := st.Current();
    var flush := c.name == "" && st.buffer != "";
    var args := (if flush then st.buffer else c.arguments) + (if st.quotePending then "\"" else "");
    var c' := c.(arguments := args + Closers(BraceDepth(args)));
    var st' := st.(buffer := if flush then "" else st.buffer, quotePending := false);
    if st.pending.Some? then
      st'.(msg := if c.name != "" then st.msg.(calls := st.msg.calls + [c']) else st.msg,
           pending := None, cursor := NoTool)
    else
      st'.SetCurrent(c')
  }

  /** The calls a message would have with `c` as the current call: a pending call is not among them yet. */
  function Listed(st: State, c: Call): seq<Call>
    requires st.Valid() && !st.cursor.NoTool?
  {
    if st.pending.Some? then st.msg.calls + [c] else st.msg.calls[|st.msg.calls| - 1 := c]
  }

  /**
   * A name lists the call, hands it what was buffered, or opens its arguments if there are none, and empties the
   * buffer; nothing else changes.
   */
  lemma NamedExactly(st: State, text: string)
    requires st.Valid() && !st.cursor.NoTool?
    ensures var c, r := st.Current(), Named(st, text);
      && r.msg == st.msg.(calls := Listed(st, Call(TrimTrailing(text),
           if st.buffer != "" then st.buffer else if c.arguments == "" then "{" else c.arguments, c.id)))
      && r.pending == None && r.cursor == AtLast && r.buffer == ""
      && r.argCount == st.argCount && r.quotePending == st.quotePending
  {
    hide TrimTrailing;
  }

  /**
   * A closing hands a call without a name what was buffered, closes its string and then its braces; a pending call is
   * listed if it has a name and forgotten otherwise, a listed one stays current.
   */
  lemma ClosedExactly(st: State)
    requires st.Valid() && !st.cursor.NoTool?
    ensures var c, r := st.Current(), Closed(st);
      var flush := c.name == "" && st.buffer != "";
      var args := (if flush then st.buffer else c.arguments) + if st.quotePending then "\"" else "";
      var depth := BraceDepth(args);
      var closers: string := seq(if depth > 0 then depth else 0, _ => '}');
      && r.msg.calls == (if st.pending.Some? && c.name == "" then st.msg.calls
                         else Listed(st, Call(c.name, args + closers, c.id)))
      && r.msg == st.msg.(calls := r.msg.calls) && r.pending == None
      && r.cursor == (if st.pending.Some? then NoTool else AtLast)
      && r.buffer == (if flush then "" else st.buffer) && !r.quotePending && r.argCount == st.argCount
  {
    hide BraceDepth;
    NoClosers();
  }

  lemma NoClosers()
    ensures seq(0, _ => '}') == ""
  {
  }

  function ArgStringText(st: State, text: string): string {
    if text == "" then "\"" else (if st.quotePending then "" else "\"") + Escape(text)
  }

  /** Nodes that are ignored while there is no current tool. */
  predicate NeedsTool(e: Event) {
    !(e.Reasoning? || e.Content? || e.ToolOpen? || e.ArgOpen? || e.Untagged?)
  }

  /** The effect of one node. */
  function Apply(st: State, e: Event): (r: State)
    requires st.Valid()
    ensures r.Valid()
  {
    if NeedsTool(e) && st.cursor.NoTool? then st else
      match e
      case Untagged => st
      case Reasoning(t) => st.(msg := st.msg.(reasoning := st.msg.reasoning + t))
      case Content(t) => st.(msg := st.msg.(content := st.msg.content + t))
      case ToolOpen =>
        st.(pending := Some(Call("", "", "")), cursor := AtPending, argCount := 0, buffer := "", quotePending := false)
      case ToolId(t) => st.SetCurrent(st.Current().(id := Unquote(t)))
      case ToolName(t) => Named(st, t)
      case ToolArgs(t) =>
        var text := TrimTrailing(t);
        if text != "" && text[0] == '{' then st.SetTarget(text) else st
      case ArgOpen => st.(quotePending := false)
      case ArgName(t) =>
        var entry := (if st.argCount > 0 then "," else "") + Dump(Trim(t)) + ":";
        st.SetTarget((if st.Target() == "" then "{" else st.Target()) + entry).(argCount := st.argCount + 1)
      case ArgValue(t) => st.SetTarget(st.Target() + PythonJson.Normalize(t))
      case ArgString(t) => st.SetTarget(st.Target() + ArgStringText(st, t)).(quotePending := true)
      case ArgClose => if st.quotePending then st.SetTarget(st.Target() + "\"").(quotePending := false) else st
      case ToolClose => Closed(st)
  }

  function Run(st: State, es: seq<Event>): (r: State)
    requires st.Valid()
    ensures r.Valid()
    decreases |es|
  {
    if es == [] then st else Apply(Run(st, es[..|es| - 1]), es[|es| - 1])
  }

  /** The nodes that are not ignored. */
  function Tagged(es: seq<Event>): (r: seq<Event>)
    ensures |r| <= |es|
    decreases |es|
  {
    if es == [] then [] else
      Tagged(es[..|es| - 1]) + if es[|es| - 1].Untagged? then [] else [es[|es| - 1]]
  }

  /** The ignored nodes have no effect, wherever they stand. */
  lemma {:induction false} TaggedRun(st: State, es: seq<Event>)
    requires st.Valid()
    ensures Run(st, Tagged(es)) == Run(st, es)
    decreases |es|
  {
    hide Apply;
    if es != [] {
      var init, e := es[..|es| - 1], es[|es| - 1];
      TaggedRun(st, init);
      if e.Untagged? {
        UntaggedIgnored(Run(st, init));
        assert Tagged(init) + [] == Tagged(init);
      } else {
        assert (Tagged(init) + [e])[..|Tagged(init)|] == Tagged(init);
      }
    }
  }

  lemma UntaggedIgnored(st: State)
    requires st.Valid()
    ensures Apply(st, Untagged) == st
  {
  }

  /** White space as `from_ast` tests it when it drops blank reasoning. */
  predicate Blank(s: string) {
    forall i :: 0 <= i < |s| ==> s[i] == ' ' || s[i] == '\n' || s[i] == '\r' || s[i] == '\t'
  }

  /** A pending call that has a name is added with the buffered arguments, its open string closed. */
  function Flush(st: State): Message {
    if st.pending.Some? && st.pending.value.name != "" then
      var c := st.pending.value;
      var args := if st.buffer != "" then st.buffer else c.arguments;
      var c' := c.(arguments := args + if st.quotePending && args != "" then "\"" else "");
      st.msg.(calls := st.msg.calls + [c'])
    else st.msg
  }

  function DropBlank(m: Message): Message {
    if Blank(m.reasoning) then m.(reasoning := "") else m
  }

  /** Reasoning that is only spaces, line feeds, carriage returns and tabs is dropped, other reasoning kept. */
  lemma DropBlankExactly(m: Message)
    ensures DropBlank(m) == m.(reasoning :=
      if forall c :: c in m.reasoning ==> c in [' ', '\n', '\r', '\t'] then "" else m.reasoning)
  {
    assert forall i :: 0 <= i < |m.reasoning| ==> m.reasoning[i] in m.reasoning;
  }

  /** The message `from_ast` leaves behind. */
  function Finish(st: State): Message {
    DropBlank(Flush(st))
  }

  function MessageOf(es: seq<Event>): Message {
    Finish(Run(INIT, es))
  }

  /** The loop that closes open braces. */
  method CloseBraces(s: string) returns (args: string)
    ensures args == s + Closers(BraceDepth(s))
  {
    var d := JsonBraceDepth(s);
    var left := d;
    args := s;
    while left > 0
      invariant left <= d && (d > 0 ==> left >= 0)
      invariant args == s + Closers(d - (if d > 0 then left else d))
    {
      args := args + "}";
      left := left - 1;
      assert Closers(d - left) == Closers(d - left - 1) + "}";
    }
  }

  /** The object; `current_tool` is a cursor into its own fields. */
  class PegMapper {
    var msg: Message
    var pending: Option<Call>
    var cursor: Cursor
    var argCount: nat
    var quotePending: bool
    var buffer: string

    function Snapshot(): State
      reads this
    {
      State(msg, pending, cursor, argCount, quotePending, buffer)
    }

    predicate Valid()
      reads this
    {
      Snapshot().Valid()
    }

    constructor ()
      ensures Valid() && Snapshot() == INIT
    {
      msg, pending, cursor, argCount, quotePending, buffer := EMPTY, None, NoTool, 0, false, "";
    }

    method SetCurrent(c: Call)
      requires Valid() && !cursor.NoTool?
      modifies this`msg, this`pending
      ensures Valid() && Snapshot() == old(Snapshot()).SetCurrent(c)
    {
      if cursor.AtPending? {
        pending := Some(c);
      } else {
        msg := msg.(calls := msg.calls[|msg.calls| - 1 := c]);
      }
    }

    method AppendToTarget(s: string)
      requires Valid()
      modifies this`msg, this`pending, this`buffer
      ensures Valid() && Snapshot() == old(Snapshot()).SetTarget(old(Snapshot()).Target() + s)
    {
      if !cursor.NoTool? && Snapshot().Current().name != "" {
        var c := Snapshot().Current();
        SetCurrent(c.(arguments := c.arguments + s));
      } else {
        buffer := buffer + s;
      }
    }

    method MapName(text: string)
      requires Valid() && !cursor.NoTool?
      modifies this
      ensures Valid() && Snapshot() == Named(old(Snapshot()), text)
    {
      var c := Snapshot().Current();
      c := c.(name := TrimTrailing(text));
      if buffer != "" {
        c := c.(arguments := buffer);
        buffer := "";
      } else if c.arguments == "" {
        c := c.(arguments := "{");
      }
      SetCurrent(c);
      if pending.Some? {
        msg := msg.(calls := msg.calls + [pending.value]);
        pending := None;
        cursor := AtLast;
      }
    }

    method MapClose()
      requires Valid() && !cursor.NoTool?
      modifies this
      ensures Valid() && Snapshot() == Closed(old(Snapshot()))
    {
      hide BraceDepth;
      hide Closers;
      var c := Snapshot().Current();
      if c.name == "" && buffer != "" {
        c := c.(arguments := buffer);
        buffer := "";
      }
      if quotePending {
        c := c.(arguments := c.arguments + "\"");
        quotePending := false;
      } else {
        assert c.arguments + "" == c.arguments;
      }
      var args := CloseBraces(c.arguments);
      c := c.(arguments := args);
      SetCurrent(c);
      if pending.Some? {
        if c.name != "" {
          msg := msg.(calls := msg.calls + [pending.value]);
        }
        pending := None;
        cursor := NoTool;
      }
    }

    method Map(e: Event)
      requires Valid()
      modifies this
      ensures Valid() && Snapshot() == Apply(old(Snapshot()), e)
    {
      if e.Reasoning? {
        msg := msg.(reasoning := msg.reasoning + e.text);
      } else if e.Content? {
        msg := msg.(content := msg.content + e.text);
      } else if e.ToolOpen? {
        pending := Some(Call("", "", ""));
        cursor := AtPending;
        argCount := 0;
        buffer := "";
        quotePending := false;
      } else if e.ArgOpen? {
        quotePending := false;
      } else if !e.Untagged? && !cursor.NoTool? {
        MapToolNode(e);
      }
    }

    /** The branches guarded by `current_tool`. */
    method MapToolNode(e: Event)
      requires Valid() && !cursor.NoTool?
      requires NeedsTool(e)
      modifies this
      ensures Valid() && Snapshot() == Apply(old(Snapshot()), e)
    {
      hide ArgStringText;
      hide PythonJson.Normalize;
      hide Named;
      hide Closed;
      hide Dump;
      hide TrimTrailing;
      hide Trim;
      hide Unquote;
      match e
      case ToolId(t) => SetCurrent(Snapshot().Current().(id := Unquote(t)));
      case ToolName(t) => MapName(t);
      case ToolArgs(t) =>
        var text := TrimTrailing(t);
        if text != "" && text[0] == '{' {
          if Snapshot().Current().name != "" {
            SetCurrent(Snapshot().Current().(arguments := text));
          } else {
            buffer := text;
          }
        }
      case ArgName(t) =>
        var entry := (if argCount > 0 then "," else "") + Dump(Trim(t)) + ":";
        argCount := argCount + 1;
        assert "" + ("{" + entry) == "{" + entry;
        AppendToTarget(if Snapshot().Target() == "" then "{" + entry else entry);
      case ArgValue(t) =>
        var value := PythonJson.NormalizeQuotes(t);
        AppendToTarget(value);
      case ArgString(t) =>
        var text := ArgStringText(Snapshot(), t);
        quotePending := true;
        AppendToTarget(text);
      case ArgClose =>
        if quotePending {
          AppendToTarget("\"");
          quotePending := false;
        }
      case ToolClose => MapClose();
    }

    /** The end of `from_ast`: flush, then drop blank reasoning. */
    method FlushPending()
      requires Valid()
      modifies this
      ensures msg == Flush(old(Snapshot()))
    {
      if pending.Some? && pending.value.name != "" {
        var c := pending.value;
        if buffer != "" {
          c := c.(arguments := buffer);
        }
        if quotePending && c.arguments != "" {
          c := c.(arguments := c.arguments + "\"");
        } else {
          assert c.arguments + "" == c.arguments;
        }
        msg := msg.(calls := msg.calls + [c]);
        pending := None;
      }
    }

    method DropBlankReasoning()
      modifies this`msg
      ensures msg == DropBlank(old(msg))
    {
      if msg.reasoning != "" {
        var i := 0;
        while i < |msg.reasoning|
          invariant 0 <= i <= |msg.reasoning| && msg == old(msg)
          invariant forall k :: 0 <= k < i ==> msg.reasoning[k] in " \n\r\t"
        {
          var c := msg.reasoning[i];
          if c != ' ' && c != '\n' && c != '\r' && c != '\t' {
            return;
          }
          i := i + 1;
        }
        msg := msg.(reasoning := "");
      }
    }

    method FromAst(nodes: seq<Event>)
      requires Valid()
      modifies this
      ensures msg == Finish(Run(old(Snapshot()), nodes))
    {
      for i := 0 to |nodes|
        invariant Valid() && Snapshot() == Run(old(Snapshot()), nodes[..i])
      {
        Map(nodes[i]);
        assert nodes[..i + 1][..i] == nodes[..i];
      }
      assert nodes[..|nodes|] == nodes;
      FlushPending();
      DropBlankReasoning();
    }
  }
}
