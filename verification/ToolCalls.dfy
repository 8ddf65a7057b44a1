/** Whole replies: the calls the mapper builds from tagged and from JSON tool-call nodes. */
module ToolCalls {
  import opened Text
  import opened JsonText
  import opened Mapper
  import opened PythonValues
  import LiteralMeaning
  import PythonJson

  // ---- Prints of values leave the brace count alone ----

  lemma NeutralPiece(d: Dialect, q: Quote, p: Piece)
    requires !d.Python? && ValidPiece(q, p)
    ensures Neutral(PrintPiece(d, q, p), true)
  {
    var s := PrintPiece(d, q, p);
    if p.Uni? {
      NeutralPair('u');
      NeutralInside(p.hex);
      NeutralConcat(['\\', 'u'], p.hex, true);
    } else if s[0] == '\\' {
      NeutralPair(s[1]);
      assert s == ['\\', s[1]];
    } else {
      NeutralSingle(s[0]);
      assert s == [s[0]];
    }
  }

  lemma {:induction false} NeutralBody(d: Dialect, q: Quote, ps: seq<Piece>)
    requires !d.Python? && forall p :: p in ps ==> ValidPiece(q, p)
    ensures Neutral(PrintBody(d, q, ps), true)
    decreases |ps|
  {
    if ps != [] {
      NeutralPiece(d, q, ps[0]);
      NeutralBody(d, q, ps[1..]);
      NeutralConcat(PrintPiece(d, q, ps[0]), PrintBody(d, q, ps[1..]), true);
    }
  }

  lemma NeutralLiteral(d: Dialect, l: Literal)
    requires !d.Python? && ValidLiteral(l)
    ensures Neutral(PrintLiteral(d, l), false)
  {
    NeutralBody(d, l.quote, l.body);
    NeutralQuoted(PrintBody(d, l.quote, l.body));
  }

  lemma {:induction false} NeutralValue(d: Dialect, v: Value)
    requires !d.Python? && ValidValue(v)
    ensures Neutral(Print(d, v), false)
    decreases v, 1
  {
    match v
    case Number(t) =>
      assert forall i :: 0 <= i < |t| ==> t[i] in t;
      NeutralPlain(t);
    case Str(l) => NeutralLiteral(d, l);
    case List(ws, es) =>
      NeutralElems(d, es);
      NeutralSpaces(ws);
      NeutralConcat(ws, PrintElems(d, es), false);
      NeutralPlain("[");
      NeutralPlain("]");
      NeutralConcat("[", ws + PrintElems(d, es), false);
      NeutralConcat("[" + (ws + PrintElems(d, es)), "]", false);
    case Dict(ws, es) =>
      NeutralEntries(d, es);
      NeutralSpaces(ws);
      NeutralConcat(ws, PrintEntries(d, es), false);
      NeutralBraced(ws + PrintEntries(d, es));
    case _ => NeutralPlain(Print(d, v));
  }

  lemma NeutralSpaces(ws: string)
    requires Spaces(ws)
    ensures Neutral(ws, false)
  {
    assert forall i :: 0 <= i < |ws| ==> ws[i] in ws;
    NeutralPlain(ws);
  }

  /** Three parts in a row. */
  lemma NeutralThree(a: string, b: string, c: string)
    requires Neutral(a, false) && Neutral(b, false) && Neutral(c, false)
    ensures Neutral(a + b + c, false)
  {
    NeutralConcat(a, b, false);
    NeutralConcat(a + b, c, false);
  }

  lemma {:induction false} NeutralElem(d: Dialect, e: Elem)
    requires !d.Python? && ValidElem(e)
    ensures Neutral(PrintElem(d, e), false)
    decreases e, 2
  {
    NeutralValue(d, e.value);
    NeutralSpaces(e.before);
    NeutralSpaces(e.after);
    NeutralThree(e.before, Print(d, e.value), e.after);
  }

  lemma {:induction false} NeutralElems(d: Dialect, es: seq<Elem>)
    requires !d.Python? && forall e :: e in es ==> ValidElem(e)
    ensures Neutral(PrintElems(d, es), false)
    decreases es, 0
  {
    if es != [] {
      NeutralElem(d, es[0]);
      NeutralElems(d, es[1..]);
      NeutralPlain(",");
      NeutralThree(PrintElem(d, es[0]), ",", PrintElems(d, es[1..]));
    }
  }

  lemma {:induction false} NeutralEntry(d: Dialect, e: Entry)
    requires !d.Python? && ValidEntry(e)
    ensures Neutral(PrintEntry(d, e), false)
    decreases e, 2
  {
    NeutralLiteral(d, e.key);
    NeutralValue(d, e.value);
    NeutralSpaces(e.before);
    NeutralSpaces(e.beforeColon);
    NeutralSpaces(e.afterColon);
    NeutralSpaces(e.after);
    NeutralPlain(":");
    NeutralThree(e.beforeColon, ":", e.afterColon);
    NeutralThree(e.before, PrintLiteral(d, e.key), e.beforeColon + ":" + e.afterColon);
    NeutralThree(e.before + PrintLiteral(d, e.key) + (e.beforeColon + ":" + e.afterColon), Print(d, e.value), e.after);
  }

  lemma {:induction false} NeutralEntries(d: Dialect, es: seq<Entry>)
    requires !d.Python? && forall e :: e in es ==> ValidEntry(e)
    ensures Neutral(PrintEntries(d, es), false)
    decreases es, 0
  {
    if es != [] {
      NeutralEntry(d, es[0]);
      NeutralEntries(d, es[1..]);
      NeutralPlain(",");
      NeutralThree(PrintEntry(d, es[0]), ",", PrintEntries(d, es[1..]));
    }
  }

  // ---- Tagged calls: one node group per argument ----

  /** A string argument arrives in one or more nodes; any other value in one node, spelled in Python. */
  datatype Arg = StrArg(name: string, chunks: seq<string>) | ValArg(name: string, value: Value)

  predicate ValidArg(a: Arg) {
    match a
    case StrArg(_, cs) => cs != []
    case ValArg(_, v) => ValidValue(v)
  }

  /** Tagged nodes between the opening and the closing of a call, other than its name. */
  datatype Item = ArgItem(arg: Arg) | IdItem(text: string) | SpanItem(text: string)

  /** A `SpanItem` is an argument region that is not itself a JSON object. */
  predicate ValidItem(i: Item) {
    match i
    case ArgItem(a) => ValidArg(a)
    case SpanItem(t) => TrimTrailing(t) == "" || TrimTrailing(t)[0] != '{'
    case _ => true
  }

  function ChunkEvents(cs: seq<string>): seq<Event> {
    if cs == [] then [] else ChunkEvents(cs[..|cs| - 1]) + [ArgString(cs[|cs| - 1])]
  }

  function ItemEvents(i: Item): seq<Event> {
    match i
    case ArgItem(StrArg(n, cs)) => [ArgOpen, ArgName(n)] + ChunkEvents(cs) + [ArgClose]
    case ArgItem(ValArg(n, v)) => [ArgOpen, ArgName(n), ArgValue(Print(Python, v)), ArgClose]
    case IdItem(t) => [ToolId(t)]
    case SpanItem(t) => [ToolArgs(t)]
  }

  function ItemsEvents(items: seq<Item>): seq<Event> {
    if items == [] then [] else ItemsEvents(items[..|items| - 1]) + ItemEvents(items[|items| - 1])
  }

  function Args(items: seq<Item>): seq<Arg> {
    if items == [] then [] else
      Args(items[..|items| - 1]) + match items[|items| - 1] case ArgItem(a) => [a] case _ => []
  }

  function LastId(id: string, items: seq<Item>): string {
    if items == [] then id else
      match items[|items| - 1]
      case IdItem(t) => Unquote(t)
      case _ => LastId(id, items[..|items| - 1])
  }

  function Chunks(cs: seq<string>): string {
    if cs == [] then "" else Chunks(cs[..|cs| - 1]) + cs[|cs| - 1]
  }

  /** What string nodes write after the opening quote: an empty node after the first writes a quote. */
  function RawChunks(cs: seq<string>): string {
    if cs == [] then "" else
      var n := |cs| - 1;
      RawChunks(cs[..n]) + if n > 0 && cs[n] == "" then "\"" else Escape(cs[n])
  }

  function RawString(cs: seq<string>): string {
    "\"" + RawChunks(cs) + "\""
  }

  /** What an argument's nodes write, and the JSON text of the argument. */
  function ValueText(a: Arg): string {
    match a
    case StrArg(_, cs) => RawString(cs)
    case ValArg(_, v) => Print(Rewritten, v)
  }

  function JsonValue(a: Arg): string {
    match a
    case StrArg(_, cs) => Dump(Chunks(cs))
    case ValArg(_, v) => Print(Json, v)
  }

  function EntryText(a: Arg): string {
    Dump(Trim(a.name)) + ":" + ValueText(a)
  }

  function Texts(args: seq<Arg>): (ts: seq<string>)
    ensures |ts| == |args|
  {
    if args == [] then [] else Texts(args[..|args| - 1]) + [EntryText(args[|args| - 1])]
  }

  function Join(texts: seq<string>): string {
    if texts == [] then ""
    else Join(texts[..|texts| - 1]) + (if |texts| > 1 then "," else "") + texts[|texts| - 1]
  }

  function JsonEntry(a: Arg): string {
    Dump(Trim(a.name)) + ":" + JsonValue(a)
  }

  function JsonEntries(args: seq<Arg>): (ts: seq<string>)
    ensures |ts| == |args|
  {
    if args == [] then [] else JsonEntries(args[..|args| - 1]) + [JsonEntry(args[|args| - 1])]
  }

  /** The JSON object of an argument list. */
  function JsonObject(args: seq<Arg>): string {
    "{" + Join(JsonEntries(args)) + "}"
  }

  // ---- When the nodes of an argument write JSON ----

  /** Empty nodes after the first. */
  function LaterEmpties(cs: seq<string>): nat {
    if |cs| <= 1 then 0
    else LaterEmpties(cs[..|cs| - 1]) + if cs[|cs| - 1] == "" then 1 else 0
  }

  lemma EscapeEmpty()
    ensures Escape("") == ""
  {
  }

  lemma EscapeJoined(a: string, b: string)
    ensures Escape(a + b) == Escape(a) + Escape(b)
  {
    FlatMapConcat(EscapeChar, a, b);
  }

  lemma {:induction false} ChunksEscaped(cs: seq<string>)
    ensures |RawChunks(cs)| == |Escape(Chunks(cs))| + LaterEmpties(cs)
    ensures LaterEmpties(cs) == 0 ==> RawChunks(cs) == Escape(Chunks(cs))
    decreases |cs|
  {
    hide Escape;
    if cs == [] {
      EscapeEmpty();
    } else {
      var n := |cs| - 1;
      ChunksEscaped(cs[..n]);
      EscapeJoined(Chunks(cs[..n]), cs[n]);
      EscapeEmpty();
    }
  }

  lemma {:induction false} EmptiesCounted(cs: seq<string>)
    ensures LaterEmpties(cs) == 0 <==> forall i :: 1 <= i < |cs| ==> cs[i] != ""
    decreases |cs|
  {
    if |cs| > 1 {
      var n := |cs| - 1;
      EmptiesCounted(cs[..n]);
      assert forall i :: 1 <= i < n ==> cs[..n][i] == cs[i];
    }
  }

  /** Behind an empty later node the text is no JSON string any more. */
  lemma {:induction false} RawUnread(cs: seq<string>, rest: string)
    requires LaterEmpties(cs) > 0
    ensures LiteralMeaning.Read(RawChunks(cs) + rest, '"', false) == None
    decreases |cs|
  {
    hide LiteralMeaning.Read;
    hide Escape;
    var n := |cs| - 1;
    var init, t := cs[..n], if cs[n] == "" then "\"" else Escape(cs[n]);
    assert RawChunks(cs) + rest == RawChunks(init) + (t + rest);
    if LaterEmpties(init) > 0 {
      RawUnread(init, t + rest);
    } else {
      ChunksEscaped(init);
      LiteralMeaning.BareQuote(Chunks(init), rest);
    }
  }

  /**
   * The nodes of a string write a JSON string that denotes their joined texts, and then the very one JSON dumping
   * writes, exactly when none after the first is empty.
   */
  lemma StringIsJson(cs: seq<string>)
    ensures LiteralMeaning.Denotes(RawString(cs), Chunks(cs)) <==> forall i :: 1 <= i < |cs| ==> cs[i] != ""
    ensures RawString(cs) == Dump(Chunks(cs)) <==> forall i :: 1 <= i < |cs| ==> cs[i] != ""
  {
    hide LiteralMeaning.Read;
    hide Escape;
    ChunksEscaped(cs);
    EmptiesCounted(cs);
    LiteralMeaning.DumpDenotes(Chunks(cs));
    if LaterEmpties(cs) > 0 {
      RawUnread(cs, "");
      assert RawChunks(cs) + "" == RawChunks(cs);
      LiteralMeaning.DenotesBody(RawChunks(cs), Chunks(cs));
    }
  }

  lemma EscapeStart(s: string)
    requires s != ""
    ensures Escape(s) != "" && Escape(s)[0] != '"'
  {
  }

  lemma ChunksSnoc(cs: seq<string>)
    requires |cs| > 1
    ensures var n := |cs| - 1; var t := if cs[n] == "" then "\"" else Escape(cs[n]);
      RawChunks(cs) == RawChunks(cs[..n]) + t && Escape(Chunks(cs)) == Escape(Chunks(cs[..n])) + Escape(cs[n])
    ensures Escape("") == ""
  {
    FlatMapConcat(EscapeChar, Chunks(cs[..|cs| - 1]), cs[|cs| - 1]);
  }

  /** A string with an empty later node differs from the JSON string within the two, or is followed by a quote. */
  lemma {:induction false} StrayQuote(cs: seq<string>, u: string, v: string)
    requires LaterEmpties(cs) > 0 && RawChunks(cs) + u == Escape(Chunks(cs)) + v
    ensures v != [] && v[0] == '"'
    ensures u != [] && u[0] == '"' ==> |v| > 1 && v[1] == '"'
    decreases |cs|
  {
    hide RawChunks;
    hide Escape;
    hide Chunks;
    var n := |cs| - 1;
    var init, c := cs[..n], cs[n];
    var t, x, y := if c == "" then "\"" else Escape(c), RawChunks(init), Escape(Chunks(init));
    ChunksSnoc(cs);
    assert x + (t + u) == (x + t) + u && y + (Escape(c) + v) == (y + Escape(c)) + v;
    if c != "" { EscapeStart(c); }
    assert "" + v == v;
    if LaterEmpties(init) > 0 {
      StrayQuote(init, t + u, Escape(c) + v);
    } else {
      ChunksEscaped(init);
      PrefixCancel(x, t + u, Escape(c) + v);
    }
  }

  lemma PrefixCancel(p: string, a: string, b: string)
    requires p + a == p + b
    ensures a == b
  {
    assert a == (p + a)[|p|..] && b == (p + b)[|p|..];
  }

  /** Characters too many in what an argument's nodes write. */
  function Extra(a: Arg): nat {
    match a
    case StrArg(_, cs) => LaterEmpties(cs)
    case ValArg(_, v) => Strays(v)
  }

  lemma EntryExtra(a: Arg)
    requires ValidArg(a)
    ensures Longer(JsonEntry(a), EntryText(a), Extra(a))
  {
    match a
    case StrArg(_, cs) => ChunksEscaped(cs);
    case ValArg(_, v) => StrayValue(v);
  }

  lemma NeutralDump(s: string)
    ensures Neutral(Dump(s), false)
  {
    EscapeNeutral(s);
    NeutralQuoted(Escape(s));
  }

  lemma NeutralEntryText(a: Arg)
    requires ValidArg(a) && (a.StrArg? ==> LaterEmpties(a.chunks) == 0)
    ensures Neutral(EntryText(a), false)
  {
    NeutralDump(Trim(a.name));
    if a.StrArg? {
      ChunksEscaped(a.chunks);
      NeutralDump(Chunks(a.chunks));
    } else {
      NeutralValue(Rewritten, a.value);
    }
    NeutralPlain(":");
    NeutralThree(Dump(Trim(a.name)), ":", ValueText(a));
  }

  lemma {:induction false} NeutralTexts(args: seq<Arg>)
    requires forall a :: a in args ==> ValidArg(a) && (a.StrArg? ==> LaterEmpties(a.chunks) == 0)
    ensures forall i :: 0 <= i < |Texts(args)| ==> Neutral(Texts(args)[i], false)
    decreases |args|
  {
    if args != [] {
      NeutralTexts(args[..|args| - 1]);
      NeutralEntryText(args[|args| - 1]);
    }
  }

  lemma {:induction false} NeutralJoin(texts: seq<string>)
    requires forall i :: 0 <= i < |texts| ==> Neutral(texts[i], false)
    ensures Neutral(Join(texts), false)
    decreases |texts|
  {
    if texts != [] {
      var n := |texts| - 1;
      var sep := if |texts| > 1 then "," else "";
      NeutralJoin(texts[..n]);
      NeutralPlain(sep);
      NeutralConcat(Join(texts[..n]), sep, false);
      NeutralConcat(Join(texts[..n]) + sep, texts[n], false);
    }
  }

  lemma DepthOpen(s: string)
    requires Neutral(s, false)
    ensures BraceDepth("{" + s) == 1
  {
    ScanConcat("{", s, Braces(0, false, false));
    assert Scan("{", Braces(0, false, false)) == Braces(1, false, false);
  }

  // ---- The mapper inside one call ----

  lemma {:induction false} RunConcat(st: State, a: seq<Event>, b: seq<Event>)
    requires st.Valid()
    ensures Run(st, a + b) == Run(Run(st, a), b)
    decreases |b|
  {
    if b == [] {
      assert a + b == a;
    } else {
      assert (a + b)[..|a + b| - 1] == a + b[..|b| - 1];
      RunConcat(st, a, b[..|b| - 1]);
    }
  }

  lemma RunOne(st: State, e: Event)
    requires st.Valid()
    ensures Run(st, [e]) == Apply(st, e)
  {
    assert [e][..0] == [];
    assert Run(st, []) == st;
  }

  /**
   * Inside a call: `text` has been written to the argument target. The name is unknown, known and not
   * blank, or known and blank; in the last case `saved` was moved to the call when the name came.
   */
  ghost predicate Holding(st: State, before: Message, name: Option<string>, id: string, saved: string, text: string) {
    && st.Valid()
    && match name
       case None => st.pending == Some(Call("", "", id)) && st.msg == before && st.buffer == text
       case Some(n) =>
         && st.cursor.AtLast?
         && (n != "" ==>
               st.buffer == "" && st.msg == before.(calls := before.calls + [Call(n, text, id)]))
         && (n == "" ==>
               st.buffer == text && st.msg == before.(calls := before.calls + [Call("", saved, id)]))
  }

  lemma HoldingAppend(st: State, before: Message, name: Option<string>, id: string, saved: string, text: string, x: string)
    requires Holding(st, before, name, id, saved, text)
    ensures st.Target() == text
    ensures Holding(st.SetTarget(x), before, name, id, saved, x)
  {
  }

  lemma ChunkStep(
    st: State, before: Message, name: Option<string>, id: string, saved: string, text: string, c: string)
    requires Holding(st, before, name, id, saved, text)
    ensures var r := Apply(st, ArgString(c));
      && Holding(r, before, name, id, saved,
                 text + (if c == "" then "\"" else (if st.quotePending then "" else "\"") + Escape(c)))
      && r.quotePending && r.argCount == st.argCount
  {
    HoldingAppend(st, before, name, id, saved, text, text + ArgStringText(st, c));
  }

  ghost predicate InString(
    r: State, before: Message, name: Option<string>, id: string, saved: string, text: string, count: nat)
  {
    Holding(r, before, name, id, saved, text) && r.quotePending && r.argCount == count
  }

  lemma Regroup(a: string, b: string, c: string, d: string)
    ensures a + (b + c) + d == a + (b + (c + d)) && "" + d == d
  {
  }

  /** One more chunk. */
  lemma NextChunk(
    st: State, before: Message, name: Option<string>, id: string, saved: string, text: string,
    es: seq<Event>, raw: string, c: string, count: nat)
    requires st.Valid() && InString(Run(st, es), before, name, id, saved, text + ("\"" + raw), count)
    ensures InString(Run(st, es + [ArgString(c)]), before, name, id, saved,
                     text + ("\"" + (raw + if c == "" then "\"" else Escape(c))), count)
  {
    hide Apply;
    hide Escape;
    hide Holding;
    var mid := Run(st, es);
    var added := if c == "" then "\"" else Escape(c);
    RunConcat(st, es, [ArgString(c)]);
    RunOne(mid, ArgString(c));
    ChunkStep(mid, before, name, id, saved, text + ("\"" + raw), c);
    Regroup(text, "\"", raw, added);
  }

  lemma FirstChunk(c: string, text: string)
    ensures text + (if c == "" then "\"" else "\"" + Escape(c)) == text + ("\"" + RawChunks([c]))
  {
    assert RawChunks([c]) == "" + Escape(c) == Escape(c);
    assert Escape("") == "" && "\"" + "" == "\"";
  }

  /** The chunks of one string argument. */
  lemma {:induction false} ChunksStep(
    st: State, before: Message, name: Option<string>, id: string, saved: string, text: string, cs: seq<string>)
    requires st.Valid()
    requires Holding(st, before, name, id, saved, text) && !st.quotePending && cs != []
    ensures InString(Run(st, ChunkEvents(cs)), before, name, id, saved, text + ("\"" + RawChunks(cs)), st.argCount)
    decreases |cs|
  {
    hide Apply;
    hide Escape;
    hide Holding;
    var n := |cs| - 1;
    if n == 0 {
      ChunkStep(st, before, name, id, saved, text, cs[0]);
      assert cs == [cs[0]] && ChunkEvents(cs) == [ArgString(cs[0])];
      FirstChunk(cs[0], text);
      RunOne(st, ArgString(cs[0]));
    } else {
      ChunksStep(st, before, name, id, saved, text, cs[..n]);
      NextChunk(st, before, name, id, saved, text, ChunkEvents(cs[..n]), RawChunks(cs[..n]), cs[n], st.argCount);
    }
  }

  /** What is in the target after an argument list; `more`: arguments were moved away before. */
  function Written(open: bool, more: bool, texts: seq<string>): string {
    if texts == [] then (if open then "{" else "") else (if more then "{," else "{") + Join(texts)
  }

  /** The argument's opening and name. */
  lemma NameStep(
    st: State, before: Message, name: Option<string>, id: string, saved: string, text: string, arg: string)
    requires Holding(st, before, name, id, saved, text)
    ensures var r := Run(st, [ArgOpen, ArgName(arg)]);
      var entry := (if st.argCount > 0 then "," else "") + (Dump(Trim(arg)) + ":");
      && Holding(r, before, name, id, saved, (if text == "" then "{" else text) + entry)
      && !r.quotePending && r.argCount == st.argCount + 1
  {
    var s1 := Apply(st, ArgOpen);
    RunOne(st, ArgOpen);
    RunConcat(st, [ArgOpen], [ArgName(arg)]);
    RunOne(s1, ArgName(arg));
    assert [ArgOpen] + [ArgName(arg)] == [ArgOpen, ArgName(arg)];
    var comma := if st.argCount > 0 then "," else "";
    assert comma + Dump(Trim(arg)) + ":" == comma + (Dump(Trim(arg)) + ":");
    HoldingAppend(s1, before, name, id, saved, text,
                  (if text == "" then "{" else text) + (comma + Dump(Trim(arg)) + ":"));
  }

  lemma CloseStep(
    st: State, before: Message, name: Option<string>, id: string, saved: string, text: string)
    requires Holding(st, before, name, id, saved, text) && st.quotePending
    ensures var r := Apply(st, ArgClose);
      Holding(r, before, name, id, saved, text + "\"") && !r.quotePending && r.argCount == st.argCount
  {
    HoldingAppend(st, before, name, id, saved, text, text + "\"");
  }

  /** A string argument's value and closing. */
  lemma StringStep(
    st: State, before: Message, name: Option<string>, id: string, saved: string, text: string, cs: seq<string>)
    requires Holding(st, before, name, id, saved, text) && !st.quotePending && cs != []
    ensures var r := Run(st, ChunkEvents(cs) + [ArgClose]);
      Holding(r, before, name, id, saved, text + RawString(cs)) && !r.quotePending && r.argCount == st.argCount
  {
    hide Apply;
    hide RawChunks;
    ChunksStep(st, before, name, id, saved, text, cs);
    var s := Run(st, ChunkEvents(cs));
    RunConcat(st, ChunkEvents(cs), [ArgClose]);
    RunOne(s, ArgClose);
    CloseStep(s, before, name, id, saved, text + ("\"" + RawChunks(cs)));
    assert text + ("\"" + RawChunks(cs)) + "\"" == text + RawString(cs);
  }

  /** Any other argument's value and closing. */
  lemma ValueStep(
    st: State, before: Message, name: Option<string>, id: string, saved: string, text: string, v: Value)
    requires Holding(st, before, name, id, saved, text) && !st.quotePending
    requires ValidValue(v)
    ensures var r := Run(st, [ArgValue(Print(Python, v)), ArgClose]);
      Holding(r, before, name, id, saved, text + Print(Rewritten, v)) && !r.quotePending && r.argCount == st.argCount
  {
    var e := ArgValue(Print(Python, v));
    NormalizePython(v);
    HoldingAppend(st, before, name, id, saved, text, text + Print(Rewritten, v));
    RunConcat(st, [e], [ArgClose]);
    RunOne(st, e);
    RunOne(Apply(st, e), ArgClose);
    assert [e] + [ArgClose] == [e, ArgClose];
  }

  lemma WrittenNext(open: bool, more: bool, texts: seq<string>, comma: string, key: string, value: string)
    requires !(open && more)
    requires comma == if more || texts != [] then "," else ""
    ensures var text := Written(open, more, texts);
      (if text == "" then "{" else text) + (comma + key) + value == Written(open, more, texts + [key + value])
  {
    var all := texts + [key + value];
    assert all[..|texts|] == texts;
    assert Join(all) == Join(texts) + (if |texts| > 0 then "," else "") + (key + value);
  }

  lemma ArgNodes(
    st: State, before: Message, name: Option<string>, id: string, saved: string, open: bool, more: bool,
    texts: seq<string>, a: Arg)
    requires ValidArg(a) && !(open && more)
    requires Holding(st, before, name, id, saved, Written(open, more, texts))
    requires st.argCount > 0 <==> (more || texts != [])
    ensures var r := Run(st, ItemEvents(ArgItem(a)));
      && Holding(r, before, name, id, saved, Written(open, more, texts + [EntryText(a)]))
      && !r.quotePending && r.argCount == st.argCount + 1
  {
    hide Dump;
    hide Written;
    hide Print;
    hide Run;
    hide Apply;
    hide Escape;
    hide BraceDepth;
    var text, key := Written(open, more, texts), Dump(Trim(a.name)) + ":";
    var comma := if st.argCount > 0 then "," else "";
    var named := (if text == "" then "{" else text) + (comma + key);
    NameStep(st, before, name, id, saved, text, a.name);
    var s2 := Run(st, [ArgOpen, ArgName(a.name)]);
    WrittenNext(open, more, texts, comma, key, ValueText(a));
    match a
    case StrArg(_, cs) =>
      StringStep(s2, before, name, id, saved, named, cs);
      RunConcat(st, [ArgOpen, ArgName(a.name)], ChunkEvents(cs) + [ArgClose]);
      assert [ArgOpen, ArgName(a.name)] + (ChunkEvents(cs) + [ArgClose]) == ItemEvents(ArgItem(a));
    case ValArg(_, v) =>
      ValueStep(s2, before, name, id, saved, named, v);
      var tail := [ArgValue(Print(Python, v)), ArgClose];
      RunConcat(st, [ArgOpen, ArgName(a.name)], tail);
      assert [ArgOpen, ArgName(a.name)] + tail == ItemEvents(ArgItem(a));
  }

  /** One argument, with ignored nodes anywhere among its own. */
  lemma ArgStep(
    st: State, before: Message, name: Option<string>, id: string, saved: string, open: bool, more: bool,
    texts: seq<string>, a: Arg, es: seq<Event>)
    requires ValidArg(a) && !(open && more) && Tagged(es) == ItemEvents(ArgItem(a))
    requires Holding(st, before, name, id, saved, Written(open, more, texts))
    requires st.argCount > 0 <==> (more || texts != [])
    ensures var r := Run(st, es);
      && Holding(r, before, name, id, saved, Written(open, more, texts + [EntryText(a)]))
      && !r.quotePending && r.argCount == st.argCount + 1
  {
    hide Run;
    hide Tagged;
    hide ItemEvents;
    hide Written;
    hide EntryText;
    TaggedRun(st, es);
    ArgNodes(st, before, name, id, saved, open, more, texts, a);
  }

  /** The mapper is inside a call; `moved` arguments were handed to the call before the current ones. */
  ghost predicate InsideCall(
    st: State, before: Message, name: Option<string>, id: string, saved: string, open: bool, moved: nat, texts: seq<string>)
  {
    && Holding(st, before, name, id, saved, Written(open, moved > 0, texts))
    && !st.quotePending && st.argCount == moved + |texts| && !(open && moved > 0)
  }

  /** What items do to the id and the argument texts. */
  datatype Progress = Progress(id: string, texts: seq<string>)

  function ItemEffect(p: Progress, i: Item): Progress {
    match i
    case ArgItem(a) => p.(texts := p.texts + [EntryText(a)])
    case IdItem(t) => p.(id := Unquote(t))
    case _ => p
  }

  function ItemsEffect(p: Progress, items: seq<Item>): Progress {
    if items == [] then p else ItemEffect(ItemsEffect(p, items[..|items| - 1]), items[|items| - 1])
  }

  lemma ItemStep(
    st: State, before: Message, name: Option<string>, p: Progress, saved: string, open: bool, moved: nat, i: Item)
    requires ValidItem(i) && InsideCall(st, before, name, p.id, saved, open, moved, p.texts)
    ensures var q := ItemEffect(p, i);
      InsideCall(Run(st, ItemEvents(i)), before, name, q.id, saved, open, moved, q.texts)
  {
    hide Written;
    hide EntryText;
    hide Run;
    match i
    case ArgItem(a) => ArgNodes(st, before, name, p.id, saved, open, moved > 0, p.texts, a);
    case IdItem(t) => RunOne(st, ToolId(t));
    case SpanItem(t) => RunOne(st, ToolArgs(t));
  }

  lemma {:induction false} ItemsRun(
    st: State, before: Message, name: Option<string>, p: Progress, saved: string, open: bool, moved: nat, items: seq<Item>)
    requires (forall i :: i in items ==> ValidItem(i)) && InsideCall(st, before, name, p.id, saved, open, moved, p.texts)
    ensures var q := ItemsEffect(p, items);
      InsideCall(Run(st, ItemsEvents(items)), before, name, q.id, saved, open, moved, q.texts)
    decreases |items|
  {
    if items != [] {
      var init, i := items[..|items| - 1], items[|items| - 1];
      ItemsRun(st, before, name, p, saved, open, moved, init);
      ItemStep(Run(st, ItemsEvents(init)), before, name, ItemsEffect(p, init), saved, open, moved, i);
      RunConcat(st, ItemsEvents(init), ItemEvents(i));
    }
  }

  lemma TextsSnoc(args: seq<Arg>, a: Arg)
    ensures Texts(args + [a]) == Texts(args) + [EntryText(a)]
  {
    assert (args + [a])[..|args|] == args;
  }

  lemma ArgStepEffect(p: Progress, q: Progress, args: seq<Arg>, id: string, i: Item)
    requires q == Progress(id, p.texts + Texts(args))
    ensures ItemEffect(q, i) == Progress(
      if i.IdItem? then Unquote(i.text) else id,
      p.texts + Texts(args + if i.ArgItem? then [i.arg] else []))
  {
    hide EntryText;
    hide Unquote;
    if i.ArgItem? {
      TextsSnoc(args, i.arg);
      assert q.texts + [EntryText(i.arg)] == p.texts + (Texts(args) + [EntryText(i.arg)]);
    } else {
      assert args + [] == args;
    }
  }

  lemma {:induction false} ItemsEffectIs(p: Progress, items: seq<Item>)
    ensures ItemsEffect(p, items) == Progress(LastId(p.id, items), p.texts + Texts(Args(items)))
    decreases |items|
  {
    if items == [] {
      assert p.texts + [] == p.texts;
    } else {
      var init, i := items[..|items| - 1], items[|items| - 1];
      ItemsEffectIs(p, init);
      ArgStepEffect(p, ItemsEffect(p, init), Args(init), LastId(p.id, init), i);
    }
  }

  lemma ItemsStep(
    st: State, before: Message, name: Option<string>, id: string, saved: string, open: bool, moved: nat,
    texts: seq<string>, items: seq<Item>)
    requires (forall i :: i in items ==> ValidItem(i)) && InsideCall(st, before, name, id, saved, open, moved, texts)
    ensures InsideCall(Run(st, ItemsEvents(items)), before, name, LastId(id, items), saved, open, moved, texts + Texts(Args(items)))
  {
    ItemsRun(st, before, name, Progress(id, texts), saved, open, moved, items);
    ItemsEffectIs(Progress(id, texts), items);
  }

  lemma {:induction false} TextsConcat(a: seq<Arg>, b: seq<Arg>)
    ensures Texts(a + b) == Texts(a) + Texts(b)
    decreases |b|
  {
    hide EntryText;
    if b == [] {
      assert a + b == a;
    } else {
      assert (a + b)[..|a + b| - 1] == a + b[..|b| - 1];
      TextsConcat(a, b[..|b| - 1]);
    }
  }

  lemma NameGiven(st: State, before: Message, id: string, texts: seq<string>, t: string)
    requires InsideCall(st, before, None, id, "", false, 0, texts)
    ensures var n := TrimTrailing(t);
      InsideCall(Apply(st, ToolName(t)), before, Some(n), id, Written(true, false, texts),
             n != "", if n != "" then 0 else |texts|, if n != "" then texts else [])
  {
  }

  // ---- Closing a call ----

  lemma {:induction false} ArgsValid(items: seq<Item>)
    requires forall i :: i in items ==> ValidItem(i)
    ensures forall a :: a in Args(items) ==> ValidArg(a)
    decreases |items|
  {
    if items != [] {
      ArgsValid(items[..|items| - 1]);
      assert ValidItem(items[|items| - 1]);
    }
  }

  lemma WrittenDepth(texts: seq<string>)
    requires forall i :: 0 <= i < |texts| ==> Neutral(texts[i], false)
    ensures BraceDepth("{" + Join(texts)) == 1
  {
    NeutralJoin(texts);
    DepthOpen(Join(texts));
  }

  /** What has been written when a call is closed whose name came between `pre` and `post`. */
  function OpenText(n: string, pre: seq<string>, post: seq<string>): string {
    if n != "" then Written(true, false, pre + post)
    else if post != [] then Written(false, pre != [], post)
    else Written(true, false, pre)
  }

  /** The arguments of the closed call. */
  function ClosedText(n: string, pre: seq<string>, post: seq<string>): string {
    var w := OpenText(n, pre, post);
    w + Closers(BraceDepth(w))
  }

  lemma CloseCall(st: State, before: Message, n: string, id: string, pre: seq<string>, post: seq<string>)
    requires InsideCall(st, before, Some(n), id, Written(true, false, pre),
                    n != "", if n != "" then 0 else |pre|, if n != "" then pre + post else post)
    ensures Apply(st, ToolClose).msg == before.(calls := before.calls + [Call(n, ClosedText(n, pre, post), id)])
  {
    hide BraceDepth;
    hide Closers;
    hide Join;
    var c := st.Current();
    var args := if n == "" && st.buffer != "" then st.buffer else c.arguments;
    assert args == OpenText(n, pre, post);
    ClosedLast(st, before.calls, args);
  }

  /** Closing a call that is already in the list. */
  lemma ClosedLast(st: State, calls: seq<Call>, args: string)
    requires st.Valid() && st.cursor.AtLast? && !st.quotePending
    requires st.msg.calls == calls + [st.Current()]
    requires args == if st.Current().name == "" && st.buffer != "" then st.buffer else st.Current().arguments
    ensures Apply(st, ToolClose).msg
      == st.msg.(calls := calls + [st.Current().(arguments := args + Closers(BraceDepth(args)))])
  {
    hide BraceDepth;
    hide Closers;
    assert args + "" == args;
    var c' := st.Current().(arguments := args + Closers(BraceDepth(args)));
    assert (calls + [st.Current()])[|calls| := c'] == calls + [c'];
  }

  function TaggedEvents(pre: seq<Item>, name: string, post: seq<Item>): seq<Event> {
    [ToolOpen] + ItemsEvents(pre) + [ToolName(name)] + ItemsEvents(post) + [ToolClose]
  }

  lemma TaggedNodes(st: State, pre: seq<Item>, name: string, post: seq<Item>)
    requires st.Valid() && (forall i :: i in pre ==> ValidItem(i)) && (forall i :: i in post ==> ValidItem(i))
    ensures var n := TrimTrailing(name);
      Run(st, TaggedEvents(pre, name, post)).msg == st.msg.(calls := st.msg.calls +
        [Call(n, ClosedText(n, Texts(Args(pre)), Texts(Args(post))), LastId(LastId("", pre), post))])
  {
    var n, m := TrimTrailing(name), st.msg;
    var e1 := [ToolOpen];
    var e2 := e1 + ItemsEvents(pre);
    var e3 := e2 + [ToolName(name)];
    var e4 := e3 + ItemsEvents(post);
    var ts, us := Texts(Args(pre)), Texts(Args(post));
    RunOne(st, ToolOpen);
    assert InsideCall(Run(st, e1), m, None, "", "", false, 0, []);
    RunConcat(st, e1, ItemsEvents(pre));
    ItemsStep(Run(st, e1), m, None, "", "", false, 0, [], pre);
    assert [] + ts == ts;
    RunConcat(st, e2, [ToolName(name)]);
    RunOne(Run(st, e2), ToolName(name));
    NameGiven(Run(st, e2), m, LastId("", pre), ts, name);
    RunConcat(st, e3, ItemsEvents(post));
    ItemsStep(Run(st, e3), m, Some(n), LastId("", pre), Written(true, false, ts),
              n != "", if n != "" then 0 else |ts|, if n != "" then ts else [], post);
    assert [] + us == us;
    RunConcat(st, e4, [ToolClose]);
    RunOne(Run(st, e4), ToolClose);
    CloseCall(Run(st, e4), m, n, LastId(LastId("", pre), post), ts, us);
  }

  /**
   * A tagged call, its name anywhere among the arguments, and ignored nodes anywhere, adds exactly one call. Only a blank name
   * between arguments loses the arguments before it.
   */
  lemma TaggedCall(st: State, pre: seq<Item>, name: string, post: seq<Item>, es: seq<Event>)
    requires st.Valid() && (forall i :: i in pre ==> ValidItem(i)) && (forall i :: i in post ==> ValidItem(i))
    requires Tagged(es) == TaggedEvents(pre, name, post)
    ensures var n := TrimTrailing(name);
      Run(st, es).msg == st.msg.(calls := st.msg.calls +
        [Call(n, ClosedText(n, Texts(Args(pre)), Texts(Args(post))), LastId(LastId("", pre), post))])
  {
    hide Run;
    hide Tagged;
    hide TaggedEvents;
    TaggedRun(st, es);
    TaggedNodes(st, pre, name, post);
  }

  /** Nothing was lost: only a blank name between arguments loses those before it. */
  predicate Whole(n: string, pre: seq<Arg>, post: seq<Arg>) {
    n != "" || pre == [] || post == []
  }

  lemma OpenIsWhole(n: string, pre: seq<Arg>, post: seq<Arg>)
    ensures OpenText(n, Texts(pre), Texts(post)) ==
      if Whole(n, pre, post) then "{" + Join(Texts(pre + post)) else "{," + Join(Texts(post))
  {
    hide Texts;
    hide Join;
    TextsConcat(pre, post);
    assert Texts(pre) + [] == Texts(pre) && [] + Texts(post) == Texts(post);
    NoTexts();
  }

  lemma NoTexts()
    ensures Texts([]) == [] && Join([]) == "" && "{" + "" == "{"
  {
  }

  function Extras(args: seq<Arg>): nat {
    if args == [] then 0 else Extras(args[..|args| - 1]) + Extra(args[|args| - 1])
  }

  lemma {:induction false} JoinExtras(args: seq<Arg>)
    requires forall a :: a in args ==> ValidArg(a)
    ensures |Join(Texts(args))| == |Join(JsonEntries(args))| + Extras(args)
    ensures Extras(args) == 0 ==> Texts(args) == JsonEntries(args)
    decreases |args|
  {
    if args != [] {
      var init, ts, js := args[..|args| - 1], Texts(args), JsonEntries(args);
      JoinExtras(init);
      EntryExtra(args[|args| - 1]);
      assert ts[..|init|] == Texts(init) && js[..|init|] == JsonEntries(init);
    }
  }

  lemma {:induction false} ExtrasSum(args: seq<Arg>, i: nat)
    requires i < |args|
    ensures Extras(args) >= Extra(args[i]) + Extras(args[..i])
    decreases |args|
  {
    var n := |args| - 1;
    if i < n {
      ExtrasSum(args[..n], i);
      assert args[..n][..i] == args[..i];
    }
  }

  lemma {:induction false} ExtrasZero(args: seq<Arg>)
    ensures Extras(args) == 0 <==> forall i :: 0 <= i < |args| ==> Extra(args[i]) == 0
    decreases |args|
  {
    if args != [] {
      ExtrasZero(args[..|args| - 1]);
      assert forall i :: 0 <= i < |args| - 1 ==> args[..|args| - 1][i] == args[i];
    }
  }

  lemma {:induction false} TextsAt(args: seq<Arg>, i: nat)
    requires i < |args|
    ensures Texts(args)[..i] == Texts(args[..i]) && Texts(args)[i] == EntryText(args[i])
    decreases |args|
  {
    hide EntryText;
    var n := |args| - 1;
    assert Texts(args)[..n] == Texts(args[..n]);
    if i < n {
      TextsAt(args[..n], i);
      assert args[..n][..i] == args[..i];
      assert Texts(args)[..i] == Texts(args)[..n][..i];
    }
  }

  lemma {:induction false} JsonEntriesAt(args: seq<Arg>, i: nat)
    requires i < |args|
    ensures JsonEntries(args)[..i] == JsonEntries(args[..i]) && JsonEntries(args)[i] == JsonEntry(args[i])
    decreases |args|
  {
    hide JsonEntry;
    var n := |args| - 1;
    assert JsonEntries(args)[..n] == JsonEntries(args[..n]);
    if i < n {
      JsonEntriesAt(args[..n], i);
      assert args[..n][..i] == args[..i];
      assert JsonEntries(args)[..i] == JsonEntries(args)[..n][..i];
    }
  }

  /** What follows the joined texts up to `i` starts with a comma. */
  lemma {:induction false} JoinTail(texts: seq<string>, i: nat) returns (tail: string)
    requires i < |texts|
    ensures Join(texts) == Join(texts[..i]) + (if i > 0 then "," else "") + texts[i] + tail
    ensures tail != "" ==> tail[0] == ','
    decreases |texts|
  {
    var n := |texts| - 1;
    if i == n {
      tail := "";
    } else {
      var t := JoinTail(texts[..n], i);
      assert texts[..n][..i] == texts[..i];
      tail := t + ("," + texts[n]);
      assert Join(texts) == Join(texts[..n]) + "," + texts[n];
    }
  }

  /** A joined text split inside entry `i`, after the key and the opening quote. */
  lemma JoinInside(texts: seq<string>, i: nat, key: string, body: string) returns (tail: string)
    requires i < |texts| && texts[i] == key + ("\"" + body + "\"")
    ensures "{" + Join(texts) == ("{" + Join(texts[..i]) + (if i > 0 then "," else "") + key + "\"") + (body + ("\"" + tail))
    ensures tail != "" ==> tail[0] == ','
  {
    tail := JoinTail(texts, i);
    var a, b := Join(texts[..i]), if i > 0 then "," else "";
    assert "{" + (a + b + (key + ("\"" + body + "\"")) + tail) == ("{" + a + b + key + "\"") + (body + ("\"" + tail));
  }

  /** A string argument with an empty later node never gives the JSON object, however the braces are closed. */
  lemma StringBreaks(args: seq<Arg>, i: nat, closers: string)
    requires (forall a :: a in args ==> ValidArg(a)) && i < |args| && Extras(args[..i]) == 0
    requires args[i].StrArg? && Extra(args[i]) > 0
    ensures "{" + Join(Texts(args)) + closers != JsonObject(args)
  {
    hide Join;
    hide RawChunks;
    hide Escape;
    hide Texts;
    hide JsonEntries;
    var cs, key := args[i].chunks, Dump(Trim(args[i].name)) + ":";
    TextsAt(args, i);
    JsonEntriesAt(args, i);
    JoinExtras(args[..i]);
    var x := JoinInside(Texts(args), i, key, RawChunks(cs));
    var y := JoinInside(JsonEntries(args), i, key, Escape(Chunks(cs)));
    var p := "{" + Join(Texts(args[..i])) + (if i > 0 then "," else "") + key + "\"";
    Differ(p, cs, x, y, closers);
  }

  lemma Differ(p: string, cs: seq<string>, x: string, y: string, closers: string)
    requires LaterEmpties(cs) > 0 && (y != "" ==> y[0] == ',')
    ensures p + (RawChunks(cs) + ("\"" + x)) + closers != p + (Escape(Chunks(cs)) + ("\"" + y)) + "}"
  {
    hide RawChunks;
    hide Escape;
    var raw, esc := RawChunks(cs), Escape(Chunks(cs));
    var u, v := "\"" + x + closers, "\"" + y + "}";
    assert p + (raw + ("\"" + x)) + closers == p + (raw + u);
    assert p + (esc + ("\"" + y)) + "}" == p + (esc + v);
    if p + (raw + u) == p + (esc + v) {
      PrefixCancel(p, raw + u, esc + v);
      StrayQuote(cs, u, v);
      assert false;
    }
  }

  lemma CloserCount(k: int)
    ensures |Closers(k)| == if k > 0 then k else 0
    ensures Closers(1) == "}"
  {
  }

  /** If anything is too much, the closed text is not the JSON object. */
  lemma ExtrasBreak(args: seq<Arg>)
    requires (forall a :: a in args ==> ValidArg(a)) && Extras(args) > 0
    ensures var w := "{" + Join(Texts(args)); w + Closers(BraceDepth(w)) != JsonObject(args)
  {
    hide BraceDepth;
    hide Closers;
    var w := "{" + Join(Texts(args));
    JoinExtras(args);
    CloserCount(BraceDepth(w));
    ExtrasZero(args);
    if forall a :: a in args && a.StrArg? ==> Extra(a) == 0 {
      NeutralTexts(args);
      WrittenDepth(Texts(args));
    } else {
      var i :| 0 <= i < |args| && args[i].StrArg? && Extra(args[i]) > 0;
      ExtrasSum(args, i);
      if Extras(args) == 1 { StringBreaks(args, i, Closers(BraceDepth(w))); }
    }
  }

  /** `t` is an entry of a JSON object for `a`: the key denotes its trimmed name, a string value its joined pieces. */
  ghost predicate EntryMeans(t: string, a: Arg) {
    var key := Dump(Trim(a.name));
    && LiteralMeaning.Denotes(key, Trim(a.name)) && key + ":" <= t
    && var value := t[|key| + 1..];
       match a
       case StrArg(_, cs) => LiteralMeaning.Denotes(value, Chunks(cs))
       case ValArg(_, v) => value == Print(Json, v)
  }

  lemma EntryMeaning(a: Arg)
    ensures EntryMeans(JsonEntry(a), a)
  {
    hide LiteralMeaning.Denotes;
    hide Dump;
    hide Print;
    LiteralMeaning.DumpDenotes(Trim(a.name));
    if a.StrArg? { LiteralMeaning.DumpDenotes(Chunks(a.chunks)); }
    var key := Dump(Trim(a.name));
    assert JsonEntry(a)[|key| + 1..] == JsonValue(a);
  }

  lemma ClosedEquals(n: string, pre: seq<Arg>, post: seq<Arg>)
    requires forall a :: a in pre + post ==> ValidArg(a)
    ensures ClosedText(n, Texts(pre), Texts(post)) == JsonObject(pre + post)
      <==> Whole(n, pre, post) && forall a :: a in pre + post ==> Extra(a) == 0
  {
    hide BraceDepth;
    hide Closers;
    hide Join;
    hide Extra;
    hide Texts;
    hide JsonEntries;
    hide OpenText;
    var args := pre + post;
    OpenIsWhole(n, pre, post);
    ExtrasZero(args);
    assert (forall a :: a in args ==> Extra(a) == 0) <==> Extras(args) == 0;
    if !Whole(n, pre, post) {
      JoinStart(args);
      CommaDiffers(Join(JsonEntries(args)), Join(Texts(post)), Closers(BraceDepth("{," + Join(Texts(post)))));
    } else if Extras(args) > 0 {
      ExtrasBreak(args);
    } else {
      ExactClosed(args);
    }
  }

  /**
   * The arguments of a closed call are the JSON object of all its arguments in order, if and only if no blank
   * name stands between them, no string has an empty node after its first, and no value has a stray `\'`. Its entries are
   * what they should be: keys and strings denote the trimmed names and the joined texts.
   */
  lemma ClosedIsObject(n: string, pre: seq<Arg>, post: seq<Arg>)
    requires forall a :: a in pre + post ==> ValidArg(a)
    ensures ClosedText(n, Texts(pre), Texts(post)) == JsonObject(pre + post)
      <==> Whole(n, pre, post) && forall a :: a in pre + post ==> Extra(a) == 0
    ensures forall a :: a in pre + post ==> EntryMeans(JsonEntry(a), a)
  {
    hide ClosedText;
    hide Extra;
    hide JsonObject;
    hide Texts;
    hide EntryMeans;
    hide JsonEntry;
    ClosedEquals(n, pre, post);
    forall a | a in pre + post ensures EntryMeans(JsonEntry(a), a) {
      EntryMeaning(a);
    }
  }

  lemma ExactClosed(args: seq<Arg>)
    requires (forall a :: a in args ==> ValidArg(a)) && Extras(args) == 0
    ensures var w := "{" + Join(Texts(args)); w + Closers(BraceDepth(w)) == JsonObject(args)
  {
    hide BraceDepth;
    hide Closers;
    ExtrasZero(args);
    JoinExtras(args);
    forall a | a in args && a.StrArg? ensures LaterEmpties(a.chunks) == 0 {
      assert Extra(a) == 0;
    }
    NeutralTexts(args);
    WrittenDepth(Texts(args));
    CloserCount(1);
  }

  lemma CommaDiffers(j: string, k: string, closers: string)
    requires j != [] && j[0] == '"'
    ensures "{," + k + closers != "{" + j + "}"
  {
    assert ("{" + j + "}")[1] == j[0] && ("{," + k + closers)[1] == ',';
  }

  lemma EntryStart(a: Arg)
    ensures JsonEntry(a) != [] && JsonEntry(a)[0] == '"'
  {
    assert JsonEntry(a)[0] == Dump(Trim(a.name))[0];
  }

  lemma {:induction false} JoinStart(args: seq<Arg>)
    requires args != []
    ensures Join(JsonEntries(args)) != [] && Join(JsonEntries(args))[0] == '"'
    decreases |args|
  {
    var init, ts := args[..|args| - 1], JsonEntries(args);
    assert ts[..|init|] == JsonEntries(init);
    EntryStart(args[|args| - 1]);
    if init != [] {
      JoinStart(init);
    } else {
      assert Join(ts) == Join([]) + "" + ts[0];
    }
  }
}
