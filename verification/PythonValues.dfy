/** Nested values, their Python and JSON spellings, and what the rewriting machine does to them. */
module PythonValues {
  import opened Text
  import opened PythonJson

  // ---- Values and their spellings ----

  /** One unit of a string literal: a plain character, a one-letter escape, or `\uXXXX`. */
  datatype Piece = Raw(c: char) | Esc(e: char) | Uni(hex: string)

  datatype Quote = SingleQuote | DoubleQuote {
    function Char(): char {
      if SingleQuote? then '\'' else '"'
    }
  }

  datatype Literal = Literal(quote: Quote, body: seq<Piece>)

  /** A list element and a dictionary entry, with the white space around their parts. */
  datatype Elem = Elem(before: string, value: Value, after: string)

  datatype Entry = Entry(before: string, key: Literal, beforeColon: string, afterColon: string, value: Value, after: string)

  datatype Value =
    | Null
    | Bool(b: bool)
    | Number(text: string)
    | Str(lit: Literal)
    | List(open: string, items: seq<Elem>)
    | Dict(open: string, entries: seq<Entry>)

  predicate IsHex(c: char) {
    '0' <= c <= '9' || 'a' <= c <= 'f' || 'A' <= c <= 'F'
  }

  predicate ValidPiece(q: Quote, p: Piece) {
    match p
    case Raw(c) => c >= ' ' && c != '\\' && c != q.Char()
    case Esc(e) => e in "\"\\/bfnrt'"
    case Uni(h) => |h| == 4 && forall i :: 0 <= i < 4 ==> IsHex(h[i])
  }

  predicate ValidLiteral(l: Literal) {
    forall p :: p in l.body ==> ValidPiece(l.quote, p)
  }

  predicate NumberChar(c: char) {
    '0' <= c <= '9' || c in "+-.eE"
  }

  predicate ValidValue(v: Value) {
    match v
    case Number(t) => t != [] && forall c :: c in t ==> NumberChar(c)
    case Str(l) => ValidLiteral(l)
    case List(ws, es) => Spaces(ws) && forall e :: e in es ==> ValidElem(e)
    case Dict(ws, es) => Spaces(ws) && forall e :: e in es ==> ValidEntry(e)
    case _ => true
  }

  predicate ValidElem(e: Elem) {
    Spaces(e.before) && ValidValue(e.value) && Spaces(e.after)
  }

  predicate ValidEntry(e: Entry) {
    Spaces(e.before) && ValidLiteral(e.key) && Spaces(e.beforeColon) && Spaces(e.afterColon) && ValidValue(e.value) && Spaces(e.after)
  }

  /** `Rewritten` is what the machine writes: JSON, except that `\'` survives in double quotes. */
  datatype Dialect = Python | Json | Rewritten

  function PiecePython(p: Piece): string {
    match p
    case Raw(c) => [c]
    case Esc(e) => ['\\', e]
    case Uni(h) => "\\u" + h
  }

  function PieceJson(p: Piece): string {
    if p == Raw('"') then "\\\"" else if p == Esc('\'') then "'" else PiecePython(p)
  }

  function PrintPiece(d: Dialect, q: Quote, p: Piece): string {
    if d.Python? || (d.Rewritten? && q.DoubleQuote?) then PiecePython(p) else PieceJson(p)
  }

  function PrintBody(d: Dialect, q: Quote, ps: seq<Piece>): string {
    if ps == [] then [] else PrintPiece(d, q, ps[0]) + PrintBody(d, q, ps[1..])
  }

  function Delimiter(d: Dialect, q: Quote): char {
    if d.Python? then q.Char() else '"'
  }

  function PrintLiteral(d: Dialect, l: Literal): string {
    [Delimiter(d, l.quote)] + PrintBody(d, l.quote, l.body) + [Delimiter(d, l.quote)]
  }

  function Print(d: Dialect, v: Value): string {
    match v
    case Null => if d.Python? then "None" else "null"
    case Bool(b) => if d.Python? then (if b then "True" else "False") else (if b then "true" else "false")
    case Number(t) => t
    case Str(l) => PrintLiteral(d, l)
    case List(ws, es) => "[" + (ws + PrintElems(d, es)) + "]"
    case Dict(ws, es) => "{" + (ws + PrintEntries(d, es)) + "}"
  }

  function PrintElem(d: Dialect, e: Elem): string {
    e.before + Print(d, e.value) + e.after
  }

  function PrintElems(d: Dialect, es: seq<Elem>): string {
    if es == [] then []
    else if |es| == 1 then PrintElem(d, es[0])
    else PrintElem(d, es[0]) + "," + PrintElems(d, es[1..])
  }

  function PrintEntry(d: Dialect, e: Entry): string {
    e.before + PrintLiteral(d, e.key) + (e.beforeColon + ":" + e.afterColon) + Print(d, e.value) + e.after
  }

  function PrintEntries(d: Dialect, es: seq<Entry>): string {
    if es == [] then []
    else if |es| == 1 then PrintEntry(d, es[0])
    else PrintEntry(d, es[0]) + "," + PrintEntries(d, es[1..])
  }

  // ---- Lexing one piece of text and going on with the rest ----

  /** Every word that starts like a Python literal is a prefix of one. */
  predicate WordsOk(s: string, m: Mode)
    decreases |s|
  {
    s == [] ||
    ((m == Outside(false) && StartsLiteral(s[0]) ==> JsonWord(s[..WordLen(s)]).Some?) &&
     WordsOk(s[Lex(s, m).used..], Lex(s, m).next))
  }

  /** Reading `a` in mode `m` writes `out` and leaves `rest` to be read in mode `m'`. */
  ghost predicate Passes(a: string, out: string, m: Mode, rest: string, m': Mode) {
    && Norm(a + rest, m) == out + Norm(rest, m')
    && (WordsOk(rest, m') ==> WordsOk(a + rest, m))
  }

  lemma PassesSeq(a: string, o1: string, m: Mode, m1: Mode, b: string, o2: string, rest: string, m2: Mode)
    requires Passes(a, o1, m, b + rest, m1)
    requires Passes(b, o2, m1, rest, m2)
    ensures Passes(a + b, o1 + o2, m, rest, m2)
  {
    assert (a + b) + rest == a + (b + rest);
    assert (o1 + o2) + Norm(rest, m2) == o1 + (o2 + Norm(rest, m2));
  }

  lemma PassesNone(m: Mode, rest: string)
    ensures Passes([], [], m, rest, m)
  {
    assert [] + rest == rest;
  }

  lemma PassesStep(a: string, rest: string, m: Mode)
    requires a != []
    requires Lex(a + rest, m).used == |a|
    requires m == Outside(false) && StartsLiteral(a[0]) ==> JsonWord(a).Some? && WordLen(a + rest) == |a|
    ensures Passes(a, Lex(a + rest, m).out, m, rest, Lex(a + rest, m).next)
  {
    assert (a + rest)[|a|..] == rest && (a + rest)[..|a|] == a;
  }

  /** Characters the machine copies outside strings. */
  predicate Plain(c: char) {
    c != '\\' && c != '"' && c != '\'' && !StartsLiteral(c)
  }

  lemma {:induction false} PassesPlain(a: string, rest: string, w: bool)
    requires forall i :: 0 <= i < |a| ==> Plain(a[i])
    ensures Passes(a, a, Outside(w), rest, Outside(if a == [] then w else IsWord(a[|a| - 1])))
    decreases |a|
  {
    if a == [] {
      PassesNone(Outside(w), rest);
    } else {
      var h, t := a[..1], a[1..];
      assert (h + (t + rest))[0] == a[0] && Plain(a[0]);
      PassesStep(h, t + rest, Outside(w));
      PassesPlain(t, rest, IsWord(a[0]));
      PassesSeq(h, h, Outside(w), Outside(IsWord(a[0])), t, t, rest,
                Outside(if t == [] then IsWord(a[0]) else IsWord(t[|t| - 1])));
      assert h + t == a;
    }
  }

  lemma {:induction false} PassesInside(a: string, rest: string, m: Mode)
    requires !m.Outside?
    requires forall i :: 0 <= i < |a| ==> a[i] != '\\' && a[i] != '"' && a[i] != '\''
    ensures Passes(a, a, m, rest, m)
    decreases |a|
  {
    if a == [] {
      PassesNone(m, rest);
    } else {
      var h, t := a[..1], a[1..];
      assert (h + (t + rest))[0] == a[0];
      PassesStep(h, t + rest, m);
      PassesInside(t, rest, m);
      PassesSeq(h, h, m, m, t, t, rest, m);
      assert h + t == a;
    }
  }

  predicate Boundary(rest: string) {
    rest == [] || !IsWord(rest[0])
  }

  /** After a word, text that starts with a non-word character reads as at a word start. */
  lemma PassesBoundary(rest: string, w: bool)
    requires Boundary(rest)
    ensures Passes([], [], Outside(false), rest, Outside(w)) && Passes([], [], Outside(w), rest, Outside(false))
  {
    assert [] + rest == rest;
    if rest != [] {
      assert Lex(rest, Outside(w)) == Lex(rest, Outside(false));
    }
  }

  lemma PassesWord(k: nat, rest: string)
    requires k < 3 && Boundary(rest)
    ensures Passes(LITERALS[k].0, LITERALS[k].1, Outside(false), rest, Outside(false))
  {
    var py, js := LITERALS[k].0, LITERALS[k].1;
    WordSpelling(k);
    MatchAt(py, k);
    assert js[..|py|] == js;
    WordLenUnique(py, |py|);
    WordLenConcat(py, rest);
    LexWordAcross(py, rest);
    assert py + rest[..0] == py;
    assert (py + rest)[0] == py[0] && [] + rest == rest;
    assert LexWord(py + rest) == Step(js, |py|, Outside(true));
    PassesStep(py, rest, Outside(false));
    PassesBoundary(rest, true);
    PassesSeq(py, js, Outside(false), Outside(true), [], [], rest, Outside(false));
    assert py + [] == py && js + [] == js;
  }

  lemma WordSpelling(k: nat)
    requires k < 3
    ensures var py := LITERALS[k].0;
      |py| == |LITERALS[k].1| && py != [] && StartsLiteral(py[0]) && forall i :: 0 <= i < |py| ==> IsWord(py[i])
  {
  }

  /** A word character is copied, unless a word that starts like a Python literal starts there. */
  lemma WordChar(w: string, rest: string, m: Mode)
    requires w != [] && IsWord(w[0]) && m.Outside? && (m.prevWord || !StartsLiteral(w[0]))
    ensures Norm(w + rest, m) == [w[0]] + Norm(w[1..] + rest, Outside(true))
  {
    assert (w + rest)[0] == w[0] && (w + rest)[1..] == w[1..] + rest;
    assert Lex(w + rest, m) == Step([w[0]], 1, Outside(true));
  }

  /** Inside a word everything is copied. */
  lemma {:induction false} InsideWord(w: string, rest: string)
    requires forall i :: 0 <= i < |w| ==> IsWord(w[i])
    ensures Norm(w + rest, Outside(true)) == w + Norm(rest, Outside(true))
    decreases |w|
  {
    hide Norm;
    if w == [] {
      assert w + rest == rest;
    } else {
      InsideWord(w[1..], rest);
      WordChar(w, rest, Outside(true));
      assert [w[0]] + (w[1..] + Norm(rest, Outside(true))) == w + Norm(rest, Outside(true));
    }
  }

  lemma WordLenAll(w: string, rest: string)
    requires (forall i :: 0 <= i < |w| ==> IsWord(w[i])) && Boundary(rest)
    ensures WordLen(w) == |w| && WordLen(rest) == 0
  {
    WordLenUnique(w, |w|);
    WordLenUnique(rest, 0);
  }

  lemma WordTable(w: string)
    requires w != []
    ensures JsonWord(w) ==
      if w <= "True" then Some("true"[..|w|])
      else if w <= "False" then Some("false"[..|w|])
      else if w <= "None" then Some("null"[..|w|])
      else None
  {
    assert MatchLiteral(w, 3) == None;
    assert MatchLiteral(w, 2) == if w <= "None" then Some("null"[..|w|]) else None;
  }

  /**
   * A word outside strings is copied, except that a prefix of `True`, `False` or `None`, such as the whole word,
   * becomes the equally long prefix of `true`, `false` or `null`.
   */
  lemma WordImage(w: string, rest: string)
    requires w != [] && (forall i :: 0 <= i < |w| ==> IsWord(w[i])) && Boundary(rest)
    ensures var image :=
        if w <= "True" then "true"[..|w|] else if w <= "False" then "false"[..|w|]
        else if w <= "None" then "null"[..|w|] else w;
      Norm(w + rest, Outside(false)) == image + Norm(rest, Outside(true))
  {
    hide WordLen;
    hide JsonWord;
    hide Norm;
    hide LexWord;
    WordLenAll(w, rest);
    WordTable(w);
    if StartsLiteral(w[0]) {
      WordStart(w, rest);
    } else {
      WordChar(w, rest, Outside(false));
    }
    InsideWord(w[1..], rest);
    assert [w[0]] + (w[1..] + Norm(rest, Outside(true))) == w + Norm(rest, Outside(true));
  }

  /** A word that starts like a Python literal. */
  lemma WordStart(w: string, rest: string)
    requires w != [] && StartsLiteral(w[0]) && WordLen(w) == |w| && WordLen(rest) == 0
    ensures Norm(w + rest, Outside(false)) ==
      match JsonWord(w)
      case Some(js) => js + Norm(rest, Outside(true))
      case None => [w[0]] + Norm(w[1..] + rest, Outside(true))
  {
    hide WordLen;
    hide JsonWord;
    hide Norm;
    LexWordAcross(w, rest);
    assert w + rest[..0] == w;
    assert (w + rest)[0] == w[0] && (w + rest)[1..] == w[1..] + rest && (w + rest)[|w|..] == rest;
    NormWord(w + rest);
  }

  /** A backslash outside strings is copied, and so is one at the end of the text. */
  lemma LoneBackslash(rest: string, w: bool, m: Mode)
    ensures Norm("\\" + rest, Outside(w)) == "\\" + Norm(rest, Outside(false))
    ensures Norm("\\", m) == "\\"
  {
    assert ("\\" + rest)[1..] == rest && "\\"[1..] == [];
  }

  // ---- The machine on literals and values ----

  function After(d: Dialect): Dialect {
    if d.Python? then Rewritten else d
  }

  function BodyMode(d: Dialect, q: Quote): Mode {
    if d.Python? && q.SingleQuote? then Single else Double
  }

  lemma PassesRaw(c: char, m: Mode, rest: string)
    requires !m.Outside? && c != '\\' && (c == '"' ==> m.Single?) && (c == '\'' ==> m.Double?)
    ensures Passes([c], if c == '"' then "\\\"" else [c], m, rest, m)
  {
    PassesStep([c], rest, m);
  }

  lemma PassesEscape(e: char, m: Mode, rest: string)
    requires !m.Outside?
    ensures Passes(['\\', e], if m.Single? && e == '\'' then "'" else ['\\', e], m, rest, m)
  {
    var a := ['\\', e];
    assert (a + rest)[0] == '\\' && (a + rest)[1] == e;
    PassesStep(a, rest, m);
  }

  lemma PassesPiece(d: Dialect, q: Quote, p: Piece, rest: string)
    requires ValidPiece(q, p)
    ensures Passes(PrintPiece(d, q, p), PrintPiece(After(d), q, p), BodyMode(d, q), rest, BodyMode(d, q))
  {
    var m := BodyMode(d, q);
    match p
    case Raw(c) =>
      if PrintPiece(d, q, p) == [c] { PassesRaw(c, m, rest); } else { PassesEscape('"', m, rest); }
    case Esc(e) =>
      if PrintPiece(d, q, p) == ['\\', e] { PassesEscape(e, m, rest); } else { PassesRaw('\'', m, rest); }
    case Uni(h) =>
      PassesEscape('u', m, h + rest);
      PassesInside(h, rest, m);
      PassesSeq("\\u", "\\u", m, m, h, h, rest, m);
  }

  lemma {:induction false} PassesBody(d: Dialect, q: Quote, ps: seq<Piece>, rest: string)
    requires forall p :: p in ps ==> ValidPiece(q, p)
    ensures Passes(PrintBody(d, q, ps), PrintBody(After(d), q, ps), BodyMode(d, q), rest, BodyMode(d, q))
    decreases |ps|
  {
    var m := BodyMode(d, q);
    if ps == [] {
      PassesNone(m, rest);
    } else {
      var t := PrintBody(d, q, ps[1..]);
      PassesPiece(d, q, ps[0], t + rest);
      PassesBody(d, q, ps[1..], rest);
      PassesSeq(PrintPiece(d, q, ps[0]), PrintPiece(After(d), q, ps[0]), m, m,
                t, PrintBody(After(d), q, ps[1..]), rest, m);
    }
  }

  lemma PassesLiteral(d: Dialect, l: Literal, rest: string)
    requires ValidLiteral(l)
    ensures Passes(PrintLiteral(d, l), PrintLiteral(After(d), l), Outside(false), rest, Outside(false))
  {
    var q, m, out := [Delimiter(d, l.quote)], BodyMode(d, l.quote), Outside(false);
    var b, b' := PrintBody(d, l.quote, l.body), PrintBody(After(d), l.quote, l.body);
    PassesStep(q, rest, m);
    PassesBody(d, l.quote, l.body, q + rest);
    PassesStep(q, b + (q + rest), out);
    PassesSeq(q, "\"", out, m, b, b', q + rest, m);
    PassesSeq(q + b, "\"" + b', out, m, q, "\"", rest, out);
  }

  lemma {:induction false} PassesValue(d: Dialect, v: Value, rest: string)
    requires ValidValue(v) && Boundary(rest)
    ensures Passes(Print(d, v), Print(After(d), v), Outside(false), rest, Outside(false))
    decreases v, 1
  {
    var out := Outside(false);
    match v
    case Null =>
      if d.Python? { PassesWord(2, rest); } else { PassesToken("null", rest); }
    case Bool(b) =>
      if d.Python? {
        if b { PassesWord(0, rest); } else { PassesWord(1, rest); }
      } else {
        PassesToken(if b then "true" else "false", rest);
      }
    case Number(t) =>
      assert forall i :: 0 <= i < |t| ==> t[i] in t;
      PassesToken(t, rest);
    case Str(l) => PassesLiteral(d, l, rest);
    case List(ws, es) =>
      PassesElems(d, es, "]" + rest);
      PassesEnclosed('[', ws, PrintElems(d, es), PrintElems(After(d), es), ']', rest);
    case Dict(ws, es) =>
      PassesEntries(d, es, "}" + rest);
      PassesEnclosed('{', ws, PrintEntries(d, es), PrintEntries(After(d), es), '}', rest);
  }

  /** Brackets, white space and what is between them. */
  lemma PassesEnclosed(o: char, ws: string, a: string, a': string, c: char, rest: string)
    requires Plain(o) && Plain(c) && !IsWord(o) && !IsWord(c) && Spaces(ws)
    requires Passes(a, a', Outside(false), [c] + rest, Outside(false))
    ensures Passes([o] + (ws + a) + [c], [o] + (ws + a') + [c], Outside(false), rest, Outside(false))
  {
    var out := Outside(false);
    PassesPlain([c], rest, false);
    PassesSpace(ws, a + ([c] + rest));
    PassesSeq(ws, ws, out, out, a, a', [c] + rest, out);
    PassesPlain([o], (ws + a) + ([c] + rest), false);
    PassesSeq([o], [o], out, out, ws + a, ws + a', [c] + rest, out);
    PassesSeq([o] + (ws + a), [o] + (ws + a'), out, out, [c], [c], rest, out);
  }

  lemma PassesSpace(ws: string, rest: string)
    requires Spaces(ws)
    ensures Passes(ws, ws, Outside(false), rest, Outside(false))
  {
    assert forall i :: 0 <= i < |ws| ==> ws[i] in ws;
    PassesPlain(ws, rest, false);
  }

  /** White space and a bracket, comma or colon end a word. */
  lemma BlankBoundary(ws: string, rest: string)
    requires Spaces(ws) && Boundary(rest)
    ensures Boundary(ws + rest)
  {
    if ws != [] { assert ws[0] in ws; }
  }

  lemma PassesToken(t: string, rest: string)
    requires t != [] && (forall i :: 0 <= i < |t| ==> Plain(t[i])) && Boundary(rest)
    ensures Passes(t, t, Outside(false), rest, Outside(false))
  {
    PassesPlain(t, [] + rest, false);
    PassesBoundary(rest, IsWord(t[|t| - 1]));
    PassesSeq(t, t, Outside(false), Outside(IsWord(t[|t| - 1])), [], [], rest, Outside(false));
    assert t + [] == t;
  }

  /** A comma, or a colon in white space. */
  lemma PassesSeparator(before: string, c: char, after: string, rest: string)
    requires (c == ',' || c == ':') && Spaces(before) && Spaces(after)
    ensures var a := before + [c] + after; Passes(a, a, Outside(false), rest, Outside(false))
    ensures Boundary(before + [c] + after + rest)
  {
    var a := before + [c] + after;
    assert forall i :: 0 <= i < |a| ==> a[i] == c || a[i] in before || a[i] in after;
    PassesPlain(a, rest, false);
  }

  /** A part between white space. */
  lemma PassesPadded(before: string, a: string, a': string, after: string, rest: string)
    requires Spaces(before) && Spaces(after) && Passes(a, a', Outside(false), after + rest, Outside(false))
    ensures Passes(before + a + after, before + a' + after, Outside(false), rest, Outside(false))
  {
    var out := Outside(false);
    PassesSpace(after, rest);
    PassesSpace(before, a + (after + rest));
    PassesSeq(before, before, out, out, a, a', after + rest, out);
    PassesSeq(before + a, before + a', out, out, after, after, rest, out);
  }

  /** Two parts around a comma. */
  lemma PassesComma(a: string, a': string, t: string, t': string, rest: string)
    requires Passes(a, a', Outside(false), "," + (t + rest), Outside(false))
    requires Passes(t, t', Outside(false), rest, Outside(false))
    ensures Passes(a + "," + t, a' + "," + t', Outside(false), rest, Outside(false))
  {
    var out := Outside(false);
    PassesSeparator("", ',', "", t + rest);
    assert "" + [','] + "" == ",";
    PassesSeq(a, a', out, out, ",", ",", t + rest, out);
    PassesSeq(a + ",", a' + ",", out, out, t, t', rest, out);
  }

  lemma {:induction false} PassesElem(d: Dialect, e: Elem, rest: string)
    requires ValidElem(e) && Boundary(rest)
    ensures Passes(PrintElem(d, e), PrintElem(After(d), e), Outside(false), rest, Outside(false))
    decreases e, 2
  {
    BlankBoundary(e.after, rest);
    PassesValue(d, e.value, e.after + rest);
    PassesPadded(e.before, Print(d, e.value), Print(After(d), e.value), e.after, rest);
  }

  lemma {:induction false} PassesElems(d: Dialect, es: seq<Elem>, rest: string)
    requires (forall e :: e in es ==> ValidElem(e)) && Boundary(rest)
    ensures Passes(PrintElems(d, es), PrintElems(After(d), es), Outside(false), rest, Outside(false))
    decreases es, 0
  {
    if es == [] {
      PassesNone(Outside(false), rest);
    } else if |es| == 1 {
      PassesElem(d, es[0], rest);
    } else {
      var t, t' := PrintElems(d, es[1..]), PrintElems(After(d), es[1..]);
      PassesElems(d, es[1..], rest);
      PassesElem(d, es[0], "," + (t + rest));
      PassesComma(PrintElem(d, es[0]), PrintElem(After(d), es[0]), t, t', rest);
    }
  }

  /** A key, a colon in white space, a value. */
  lemma PassesPair(k: string, k': string, s: string, v: string, v': string, rest: string)
    requires Passes(k, k', Outside(false), s + (v + rest), Outside(false))
    requires Passes(s, s, Outside(false), v + rest, Outside(false))
    requires Passes(v, v', Outside(false), rest, Outside(false))
    ensures Passes(k + s + v, k' + s + v', Outside(false), rest, Outside(false))
  {
    var out := Outside(false);
    PassesSeq(k, k', out, out, s, s, v + rest, out);
    PassesSeq(k + s, k' + s, out, out, v, v', rest, out);
  }

  lemma {:induction false} PassesEntry(d: Dialect, e: Entry, rest: string)
    requires ValidEntry(e) && Boundary(rest)
    ensures Passes(PrintEntry(d, e), PrintEntry(After(d), e), Outside(false), rest, Outside(false))
    decreases e, 2
  {
    hide Passes;
    var d' := After(d);
    var k, s := PrintLiteral(d, e.key), e.beforeColon + ":" + e.afterColon;
    var v, r := Print(d, e.value), e.after + rest;
    BlankBoundary(e.after, rest);
    PassesValue(d, e.value, r);
    PassesSeparator(e.beforeColon, ':', e.afterColon, v + r);
    PassesLiteral(d, e.key, s + (v + r));
    PassesPair(k, PrintLiteral(d', e.key), s, v, Print(d', e.value), r);
    PassesPadded(e.before, k + s + v, PrintLiteral(d', e.key) + s + Print(d', e.value), e.after, rest);
    Flatten(e.before, k, s, v, e.after);
    Flatten(e.before, PrintLiteral(d', e.key), s, Print(d', e.value), e.after);
  }

  lemma Flatten(a: string, k: string, s: string, v: string, b: string)
    ensures a + (k + s + v) + b == a + k + s + v + b
  {
  }

  lemma {:induction false} PassesEntries(d: Dialect, es: seq<Entry>, rest: string)
    requires (forall e :: e in es ==> ValidEntry(e)) && Boundary(rest)
    ensures Passes(PrintEntries(d, es), PrintEntries(After(d), es), Outside(false), rest, Outside(false))
    decreases es, 0
  {
    if es == [] {
      PassesNone(Outside(false), rest);
    } else if |es| == 1 {
      PassesEntry(d, es[0], rest);
    } else {
      var t, t' := PrintEntries(d, es[1..]), PrintEntries(After(d), es[1..]);
      PassesEntries(d, es[1..], rest);
      PassesEntry(d, es[0], "," + (t + rest));
      PassesComma(PrintEntry(d, es[0]), PrintEntry(After(d), es[0]), t, t', rest);
    }
  }

  // ---- Main results ----

  /** Occurrences of `\'` inside double-quoted literals. */
  function StrayPieces(q: Quote, ps: seq<Piece>): nat {
    if ps == [] then 0
    else (if q.DoubleQuote? && ps[0] == Esc('\'') then 1 else 0) + StrayPieces(q, ps[1..])
  }

  function Strays(v: Value): nat {
    match v
    case Str(l) => StrayPieces(l.quote, l.body)
    case List(_, es) => StraysElems(es)
    case Dict(_, es) => StraysEntries(es)
    case _ => 0
  }

  function StraysElems(es: seq<Elem>): nat {
    if es == [] then 0 else Strays(es[0].value) + StraysElems(es[1..])
  }

  function StraysEntries(es: seq<Entry>): nat {
    if es == [] then 0 else StraysEntry(es[0]) + StraysEntries(es[1..])
  }

  function StraysEntry(e: Entry): nat {
    StrayPieces(e.key.quote, e.key.body) + Strays(e.value)
  }

  /** `b` is the text `a` with `n` characters too many. */
  ghost predicate Longer(a: string, b: string, n: nat) {
    |b| == |a| + n && (n == 0 ==> a == b)
  }

  lemma {:induction false} StrayBody(q: Quote, ps: seq<Piece>)
    requires forall p :: p in ps ==> ValidPiece(q, p)
    ensures Longer(PrintBody(Json, q, ps), PrintBody(Rewritten, q, ps), StrayPieces(q, ps))
    decreases |ps|
  {
    if ps != [] {
      assert ps[0] in ps;
      StrayBody(q, ps[1..]);
    }
  }

  lemma {:induction false} StrayValue(v: Value)
    requires ValidValue(v)
    ensures Longer(Print(Json, v), Print(Rewritten, v), Strays(v))
    decreases v, 1
  {
    match v
    case Str(l) => StrayBody(l.quote, l.body);
    case List(_, es) => StrayElems(es);
    case Dict(_, es) => StrayEntries(es);
    case _ =>
  }

  lemma {:induction false} StrayElems(es: seq<Elem>)
    requires forall e :: e in es ==> ValidElem(e)
    ensures Longer(PrintElems(Json, es), PrintElems(Rewritten, es), StraysElems(es))
    decreases es, 0
  {
    if es != [] {
      assert ValidElem(es[0]);
      StrayValue(es[0].value);
      StrayElems(es[1..]);
    }
  }

  lemma {:induction false} StrayEntries(es: seq<Entry>)
    requires forall e :: e in es ==> ValidEntry(e)
    ensures Longer(PrintEntries(Json, es), PrintEntries(Rewritten, es), StraysEntries(es))
    decreases es, 0
  {
    if es != [] {
      StrayEntry(es[0]);
      StrayEntries(es[1..]);
    }
  }

  lemma {:induction false} StrayEntry(e: Entry)
    requires ValidEntry(e)
    ensures Longer(PrintEntry(Json, e), PrintEntry(Rewritten, e), StraysEntry(e))
    decreases e, 2
  {
    StrayBody(e.key.quote, e.key.body);
    StrayValue(e.value);
  }

  /** The Python print of a value becomes its JSON print, unless a double-quoted literal escapes `'`. */
  lemma NormalizePython(v: Value)
    requires ValidValue(v)
    ensures Normalize(Print(Python, v)) == Print(Rewritten, v)
    ensures Normalize(Print(Python, v)) == Print(Json, v) <==> Strays(v) == 0
  {
    PassesValue(Python, v, []);
    assert Print(Python, v) + [] == Print(Python, v);
    assert Print(Rewritten, v) + [] == Print(Rewritten, v);
    StrayValue(v);
  }

  /** JSON prints are fixed points, and so is everything the machine writes for a Python print. */
  lemma NormalizeJson(v: Value)
    requires ValidValue(v)
    ensures Normalize(Print(Json, v)) == Print(Json, v)
    ensures Normalize(Normalize(Print(Python, v))) == Normalize(Print(Python, v))
  {
    NormalizePython(v);
    PassesValue(Json, v, []);
    PassesValue(Rewritten, v, []);
    assert Print(Json, v) + [] == Print(Json, v);
    assert Print(Rewritten, v) + [] == Print(Rewritten, v);
  }

  lemma {:induction false} WordsOkCut(p: string, t: string, m: Mode)
    requires WordsOk(p + t, m)
    ensures CutOf(p, m).InWord? ==> Continues(CutOf(p, m), t)
    decreases |p|
  {
    if p == [] || p == "\\" {
    } else if m == Outside(false) && StartsLiteral(p[0]) && WordLen(p) == |p| && JsonWord(p).Some? {
      WordLenConcat(p, t);
      assert (p + t)[..WordLen(p + t)] == p + t[..WordLen(t)];
    } else {
      LexLocal(p, t, m);
      var st := Lex(p, m);
      assert (p + t)[st.used..] == p[st.used..] + t;
      WordsOkCut(p[st.used..], t, st.next);
    }
  }

  /**
   * Streaming a Python-printed value: the image of every prefix is a prefix of the image of the whole,
   * except exactly when the cut separates the two characters of `\'` in a single-quoted literal.
   */
  lemma StreamedPrefix(v: Value, k: nat)
    requires ValidValue(v) && k <= |Print(Python, v)|
    ensures var s := Print(Python, v);
      Normalize(s[..k]) <= Normalize(s) <==>
      !(CutOf(s[..k], Outside(false)).InEscape? && k < |s| && s[k] == '\'')
  {
    var s := Print(Python, v);
    assert s == s[..k] + s[k..];
    PassesValue(Python, v, []);
    assert s + [] == s;
    WordsOkCut(s[..k], s[k..], Outside(false));
    PrefixMonotone(s[..k], s[k..], Outside(false));
  }
}
