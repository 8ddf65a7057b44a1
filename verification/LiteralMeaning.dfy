/**
 * What string literals denote, read independently of how they were printed: JSON strings by
 * section 7 of RFC 8259, Python literals by their escapes shared with JSON plus `\'`; to Python `\/` is two characters.
 */
module LiteralMeaning {
  import opened Text
  import opened JsonText
  import opened PythonValues

  function HexDigit(c: char): nat
    requires IsHex(c)
  {
    if c <= '9' then (c - '0') as nat
    else if 'a' <= c then 10 + (c - 'a') as nat
    else 10 + (c - 'A') as nat
  }

  function HexValue(h: string): nat
    requires forall i :: 0 <= i < |h| ==> IsHex(h[i])
  {
    if h == [] then 0 else 16 * HexValue(h[..|h| - 1]) + HexDigit(h[|h| - 1])
  }

  /** The one-letter escapes; all but `/` are shared. */
  function Unescape(e: char, python: bool): Option<nat> {
    match e
    case '"' => Some(0x22)
    case '\\' => Some(0x5C)
    case '/' => if python then None else Some(0x2F)
    case 'b' => Some(0x08)
    case 'f' => Some(0x0C)
    case 'n' => Some(0x0A)
    case 'r' => Some(0x0D)
    case 't' => Some(0x09)
    case _ => None
  }

  /** The code units denoted by the text between two delimiters `q`; `None` if it is not a literal body. */
  function Read(s: string, q: char, python: bool): Option<seq<nat>> {
    if s == [] then Some([])
    else if s[0] != '\\' then
      if s[0] == q || s[0] < ' ' then None else Put([s[0] as nat], Read(s[1..], q, python))
    else if |s| == 1 then None
    else if s[1] == 'u' then
      if |s| >= 6 && forall i :: 2 <= i < 6 ==> IsHex(s[i])
      then Put([HexValue(s[2..6])], Read(s[6..], q, python))
      else None
    else if Unescape(s[1], python).Some? then Put([Unescape(s[1], python).value], Read(s[2..], q, python))
    else if python && s[1] == '\'' then Put([0x27], Read(s[2..], q, python))
    else if python && s[1] == '/' then Put([0x5C, 0x2F], Read(s[2..], q, python))
    else None
  }

  function Put(units: seq<nat>, r: Option<seq<nat>>): Option<seq<nat>> {
    if r.Some? then Some(units + r.value) else None
  }

  function PieceMeaning(q: Quote, p: Piece, python: bool): seq<nat>
    requires ValidPiece(q, p)
  {
    match p
    case Raw(c) => [c as nat]
    case Esc(e) => if e == '\'' then [0x27] else if e == '/' && python then [0x5C, 0x2F] else [Unescape(e, python).value]
    case Uni(h) => [HexValue(h)]
  }

  function Meaning(q: Quote, ps: seq<Piece>, python: bool): seq<nat>
    requires forall p :: p in ps ==> ValidPiece(q, p)
  {
    if ps == [] then [] else PieceMeaning(q, ps[0], python) + Meaning(q, ps[1..], python)
  }

  /** Occurrences of `\/`. */
  function Slashes(ps: seq<Piece>): nat {
    if ps == [] then 0 else (if ps[0] == Esc('/') then 1 else 0) + Slashes(ps[1..])
  }

  lemma {:induction false} MeaningsDiffer(q: Quote, ps: seq<Piece>)
    requires forall p :: p in ps ==> ValidPiece(q, p)
    ensures |Meaning(q, ps, true)| == |Meaning(q, ps, false)| + Slashes(ps)
    ensures Meaning(q, ps, true) == Meaning(q, ps, false) <==> Slashes(ps) == 0
    decreases |ps|
  {
    if ps != [] {
      assert ps[0] in ps;
      MeaningsDiffer(q, ps[1..]);
    }
  }

  lemma ReadPiece(d: Dialect, q: Quote, p: Piece, rest: string)
    requires ValidPiece(q, p)
    requires d.Rewritten? ==> !(q.DoubleQuote? && p == Esc('\''))
    ensures Read(PrintPiece(d, q, p) + rest, Delimiter(d, q), d.Python?)
         == Put(PieceMeaning(q, p, d.Python?), Read(rest, Delimiter(d, q), d.Python?))
  {
    var a := PrintPiece(d, q, p);
    if a[0] == '\\' {
      if p.Uni? {
        assert (a + rest)[2..6] == p.hex && (a + rest)[6..] == rest;
      } else {
        assert (a + rest)[2..] == rest;
      }
    } else {
      assert (a + rest)[1..] == rest;
    }
  }

  /** JSON has no escape for a single quote. */
  lemma StrayRead(rest: string)
    ensures Read(['\\', '\''] + rest, '"', false) == None
  {
    assert (['\\', '\''] + rest)[1] == '\'';
  }

  /** What a literal denotes in Python, in its JSON spelling, and as the machine writes it. */
  lemma {:induction false} LiteralRead(q: Quote, ps: seq<Piece>)
    requires forall p :: p in ps ==> ValidPiece(q, p)
    ensures Read(PrintBody(Python, q, ps), q.Char(), true) == Some(Meaning(q, ps, true))
    ensures Read(PrintBody(Json, q, ps), '"', false) == Some(Meaning(q, ps, false))
    ensures Read(PrintBody(Rewritten, q, ps), '"', false)
         == if StrayPieces(q, ps) == 0 then Some(Meaning(q, ps, false)) else None
    decreases |ps|
  {
    if ps != [] {
      hide Read;
      hide PieceMeaning;
      assert ps[0] in ps;
      LiteralRead(q, ps[1..]);
      ReadPiece(Python, q, ps[0], PrintBody(Python, q, ps[1..]));
      ReadPiece(Json, q, ps[0], PrintBody(Json, q, ps[1..]));
      var rest := PrintBody(Rewritten, q, ps[1..]);
      if q.DoubleQuote? && ps[0] == Esc('\'') {
        StrayRead(rest);
      } else {
        ReadPiece(Rewritten, q, ps[0], rest);
      }
    }
  }

  /**
   * What the machine writes for a Python literal is a JSON literal that denotes the same code units exactly
   * when no `\'` stands inside double quotes and no `\/` in it.
   */
  lemma LiteralMeaning(q: Quote, ps: seq<Piece>)
    requires forall p :: p in ps ==> ValidPiece(q, p)
    ensures Read(PrintBody(Rewritten, q, ps), '"', false) == Read(PrintBody(Python, q, ps), q.Char(), true)
      <==> StrayPieces(q, ps) == 0 && Slashes(ps) == 0
  {
    LiteralRead(q, ps);
    MeaningsDiffer(q, ps);
  }

  // ---- Escaped text ----

  function Units(s: string): (u: seq<nat>)
    ensures |u| == |s| && forall i :: 0 <= i < |s| ==> u[i] == s[i] as nat
  {
    seq(|s|, i requires 0 <= i < |s| => s[i] as nat)
  }

  lemma LowerDigit(n: nat)
    requires n < 16
    ensures var h := HEX_DIGITS[n]; IsHex(h) && !('A' <= h <= 'F') && HexDigit(h) == n
  {
    if n < 10 { assert HEX_DIGITS[n] == '0' + n as char; } else { assert HEX_DIGITS[n] == 'a' + (n - 10) as char; }
  }

  lemma HexPair(x: char, y: char)
    requires IsHex(x) && IsHex(y)
    ensures HexValue(['0', '0', x, y]) == 16 * HexDigit(x) + HexDigit(y)
  {
    var h := ['0', '0', x, y];
    assert h[..3] == ['0', '0', x] && h[..3][..2] == ['0', '0'] && ['0', '0'][..1] == ['0'] && ['0'][..0] == [];
    assert HexValue(['0']) == 0 && HexValue(['0', '0']) == 0;
    assert HexValue(h[..3]) == HexDigit(x);
  }

  lemma ReadControl(x: char, y: char, rest: string)
    requires IsHex(x) && IsHex(y)
    ensures Read(['\\', 'u', '0', '0', x, y] + rest, '"', false)
         == Put([16 * HexDigit(x) + HexDigit(y)], Read(rest, '"', false))
  {
    var e, h := ['\\', 'u', '0', '0', x, y], ['0', '0', x, y];
    HexPair(x, y);
    assert (e + rest)[2..6] == h && (e + rest)[6..] == rest;
    assert forall i :: 2 <= i < 6 ==> (e + rest)[i] == h[i - 2];
  }

  lemma ReadEscapedChar(c: char, rest: string)
    ensures Read(EscapeChar(c) + rest, '"', false) == Put([c as nat], Read(rest, '"', false))
  {
    var e := EscapeChar(c);
    if |e| == 6 {
      var x, y := HEX_DIGITS[c as nat / 16], HEX_DIGITS[c as nat % 16];
      LowerDigit(c as nat / 16);
      LowerDigit(c as nat % 16);
      ReadControl(x, y, rest);
      assert e == ['\\', 'u', '0', '0', x, y];
    } else if |e| == 2 {
      assert (e + rest)[2..] == rest;
    } else {
      assert (e + rest)[1..] == rest;
    }
  }

  lemma PutTwice(a: seq<nat>, b: seq<nat>, r: Option<seq<nat>>)
    ensures Put(a, Put(b, r)) == Put(a + b, r)
  {
    if r.Some? { assert a + (b + r.value) == (a + b) + r.value; }
  }

  /** Reading goes on behind an escaped text. */
  lemma {:induction false} ReadEscaped(s: string, rest: string)
    ensures Read(Escape(s) + rest, '"', false) == Put(Units(s), Read(rest, '"', false))
    decreases |s|
  {
    hide Read;
    hide EscapeChar;
    var r := Read(rest, '"', false);
    if s == [] {
      assert Escape(s) + rest == rest;
      if r.Some? { assert Units(s) + r.value == r.value; }
    } else {
      var tail := Escape(s[1..]) + rest;
      assert Escape(s) + rest == EscapeChar(s[0]) + tail;
      ReadEscapedChar(s[0], tail);
      ReadEscaped(s[1..], rest);
      PutTwice([s[0] as nat], Units(s[1..]), r);
      assert [s[0] as nat] + Units(s[1..]) == Units(s);
    }
  }

  /** An escaped text is a JSON string body that denotes the text. */
  lemma EscapeMeaning(s: string)
    ensures Read(Escape(s), '"', false) == Some(Units(s))
  {
    ReadEscaped(s, "");
    assert Escape(s) + "" == Escape(s) && Units(s) + [] == Units(s);
  }

  /** `literal` is a JSON string that denotes `text`. */
  predicate Denotes(literal: string, text: string) {
    && |literal| >= 2 && literal[0] == '"' && literal[|literal| - 1] == '"'
    && Read(literal[1..|literal| - 1], '"', false) == Some(Units(text))
  }

  lemma DenotesBody(body: string, text: string)
    ensures Denotes("\"" + body + "\"", text) <==> Read(body, '"', false) == Some(Units(text))
  {
    var l := "\"" + body + "\"";
    assert l[1..|l| - 1] == body;
  }

  /** `json(s).dump()` denotes `s`. */
  lemma DumpDenotes(s: string)
    ensures Denotes(Dump(s), s)
  {
    EscapeMeaning(s);
    DenotesBody(Escape(s), s);
  }

  /** No body goes on behind a bare quote. */
  lemma BareQuote(s: string, rest: string)
    ensures Read(Escape(s) + ("\"" + rest), '"', false) == None
  {
    ReadEscaped(s, "\"" + rest);
  }

  lemma EscapeOne(c: char)
    ensures Escape([c]) == EscapeChar(c)
  {
    assert [c][1..] == [];
    assert FlatMap(EscapeChar, [c]) == EscapeChar(c) + FlatMap(EscapeChar, [c][1..]);
  }

  /** Characters are escaped only where JSON demands it, briefly if they can be, in lower-case digits otherwise. */
  lemma EscapeForm(c: char)
    ensures Escape([c]) == [c] <==> c >= ' ' && c != '"' && c != '\\'
    ensures |Escape([c])| == 2 <==> c in ['"', '\\', '\t', '\n', '\r', '\U{0008}', '\U{000c}']
    ensures |Escape([c])| == 6 <==> |Escape([c])| > 2
    ensures forall i :: 2 <= i < |Escape([c])| ==> !('A' <= Escape([c])[i] <= 'F')
  {
    hide Escape;
    EscapeOne(c);
    var e := EscapeChar(c);
    if |e| == 6 {
      LowerDigit(c as nat / 16);
      LowerDigit(c as nat % 16);
      assert e == ['\\', 'u', '0', '0', HEX_DIGITS[c as nat / 16], HEX_DIGITS[c as nat % 16]];
    }
  }
}
