/** `parse_csv_row` and `string_split`: one row of comma-separated fields. */
module Csv {
  const QUOTE := '"'
  const COMMA := ','

  /** Parsing the rest of a row, given the field read so far and whether a quote is open. */
  function Parse(s: string, field: string, quoted: bool): (fields: seq<string>)
    ensures fields != [] && field <= fields[0]
    decreases |s|
  {
    if s == [] then [field]
    else if s[0] == QUOTE && !quoted then
      (if field != [] then Parse(s[1..], field + [QUOTE], false) else Parse(s[1..], [], true))
    else if s[0] == QUOTE && |s| > 1 && s[1] == QUOTE then Parse(s[2..], field + [QUOTE], true)
    else if s[0] == QUOTE then Parse(s[1..], field, false)
    else if s[0] == COMMA && !quoted then [field] + Parse(s[1..], [], false)
    else Parse(s[1..], field + [s[0]], quoted)
  }

  function Row(input: string): seq<string> { Parse(input, [], false) }

  method ParseCsvRow(input: string) returns (fields: seq<string>)
    ensures fields == Row(input)
  {
    fields := [];
    var field: string := [];
    var inQuotes := false;
    var i := 0;
    while i < |input|
      invariant i <= |input|
      invariant fields + Parse(input[i..], field, inQuotes) == Row(input)
    {
      var ch := input[i];
      ghost var rest := input[i..];
      assert rest[0] == ch && rest[1..] == input[i + 1..];
      if ch == QUOTE {
        if !inQuotes {
          if field != [] {
            field := field + [QUOTE];
          } else {
            inQuotes := true;
          }
        } else if i + 1 < |input| && input[i + 1] == QUOTE {
          assert rest[2..] == input[i + 2..];
          field := field + [QUOTE];
          i := i + 1;
        } else {
          inQuotes := false;
        }
      } else if ch == COMMA && !inQuotes {
        fields := fields + [field];
        field := [];
      } else {
        field := field + [ch];
      }
      i := i + 1;
    }
    fields := fields + [field];
  }

  /** A field and the printer's choice to quote it. */
  datatype Cell = Cell(text: string, quoted: bool)

  /** The text with every quote doubled. */
  function Doubled(t: string): string {
    if t == [] then []
    else (if t[0] == '"' then "\"\"" else [t[0]]) + Doubled(t[1..])
  }

  function PrintCell(c: Cell): string {
    if c.quoted then "\"" + Doubled(c.text) + "\"" else c.text
  }

  function PrintRow(cells: seq<Cell>): string
    requires cells != []
  {
    if |cells| == 1 then PrintCell(cells[0]) else PrintCell(cells[0]) + "," + PrintRow(cells[1..])
  }

  function TextsOf(cells: seq<Cell>): seq<string> {
    seq(|cells|, k requires 0 <= k < |cells| => cells[k].text)
  }

  /** May be printed without quotes: no comma, no quote at its start. */
  predicate Safe(t: string) {
    ',' !in t && (t == [] || t[0] != '"')
  }

  /** What may follow a printed field. */
  predicate AtBorder(rest: string) { rest == [] || rest[0] == COMMA }

  lemma {:induction false} QuotedRun(t: string, rest: string, field: string)
    requires rest == [] || rest[0] != QUOTE
    ensures Parse(Doubled(t) + [QUOTE] + rest, field, true) == Parse(rest, field + t, false)
  {
    var s := Doubled(t) + [QUOTE] + rest;
    if t == [] {
      assert s[1..] == rest && field + t == field;
    } else {
      QuotedRun(t[1..], rest, field + [t[0]]);
      var tail := Doubled(t[1..]) + [QUOTE] + rest;
      assert field + [t[0]] + t[1..] == field + t;
      if t[0] == QUOTE {
        assert s[2..] == tail;
      } else {
        assert s[1..] == tail;
      }
    }
  }

  lemma {:induction false} PlainRun(t: string, rest: string, field: string)
    requires COMMA !in t && (t == [] || t[0] != QUOTE || field != [])
    ensures Parse(t + rest, field, false) == Parse(rest, field + t, false)
  {
    if t == [] {
      assert t + rest == rest && field + t == field;
    } else {
      PlainRun(t[1..], rest, field + [t[0]]);
      assert (t + rest)[1..] == t[1..] + rest && field + [t[0]] + t[1..] == field + t;
    }
  }

  /** A field that is quoted or safe is read back exactly. */
  lemma CellParses(c: Cell, rest: string)
    requires AtBorder(rest) && (c.quoted || Safe(c.text))
    ensures Parse(PrintCell(c) + rest, [], false) == Parse(rest, c.text, false)
  {
    assert [] + c.text == c.text;
    if c.quoted {
      QuotedRun(c.text, rest, []);
      assert (PrintCell(c) + rest)[1..] == Doubled(c.text) + [QUOTE] + rest;
    } else {
      PlainRun(c.text, rest, []);
    }
  }

  lemma QuoteOpens(s: string)
    ensures Row("\"" + s) == Parse(s, [], true)
  {
    assert ("\"" + s)[1..] == s;
  }

  /** What follows a closing quote belongs to the field, up to the next comma. */
  lemma AfterQuotes(t: string, u: string, rest: string)
    requires COMMA !in u && (u == [] || u[0] != QUOTE) && AtBorder(rest)
    ensures Row("\"" + Doubled(t) + "\"" + u + rest) == Parse(rest, t + u, false)
  {
    hide Parse;
    hide Row;
    hide Doubled;
    var tail := Doubled(t) + [QUOTE] + (u + rest);
    assert "\"" + Doubled(t) + "\"" + u + rest == "\"" + tail;
    QuoteOpens(tail);
    QuotedRun(t, u + rest, []);
    assert [] + t == t;
    PlainRun(u, rest, t);
  }

  /** A quote that is never closed takes the rest of the row, commas included. */
  lemma {:induction false} OpenQuote(t: string, field: string)
    ensures Parse(Doubled(t), field, true) == [field + t]
    decreases |t|
  {
    if t == [] {
      assert field + t == field;
    } else {
      OpenQuote(t[1..], field + [t[0]]);
      assert field + [t[0]] + t[1..] == field + t;
      var d := Doubled(t);
      if t[0] == QUOTE { assert d[2..] == Doubled(t[1..]); } else { assert d[1..] == Doubled(t[1..]); }
    }
  }

  lemma UnclosedRow(t: string)
    ensures Row("\"" + Doubled(t)) == [t]
  {
    assert [] + t == t;
    QuoteOpens(Doubled(t));
    OpenQuote(t, []);
  }

  /** The number of quotes `s` opens with. */
  function Lead(s: string): (n: nat)
    ensures n <= |s| && (n < |s| ==> s[n] != QUOTE) && forall k :: 0 <= k < n ==> s[k] == QUOTE
  {
    if s == [] || s[0] != QUOTE then 0 else 1 + Lead(s[1..])
  }

  /** Inside quotes, a run of `m` quotes yields at most `m / 2` of them. */
  lemma {:induction false} RunHalves(s: string, m: nat, field: string)
    requires m == Lead(s)
    ensures var first := Parse(s, field, true)[0]; var k := |field| + m / 2;
      k < |first| ==> first[k] != QUOTE
    decreases m
  {
    if m >= 2 {
      assert s[1] == QUOTE && Lead(s[1..]) == m - 1 && s[1..][1..] == s[2..];
      var next := field + [QUOTE];
      assert Parse(s, field, true) == Parse(s[2..], next, true);
      RunHalves(s[2..], m - 2, next);
      assert |next| + (m - 2) / 2 == |field| + m / 2;
    } else {
      RunEnds(s, m, field);
    }
  }

  /** A run of at most one quote adds none to the field. */
  lemma RunEnds(s: string, m: nat, field: string)
    requires m == Lead(s) <= 1
    ensures var first := Parse(s, field, true)[0]; |field| < |first| ==> first[|field|] != QUOTE
  {
    if m == 1 {
      assert Parse(s, field, true) == Parse(s[1..], field, false);
      assert s[1..] != [] ==> s[1..][0] != QUOTE;
    }
  }

  lemma FieldStarts(s: string, field: string)
    requires s != []
    ensures s[0] == COMMA ==> Parse(s, field, false)[0] == field
    ensures s[0] == QUOTE ==> Parse(s, [], false) == Parse(s[1..], [], true)
  {
  }

  /** An unquoted field that is not safe is never read back, whatever follows. */
  lemma UnsafeLost(t: string, rest: string)
    requires AtBorder(rest) && !Safe(t)
    ensures Parse(t + rest, [], false)[0] != t
  {
    hide Parse;
    var s := t + rest;
    if t != [] && t[0] == QUOTE {
      var n := Lead(t);
      LeadBorder(t, rest);
      assert Lead(s) == 1 + Lead(s[1..]);
      RunHalves(s[1..], n - 1, []);
      FieldStarts(s, []);
      assert t[(n - 1) / 2] == QUOTE;
    } else {
      var k := FirstComma(t);
      PlainRun(t[..k], s[k..], []);
      assert s == t[..k] + s[k..] && s[k] == COMMA && [] + t[..k] == t[..k];
      FieldStarts(s[k..], t[..k]);
    }
  }

  lemma {:induction false} LeadBorder(t: string, rest: string)
    requires AtBorder(rest)
    ensures Lead(t + rest) == Lead(t)
  {
    if t == [] {
      assert t + rest == rest;
    } else {
      assert (t + rest)[1..] == t[1..] + rest;
      LeadBorder(t[1..], rest);
    }
  }

  lemma {:induction false} FirstComma(t: string) returns (k: nat)
    requires COMMA in t
    ensures k < |t| && t[k] == COMMA && COMMA !in t[..k]
  {
    if t[0] == COMMA { return 0; }
    k := FirstComma(t[1..]);
    assert t[..k + 1] == [t[0]] + t[1..][..k];
    k := k + 1;
  }

  /**
   * Parsing inverts a row printer, on any row and any choice of which fields to quote, if and only if every
   * field left unquoted has no comma and no quote at its start.
   */
  lemma {:induction false} RowRoundTrip(cells: seq<Cell>)
    requires cells != []
    ensures Row(PrintRow(cells)) == TextsOf(cells) <==> forall k :: 0 <= k < |cells| ==> cells[k].quoted || Safe(cells[k].text)
    decreases |cells|
  {
    var c := cells[0];
    var rest := if |cells| == 1 then [] else [COMMA] + PrintRow(cells[1..]);
    assert PrintRow(cells) == PrintCell(c) + rest;
    if !c.quoted && !Safe(c.text) {
      UnsafeLost(c.text, rest);
      assert Row(PrintRow(cells))[0] != TextsOf(cells)[0];
    } else {
      CellParses(c, rest);
      if |cells| > 1 {
        RowRoundTrip(cells[1..]);
        RestParses(cells);
        assert forall k :: 0 < k < |cells| ==> cells[k] == cells[1..][k - 1];
        assert forall k :: 0 <= k < |cells| - 1 ==> cells[1..][k] == cells[k + 1];
      }
    }
  }

  lemma RestParses(cells: seq<Cell>)
    requires |cells| > 1
    ensures var rest := [COMMA] + PrintRow(cells[1..]);
      Parse(rest, cells[0].text, false) == [cells[0].text] + Row(PrintRow(cells[1..]))
    ensures TextsOf(cells) == [cells[0].text] + TextsOf(cells[1..])
    ensures forall a: seq<string> :: [cells[0].text] + a == [cells[0].text] + TextsOf(cells[1..]) <==> a == TextsOf(cells[1..])
  {
    var rest := [COMMA] + PrintRow(cells[1..]);
    assert rest[1..] == PrintRow(cells[1..]);
    forall a: seq<string>
      ensures [cells[0].text] + a == [cells[0].text] + TextsOf(cells[1..]) <==> a == TextsOf(cells[1..])
    {
      assert ([cells[0].text] + a)[1..] == a;
      assert ([cells[0].text] + TextsOf(cells[1..]))[1..] == TextsOf(cells[1..]);
    }
  }

  function Join(parts: seq<string>, delim: char): string
    requires parts != []
  {
    if |parts| == 1 then parts[0] else parts[0] + [delim] + Join(parts[1..], delim)
  }

  /** Splits lose nothing: the parts hold no delimiter and join to the input. */
  ghost predicate Splits(s: string, delim: char, parts: seq<string>) {
    parts != [] && Join(parts, delim) == s && forall k :: 0 <= k < |parts| ==> delim !in parts[k]
  }

  /** `std::string::find` from `begin`. */
  method Find(s: string, delim: char, begin: nat) returns (pos: int)
    requires begin <= |s|
    ensures pos == -1 ==> delim !in s[begin..]
    ensures pos != -1 ==> begin <= pos < |s| && s[pos] == delim && delim !in s[begin..pos]
  {
    pos := begin;
    while pos < |s|
      invariant begin <= pos <= |s| && delim !in s[begin..pos]
    {
      if s[pos] == delim { return; }
      pos := pos + 1;
    }
    assert s[begin..] == s[begin..pos];
    pos := -1;
  }

  method StringSplit(str: string, delim: char) returns (parts: seq<string>)
    ensures Splits(str, delim, parts)
  {
    parts := [];
    var begin := 0;
    var pos := Find(str, delim, begin);
    while pos != -1
      invariant 0 <= begin <= |str|
      invariant pos == -1 ==> delim !in str[begin..]
      invariant pos != -1 ==> begin <= pos < |str| && str[pos] == delim && delim !in str[begin..pos]
      invariant forall k :: 0 <= k < |parts| ==> delim !in parts[k]
      invariant Join(parts + [str[begin..]], delim) == str
      decreases |str| - begin
    {
      assert str[begin..] == str[begin..pos] + [delim] + str[pos + 1..];
      JoinLast(parts, str[begin..pos], str[pos + 1..], delim);
      parts := parts + [str[begin..pos]];
      begin := pos + 1;
      pos := Find(str, delim, begin);
    }
    parts := parts + [str[begin..]];
  }

  /** Cutting the last part at a delimiter keeps the joined text. */
  lemma {:induction false} JoinLast(parts: seq<string>, a: string, b: string, delim: char)
    ensures Join(parts + [a] + [b], delim) == Join(parts + [a + [delim] + b], delim)
    decreases |parts|
  {
    if parts == [] {
      assert (parts + [a] + [b])[1..] == [b];
    } else {
      JoinLast(parts[1..], a, b, delim);
      assert (parts + [a] + [b])[1..] == parts[1..] + [a] + [b];
      assert (parts + [a + [delim] + b])[1..] == parts[1..] + [a + [delim] + b];
    }
  }

  lemma NotLonger(x: string, restX: string, y: string, restY: string, delim: char)
    requires x + restX == y + restY && delim !in y && (restX == [] || restX[0] == delim)
    ensures |y| <= |x|
  {
    var s := x + restX;
    assert |s| == |y| + |restY|;
    assert forall k :: 0 <= k < |y| ==> s[k] == y[k];
    assert restX != [] ==> s[|x|] == delim;
  }

  lemma SameHead(x: string, restX: string, y: string, restY: string, delim: char)
    requires x + restX == y + restY && delim !in x && delim !in y
    requires (restX == [] || restX[0] == delim) && (restY == [] || restY[0] == delim)
    ensures x == y && restX == restY
  {
    NotLonger(x, restX, y, restY, delim);
    NotLonger(y, restY, x, restX, delim);
    assert x == (x + restX)[..|x|] && y == (y + restY)[..|y|];
    assert restX == (x + restX)[|x|..] && restY == (y + restY)[|y|..];
  }

  /** What a join holds after its first part. */
  function AfterHead(parts: seq<string>, delim: char): string
    requires parts != []
  {
    if |parts| == 1 then [] else [delim] + Join(parts[1..], delim)
  }

  /** A text has only one split. */
  lemma {:induction false} SplitUnique(s: string, delim: char, a: seq<string>, b: seq<string>)
    requires Splits(s, delim, a) && Splits(s, delim, b)
    ensures a == b
    decreases |a|
  {
    var restA, restB := AfterHead(a, delim), AfterHead(b, delim);
    assert s == a[0] + restA && s == b[0] + restB;
    SameHead(a[0], restA, b[0], restB, delim);
    assert |a| > 1 <==> restA != [];
    assert |b| > 1 <==> restB != [];
    if |a| > 1 {
      assert restA[1..] == Join(a[1..], delim);
      assert restB[1..] == Join(b[1..], delim);
      SplitUnique(restA[1..], delim, a[1..], b[1..]);
      assert a == [a[0]] + a[1..];
      assert b == [b[0]] + b[1..];
    }
  }

  lemma {:induction false} PlainRow(parts: seq<string>)
    requires parts != []
    ensures PrintRow(seq(|parts|, k requires 0 <= k < |parts| => Cell(parts[k], false))) == Join(parts, COMMA)
    decreases |parts|
  {
    if |parts| > 1 {
      PlainRow(parts[1..]);
      var cells := seq(|parts|, k requires 0 <= k < |parts| => Cell(parts[k], false));
      assert cells[1..] == seq(|parts| - 1, k requires 0 <= k < |parts| - 1 => Cell(parts[1..][k], false));
    }
  }

  /**
   * Parsing a row is splitting it on commas if and only if no part of the split starts with a quote; a row
   * without quotes is such a row.
   */
  lemma ParseIsSplit(s: string, parts: seq<string>)
    requires Splits(s, ',', parts)
    ensures Row(s) == parts <==> forall k :: 0 <= k < |parts| ==> parts[k] == [] || parts[k][0] != '"'
    ensures '"' !in s ==> Row(s) == parts
  {
    var cells := seq(|parts|, k requires 0 <= k < |parts| => Cell(parts[k], false));
    PlainRow(parts);
    RowRoundTrip(cells);
    assert TextsOf(cells) == parts;
    assert forall k :: 0 <= k < |parts| ==> cells[k].text == parts[k];
    assert forall k :: 0 <= k < |parts| ==> (cells[k].quoted || Safe(cells[k].text) <==> parts[k] == [] || parts[k][0] != QUOTE);
    if QUOTE !in s {
      forall k | 0 <= k < |parts| ensures parts[k] == [] || parts[k][0] != QUOTE {
        PartWithin(parts, k);
      }
    }
  }

  lemma {:induction false} PartWithin(parts: seq<string>, k: nat)
    requires k < |parts|
    ensures forall c :: c in parts[k] ==> c in Join(parts, COMMA)
    decreases |parts|
  {
    if k > 0 { PartWithin(parts[1..], k - 1); }
  }
}
