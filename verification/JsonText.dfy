/** JSON text helpers of the mapper: string escaping and brace counting. */
module JsonText {

  const HEX_DIGITS := "0123456789abcdef"

  function EscapeChar(c: char): string {
    match c
    case '\U{0008}' => "\\b"
    case '\t' => "\\t"
    case '\n' => "\\n"
    case '\U{000c}' => "\\f"
    case '\r' => "\\r"
    case '"' => "\\\""
    case '\\' => "\\\\"
    case _ => if c < ' ' then "\\u00" + [HEX_DIGITS[c as nat / 16], HEX_DIGITS[c as nat % 16]] else [c]
  }

  /** `escape_json_string_inner`: the text between the quotes of `json(s).dump()`. */
  function Escape(s: string): string {
    FlatMap(EscapeChar, s)
  }

  function FlatMap(f: char -> string, s: string): string {
    if s == [] then [] else f(s[0]) + FlatMap(f, s[1..])
  }

  /** `json(s).dump()` for a string. */
  function Dump(s: string): string {
    "\"" + Escape(s) + "\""
  }

  lemma {:induction false} FlatMapConcat(f: char -> string, a: string, b: string)
    ensures FlatMap(f, a + b) == FlatMap(f, a) + FlatMap(f, b)
    decreases |a|
  {
    if a == [] {
      assert a + b == b;
    } else {
      FlatMapConcat(f, a[1..], b);
      assert (a + b)[1..] == a[1..] + b;
    }
  }

  // ---- Brace depth ----

  /** The variables of the counting loop. */
  datatype Braces = Braces(depth: int, inString: bool, escaped: bool)

  function Count(b: Braces, c: char): Braces {
    if b.escaped then b.(escaped := false)
    else if c == '\\' && b.inString then b.(escaped := true)
    else if c == '"' then b.(inString := !b.inString)
    else if b.inString then b
    else if c == '{' then b.(depth := b.depth + 1)
    else if c == '}' then b.(depth := b.depth - 1)
    else b
  }

  function Scan(s: string, b: Braces): Braces {
    if s == [] then b else Scan(s[1..], Count(b, s[0]))
  }

  function BraceDepth(s: string): int {
    Scan(s, Braces(0, false, false)).depth
  }

  lemma {:induction false} ScanConcat(a: string, c: string, b: Braces)
    ensures Scan(a + c, b) == Scan(c, Scan(a, b))
    decreases |a|
  {
    if a == [] {
      assert a + c == c;
    } else {
      ScanConcat(a[1..], c, Count(b, a[0]));
      assert (a + c)[1..] == a[1..] + c;
    }
  }

  /** `json_brace_depth` */
  method JsonBraceDepth(s: string) returns (depth: int)
    ensures depth == BraceDepth(s)
  {
    depth := 0;
    var inString, escaped := false, false;
    for i := 0 to |s|
      invariant Scan(s[i..], Braces(depth, inString, escaped)) == Scan(s, Braces(0, false, false))
    {
      var c := s[i];
      ghost var b := Braces(depth, inString, escaped);
      if escaped {
        escaped := false;
      } else if c == '\\' && inString {
        escaped := true;
      } else if c == '"' {
        inString := !inString;
      } else if !inString {
        if c == '{' {
          depth := depth + 1;
        } else if c == '}' {
          depth := depth - 1;
        }
      }
      assert Scan(s[i..], b) == Scan(s[i..][1..], Count(b, c));
      assert s[i..][1..] == s[i + 1..];
    }
  }

  /** `s` is read without changing the depth, ending inside or outside a string as it started. */
  ghost predicate Neutral(s: string, inString: bool) {
    forall d: int :: Scan(s, Braces(d, inString, false)) == Braces(d, inString, false)
  }

  lemma NeutralConcat(a: string, b: string, inString: bool)
    requires Neutral(a, inString) && Neutral(b, inString)
    ensures Neutral(a + b, inString)
  {
    forall d: int ensures Scan(a + b, Braces(d, inString, false)) == Braces(d, inString, false) {
      ScanConcat(a, b, Braces(d, inString, false));
    }
  }

  /** A neutral string body between quotes is neutral outside strings. */
  lemma NeutralQuoted(s: string)
    requires Neutral(s, true)
    ensures Neutral("\"" + s + "\"", false)
  {
    forall d: int ensures Scan("\"" + s + "\"", Braces(d, false, false)) == Braces(d, false, false) {
      ScanConcat("\"", s + "\"", Braces(d, false, false));
      ScanConcat(s, "\"", Braces(d, true, false));
      assert "\"" + s + "\"" == "\"" + (s + "\"");
      assert Scan("\"", Braces(d, false, false)) == Braces(d, true, false);
      assert Scan("\"", Braces(d, true, false)) == Braces(d, false, false);
    }
  }

  lemma NeutralBraced(s: string)
    requires Neutral(s, false)
    ensures Neutral("{" + s + "}", false)
  {
    forall d: int ensures Scan("{" + s + "}", Braces(d, false, false)) == Braces(d, false, false) {
      BracedScan(s, d);
    }
  }

  lemma BracedScan(s: string, d: int)
    requires Scan(s, Braces(d + 1, false, false)) == Braces(d + 1, false, false)
    ensures Scan("{" + s + "}", Braces(d, false, false)) == Braces(d, false, false)
  {
    ScanOne('{', Braces(d, false, false));
    ScanOne('}', Braces(d + 1, false, false));
    hide Scan;
    ScanConcat("{", s + "}", Braces(d, false, false));
    ScanConcat(s, "}", Braces(d + 1, false, false));
    assert "{" + s + "}" == "{" + (s + "}");
  }

  lemma ScanOne(c: char, b: Braces)
    ensures Scan([c], b) == Count(b, c)
  {
    assert [c][1..] == [];
  }

  /** Text without quotes or braces is neutral outside strings. */
  lemma {:induction false} NeutralPlain(s: string)
    requires forall i :: 0 <= i < |s| ==> s[i] != '"' && s[i] != '{' && s[i] != '}'
    ensures Neutral(s, false)
    decreases |s|
  {
    if s != [] {
      NeutralPlain(s[1..]);
    }
  }

  lemma {:induction false} EscapeNeutral(s: string)
    ensures Neutral(Escape(s), true)
    decreases |s|
  {
    if s != [] {
      EscapeNeutral(s[1..]);
      EscapeCharNeutral(s[0]);
      NeutralConcat(EscapeChar(s[0]), Escape(s[1..]), true);
    }
  }

  /** Inside a string, an escape pair and any other character but `"` leave the scan where it was. */
  lemma NeutralPair(e: char)
    ensures Neutral(['\\', e], true)
  {
    forall d: int ensures Scan(['\\', e], Braces(d, true, false)) == Braces(d, true, false) {
      assert ['\\', e][1..] == [e];
      assert Scan([e], Braces(d, true, true)) == Scan([], Braces(d, true, false));
    }
  }

  lemma NeutralSingle(c: char)
    requires c != '"' && c != '\\'
    ensures Neutral([c], true)
  {
    forall d: int ensures Scan([c], Braces(d, true, false)) == Braces(d, true, false) {
      assert [c][1..] == [];
    }
  }

  lemma {:induction false} NeutralInside(s: string)
    requires forall i :: 0 <= i < |s| ==> s[i] != '"' && s[i] != '\\'
    ensures Neutral(s, true)
    decreases |s|
  {
    if s != [] {
      NeutralSingle(s[0]);
      NeutralInside(s[1..]);
      NeutralConcat([s[0]], s[1..], true);
      assert [s[0]] + s[1..] == s;
    }
  }

  lemma EscapeCharNeutral(c: char)
    ensures Neutral(EscapeChar(c), true)
  {
    var e := EscapeChar(c);
    if |e| == 6 {
      var t := "00" + [HEX_DIGITS[c as nat / 16], HEX_DIGITS[c as nat % 16]];
      NeutralPair('u');
      NeutralInside(t);
      NeutralConcat(['\\', 'u'], t, true);
      assert e == ['\\', 'u'] + t;
    } else if |e| == 2 {
      NeutralPair(e[1]);
      assert e == ['\\', e[1]];
    } else {
      NeutralSingle(c);
    }
  }
}
