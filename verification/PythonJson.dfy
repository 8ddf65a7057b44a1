/** `normalize_quotes_to_json`: rewriting Python literals into JSON, one character at a time. */
module PythonJson {
  import opened Text

  // ---- The rewriting machine ----

  /** `Outside(prevWord)` remembers whether the previous input character was a word character. */
  datatype Mode = Outside(prevWord: bool) | Single | Double

  datatype Step = Step(out: string, used: nat, next: Mode)

  /** The end of the run of word characters that starts at `i`. */
  function WordEnd(s: string, i: nat): (n: nat)
    requires i <= |s|
    ensures i <= n <= |s|
    ensures forall k :: i <= k < n ==> IsWord(s[k])
    ensures n < |s| ==> !IsWord(s[n])
    decreases |s| - i
  {
    if i == |s| || !IsWord(s[i]) then i else WordEnd(s, i + 1)
  }

  function WordLen(s: string): (n: nat)
    ensures n <= |s|
  {
    WordEnd(s, 0)
  }

  predicate StartsLiteral(c: char) {
    c == 'T' || c == 'F' || c == 'N'
  }

  const LITERALS: seq<(string, string)> := [("True", "true"), ("False", "false"), ("None", "null")]

  /** The JSON spelling of a prefix of `True`, `False` or `None`: the first entry from `k` on that matches. */
  function MatchLiteral(token: string, k: nat): (r: Option<string>)
    requires k <= 3
    decreases 3 - k
  {
    if k == 3 then None
    else if token <= LITERALS[k].0 then Some(LITERALS[k].1[..|token|])
    else MatchLiteral(token, k + 1)
  }

  function JsonWord(token: string): Option<string> {
    MatchLiteral(token, 0)
  }

  function LexWord(s: string): (st: Step)
    requires s != [] && StartsLiteral(s[0])
    ensures 1 <= st.used <= |s|
  {
    var n := WordLen(s);
    match JsonWord(s[..n])
    case Some(js) => Step(js, n, Outside(true))
    case None => Step([s[0]], 1, Outside(true))
  }

  /** One iteration of the loop: what is written, how much input is used, the flags afterwards. */
  function Lex(s: string, m: Mode): (st: Step)
    requires s != []
    ensures 1 <= st.used <= |s|
  {
    var c := s[0];
    if c == '\\' && |s| > 1 then
      match m
      case Single =>
        if s[1] == '\'' then Step("'", 2, Single)
        else if s[1] == '"' then Step("\\\"", 2, Single)
        else Step([c, s[1]], 2, Single)
      case Double => Step([c, s[1]], 2, Double)
      case Outside(_) => Step([c], 1, Outside(false))
    else if c == '"' then
      match m
      case Single => Step("\\\"", 1, Single)
      case Double => Step([c], 1, Outside(false))
      case Outside(_) => Step([c], 1, Double)
    else if c == '\'' then
      match m
      case Single => Step("\"", 1, Outside(false))
      case Double => Step([c], 1, Double)
      case Outside(_) => Step("\"", 1, Single)
    else if m == Outside(false) && StartsLiteral(c) then
      LexWord(s)
    else
      Step([c], 1, if m.Outside? then Outside(IsWord(c)) else m)
  }

  /** What the loop appends for the remaining input `s`. */
  function Norm(s: string, m: Mode): string {
    if s == [] then [] else
      var st := Lex(s, m);
      st.out + Norm(s[st.used..], st.next)
  }

  function Normalize(input: string): string {
    Norm(input, Outside(false))
  }

  ghost predicate Flags(input: string, i: nat, inSingle: bool, inDouble: bool, m: Mode) {
    i <= |input| && match m
      case Single => inSingle && !inDouble
      case Double => !inSingle && inDouble
      case Outside(w) => !inSingle && !inDouble && w == (i > 0 && IsWord(input[i - 1]))
  }

  /** The branches of the loop body: what is appended, how far `i` moves, the flags afterwards. */
  method Branch(input: string, i: nat, single: bool, double: bool, ghost m: Mode)
    returns (out: string, used: nat, inSingle: bool, inDouble: bool)
    requires i < |input| && Flags(input, i, single, double, m)
    ensures var st := Lex(input[i..], m);
      out == st.out && used == st.used && Flags(input, i + used, inSingle, inDouble, st.next)
  {
    var c := input[i];
    inSingle, inDouble := single, double;
    ghost var rest := input[i..];
    assert rest[0] == c && (i + 1 < |input| ==> rest[1] == input[i + 1]);
    out, used := [c], 1;
    if c == '\\' && i + 1 < |input| {
      var next := input[i + 1];
      if inSingle {
        if next == '\'' {
          out, used := "'", 2;
        } else if next == '"' {
          out, used := "\\\"", 2;
        } else {
          out, used := [c, next], 2;
        }
      } else if inDouble {
        out, used := [c, next], 2;
      }
    } else if c == '"' {
      if inSingle {
        out := "\\\"";
      } else {
        inDouble := !inDouble;
      }
    } else if c == '\'' {
      if !inDouble {
        inSingle := !inSingle;
        out := "\"";
      }
    } else if !inSingle && !inDouble && StartsLiteral(c) && (i == 0 || !IsWord(input[i - 1])) {
      out, used := RewriteLiteral(input, i);
    }
  }

  method NormalizeQuotes(input: string) returns (result: string)
    ensures result == Normalize(input)
  {
    hide Lex;
    hide Norm;
    result := "";
    var inSingle, inDouble := false, false;
    var i := 0;
    ghost var m := Outside(false);
    assert input[0..] == input;
    while i < |input|
      invariant Flags(input, i, inSingle, inDouble, m)
      invariant result + Norm(input[i..], m) == Normalize(input)
    {
      ghost var rest := input[i..];
      NormStep(result, rest, m);
      var out, used;
      ghost var next := Lex(rest, m).next;
      out, used, inSingle, inDouble := Branch(input, i, inSingle, inDouble, m);
      assert rest[used..] == input[i + used..];
      result, i, m := result + out, i + used, next;
    }
    assert input[i..] == [];
    NormEmpty(m);
  }

  lemma NormStep(before: string, rest: string, m: Mode)
    requires rest != []
    ensures (before + Lex(rest, m).out) + Norm(rest[Lex(rest, m).used..], Lex(rest, m).next) == before + Norm(rest, m)
  {
  }

  /** The block for `T`, `F` and `N` at a word start: measure the token, then search the table. */
  method RewriteLiteral(input: string, i: nat) returns (out: string, used: nat)
    requires i < |input| && StartsLiteral(input[i])
    ensures input[i..][0] == input[i]
    ensures out == LexWord(input[i..]).out && used == LexWord(input[i..]).used
  {
    var n := 0;
    while i + n < |input| && IsWord(input[i + n])
      invariant i + n <= |input|
      invariant forall k :: 0 <= k < n ==> IsWord(input[i..][k])
    {
      n := n + 1;
    }
    WordLenUnique(input[i..], n);
    var token := input[i..i + n];
    assert token == input[i..][..n];
    for k := 0 to |LITERALS|
      invariant JsonWord(token) == MatchLiteral(token, k)
    {
      if token <= LITERALS[k].0 {
        return LITERALS[k].1[..n], n;
      }
    }
    return [input[i]], 1;
  }

  lemma WordLenUnique(s: string, n: nat)
    requires n <= |s|
    requires forall k :: 0 <= k < n ==> IsWord(s[k])
    requires n < |s| ==> !IsWord(s[n])
    ensures WordLen(s) == n
  {
    var w := WordEnd(s, 0);
    var _ := if w < |s| then s[w] else ' ';
    var _ := if n < |s| then s[n] else ' ';
  }

  // ---- Streaming: when is the image of a prefix a prefix of the image? ----

  /** What a cut after `p` interrupts. */
  datatype Cut = Between | InEscape | InWord(token: string)

  function CutOf(p: string, m: Mode): Cut {
    if p == [] then Between
    else if p == "\\" then (if m.Single? then InEscape else Between)
    else if m == Outside(false) && StartsLiteral(p[0]) && WordLen(p) == |p| && JsonWord(p).Some? then InWord(p)
    else
      var st := Lex(p, m);
      CutOf(p[st.used..], st.next)
  }

  /** Whether the text `t` after the cut completes the interrupted item the way the prefix assumed. */
  predicate Continues(cut: Cut, t: string) {
    match cut
    case Between => true
    case InEscape => t == [] || t[0] != '\''
    case InWord(token) => JsonWord(token + t[..WordLen(t)]).Some?
  }

  lemma WordLenConcat(p: string, t: string)
    ensures WordLen(p + t) == if WordLen(p) == |p| then |p| + WordLen(t) else WordLen(p)
  {
    WordLenUnique(p + t, if WordLen(p) == |p| then |p| + WordLen(t) else WordLen(p));
  }

  lemma LexWordLocal(p: string, t: string)
    requires p != [] && StartsLiteral(p[0])
    requires !(WordLen(p) == |p| && JsonWord(p).Some?)
    ensures LexWord(p + t) == LexWord(p)
  {
    WordLenConcat(p, t);
    if WordLen(p) == |p| {
      assert p[..|p|] == p;
      assert (p + t)[..WordLen(p + t)] == p + t[..WordLen(t)];
      if JsonWord(p + t[..WordLen(t)]).Some? { WordPrefix(p, t[..WordLen(t)]); }
    } else {
      assert (p + t)[..WordLen(p)] == p[..WordLen(p)];
    }
  }

  /** Away from an interrupted item one step does not see past the cut. */
  lemma LexLocal(p: string, t: string, m: Mode)
    requires p != [] && p != "\\"
    requires !(m == Outside(false) && StartsLiteral(p[0]) && WordLen(p) == |p| && JsonWord(p).Some?)
    ensures Lex(p + t, m) == Lex(p, m)
  {
    if m == Outside(false) && StartsLiteral(p[0]) {
      LexWordLocal(p, t);
    }
  }

  /** Each entry of the table starts with its own letter, so at most one can match. */
  lemma MatchAt(token: string, k: nat)
    requires k < 3 && token != [] && token <= LITERALS[k].0
    ensures JsonWord(token) == Some(LITERALS[k].1[..|token|])
    ensures LITERALS[k].1[..|token|][0] != token[0]
  {
    assert token[0] == LITERALS[k].0[0];
    assert MatchLiteral(token, k) == Some(LITERALS[k].1[..|token|]);
    if k > 0 { assert MatchLiteral(token, k - 1) == MatchLiteral(token, k); }
  }

  lemma WordPrefix(p: string, q: string)
    requires p != [] && JsonWord(p + q).Some?
    ensures JsonWord(p).Some? && JsonWord(p).value <= JsonWord(p + q).value
    ensures p[0] != JsonWord(p).value[0]
  {
    var k := if p + q <= LITERALS[0].0 then 0 else if p + q <= LITERALS[1].0 then 1 else 2;
    assert MatchLiteral(p + q, 3) == None;
    assert p + q <= LITERALS[k].0;
    MatchAt(p + q, k);
    MatchAt(p, k);
  }

  /** The image of a prefix is a prefix of the image exactly when the rest completes the interrupted item. */
  lemma {:induction false} PrefixMonotone(p: string, t: string, m: Mode)
    ensures Norm(p, m) <= Norm(p + t, m) <==> Continues(CutOf(p, m), t)
    decreases |p|
  {
    if p == [] {
    } else if p == "\\" {
      MonotoneEscape(t, m);
    } else if m == Outside(false) && StartsLiteral(p[0]) && WordLen(p) == |p| && JsonWord(p).Some? {
      MonotoneWord(p, t);
    } else {
      LexLocal(p, t, m);
      var st := Lex(p, m);
      assert (p + t)[st.used..] == p[st.used..] + t;
      PrefixMonotone(p[st.used..], t, st.next);
      PrefixOfConcat(st.out, Norm(p[st.used..], st.next), Norm(p[st.used..] + t, st.next));
    }
  }

  lemma MonotoneEscape(t: string, m: Mode)
    ensures Norm("\\", m) <= Norm("\\" + t, m) <==> Continues(CutOf("\\", m), t)
  {
    assert Norm("\\", m) == "\\";
    if t == [] {
      assert "\\" + t == "\\";
    } else {
      var s := "\\" + t;
      assert s[0] == '\\' && s[1] == t[0];
      var st := Lex(s, m);
      assert Norm(s, m)[0] == st.out[0];
    }
  }

  /** A word that reaches the end of `p` continues into `t`. */
  lemma LexWordAcross(p: string, t: string)
    requires p != [] && StartsLiteral(p[0]) && WordLen(p) == |p|
    ensures var token := p + t[..WordLen(t)];
      LexWord(p + t) == match JsonWord(token)
                        case Some(js) => Step(js, |token|, Outside(true))
                        case None => Step([p[0]], 1, Outside(true))
  {
    WordLenConcat(p, t);
    assert (p + t)[..WordLen(p + t)] == p + t[..WordLen(t)];
  }

  lemma NormWord(s: string)
    requires s != [] && StartsLiteral(s[0])
    ensures Norm(s, Outside(false)) == LexWord(s).out + Norm(s[LexWord(s).used..], LexWord(s).next)
  {
  }

  lemma NormEmpty(m: Mode)
    ensures Norm([], m) == []
  {
  }

  lemma MonotoneWord(p: string, t: string)
    requires p != [] && StartsLiteral(p[0]) && WordLen(p) == |p| && JsonWord(p).Some?
    ensures Norm(p, Outside(false)) <= Norm(p + t, Outside(false)) <==> Continues(InWord(p), t)
  {
    hide Norm;
    hide LexWord;
    hide WordLen;
    LexWordAcross(p, []);
    assert p + [] == p;
    var js := JsonWord(p).value;
    NormWord(p);
    NormEmpty(Outside(true));
    assert Norm(p, Outside(false)) == js;
    WordPrefix(p, []);
    LexWordAcross(p, t);
    NormWord(p + t);
    if JsonWord(p + t[..WordLen(t)]).Some? {
      WordPrefix(p, t[..WordLen(t)]);
    }
  }

  predicate Diverge(a: string, b: string) {
    exists i :: 0 <= i < |a| && i < |b| && a[i] != b[i]
  }

  lemma DivergeHead(a: string, b: string)
    requires a != [] && b != [] && a[0] != b[0]
    ensures Diverge(a, b)
  {
  }

  lemma DivergeAfter(p: string, a: string, b: string)
    requires Diverge(a, b)
    ensures Diverge(p + a, p + b)
  {
    var i :| 0 <= i < |a| && i < |b| && a[i] != b[i];
    assert (p + a)[|p| + i] != (p + b)[|p| + i];
  }

  /** An interrupted item that is not completed as assumed: the two images differ at some character. */
  lemma {:induction false} CutDiverges(p: string, t: string, m: Mode)
    requires !Continues(CutOf(p, m), t)
    ensures Diverge(Norm(p, m), Norm(p + t, m))
    decreases |p|
  {
    if p == "\\" {
      EscapeDiverges(t, m);
    } else if m == Outside(false) && StartsLiteral(p[0]) && WordLen(p) == |p| && JsonWord(p).Some? {
      WordDiverges(p, t);
    } else {
      LexLocal(p, t, m);
      var st := Lex(p, m);
      assert (p + t)[st.used..] == p[st.used..] + t;
      CutDiverges(p[st.used..], t, st.next);
      DivergeAfter(st.out, Norm(p[st.used..], st.next), Norm(p[st.used..] + t, st.next));
    }
  }

  lemma EscapeDiverges(t: string, m: Mode)
    requires !Continues(CutOf("\\", m), t)
    ensures Diverge(Norm("\\", m), Norm("\\" + t, m))
  {
    var s := "\\" + t;
    assert s[0] == '\\' && s[1] == t[0];
    assert Norm("\\", m) == "\\" && Lex(s, m).out == "'";
    DivergeHead(Norm("\\", m), Norm(s, m));
  }

  lemma WordDiverges(p: string, t: string)
    requires p != [] && StartsLiteral(p[0]) && WordLen(p) == |p| && JsonWord(p).Some?
    requires !Continues(InWord(p), t)
    ensures Diverge(Norm(p, Outside(false)), Norm(p + t, Outside(false)))
  {
    hide Norm;
    hide LexWord;
    hide WordLen;
    LexWordAcross(p, []);
    assert p + [] == p;
    NormWord(p);
    NormEmpty(Outside(true));
    WordPrefix(p, []);
    LexWordAcross(p, t);
    NormWord(p + t);
    DivergeHead(Norm(p, Outside(false)), Norm(p + t, Outside(false)));
  }
}
