/** Shared types, character classes and string helpers. */
module Text {

  datatype Option<+T> = None | Some(value: T)

  datatype Result<+T, +E> = Ok(value: T) | Err(error: E)

  type Byte = b: int | 0 <= b < 256

  /** `std::isalnum(c) || c == '_'` in the C locale. */
  predicate IsWord(c: char) {
    '0' <= c <= '9' || 'A' <= c <= 'Z' || 'a' <= c <= 'z' || c == '_'
  }

  /** `std::isspace(c)` in the C locale. */
  predicate IsSpace(c: char) {
    c == ' ' || '\t' <= c <= '\r'
  }

  function TrimTrailing(s: string): (r: string)
    ensures r <= s
    ensures r != [] ==> !IsSpace(r[|r| - 1])
    ensures forall i :: |r| <= i < |s| ==> IsSpace(s[i])
  {
    if s == [] || !IsSpace(s[|s| - 1]) then s else TrimTrailing(s[..|s| - 1])
  }

  /** The mapper trims argument names with at most one leading space. */
  function Trim(s: string): (r: string) {
    TrimTrailing(if s != [] && IsSpace(s[0]) then s[1..] else s)
  }

  /** The characters of the two classes. */
  lemma CharClasses(c: char)
    ensures IsSpace(c) <==> c in [' ', '\t', '\n', '\U{000b}', '\U{000c}', '\r']
    ensures IsWord(c) <==> c == '_' || 'a' <= c <= 'z' || 'A' <= c <= 'Z' || '0' <= c <= '9'
  {
  }

  /** Only white space. */
  predicate Spaces(ws: string) {
    forall c :: c in ws ==> IsSpace(c)
  }

  /** Text that does not end in white space is what remains. */
  lemma {:induction false} TrimTail(x: string, ws: string)
    requires Spaces(ws) && (x == [] || !IsSpace(x[|x| - 1]))
    ensures TrimTrailing(x + ws) == x
    decreases |ws|
  {
    if ws == [] {
      assert x + ws == x;
    } else {
      assert (x + ws)[..|x + ws| - 1] == x + ws[..|ws| - 1];
      TrimTail(x, ws[..|ws| - 1]);
    }
  }

  /** One white-space character in front is dropped, and all behind. */
  lemma TrimBoth(lead: string, x: string, ws: string)
    requires |lead| <= 1 && Spaces(lead) && Spaces(ws) && (x == [] || !IsSpace(x[|x| - 1]))
    requires lead == [] ==> x != [] && !IsSpace(x[0])
    ensures Trim(lead + x + ws) == x
  {
    TrimTail(x, ws);
    if lead == [] {
      assert lead + x + ws == x + ws;
    } else {
      assert (lead + x + ws)[1..] == x + ws;
    }
  }

  /** A bound of a Python slice of `n` items: negative positions count from the end, and all are clamped. */
  function Bound(x: int, n: nat): (r: nat)
    ensures r <= n && (0 <= x <= n ==> r == x)
  {
    if x >= n then n else if x >= 0 then x else if x + n > 0 then x + n else 0
  }

  /** The item at `i` is in `[lo:]` if it is not before `lo`, which counts from the end if negative; likewise for ends. */
  lemma BoundExactly(x: int, n: nat, i: nat)
    requires i < n
    ensures Bound(x, n) <= i <==> (if x < 0 then x + n else x) <= i
  {
  }

  lemma PrefixOfConcat<T>(a: seq<T>, b: seq<T>, c: seq<T>)
    ensures a + b <= a + c <==> b <= c
  {
    if a + b <= a + c {
      assert forall i :: 0 <= i < |b| ==> b[i] == (a + b)[|a| + i] == (a + c)[|a| + i] == c[i];
    }
  }
}
