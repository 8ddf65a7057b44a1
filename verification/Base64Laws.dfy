/** Round trips, sizes and alphabet detection of the base64 codec (sections 4 and 5 of RFC 4648). */
module Base64Laws {
  import opened Text
  import opened Base64

  // ---- Sizes ----

  /** The encoding is exactly as long as announced. */
  lemma {:induction false} EncodedSize(a: Alphabet, s: seq<Byte>)
    ensures |Encoded(a, s)| == RequiredEncodeSize(|s|)
    decreases |s|
  {
    if |s| > 3 {
      EncodedSize(a, s[3..]);
    }
  }

  /** The characters before the first `=`. */
  function Significant(s: seq<Byte>): (n: nat)
    ensures n <= |s| && (n < |s| ==> s[n] == '=' as int) && forall i :: 0 <= i < n ==> s[i] != '=' as int
  {
    if s == [] || s[0] == PAD then 0 else 1 + Significant(s[1..])
  }

  /** Bytes written for `n` further characters when `bits` bits are carried. */
  function Written(n: nat, bits: int): int {
    (6 * n + bits) / 8
  }

  lemma {:induction false} DecodeFromLength(a: Alphabet, b: Behavior, s: seq<Byte>, last: int, bits: int)
    requires Carry(last, bits) && DecodeFrom(a, b, s, last, bits).Ok?
    ensures |DecodeFrom(a, b, s, last, bits).value| == Written(Significant(s), bits)
    decreases |s|
  {
    if s != [] && s[0] != PAD {
      var (part, a') := Value(a, s[0]).value;
      DecodeFromLength(a', b, s[1..], part, if bits >= 2 then bits - 2 else bits + 6);
    }
  }

  /** A decoded text has three bytes for four characters before the padding, rounded down, and fits the buffer. */
  lemma DecodedLength(a: Alphabet, b: Behavior, s: seq<Byte>)
    requires Decoded(a, b, s).Ok?
    ensures |Decoded(a, b, s).value| == 3 * Significant(s) / 4 <= MaxDecodeSize(|s|)
  {
    DecodeFromLength(a, b, s, 0, 0);
  }

  /** The announced sizes are the least whole groups: of four characters and of three bytes. */
  lemma AnnouncedSizes(n: nat)
    ensures RequiredEncodeSize(n) % 4 == 0 && 4 * n <= 3 * RequiredEncodeSize(n) < 4 * n + 12
    ensures MaxDecodeSize(n) % 3 == 0 && 3 * n <= 4 * MaxDecodeSize(n) < 3 * n + 12
  {
  }

  // ---- Round trip ----

  /** Decoding with `d` reads what was encoded with `a`: the same alphabet, or still undetected. */
  predicate Reads(d: Alphabet, a: Alphabet) {
    d == Auto || d == a || (a == Auto && d == Standard)
  }

  lemma ValueOfSymbol(d: Alphabet, a: Alphabet, v: int)
    requires Reads(d, a) && 0 <= v < 64
    ensures Symbol(a, v) != PAD
    ensures Value(d, Symbol(a, v)).Ok? && Value(d, Symbol(a, v)).value.0 == v && Reads(Value(d, Symbol(a, v)).value.1, a)
  {
  }

  /** One encoded character in front of `t`. */
  lemma DecodeSymbol(d: Alphabet, a: Alphabet, b: Behavior, v: int, t: seq<Byte>, last: int, bits: int) returns (d': Alphabet)
    requires Reads(d, a) && 0 <= v < 64 && Carry(last, bits)
    ensures Reads(d', a)
    ensures DecodeFrom(d, b, [Symbol(a, v)] + t, last, bits)
         == if bits >= 2 then Prepend([Joined(last, v, bits)], DecodeFrom(d', b, t, v, bits - 2))
            else DecodeFrom(d', b, t, v, bits + 6)
  {
    ValueOfSymbol(d, a, v);
    d' := Value(d, Symbol(a, v)).value.1;
    assert ([Symbol(a, v)] + t)[1..] == t;
  }

  lemma DecodePads(d: Alphabet, b: Behavior, n: nat, last: int, bits: int)
    requires Carry(last, bits) && 1 <= n <= 2
    ensures DecodeFrom(d, b, if n == 1 then [PAD] else [PAD, PAD], last, bits) == Ok([])
  {
  }

  /** A full group decodes to its three bytes, wherever it stands. */
  lemma FullGroup(d: Alphabet, a: Alphabet, b: Behavior, g: seq<Byte>, t: seq<Byte>, last: int)
    returns (d': Alphabet, last': int)
    requires Reads(d, a) && |g| == 3 && 0 <= last < 64
    ensures Reads(d', a) && 0 <= last' < 64
    ensures DecodeFrom(d, b, Group(a, g) + t, last, 0) == Prepend(g, DecodeFrom(d', b, t, last', 0))
  {
    var v0, v1, v2, v3 := g[0] / 4, g[0] % 4 * 16 + g[1] / 16, g[1] % 16 * 4 + g[2] / 64, g[2] % 64;
    var t3 := [Symbol(a, v3)] + t;
    var t2 := [Symbol(a, v2)] + t3;
    var t1 := [Symbol(a, v1)] + t2;
    assert Group(a, g) + t == [Symbol(a, v0)] + t1;
    var d1 := DecodeSymbol(d, a, b, v0, t1, last, 0);
    var d2 := DecodeSymbol(d1, a, b, v1, t2, v0, 6);
    var d3 := DecodeSymbol(d2, a, b, v2, t3, v1, 4);
    d' := DecodeSymbol(d3, a, b, v3, t, v2, 2);
    last' := v3;
    assert Joined(v0, v1, 6) == g[0] && Joined(v1, v2, 4) == g[1] && Joined(v2, v3, 2) == g[2];
    var r := DecodeFrom(d', b, t, v3, 0);
    PrependTwice([g[1]], [g[2]], r);
    PrependTwice([g[0]], [g[1]] + [g[2]], r);
    assert [g[0]] + ([g[1]] + [g[2]]) == g;
  }

  /** A last group of one or two bytes, with its padding. */
  lemma PartialGroup(d: Alphabet, a: Alphabet, b: Behavior, g: seq<Byte>, last: int)
    requires Reads(d, a) && 1 <= |g| <= 2 && 0 <= last < 64
    ensures DecodeFrom(d, b, Group(a, g), last, 0) == Ok(g)
  {
    var i1 := if |g| > 1 then g[1] else 0;
    var v0, v1, v2 := g[0] / 4, g[0] % 4 * 16 + i1 / 16, i1 % 16 * 4;
    var t2 := if |g| == 1 then [PAD, PAD] else [Symbol(a, v2)] + [PAD];
    var t1 := [Symbol(a, v1)] + t2;
    assert Group(a, g) == [Symbol(a, v0)] + t1;
    var d1 := DecodeSymbol(d, a, b, v0, t1, last, 0);
    var d2 := DecodeSymbol(d1, a, b, v1, t2, v0, 6);
    assert Joined(v0, v1, 6) == g[0];
    if |g| == 1 {
      DecodePads(d2, b, 2, v1, 4);
      assert g == [g[0]] + [];
    } else {
      var d3 := DecodeSymbol(d2, a, b, v2, [PAD], v1, 4);
      DecodePads(d3, b, 1, v2, 2);
      assert Joined(v1, v2, 4) == g[1];
      assert g == [g[0]] + ([g[1]] + []);
    }
  }

  lemma {:induction false} RoundTripFrom(d: Alphabet, a: Alphabet, b: Behavior, s: seq<Byte>, last: int)
    requires Reads(d, a) && 0 <= last < 64
    ensures DecodeFrom(d, b, Encoded(a, s), last, 0) == Ok(s)
    decreases |s|
  {
    if s == [] {
    } else if |s| < 3 {
      PartialGroup(d, a, b, s, last);
    } else {
      var d', last' := FullGroup(d, a, b, s[..3], Encoded(a, s[3..]), last);
      RoundTripFrom(d', a, b, s[3..], last');
      assert s[..3] + s[3..] == s;
      if |s| == 3 {
        assert s[..3] == s && s[3..] == [];
        assert Group(a, s) + [] == Group(a, s);
      }
    }
  }

  /** Decoding an encoding returns the bytes, under the alphabet used and under automatic detection. */
  lemma RoundTrip(a: Alphabet, d: Alphabet, b: Behavior, s: seq<Byte>)
    requires d == Auto || d == a || (a == Auto && d == Standard)
    ensures Decoded(d, b, Encoded(a, s)) == Ok(s)
  {
    RoundTripFrom(d, a, b, s, 0);
  }

  // ---- Automatic detection ----

  /** Once an alphabet is known, decoding goes on as if it had been given. */
  lemma {:induction false} AutoFrom(b: Behavior, s: seq<Byte>, last: int, bits: int)
    requires Carry(last, bits)
    ensures var r, x, y := DecodeFrom(Auto, b, s, last, bits), DecodeFrom(Standard, b, s, last, bits), DecodeFrom(UrlSafe, b, s, last, bits);
      && (r.Ok? <==> x.Ok? || y.Ok?) && (x.Ok? ==> r == x) && (y.Ok? ==> r == y)
    decreases |s|
  {
    hide Joined;
    hide AllPad;
    if s != [] && s[0] != PAD && Value(Auto, s[0]).Ok? {
      var (part, a) := Value(Auto, s[0]).value;
      if a == Auto {
        AutoFrom(b, s[1..], part, if bits >= 2 then bits - 2 else bits + 6);
      }
    }
  }

  /** Detection accepts exactly what one of the two alphabets accepts, with the same bytes. */
  lemma AutoIsEither(b: Behavior, s: seq<Byte>)
    ensures Decoded(Auto, b, s).Ok? <==> Decoded(Standard, b, s).Ok? || Decoded(UrlSafe, b, s).Ok?
    ensures Decoded(Standard, b, s).Ok? ==> Decoded(Auto, b, s) == Decoded(Standard, b, s)
    ensures Decoded(UrlSafe, b, s).Ok? ==> Decoded(Auto, b, s) == Decoded(UrlSafe, b, s)
  {
    AutoFrom(b, s, 0, 0);
  }

  predicate StandardOnly(c: Byte) {
    c == '+' as int || c == '/' as int
  }

  predicate UrlSafeOnly(c: Byte) {
    c == '-' as int || c == '_' as int
  }

  /** A character outside the alphabet before the padding stops decoding. */
  lemma {:induction false} ForeignRejected(a: Alphabet, b: Behavior, s: seq<Byte>, last: int, bits: int, i: nat)
    requires Carry(last, bits) && i < Significant(s)
    requires (a == Standard && UrlSafeOnly(s[i])) || (a == UrlSafe && StandardOnly(s[i]))
    ensures DecodeFrom(a, b, s, last, bits).Err?
    decreases |s|
  {
    if i > 0 && Value(a, s[0]).Ok? {
      var (part, a') := Value(a, s[0]).value;
      ForeignRejected(a', b, s[1..], part, if bits >= 2 then bits - 2 else bits + 6, i - 1);
    }
  }

  /** Mixing the two alphabets before the padding is rejected, with every alphabet setting. */
  lemma MixedRejected(d: Alphabet, b: Behavior, s: seq<Byte>, i: nat, j: nat)
    requires i < Significant(s) && j < Significant(s)
    requires StandardOnly(s[i]) && UrlSafeOnly(s[j])
    ensures Decoded(d, b, s).Err?
  {
    ForeignRejected(Standard, b, s, 0, 0, j);
    ForeignRejected(UrlSafe, b, s, 0, 0, i);
    AutoIsEither(b, s);
  }
}
