/** Which texts base64 decoding accepts, and what encoded and decoded texts denote (sections 3 to 5 of RFC 4648). */
module Base64Meaning {
  import opened Text
  import opened Base64
  import opened Base64Laws

  // ---- Accepted texts ----

  predicate Letter(c: Byte) {
    || 'A' as int <= c <= 'Z' as int
    || 'a' as int <= c <= 'z' as int
    || '0' as int <= c <= '9' as int
  }

  /** A character of one alphabet. */
  predicate InAlphabet(d: Alphabet, c: Byte) {
    match d
    case Auto => false
    case Standard => Letter(c) || c == '+' as int || c == '/' as int
    case UrlSafe => Letter(c) || c == '-' as int || c == '_' as int
  }

  /** All characters before the first `=` are of the alphabet, and after it come only more, unless that is let pass. */
  predicate Readable(d: Alphabet, b: Behavior, s: seq<Byte>) {
    && (forall i :: 0 <= i < Significant(s) ==> InAlphabet(d, s[i]))
    && (b.Loose? || forall i :: Significant(s) < i < |s| ==> s[i] == '=' as int)
  }

  lemma ReadableStep(d: Alphabet, b: Behavior, s: seq<Byte>)
    requires s != [] && s[0] != '=' as int
    ensures Readable(d, b, s) <==> InAlphabet(d, s[0]) && Readable(d, b, s[1..])
  {
    var t := s[1..];
    assert Significant(s) == 1 + Significant(t);
    assert forall i :: 0 < i < |s| ==> s[i] == t[i - 1];
    assert forall i :: 0 <= i < |t| ==> t[i] == s[i + 1];
  }

  lemma ReadablePads(d: Alphabet, b: Behavior, s: seq<Byte>)
    requires s == [] || s[0] == '=' as int
    ensures Readable(d, b, s) <==> s == [] || b.Loose? || AllPad(s[1..])
  {
    if s != [] { assert forall i :: 0 < i < |s| ==> s[i] == s[1..][i - 1]; }
  }

  lemma ValueAccepts(d: Alphabet, c: Byte)
    requires d != Auto
    ensures Value(d, c).Ok? <==> InAlphabet(d, c)
    ensures Value(d, c).Ok? ==> Value(d, c).value.1 == d
  {
  }

  lemma {:induction false} FixedAccepts(d: Alphabet, b: Behavior, s: seq<Byte>, last: int, bits: int)
    requires d != Auto && Carry(last, bits)
    ensures DecodeFrom(d, b, s, last, bits).Ok? <==> Readable(d, b, s)
    decreases |s|
  {
    hide Readable;
    hide InAlphabet;
    hide AllPad;
    hide Joined;
    if s == [] || s[0] == PAD {
      ReadablePads(d, b, s);
    } else {
      ReadableStep(d, b, s);
      ValueAccepts(d, s[0]);
      if Value(d, s[0]).Ok? {
        FixedAccepts(d, b, s[1..], Value(d, s[0]).value.0, if bits >= 2 then bits - 2 else bits + 6);
      }
    }
  }

  /** Decoding accepts exactly the texts readable in an alphabet that the setting admits. */
  lemma DecodedAccepts(a: Alphabet, b: Behavior, s: seq<Byte>)
    ensures Decoded(a, b, s).Ok? <==>
      (a != UrlSafe && Readable(Standard, b, s)) || (a != Standard && Readable(UrlSafe, b, s))
  {
    FixedAccepts(Standard, b, s, 0, 0);
    FixedAccepts(UrlSafe, b, s, 0, 0);
    AutoIsEither(b, s);
  }

  // ---- Bits ----

  /** The six bits of a character of either alphabet. */
  function SixBits(c: Byte): (v: nat)
    ensures v < 64
  {
    if 'A' as int <= c <= 'Z' as int then c - 'A' as int
    else if 'a' as int <= c <= 'z' as int then 26 + c - 'a' as int
    else if '0' as int <= c <= '9' as int then 52 + c - '0' as int
    else if c == '+' as int || c == '-' as int then 62
    else 63
  }

  /** The number whose bits are those of `x`, then those of the characters before the first `=`. */
  function CharBits(x: nat, s: seq<Byte>): nat
    decreases |s|
  {
    if s == [] || s[0] == '=' as int then x else CharBits(64 * x + SixBits(s[0]), s[1..])
  }

  /** The number whose bits are those of `x`, then those of the bytes. */
  function ByteBits(x: nat, s: seq<Byte>): nat
    decreases |s|
  {
    if s == [] then x else ByteBits(256 * x + s[0], s[1..])
  }

  /** Two to the number of bits carried. */
  function Power(bits: int): (n: nat)
    ensures n == 1 || n == 4 || n == 16 || n == 64
  {
    if bits == 6 then 64 else if bits == 4 then 16 else if bits == 2 then 4 else 1
  }

  lemma ValueBits(a: Alphabet, c: Byte)
    requires Value(a, c).Ok?
    ensures SixBits(c) == Value(a, c).value.0
  {
  }

  /** The bits read so far: those written as bytes, and those carried. */
  function Read(x: nat, last: int, bits: int): nat
    requires Carry(last, bits)
  {
    x * Power(bits) + last % Power(bits)
  }

  /** One character: its bits are appended, and a byte is complete if two or more were carried. */
  lemma ReadOne(x: nat, last: int, part: int, bits: int)
    requires Carry(last, bits) && 0 <= part < 64
    ensures 64 * Read(x, last, bits) + part == if bits >= 2
      then Read(256 * x + Joined(last, part, bits), part, bits - 2) else Read(x, part, bits + 6)
  {
  }

  /** Bits left over when the text ends. */
  function LeftOver(n: nat, bits: int): int {
    (6 * n + bits) % 8
  }

  /** A number without its last bits. */
  function Cut(y: nat, bits: int): nat {
    y / Power(bits)
  }

  lemma ReadDone(x: nat, last: int, bits: int)
    requires Carry(last, bits)
    ensures Cut(Read(x, last, bits), LeftOver(0, bits)) == x
  {
  }

  lemma LeftStep(n: nat, bits: int)
    ensures LeftOver(n + 1, bits) == LeftOver(n, if bits >= 2 then bits - 2 else bits + 6)
  {
  }

  lemma {:induction false} DecodeFromBits(x: nat, a: Alphabet, b: Behavior, s: seq<Byte>, last: int, bits: int)
    requires Carry(last, bits) && DecodeFrom(a, b, s, last, bits).Ok?
    ensures Cut(CharBits(Read(x, last, bits), s), LeftOver(Significant(s), bits))
         == ByteBits(x, DecodeFrom(a, b, s, last, bits).value)
    decreases |s|
  {
    hide Joined;
    hide Read;
    hide Value;
    hide SixBits;
    hide Cut;
    hide LeftOver;
    hide AllPad;
    if s == [] || s[0] == PAD {
      ReadDone(x, last, bits);
    } else {
      var (part, a') := Value(a, s[0]).value;
      ValueBits(a, s[0]);
      ReadOne(x, last, part, bits);
      LeftStep(Significant(s[1..]), bits);
      if bits >= 2 {
        var y := Joined(last, part, bits);
        var rest := DecodeFrom(a', b, s[1..], part, bits - 2);
        DecodeFromBits(256 * x + y, a', b, s[1..], part, bits - 2);
        ByteStep(x, y, rest.value);
      } else {
        DecodeFromBits(x, a', b, s[1..], part, bits + 6);
      }
    }
  }

  lemma ByteStep(x: nat, y: Byte, t: seq<Byte>)
    ensures ByteBits(x, [y] + t) == ByteBits(256 * x + y, t)
  {
    assert ([y] + t)[1..] == t;
  }

  /** What a text decodes to: its characters' bits, without those that do not fill a byte. */
  lemma DecodedBits(a: Alphabet, b: Behavior, s: seq<Byte>)
    requires Decoded(a, b, s).Ok?
    ensures ByteBits(0, Decoded(a, b, s).value) == CharBits(0, s) / Power(6 * Significant(s) % 8)
  {
    DecodeFromBits(0, a, b, s, 0, 0);
  }

  /** One encoded character in front of others. */
  lemma CharStep(x: nat, a: Alphabet, v: int, t: seq<Byte>)
    requires 0 <= v < 64
    ensures CharBits(x, [Symbol(a, v)] + t) == CharBits(64 * x + v, t)
    ensures Symbol(a, v) != '=' as int && InAlphabet(if a == UrlSafe then UrlSafe else Standard, Symbol(a, v))
  {
    assert ([Symbol(a, v)] + t)[1..] == t;
  }

  lemma PadStops(x: nat, t: seq<Byte>)
    ensures CharBits(x, [PAD] + t) == x
  {
  }

  /** Three bytes become four characters with the same bits. */
  lemma FullGroupBits(x: nat, a: Alphabet, g: seq<Byte>, t: seq<Byte>)
    requires |g| == 3
    ensures CharBits(x, Group(a, g) + t) == CharBits(ByteBits(x, g), t)
  {
    hide CharBits;
    hide Symbol;
    var v0, v1, v2, v3 := g[0] / 4, g[0] % 4 * 16 + g[1] / 16, g[1] % 16 * 4 + g[2] / 64, g[2] % 64;
    var t3 := [Symbol(a, v3)] + t;
    var t2 := [Symbol(a, v2)] + t3;
    var t1 := [Symbol(a, v1)] + t2;
    assert Group(a, g) + t == [Symbol(a, v0)] + t1;
    CharStep(x, a, v0, t1);
    CharStep(64 * x + v0, a, v1, t2);
    CharStep(64 * (64 * x + v0) + v1, a, v2, t3);
    CharStep(64 * (64 * (64 * x + v0) + v1) + v2, a, v3, t);
    ThreeBytes(x, g);
  }

  lemma ThreeBytes(x: nat, g: seq<Byte>)
    requires |g| == 3
    ensures ByteBits(x, g) == 256 * (256 * (256 * x + g[0]) + g[1]) + g[2]
  {
    hide ByteBits;
    NoBits(256 * (256 * (256 * x + g[0]) + g[1]) + g[2]);
    ByteStep(256 * (256 * x + g[0]) + g[1], g[2], []);
    ByteStep(256 * x + g[0], g[1], [g[2]] + []);
    ByteStep(x, g[0], [g[1]] + ([g[2]] + []));
    assert g == [g[0]] + ([g[1]] + ([g[2]] + []));
  }

  lemma TwoBytes(x: nat, g: seq<Byte>)
    requires 1 <= |g| <= 2
    ensures ByteBits(x, g) == if |g| == 1 then 256 * x + g[0] else 256 * (256 * x + g[0]) + g[1]
  {
    hide ByteBits;
    if |g| == 1 {
      NoBits(256 * x + g[0]);
      ByteStep(x, g[0], []);
      assert g == [g[0]] + [];
    } else {
      NoBits(256 * (256 * x + g[0]) + g[1]);
      ByteStep(256 * x + g[0], g[1], []);
      ByteStep(x, g[0], [g[1]] + []);
      assert g == [g[0]] + ([g[1]] + []);
    }
  }

  /** A last group of one or two bytes: their bits, then zeros. */
  lemma PartialGroupBits(x: nat, a: Alphabet, g: seq<Byte>)
    requires 1 <= |g| <= 2
    ensures CharBits(x, Group(a, g)) == ByteBits(x, g) * (if |g| == 1 then 16 else 4)
  {
    hide CharBits;
    hide ByteBits;
    hide Symbol;
    var i1 := if |g| > 1 then g[1] else 0;
    var v0, v1, v2 := g[0] / 4, g[0] % 4 * 16 + i1 / 16, i1 % 16 * 4;
    var t2 := if |g| == 1 then [PAD] + [PAD] else [Symbol(a, v2)] + ([PAD] + []);
    assert Group(a, g) == [Symbol(a, v0)] + ([Symbol(a, v1)] + t2);
    CharStep(x, a, v0, [Symbol(a, v1)] + t2);
    CharStep(64 * x + v0, a, v1, t2);
    TwoBytes(x, g);
    if |g| == 1 {
      PadStops(64 * (64 * x + v0) + v1, [PAD]);
    } else {
      CharStep(64 * (64 * x + v0) + v1, a, v2, [PAD] + []);
      PadStops(64 * (64 * (64 * x + v0) + v1) + v2, []);
    }
  }

  lemma EncodedSplit(a: Alphabet, s: seq<Byte>)
    ensures s == [] ==> Encoded(a, s) == []
    ensures 0 < |s| < 3 ==> Encoded(a, s) == Group(a, s)
    ensures |s| >= 3 ==> Encoded(a, s) == Group(a, s[..3]) + Encoded(a, s[3..])
  {
    hide Group;
    if |s| == 3 { assert s[..3] == s && s[3..] == [] && Group(a, s) + [] == Group(a, s); }
  }

  /** How far the bits of the last group are shifted. */
  function Shift(n: nat): nat {
    if n % 3 == 1 then 16 else if n % 3 == 2 then 4 else 1
  }

  lemma {:induction false} EncodedFromBits(x: nat, a: Alphabet, s: seq<Byte>)
    ensures CharBits(x, Encoded(a, s)) == ByteBits(x, s) * Shift(|s|)
    decreases |s|
  {
    hide CharBits;
    hide ByteBits;
    hide Encoded;
    hide Group;
    EncodedSplit(a, s);
    if s == [] {
      NoBits(x);
    } else if |s| < 3 {
      PartialGroupBits(x, a, s);
    } else {
      FullGroupBits(x, a, s[..3], Encoded(a, s[3..]));
      EncodedFromBits(ByteBits(x, s[..3]), a, s[3..]);
      BytesSplit(x, s);
      assert Shift(|s[3..]|) == Shift(|s|);
    }
  }

  lemma NoBits(x: nat)
    ensures CharBits(x, []) == x && ByteBits(x, []) == x
  {
  }

  lemma BytesSplit(x: nat, s: seq<Byte>)
    requires |s| >= 3
    ensures ByteBits(x, s) == ByteBits(ByteBits(x, s[..3]), s[3..])
  {
    ThreeBytes(x, s[..3]);
    assert s[1..][1..][1..] == s[3..] && s[1..][1..] == s[2..];
    assert ByteBits(x, s) == ByteBits(256 * x + s[0], s[1..]);
    assert ByteBits(256 * x + s[0], s[1..]) == ByteBits(256 * (256 * x + s[0]) + s[1], s[2..]);
  }

  /** What bytes are encoded to: the same bits, and zeros up to a whole character. */
  lemma EncodedBits(a: Alphabet, s: seq<Byte>)
    ensures CharBits(0, Encoded(a, s)) == ByteBits(0, s) * (if |s| % 3 == 1 then 16 else if |s| % 3 == 2 then 4 else 1)
  {
    EncodedFromBits(0, a, s);
  }

  /** Every encoding is readable in its alphabet, padding included. */
  lemma EncodedReadable(a: Alphabet, s: seq<Byte>)
    ensures Readable(if a == UrlSafe then UrlSafe else Standard, Moderate, Encoded(a, s))
  {
    var d := if a == UrlSafe then UrlSafe else Standard;
    RoundTrip(a, d, Moderate, s);
    FixedAccepts(d, Moderate, Encoded(a, s), 0, 0);
  }
}
