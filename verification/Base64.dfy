/** `base64.hpp`: encoding, decoding with alphabet detection, and decoding in place. */
module Base64 {
  import opened Text

  datatype Alphabet = Auto | Standard | UrlSafe

  datatype Behavior = Moderate | Loose

  datatype Error = InvalidCharacter

  const PAD: Byte := '=' as int

  // ---- The tables ----

  /** The character of a six-bit value; automatic detection encodes with the standard alphabet. */
  function Symbol(a: Alphabet, v: int): (c: Byte)
    requires 0 <= v < 64
  {
    if v < 26 then 'A' as int + v
    else if v < 52 then 'a' as int + (v - 26)
    else if v < 62 then '0' as int + (v - 52)
    else if v == 62 then (if a == UrlSafe then '-' as int else '+' as int)
    else (if a == UrlSafe then '_' as int else '/' as int)
  }

  /** `_base64_value`: the value of a character and the alphabet afterwards. */
  function Value(a: Alphabet, c: Byte): (r: Result<(int, Alphabet), Error>)
    ensures r.Ok? ==> 0 <= r.value.0 < 64
  {
    if 'A' as int <= c <= 'Z' as int then Ok((c - 'A' as int, a))
    else if 'a' as int <= c <= 'z' as int then Ok((c - 'a' as int + 26, a))
    else if '0' as int <= c <= '9' as int then Ok((c - '0' as int + 52, a))
    else if a != UrlSafe && c == '+' as int then Ok((62, Standard))
    else if a != UrlSafe && c == '/' as int then Ok((63, Standard))
    else if a != Standard && c == '-' as int then Ok((62, UrlSafe))
    else if a != Standard && c == '_' as int then Ok((63, UrlSafe))
    else Err(InvalidCharacter)
  }

  // ---- Encoding ----

  /** The characters of one group of one, two or three bytes. */
  function Group(a: Alphabet, g: seq<Byte>): seq<Byte>
    requires 1 <= |g| <= 3
  {
    var i1, i2 := if |g| > 1 then g[1] else 0, if |g| > 2 then g[2] else 0;
    [Symbol(a, g[0] / 4), Symbol(a, g[0] % 4 * 16 + i1 / 16)] +
    (if |g| > 1 then [Symbol(a, i1 % 16 * 4 + i2 / 64)] else [PAD]) +
    (if |g| > 2 then [Symbol(a, i2 % 64)] else [PAD])
  }

  function Encoded(a: Alphabet, s: seq<Byte>): seq<Byte> {
    if s == [] then []
    else if |s| <= 3 then Group(a, s)
    else Group(a, s[..3]) + Encoded(a, s[3..])
  }

  method Encode(a: Alphabet, s: seq<Byte>) returns (out: seq<Byte>)
    ensures out == Encoded(a, s)
  {
    out := [];
    var i := 0;
    while i < |s|
      invariant 0 <= i <= |s|
      invariant out + Encoded(a, s[i..]) == Encoded(a, s)
    {
      ghost var from := i;
      var chars;
      chars, i := EncodeGroup(a, s, i);
      EncodedStep(a, s, from, i, out);
      out := out + chars;
    }
    assert s[|s|..] == [];
  }

  /** One pass of the loop: up to three bytes are read, four characters written. */
  method EncodeGroup(a: Alphabet, s: seq<Byte>, i: nat) returns (chars: seq<Byte>, next: nat)
    requires i < |s|
    ensures next == (if i + 3 <= |s| then i + 3 else |s|) && chars == Group(a, s[i..next])
  {
    hide Symbol;
    var i0 := s[i];
    next := i + 1;
    chars := [Symbol(a, i0 / 4)];
    if next == |s| {
      assert s[i..next] == [i0];
      chars := chars + [Symbol(a, i0 % 4 * 16)] + [PAD] + [PAD];
      return;
    }
    var i1 := s[next];
    next := next + 1;
    chars := chars + [Symbol(a, i0 % 4 * 16 + i1 / 16)];
    if next == |s| {
      assert s[i..next] == [i0, i1];
      chars := chars + [Symbol(a, i1 % 16 * 4)] + [PAD];
      return;
    }
    var i2 := s[next];
    next := next + 1;
    assert s[i..next] == [i0, i1, i2];
    chars := chars + [Symbol(a, i1 % 16 * 4 + i2 / 64)] + [Symbol(a, i2 % 64)];
  }

  lemma EncodedStep(a: Alphabet, s: seq<Byte>, i: nat, next: nat, out: seq<Byte>)
    requires i < |s| && next == if i + 3 <= |s| then i + 3 else |s|
    ensures out + Encoded(a, s[i..]) == out + Group(a, s[i..next]) + Encoded(a, s[next..])
  {
    var rest, n := s[i..], next - i;
    assert rest[..n] == s[i..next] && rest[n..] == s[next..];
    if |rest| <= 3 {
      assert rest[..n] == rest && rest[n..] == [];
    }
    assert Encoded(a, rest) == Group(a, rest[..n]) + Encoded(a, rest[n..]);
  }

  function RequiredEncodeSize(n: nat): nat {
    (n / 3 + (if n % 3 != 0 then 1 else 0)) * 4
  }

  function MaxDecodeSize(n: nat): nat {
    (n / 4 + (if n % 4 != 0 then 1 else 0)) * 3
  }

  // ---- Decoding ----

  /** The bits carried over between characters. */
  predicate Carry(last: int, bits: int) {
    0 <= last < 64 && (bits == 0 || bits == 2 || bits == 4 || bits == 6)
  }

  /** `(last << (8 - bits)) | (part >> (bits - 2))` as a byte: the carried low bits, then the new high bits. */
  function Joined(last: int, part: int, bits: int): Byte
    requires Carry(last, bits) && bits >= 2 && 0 <= part < 64
  {
    if bits == 2 then last % 4 * 64 + part
    else if bits == 4 then last % 16 * 16 + part / 4
    else last * 4 + part / 16
  }

  predicate AllPad(s: seq<Byte>) {
    forall i :: 0 <= i < |s| ==> s[i] == PAD
  }

  function Prepend(out: seq<Byte>, r: Result<seq<Byte>, Error>): Result<seq<Byte>, Error> {
    if r.Ok? then Ok(out + r.value) else r
  }

  /** The bytes the loop still writes for the rest of the input. */
  function DecodeFrom(a: Alphabet, b: Behavior, s: seq<Byte>, last: int, bits: int): Result<seq<Byte>, Error>
    requires Carry(last, bits)
    decreases |s|
  {
    if s == [] then Ok([])
    else if s[0] == PAD then (if b.Loose? || AllPad(s[1..]) then Ok([]) else Err(InvalidCharacter))
    else
      match Value(a, s[0])
      case Err(_) => Err(InvalidCharacter)
      case Ok((part, a')) =>
        if bits >= 2 then Prepend([Joined(last, part, bits)], DecodeFrom(a', b, s[1..], part, bits - 2))
        else DecodeFrom(a', b, s[1..], part, bits + 6)
  }

  function Decoded(a: Alphabet, b: Behavior, s: seq<Byte>): Result<seq<Byte>, Error> {
    DecodeFrom(a, b, s, 0, 0)
  }

  lemma PrependNothing(s: seq<Byte>, r: Result<seq<Byte>, Error>)
    ensures s[0..] == s && Prepend([], r) == r
  {
    if r.Ok? { assert [] + r.value == r.value; }
  }

  lemma PrependTwice(a: seq<Byte>, b: seq<Byte>, r: Result<seq<Byte>, Error>)
    ensures Prepend(a, Prepend(b, r)) == Prepend(a + b, r)
  {
    if r.Ok? { assert a + (b + r.value) == (a + b) + r.value; }
  }

  lemma DecodeStart(a: Alphabet, b: Behavior, s: seq<Byte>)
    ensures Prepend([], DecodeFrom(a, b, s[0..], 0, 0)) == Decoded(a, b, s)
  {
    PrependNothing(s, Decoded(a, b, s));
  }

  /** One pass of the loop. */
  lemma DecodeStep(a: Alphabet, b: Behavior, s: seq<Byte>, i: nat, last: int, bits: int, out: seq<Byte>)
    requires i < |s| && Carry(last, bits)
    ensures var r, v := Prepend(out, DecodeFrom(a, b, s[i..], last, bits)), Value(a, s[i]);
      if s[i] == PAD then r == (if b.Loose? || AllPad(s[i + 1..]) then Ok(out) else Err(InvalidCharacter))
      else if v.Err? then r == Err(InvalidCharacter)
      else
        var (part, a') := v.value;
        r == if bits >= 2 then Prepend(out + [Joined(last, part, bits)], DecodeFrom(a', b, s[i + 1..], part, bits - 2))
             else Prepend(out, DecodeFrom(a', b, s[i + 1..], part, bits + 6))
  {
    assert s[i..][0] == s[i] && s[i..][1..] == s[i + 1..] && out + [] == out;
    var v := Value(a, s[i]);
    if s[i] != PAD && v.Ok? && bits >= 2 {
      var (part, a') := v.value;
      PrependTwice(out, [Joined(last, part, bits)], DecodeFrom(a', b, s[i + 1..], part, bits - 2));
    }
  }

  lemma DecodeEnd(a: Alphabet, b: Behavior, s: seq<Byte>, last: int, bits: int, out: seq<Byte>)
    requires Carry(last, bits)
    ensures Prepend(out, DecodeFrom(a, b, s[|s|..], last, bits)) == Ok(out)
  {
    assert s[|s|..] == [] && out + [] == out;
  }

  method Decode(alphabet: Alphabet, b: Behavior, s: seq<Byte>) returns (r: Result<seq<Byte>, Error>)
    ensures r == Decoded(alphabet, b, s)
  {
    hide DecodeFrom;
    hide Joined;
    hide Value;
    hide Prepend;
    hide AllPad;
    var out: seq<Byte> := [];
    var a, last, bits, i := alphabet, 0, 0, 0;
    PrependNothing(s, Decoded(alphabet, b, s));
    while i < |s|
      invariant 0 <= i <= |s| && Carry(last, bits)
      invariant Prepend(out, DecodeFrom(a, b, s[i..], last, bits)) == Decoded(alphabet, b, s)
    {
      DecodeStep(a, b, s, i, last, bits, out);
      var c := s[i];
      i := i + 1;
      if c == PAD {
        if b.Moderate? {
          var clean := OnlyPad(s, i);
          if !clean {
            return Err(InvalidCharacter);
          }
        }
        return Ok(out);
      }
      var v := Value(a, c);
      if v.Err? {
        return Err(InvalidCharacter);
      }
      var part := v.value.0;
      a := v.value.1;
      if bits + 6 >= 8 {
        out := out + [Joined(last, part, bits)];
        bits := bits - 2;
      } else {
        bits := bits + 6;
      }
      last := part;
    }
    DecodeEnd(a, b, s, last, bits, out);
    return Ok(out);
  }

  /** The padding check. */
  method OnlyPad(s: seq<Byte>, from: nat) returns (clean: bool)
    requires from <= |s|
    ensures clean == AllPad(s[from..])
  {
    for i := from to |s|
      invariant forall k :: from <= k < i ==> s[k] == PAD
    {
      if s[i] != PAD {
        assert s[from..][i - from] == s[i];
        return false;
      }
    }
    return true;
  }

  /**
   * Decoding in place: the array is read at `i` and written at `w <= i`, so the input still to be read
   * is never overwritten; on success the first `r.value` bytes are the decoded ones.
   */
  method DecodeInPlace(str: array<Byte>, alphabet: Alphabet, b: Behavior) returns (r: Result<nat, Error>)
    modifies str
    ensures match Decoded(alphabet, b, old(str[..]))
      case Ok(bytes) => r == Ok(|bytes|) && |bytes| <= str.Length && str[..] == bytes + old(str[..])[|bytes|..]
      case Err(_) => r.Err?
  {
    hide Decoded;
    hide Symbol;
    hide DecodeFrom;
    hide Joined;
    hide Value;
    hide Prepend;
    hide AllPad;
    ghost var s := str[..];
    ghost var out: seq<Byte> := [];
    var a, last, bits, i, w := alphabet, 0, 0, 0, 0;
    DecodeStart(alphabet, b, s);
    while i < str.Length
      invariant 0 <= w <= i <= str.Length && Carry(last, bits)
      invariant w == |out| && str[..] == out + s[w..]
      invariant Prepend(out, DecodeFrom(a, b, s[i..], last, bits)) == Decoded(alphabet, b, s)
    {
      DecodeStep(a, b, s, i, last, bits, out);
      assert str[i] == str[..][i] == s[i];
      var c := str[i];
      i := i + 1;
      if c == PAD {
        if b.Moderate? {
          assert str[i..] == str[..][i..] == s[i..];
          var clean := OnlyPadIn(str, i);
          if !clean {
            return Err(InvalidCharacter);
          }
        }
        return Ok(w);
      }
      var v := Value(a, c);
      if v.Err? {
        return Err(InvalidCharacter);
      }
      var part := v.value.0;
      a := v.value.1;
      if bits + 6 >= 8 {
        var byte := Joined(last, part, bits);
        Overwrite(out, s, byte);
        Store(str, w, byte);
        out := out + [byte];
        w := w + 1;
        bits := bits - 2;
      } else {
        bits := bits + 6;
      }
      last := part;
    }
    DecodeEnd(a, b, s, last, bits, out);
    return Ok(w);
  }

  method Store(str: array<Byte>, w: nat, byte: Byte)
    requires w < str.Length
    modifies str
    ensures str[..] == old(str[..])[w := byte]
  {
    str[w] := byte;
  }

  lemma Overwrite(out: seq<Byte>, s: seq<Byte>, x: Byte)
    requires |out| < |s|
    ensures (out + s[|out|..])[|out| := x] == (out + [x]) + s[|out| + 1..]
  {
  }

  method OnlyPadIn(str: array<Byte>, from: nat) returns (clean: bool)
    requires from <= str.Length
    ensures clean == AllPad(str[from..])
  {
    for i := from to str.Length
      invariant forall k :: from <= k < i ==> str[k] == PAD
    {
      if str[i] != PAD {
        assert str[from..][i - from] == str[i];
        return false;
      }
    }
    return true;
  }
}
