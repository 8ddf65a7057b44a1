/** The legacy GGML loaders: vocabulary, tensor headers and the walk over the tensors of a file. */
module Ggml {
  import opened Text

  datatype Failure = ShortRead | ItemLength | Dimensions | NameLength | UnknownType

  // ---- 64-bit arithmetic ----

  const WORDS := 0x1_0000_0000_0000_0000
  const LIMIT := 0x8000_0000_0000_0000

  /** The value of `x` in a signed 64-bit integer. */
  function Wrap(x: int): (r: int)
    ensures -LIMIT <= r < LIMIT
  {
    (x + LIMIT) % WORDS - LIMIT
  }

  lemma WrapSmall(x: int)
    ensures Wrap(x) == x <==> -LIMIT <= x < LIMIT
  {
  }

  /** Wrapping changes a number by whole words. */
  lemma WrapWhole(x: int) returns (k: int)
    ensures Wrap(x) == x - WORDS * k
  {
    k := (x + LIMIT) / WORDS;
  }

  lemma WrapShift(x: int, k: int)
    ensures Wrap(x + WORDS * k) == Wrap(x)
  {
    var a := WrapWhole(x);
    var b := WrapWhole(x + WORDS * k);
  }

  lemma WrapTimes(a: int, b: int)
    ensures Wrap(Wrap(a) * b) == Wrap(a * b)
  {
    var k := WrapWhole(a);
    assert Wrap(a) * b == a * b + WORDS * (-(k * b)) by {
      assert (a - WORDS * k) * b == a * b - WORDS * (k * b);
    }
    WrapShift(a * b, -(k * b));
  }

  // ---- Reading ----

  /** `data[lo:hi]`. */
  function Slice(data: seq<Byte>, lo: int, hi: int): (r: seq<Byte>)
    ensures 0 <= lo <= hi <= |data| ==> r == data[lo..hi]
  {
    var from, to := Bound(lo, |data|), Bound(hi, |data|);
    if from <= to then data[from..to] else []
  }

  function LittleEndian(a: int, b: int, c: int, d: int): (r: int)
    ensures 0 <= a < 256 && 0 <= b < 256 && 0 <= c < 256 && 0 <= d < 256 ==> 0 <= r < 0x1_0000_0000
  {
    a + 0x100 * b + 0x1_0000 * c + 0x100_0000 * d
  }

  /** The `k`-th little-endian 32-bit word. */
  function Word(s: seq<Byte>, k: nat): nat
    requires 4 * k + 4 <= |s|
  {
    LittleEndian(s[4 * k], s[4 * k + 1], s[4 * k + 2], s[4 * k + 3])
  }

  function Words(s: seq<Byte>, n: nat): seq<nat>
    requires |s| == 4 * n
  {
    seq(n, k requires 0 <= k < n => Word(s, k))
  }

  // ---- Vocabulary ----

  datatype Item = Item(text: seq<Byte>, score: seq<Byte>)

  /** One item at `offset`, and where it ends; text cut short by the end of the file is kept as it is. */
  function ReadItem(data: seq<Byte>, offset: nat, scores: bool): (r: Result<(Item, nat), Failure>)
    ensures r.Ok? ==> offset + 4 <= r.value.1
  {
    var head := Slice(data, offset, offset + 4);
    if |head| != 4 then Err(ShortRead)
    else if Word(head, 0) >= 4096 then Err(ItemLength)
    else
      var at := offset + 4 + Word(head, 0);
      var text := Slice(data, offset + 4, at);
      var score := if scores then Slice(data, at, at + 4) else [];
      if scores && |score| != 4 then Err(ShortRead)
      else Ok((Item(text, score), if scores then at + 4 else at))
  }

  /** The number in four bytes, the lowest first. */
  function Number(data: seq<Byte>, at: nat): nat
    requires at + 4 <= |data|
  {
    var (a: nat, b: nat, c: nat, d: nat) := (data[at], data[at + 1], data[at + 2], data[at + 3]);
    a + 0x100 * b + 0x1_0000 * c + 0x100_0000 * d
  }

  /** The length of an item is in the file and below 4096, and its score, if scores are wanted, is in the file, too. */
  predicate ItemThere(data: seq<Byte>, offset: nat, scores: bool) {
    offset + 4 <= |data| && var n := Number(data, offset); n < 4096 && (scores ==> offset + 4 + n + 4 <= |data|)
  }

  /** Exactly then an item is read; the text is what the file still has of it. */
  lemma ItemExactly(data: seq<Byte>, offset: nat, scores: bool)
    ensures var r := ReadItem(data, offset, scores);
      if !ItemThere(data, offset, scores) then
        r == Err(if offset + 4 <= |data| && Number(data, offset) >= 4096 then ItemLength else ShortRead)
      else
        var at := offset + 4 + Number(data, offset);
        var text := data[offset + 4..if at < |data| then at else |data|];
        r == Ok(if scores then (Item(text, data[at..at + 4]), at + 4) else (Item(text, []), at))
  {
    if offset + 4 <= |data| {
      var head := data[offset..offset + 4];
      assert Slice(data, offset, offset + 4) == head && Word(head, 0) == Number(data, offset);
    }
  }

  /** `n` records read after those in `before`, and where reading stopped. */
  function ReadMany<T>(read: nat -> Result<(T, nat), Failure>, offset: nat, n: nat, before: seq<T>): Result<(seq<T>, nat), Failure>
    decreases n
  {
    if n == 0 then Ok((before, offset))
    else
      var one := read(offset);
      if one.Err? then Err(one.error)
      else ReadMany(read, one.value.1, n - 1, before + [one.value.0])
  }

  function ItemReader(data: seq<Byte>, scores: bool): nat -> Result<(Item, nat), Failure> {
    (offset: nat) => ReadItem(data, offset, scores)
  }

  function Items(data: seq<Byte>, offset: nat, n: nat, scores: bool, before: seq<Item>): Result<(seq<Item>, nat), Failure> {
    ReadMany(ItemReader(data, scores), offset, n, before)
  }

  class Vocab {
    var items: seq<Item>
    const loadScores: bool

    constructor (loadScores: bool)
      ensures items == [] && this.loadScores == loadScores
    {
      items := [];
      this.loadScores := loadScores;
    }

    /** Reads `n` items and says how many bytes they took. */
    method Load(data: seq<Byte>, offset: nat, n: nat) returns (r: Result<int, Failure>)
      modifies this`items
      ensures var all := Items(data, offset, n, loadScores, old(items));
        if all.Err? then r == Err(all.error)
        else items == all.value.0 && r == Ok(all.value.1 - offset)
    {
      hide ReadItem;
      ghost var read := ItemReader(data, loadScores);
      var at: nat := offset;
      for i := 0 to n
        invariant offset <= at
        invariant ReadMany(read, offset, n, old(items)) == ReadMany(read, at, n - i, items)
      {
        var one := ReadOne(data, at, loadScores);
        ReadFirst(read, at, n - i, items, one);
        if one.Err? { return Err(one.error); }
        items := items + [one.value.0];
        at := one.value.1;
      }
      return Ok(at - offset);
    }
  }

  lemma ReadFirst<T>(read: nat -> Result<(T, nat), Failure>, offset: nat, n: nat, before: seq<T>, one: Result<(T, nat), Failure>)
    requires n > 0 && read(offset) == one
    ensures ReadMany(read, offset, n, before) ==
      if one.Err? then Err(one.error) else ReadMany(read, one.value.1, n - 1, before + [one.value.0])
  {
  }

  /** The body of the vocabulary loop. */
  method ReadOne(data: seq<Byte>, offset: nat, scores: bool) returns (r: Result<(Item, nat), Failure>)
    ensures r == ItemReader(data, scores)(offset)
  {
    hide Bound;
    hide Word;
    var at := offset;
    var head := Slice(data, at, at + 4);
    if |head| != 4 { return Err(ShortRead); }
    var length := Word(head, 0);
    if length >= 4096 { return Err(ItemLength); }
    at := at + 4;
    var text := Slice(data, at, at + length);
    at := at + length;
    var score: seq<Byte> := [];
    if scores {
      score := Slice(data, at, at + 4);
      if |score| != 4 { return Err(ShortRead); }
      at := at + 4;
    }
    return Ok((Item(text, score), at));
  }

  /** The low byte. */
  function Low(n: nat): Byte { n % 0x100 }

  lemma LowHigh(n: nat)
    ensures n == Low(n) + 0x100 * (n / 0x100)
  {
  }

  /** The little-endian 32-bit word of `n`. */
  function WordBytes(n: nat): (r: seq<Byte>)
    ensures |r| == 4 && (n < 0x1_0000_0000 ==> Word(r, 0) == n)
  {
    var a := n / 0x100;
    var b := a / 0x100;
    var c := b / 0x100;
    LowHigh(n);
    LowHigh(a);
    LowHigh(b);
    LowHigh(c);
    [Low(n), Low(a), Low(b), Low(c)]
  }

  function PrintItem(item: Item): seq<Byte> {
    WordBytes(|item.text|) + item.text + item.score
  }

  predicate Fit(item: Item, scores: bool) {
    |item.text| < 4096 && |item.score| == (if scores then 4 else 0)
  }

  /** `part` stands in the file at `at`. */
  predicate Stands(data: seq<Byte>, at: nat, part: seq<Byte>) {
    at + |part| <= |data| && data[at..at + |part|] == part
  }

  lemma StandsParts(data: seq<Byte>, at: nat, a: seq<Byte>, b: seq<Byte>)
    requires Stands(data, at, a + b)
    ensures Stands(data, at, a) && Stands(data, at + |a|, b)
  {
    var whole := data[at..at + |a + b|];
    assert data[at..at + |a|] == whole[..|a|] == a;
    assert data[at + |a|..at + |a| + |b|] == whole[|a|..] == b;
  }

  lemma SliceStands(data: seq<Byte>, at: nat, part: seq<Byte>)
    requires Stands(data, at, part)
    ensures Slice(data, at, at + |part|) == part && at + |part| <= |data|
  {
  }

  /** One item printed at the current position is read back. */
  lemma ItemRead(data: seq<Byte>, at: nat, item: Item, scores: bool)
    requires Fit(item, scores) && Stands(data, at, PrintItem(item))
    ensures ReadItem(data, at, scores) == Ok((item, at + |PrintItem(item)|))
  {
    hide Slice;
    hide Word;
    hide WordBytes;
    hide Stands;
    var head := WordBytes(|item.text|);
    StandsParts(data, at, head + item.text, item.score);
    StandsParts(data, at, head, item.text);
    SliceStands(data, at, head);
    SliceStands(data, at + 4, item.text);
    SliceStands(data, at + 4 + |item.text|, item.score);
  }

  function PrintItems(items: seq<Item>): seq<Byte> {
    if items == [] then [] else PrintItem(items[0]) + PrintItems(items[1..])
  }

  /** Reading at `at` and after gives these items, each taking its printed size. */
  predicate ReadsBack(read: nat -> Result<(Item, nat), Failure>, at: nat, items: seq<Item>)
    decreases |items|
  {
    items == [] ||
    (read(at) == Ok((items[0], at + |PrintItem(items[0])|)) && ReadsBack(read, at + |PrintItem(items[0])|, items[1..]))
  }

  function Size(items: seq<Item>): nat {
    if items == [] then 0 else |PrintItem(items[0])| + Size(items[1..])
  }

  lemma {:induction false} ManyRead(read: nat -> Result<(Item, nat), Failure>, at: nat, items: seq<Item>, before: seq<Item>)
    requires ReadsBack(read, at, items)
    ensures ReadMany(read, at, |items|, before) == Ok((before + items, at + Size(items)))
    decreases |items|
  {
    if items == [] {
      assert before + items == before;
    } else {
      ManyRead(read, at + |PrintItem(items[0])|, items[1..], before + [items[0]]);
      assert before + [items[0]] + items[1..] == before + items;
    }
  }

  lemma OneBack(data: seq<Byte>, at: nat, items: seq<Item>, scores: bool)
    requires items != [] && Fit(items[0], scores) && Stands(data, at, PrintItems(items))
    ensures ItemReader(data, scores)(at) == Ok((items[0], at + |PrintItem(items[0])|))
    ensures Stands(data, at + |PrintItem(items[0])|, PrintItems(items[1..]))
  {
    StandsParts(data, at, PrintItem(items[0]), PrintItems(items[1..]));
    ItemRead(data, at, items[0], scores);
  }

  lemma {:induction false} AllBack(data: seq<Byte>, at: nat, items: seq<Item>, scores: bool)
    requires forall k :: 0 <= k < |items| ==> Fit(items[k], scores)
    requires Stands(data, at, PrintItems(items))
    ensures ReadsBack(ItemReader(data, scores), at, items) && Size(items) == |PrintItems(items)|
    decreases |items|
  {
    hide ReadItem;
    hide ItemReader;
    hide PrintItem;
    hide Stands;
    if items != [] {
      OneBack(data, at, items, scores);
      AllBack(data, at + |PrintItem(items[0])|, items[1..], scores);
    }
  }

  /** The vocabulary loader inverts the file layout: it returns the printed items and stops after them. */
  lemma VocabRoundTrip(data: seq<Byte>, at: nat, items: seq<Item>, scores: bool, before: seq<Item>)
    requires forall k :: 0 <= k < |items| ==> Fit(items[k], scores)
    requires Stands(data, at, PrintItems(items))
    ensures Items(data, at, |items|, scores, before) == Ok((before + items, at + |PrintItems(items)|))
  {
    hide ReadItem;
    hide PrintItem;
    hide Stands;
    AllBack(data, at, items, scores);
    ManyRead(ItemReader(data, scores), at, items, before);
  }
}
