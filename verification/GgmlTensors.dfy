/** The walk over the tensors of a legacy GGML file. */
module GgmlTensors {
  import opened Text
  import opened Ggml

  /** A block of `block` elements takes `size` bytes. */
  datatype Quant = Quant(block: nat, size: nat)

  /** `GGML_QUANT_SIZES`, for the types the enumeration knows. */
  type Sizes = m: map<nat, Quant> | forall t :: t in m ==> 0 < m[t].block < LIMIT && m[t].size < LIMIT

  datatype Tensor = Tensor(dims: seq<nat>, name: seq<Byte>, dtype: nat, start: int, bytes: int)

  // ---- Sizes ----

  /** The number of elements. */
  function Product(dims: seq<nat>): nat {
    if dims == [] then 1 else dims[0] * Product(dims[1..])
  }

  /** `np.prod`, in 64-bit arithmetic. */
  function WrappedProduct(dims: seq<nat>, acc: int): int {
    if dims == [] then acc else WrappedProduct(dims[1..], Wrap(acc * dims[0]))
  }

  lemma {:induction false} ProductWraps(dims: seq<nat>, acc: int)
    requires -LIMIT <= acc < LIMIT
    ensures WrappedProduct(dims, acc) == Wrap(acc * Product(dims))
  {
    if dims == [] {
      WrapSmall(acc);
    } else {
      var rest := Product(dims[1..]);
      ProductWraps(dims[1..], Wrap(acc * dims[0]));
      WrapTimes(acc * dims[0], rest);
      assert acc * dims[0] * rest == acc * (dims[0] * rest);
    }
  }

  /** The recorded length: the product and the division in 64-bit arithmetic. */
  function ByteCount(dims: seq<nat>, q: Quant): int
    requires q.block > 0
  {
    Wrap(WrappedProduct(dims, 1) * q.size) / q.block
  }

  /** The true length. */
  function TrueCount(dims: seq<nat>, q: Quant): nat
    requires q.block > 0
  {
    Product(dims) * q.size / q.block
  }

  /** The recorded length is the true one if and only if the size in whole blocks fits 64 bits. */
  lemma CountExact(dims: seq<nat>, q: Quant)
    requires 0 < q.block < LIMIT
    ensures ByteCount(dims, q) == TrueCount(dims, q) <==> Product(dims) * q.size < 0x8000_0000_0000_0000
    ensures -LIMIT <= ByteCount(dims, q) < LIMIT
  {
    hide Wrap;
    hide Product;
    hide WrappedProduct;
    var exact := Product(dims) * q.size;
    ProductWraps(dims, 1);
    WrapTimes(Product(dims), q.size);
    QuotientExact(exact, q.block);
  }

  lemma QuotientExact(x: nat, b: nat)
    requires 0 < b < LIMIT
    ensures Wrap(x) / b == x / b <==> x < LIMIT
    ensures -LIMIT <= Wrap(x) / b < LIMIT
  {
    hide Wrap;
    WrapSmall(x);
    QuotientBounds(Wrap(x), b);
    if x >= LIMIT {
      var k := WrapWhole(x);
      QuotientDiffers(Wrap(x), x, b);
    }
  }

  lemma QuotientBounds(x: int, b: nat)
    requires 0 < b && -LIMIT <= x < LIMIT
    ensures -LIMIT <= x / b < LIMIT
  {
    QuotientNear(x, b, x / b, x % b);
  }

  /** A quotient lies between the dividend and zero. */
  lemma QuotientNear(x: int, b: nat, q: int, r: nat)
    requires x == b * q + r && r < b
    ensures x >= 0 ==> 0 <= q <= x
    ensures x < 0 ==> x <= q < 0
  {
    assert b * q == (b - 1) * q + q;
    if q >= 0 {
      assert (b - 1) * q >= 0;
    } else {
      assert (b - 1) * (-q - 1) >= 0;
      assert (b - 1) * (-q - 1) == -((b - 1) * q) - (b - 1);
    }
  }

  /** Numbers further apart than the divisor have different quotients. */
  lemma QuotientDiffers(x: int, y: int, b: nat)
    requires 0 < b && x + b <= y
    ensures x / b != y / b
  {
    assert x == b * (x / b) + x % b;
    assert y == b * (y / b) + y % b;
  }

  // ---- One tensor ----

  /** `(x + 31) & ~31` in 64-bit arithmetic. */
  function Align(x: int): int {
    Wrap(x + 31) - Wrap(x + 31) % 32
  }

  /** The fixed words of a header. */
  datatype Head = Head(dimCount: nat, nameLength: nat, dtype: nat)

  datatype Header = Header(dims: seq<nat>, name: seq<Byte>, end: int)

  function ReadHead(data: seq<Byte>, offset: int, sizes: Sizes): (r: Result<Head, Failure>)
    ensures r.Ok? ==> r.value.dimCount <= 4 && r.value.nameLength < 4096 && r.value.dtype in sizes
  {
    var head := Slice(data, offset, Wrap(offset + 12));
    if |head| != 12 then Err(ShortRead)
    else
      var dimCount, nameLength, dtype := Word(head, 0), Word(head, 1), Word(head, 2);
      if dimCount > 4 then Err(Dimensions)
      else if nameLength >= 4096 then Err(NameLength)
      else if dtype !in sizes then Err(UnknownType)
      else Ok(Head(dimCount, nameLength, dtype))
  }

  function ReadRest(data: seq<Byte>, dimsAt: int, h: Head): (r: Result<Header, Failure>)
    ensures r.Ok? ==> -LIMIT <= r.value.end < LIMIT
  {
    var nameAt := Wrap(dimsAt + 4 * h.dimCount);
    var words := Slice(data, dimsAt, nameAt);
    if |words| != 4 * h.dimCount then Err(ShortRead)
    else
      var end := Wrap(nameAt + h.nameLength);
      Ok(Header(Words(words, h.dimCount), Slice(data, nameAt, end), end))
  }

  function Place(end: int, padded: bool): (r: int)
    ensures -LIMIT <= end < LIMIT ==> -LIMIT <= r < LIMIT
  {
    if padded then Align(end) else end
  }

  /** `Tensor.load`: the tensor at `offset` and the next offset. */
  function LoadTensor(data: seq<Byte>, offset: int, padded: bool, sizes: Sizes): (r: Result<(Tensor, int), Failure>)
    ensures r.Ok? ==> -LIMIT <= r.value.0.start < LIMIT && -LIMIT <= r.value.1 < LIMIT
  {
    var head := ReadHead(data, offset, sizes);
    if head.Err? then Err(head.error)
    else
      var rest := ReadRest(data, Wrap(offset + 12), head.value);
      if rest.Err? then Err(rest.error)
      else
        var start := Place(rest.value.end, padded);
        var count := ByteCount(rest.value.dims, sizes[head.value.dtype]);
        Ok((Tensor(rest.value.dims, rest.value.name, head.value.dtype, start, count), Wrap(start + count)))
  }

  class TensorReader {
    var name: seq<Byte>
    var dims: seq<nat>
    var dtype: nat
    var start: int
    var bytes: int
    const padded: bool

    constructor (padded: bool)
      ensures this.padded == padded
    {
      name, dims, dtype, start, bytes := [], [], 0, 0, 0;
      this.padded := padded;
    }

    function Value(): Tensor
      reads this
    {
      Tensor(dims, name, dtype, start, bytes)
    }

    /** Fills the fields from `offset` and returns the distance to the next tensor. */
    method Load(data: seq<Byte>, offset: int, sizes: Sizes) returns (r: Result<int, Failure>)
      requires -LIMIT <= offset < LIMIT
      modifies this
      ensures var one := LoadTensor(data, offset, padded, sizes);
        if one.Err? then r == Err(one.error)
        else Value() == one.value.0 && r.Ok? && Wrap(offset + r.value) == one.value.1
    {
      hide ReadHead;
      hide ReadRest;
      hide ByteCount;
      hide Align;
      hide Wrap;
      var head := LoadHead(data, offset, sizes);
      if head.Err? { return Err(head.error); }
      dtype := head.value.dtype;
      var rest := LoadRest(data, Wrap(offset + 12), head.value);
      if rest.Err? { return Err(rest.error); }
      dims, name := rest.value.dims, rest.value.name;
      var at := rest.value.end;
      if padded {
        var pad := Wrap(Align(at) - at);
        PadReaches(at);
        at := Wrap(at + pad);
      }
      start := at;
      bytes := ByteCount(dims, sizes[dtype]);
      at := Wrap(at + bytes);
      Distance(offset, at);
      return Ok(Wrap(at - offset));
    }
  }

  method LoadHead(data: seq<Byte>, offset: int, sizes: Sizes) returns (r: Result<Head, Failure>)
    ensures r == ReadHead(data, offset, sizes)
  {
    var head := Slice(data, offset, Wrap(offset + 12));
    if |head| != 12 { return Err(ShortRead); }
    var dimCount, nameLength := Word(head, 0), Word(head, 1);
    if dimCount > 4 { return Err(Dimensions); }
    if nameLength >= 4096 { return Err(NameLength); }
    var dtype := Word(head, 2);
    if dtype !in sizes { return Err(UnknownType); }
    return Ok(Head(dimCount, nameLength, dtype));
  }

  method LoadRest(data: seq<Byte>, dimsAt: int, h: Head) returns (r: Result<Header, Failure>)
    ensures r == ReadRest(data, dimsAt, h)
  {
    hide Word;
    hide Bound;
    var at := dimsAt;
    var words := Slice(data, at, Wrap(at + 4 * h.dimCount));
    if |words| != 4 * h.dimCount { return Err(ShortRead); }
    at := Wrap(at + 4 * h.dimCount);
    var name := Slice(data, at, Wrap(at + h.nameLength));
    at := Wrap(at + h.nameLength);
    return Ok(Header(Words(words, h.dimCount), name, at));
  }

  lemma AlignBounds(x: int)
    ensures -LIMIT <= Align(x) < LIMIT
  {
  }

  lemma Distance(from: int, to: int)
    requires -LIMIT <= from < LIMIT && -LIMIT <= to < LIMIT
    ensures Wrap(from + Wrap(to - from)) == to
  {
    var k := WrapWhole(to - from);
    WrapShift(to, -k);
    WrapSmall(to);
  }

  lemma PadReaches(x: int)
    requires -LIMIT <= x < LIMIT
    ensures Wrap(x + Wrap(Align(x) - x)) == Align(x)
  {
    AlignBounds(x);
    Distance(x, Align(x));
  }

  /** The least multiple of 32 not below `x`. */
  predicate LeastMultiple(x: int, m: int) {
    m % 32 == 0 && x <= m < x + 32
  }

  /** The size of a header, up to the end of the name. */
  function HeaderSize(h: Head): nat { 12 + 4 * h.dimCount + h.nameLength }

  /** The largest file an address space holds. */
  const FILE_LIMIT := 0x4000_0000_0000_0000

  /** The size of the tensor's data and its end fit 64-bit integers. */
  predicate Fits(t: Tensor, sizes: Sizes) {
    t.dtype in sizes && Product(t.dims) * sizes[t.dtype].size < 0x8000_0000_0000_0000
    && t.start + TrueCount(t.dims, sizes[t.dtype]) < 0x8000_0000_0000_0000
  }

  lemma HeadInside(data: seq<Byte>, offset: nat, sizes: Sizes)
    requires |data| <= FILE_LIMIT && offset < |data| && ReadHead(data, offset, sizes).Ok?
    ensures offset + 12 <= |data| && Wrap(offset + 12) == offset + 12
  {
    WrapSmall(offset + 12);
  }

  lemma HeadExactly(data: seq<Byte>, at: nat, sizes: Sizes)
    requires |data| <= FILE_LIMIT && at < |data|
    ensures var r := ReadHead(data, at, sizes);
      if at + 12 > |data| then r == Err(ShortRead)
      else
        var dims, name, dtype := Number(data, at), Number(data, at + 4), Number(data, at + 8);
        if dims > 4 then r == Err(Dimensions)
        else if name >= 4096 then r == Err(NameLength)
        else if dtype !in sizes then r == Err(UnknownType)
        else r == Ok(Head(dims, name, dtype))
  {
    WrapSmall(at + 12);
    if at + 12 <= |data| {
      var head := data[at..at + 12];
      assert Slice(data, at, at + 12) == head;
      WordNumber(data, at, head, 0);
      WordNumber(data, at, head, 1);
      WordNumber(data, at, head, 2);
    }
  }

  lemma WordNumber(data: seq<Byte>, at: nat, part: seq<Byte>, k: nat)
    requires Stands(data, at, part) && 4 * k + 4 <= |part|
    ensures Word(part, k) == Number(data, at + 4 * k)
  {
    assert forall i :: 0 <= i < |part| ==> part[i] == data[at + i];
  }

  lemma RestExactly(data: seq<Byte>, at: nat, h: Head)
    requires |data| <= FILE_LIMIT && at <= |data| && h.dimCount <= 4
    ensures var r := ReadRest(data, at, h);
      if at + 4 * h.dimCount > |data| then r == Err(ShortRead) else r.Ok? && |r.value.dims| == h.dimCount
  {
    hide Word;
    WrapSmall(at + 4 * h.dimCount);
  }

  /**
   * A tensor is read exactly if its three words and its dimensions are in the file, it has at most four dimensions, a
   * name shorter than 4096 and a known type; these are checked in this order, after the words.
   */
  lemma LoadExactly(data: seq<Byte>, at: nat, padded: bool, sizes: Sizes)
    requires |data| <= FILE_LIMIT && at < |data|
    ensures var r := LoadTensor(data, at, padded, sizes);
      if at + 12 > |data| then r == Err(ShortRead)
      else
        var dims, name, dtype := Number(data, at), Number(data, at + 4), Number(data, at + 8);
        if dims > 4 then r == Err(Dimensions)
        else if name >= 4096 then r == Err(NameLength)
        else if dtype !in sizes then r == Err(UnknownType)
        else if at + 12 + 4 * dims > |data| then r == Err(ShortRead)
        else r.Ok? && r.value.0.dtype == dtype && |r.value.0.dims| == dims
  {
    hide ReadHead;
    hide ReadRest;
    hide ByteCount;
    hide Place;
    hide Number;
    HeadExactly(data, at, sizes);
    WrapSmall(at + 12);
    if ReadHead(data, at, sizes).Ok? { RestExactly(data, at + 12, ReadHead(data, at, sizes).value); }
  }

  lemma RestInside(data: seq<Byte>, at: nat, h: Head)
    requires at <= FILE_LIMIT && h.dimCount <= 4 && h.nameLength < 4096 && ReadRest(data, at, h).Ok?
    ensures ReadRest(data, at, h).value.end == at + 4 * h.dimCount + h.nameLength
  {
    WrapSmall(at + 4 * h.dimCount);
    WrapSmall(at + 4 * h.dimCount + h.nameLength);
  }

  lemma PlaceInside(end: nat, padded: bool)
    requires end <= FILE_LIMIT + 8192
    ensures if padded then LeastMultiple(end, Place(end, padded)) else Place(end, padded) == end
  {
    WrapSmall(end + 31);
  }

  lemma Sums(start: int, bytes: int)
    requires -LIMIT <= start < LIMIT && -LIMIT <= bytes < LIMIT && 0 <= start
    ensures Wrap(start + bytes) == start + bytes <==> start + bytes < LIMIT
  {
    WrapSmall(start + bytes);
  }

  /** Where the data of a loaded tensor starts, and exactly when its length and the next offset are right. */
  lemma TensorStep(data: seq<Byte>, offset: nat, padded: bool, sizes: Sizes, t: Tensor, next: int)
    requires |data| <= FILE_LIMIT && offset < |data|
    requires LoadTensor(data, offset, padded, sizes) == Ok((t, next))
    ensures ReadHead(data, offset, sizes).Ok?
    ensures var end := offset + HeaderSize(ReadHead(data, offset, sizes).value);
      if padded then LeastMultiple(end, t.start) else t.start == end
    ensures offset + 12 <= t.start && -LIMIT <= next < LIMIT && t.dtype in sizes
    ensures t.bytes == TrueCount(t.dims, sizes[t.dtype]) && next == t.start + t.bytes <==> Fits(t, sizes)
    ensures next == t.start + t.bytes <==> t.start + t.bytes < LIMIT
  {
    hide ReadHead;
    hide ReadRest;
    hide Place;
    hide Wrap;
    hide ByteCount;
    var h := ReadHead(data, offset, sizes).value;
    HeadInside(data, offset, sizes);
    RestInside(data, offset + 12, h);
    PlaceInside(offset + HeaderSize(h), padded);
    CountExact(t.dims, sizes[t.dtype]);
    Sums(t.start, t.bytes);
  }

  // ---- A written header is read back ----

  function PrintWords(ws: seq<nat>): (r: seq<Byte>)
    ensures |r| == 4 * |ws|
  {
    if ws == [] then [] else WordBytes(ws[0]) + PrintWords(ws[1..])
  }

  predicate Small(ws: seq<nat>) { forall k :: 0 <= k < |ws| ==> ws[k] < 0x1_0000_0000 }

  lemma WordLater(a: seq<Byte>, b: seq<Byte>, k: nat)
    requires |a| == 4 && 4 * k + 4 <= |b|
    ensures Word(a + b, k + 1) == Word(b, k) && Word(a + b, 0) == Word(a, 0)
  {
  }

  lemma {:induction false} WordBack(ws: seq<nat>, k: nat)
    requires Small(ws) && k < |ws|
    ensures Word(PrintWords(ws), k) == ws[k]
  {
    hide Word;
    hide WordBytes;
    var head, rest := WordBytes(ws[0]), PrintWords(ws[1..]);
    if k > 0 {
      WordBack(ws[1..], k - 1);
      WordLater(head, rest, k - 1);
    } else if rest != [] {
      WordLater(head, rest, 0);
    } else {
      assert head + rest == head;
    }
  }

  /** A tensor header: three words, the dimensions, the name. */
  function PrintHeader(dims: seq<nat>, name: seq<Byte>, dtype: nat): seq<Byte> {
    PrintWords([|dims|, |name|, dtype]) + (PrintWords(dims) + name)
  }

  lemma FixedBack(data: seq<Byte>, at: nat, h: Head, sizes: Sizes)
    requires |data| <= FILE_LIMIT && Stands(data, at, PrintWords([h.dimCount, h.nameLength, h.dtype]))
    requires h.dimCount <= 4 && h.nameLength < 4096 && h.dtype < 0x1_0000_0000 && h.dtype in sizes
    ensures ReadHead(data, at, sizes) == Ok(h) && Wrap(at + 12) == at + 12
  {
    hide Word;
    hide PrintWords;
    var ws := [h.dimCount, h.nameLength, h.dtype];
    WrapSmall(at + 12);
    WordBack(ws, 0);
    WordBack(ws, 1);
    WordBack(ws, 2);
    assert Slice(data, at, at + 12) == PrintWords(ws);
  }

  lemma WordsBack(ws: seq<nat>)
    requires Small(ws)
    ensures Words(PrintWords(ws), |ws|) == ws
  {
    hide Word;
    hide PrintWords;
    forall k | 0 <= k < |ws| ensures Words(PrintWords(ws), |ws|)[k] == ws[k] {
      WordBack(ws, k);
    }
  }

  lemma DimsBack(data: seq<Byte>, at: nat, dims: seq<nat>, name: seq<Byte>, h: Head)
    requires |data| <= FILE_LIMIT && Small(dims) && h.dimCount == |dims| && h.nameLength == |name|
    requires Stands(data, at, PrintWords(dims)) && Stands(data, at + 4 * |dims|, name)
    ensures ReadRest(data, at, h) == Ok(Header(dims, name, at + 4 * |dims| + |name|))
  {
    hide Word;
    hide PrintWords;
    WrapSmall(at + 4 * |dims|);
    WrapSmall(at + 4 * |dims| + |name|);
    hide Words;
    hide Slice;
    hide Stands;
    hide Wrap;
    SliceStands(data, at, PrintWords(dims));
    SliceStands(data, at + 4 * |dims|, name);
    WordsBack(dims);
  }

  /** The tensor loader inverts the file layout: a header written at `at` is read back, and its data is placed after it. */
  lemma TensorRead(data: seq<Byte>, at: nat, dims: seq<nat>, name: seq<Byte>, dtype: nat, padded: bool, sizes: Sizes)
    requires |data| <= FILE_LIMIT && Stands(data, at, PrintHeader(dims, name, dtype))
    requires |dims| <= 4 && Small(dims) && |name| < 4096 && dtype < 0x1_0000_0000 && dtype in sizes
    ensures var r := LoadTensor(data, at, padded, sizes); var end := at + |PrintHeader(dims, name, dtype)|;
      && r.Ok? && r.value.0.dims == dims && r.value.0.name == name && r.value.0.dtype == dtype
      && (if padded then LeastMultiple(end, r.value.0.start) else r.value.0.start == end)
  {
    hide ReadHead;
    hide ReadRest;
    hide Place;
    hide PrintWords;
    var h := Head(|dims|, |name|, dtype);
    StandsParts(data, at, PrintWords([|dims|, |name|, dtype]), PrintWords(dims) + name);
    StandsParts(data, at + 12, PrintWords(dims), name);
    FixedBack(data, at, h, sizes);
    DimsBack(data, at + 12, dims, name, h);
    PlaceInside(at + 12 + 4 * |dims| + |name|, padded);
  }

  // ---- The walk ----

  /** Tensors read, with the offset after them, when the loop ended, failed, or was stopped after `limit` rounds. */
  datatype Walk = Done(tensors: seq<Tensor>, offset: int)
                | Broken(tensors: seq<Tensor>, offset: int, reason: Failure)
                | Running(tensors: seq<Tensor>, offset: int)

  function Prepend(t: Tensor, w: Walk): Walk { w.(tensors := [t] + w.tensors) }

  /** The tensor loop, watched for `limit` rounds. */
  function WalkFrom(data: seq<Byte>, offset: int, padded: bool, sizes: Sizes, limit: nat): Walk
    decreases limit
  {
    if offset >= |data| then Done([], offset)
    else if limit == 0 then Running([], offset)
    else
      var one := LoadTensor(data, offset, padded, sizes);
      if one.Err? then Broken([], offset, one.error)
      else Prepend(one.value.0, WalkFrom(data, one.value.1, padded, sizes, limit - 1))
  }

  function PrependAll(ts: seq<Tensor>, w: Walk): Walk { w.(tensors := ts + w.tensors) }

  lemma PrependMore(ts: seq<Tensor>, t: Tensor, w: Walk)
    ensures PrependAll(ts, Prepend(t, w)) == PrependAll(ts + [t], w)
  {
    assert ts + ([t] + w.tensors) == ts + [t] + w.tensors;
  }

  lemma WalkOne(data: seq<Byte>, offset: int, padded: bool, sizes: Sizes, limit: nat, t: Tensor)
    requires offset < |data| && limit > 0
    requires LoadTensor(data, offset, padded, sizes).Ok? && LoadTensor(data, offset, padded, sizes).value.0 == t
    ensures WalkFrom(data, offset, padded, sizes, limit)
      == Prepend(t, WalkFrom(data, LoadTensor(data, offset, padded, sizes).value.1, padded, sizes, limit - 1))
  {
    hide LoadTensor;
  }

  lemma WalkBreaks(data: seq<Byte>, offset: int, padded: bool, sizes: Sizes, limit: nat)
    requires offset < |data| && limit > 0 && LoadTensor(data, offset, padded, sizes).Err?
    ensures WalkFrom(data, offset, padded, sizes, limit) == Broken([], offset, LoadTensor(data, offset, padded, sizes).error)
  {
    hide LoadTensor;
  }

  lemma WalkStops(data: seq<Byte>, offset: int, padded: bool, sizes: Sizes, limit: nat)
    requires offset >= |data| || limit == 0
    ensures WalkFrom(data, offset, padded, sizes, limit) == if offset >= |data| then Done([], offset) else Running([], offset)
  {
  }

  /** The tensor loop with its reader objects. */
  method LoadTensors(data: seq<Byte>, start: int, padded: bool, sizes: Sizes, limit: nat) returns (w: Walk)
    requires -LIMIT <= start < LIMIT
    ensures w == WalkFrom(data, start, padded, sizes, limit)
  {
    hide WalkFrom;
    hide LoadTensor;
    hide Wrap;
    var tensors: seq<Tensor> := [];
    var offset, rounds := start, 0;
    while offset < |data| && rounds < limit
      invariant rounds <= limit && -LIMIT <= offset < LIMIT
      invariant WalkFrom(data, start, padded, sizes, limit)
             == PrependAll(tensors, WalkFrom(data, offset, padded, sizes, limit - rounds))
      decreases limit - rounds
    {
      var reader := new TensorReader(padded);
      var distance := reader.Load(data, offset, sizes);
      if distance.Err? {
        WalkBreaks(data, offset, padded, sizes, limit - rounds);
        return Broken(tensors, offset, distance.error);
      }
      WalkOne(data, offset, padded, sizes, limit - rounds, reader.Value());
      PrependMore(tensors, reader.Value(), WalkFrom(data, Wrap(offset + distance.value), padded, sizes, limit - rounds - 1));
      offset := Wrap(offset + distance.value);
      tensors := tensors + [reader.Value()];
      rounds := rounds + 1;
    }
    WalkStops(data, offset, padded, sizes, limit - rounds);
    return if offset >= |data| then Done(tensors, offset) else Running(tensors, offset);
  }

  /** The data of `t` starts where its header at `offset` ends, in a padded file at the least multiple of 32 from there. */
  predicate Placed(data: seq<Byte>, padded: bool, sizes: Sizes, offset: int, t: Tensor) {
    ReadHead(data, offset, sizes).Ok? &&
    var end := offset + HeaderSize(ReadHead(data, offset, sizes).value);
    if padded then LeastMultiple(end, t.start) else t.start == end
  }

  lemma PlacedAfter(data: seq<Byte>, padded: bool, sizes: Sizes, offset: int, t: Tensor)
    requires Placed(data, padded, sizes, offset, t)
    ensures offset + 12 <= t.start
  {
  }

  /**
   * The recorded extents lie in file order without overlap, each of its tensor's true length and placed where its
   * own header ends, and `end` is where the last one ends.
   */
  predicate Laid(data: seq<Byte>, padded: bool, ts: seq<Tensor>, sizes: Sizes, offset: int, end: int)
    decreases |ts|
  {
    if ts == [] then offset == end
    else
      && ts[0].dtype in sizes && ts[0].bytes == TrueCount(ts[0].dims, sizes[ts[0].dtype])
      && Placed(data, padded, sizes, offset, ts[0]) && Laid(data, padded, ts[1..], sizes, ts[0].start + ts[0].bytes, end)
  }

  predicate AllFit(ts: seq<Tensor>, sizes: Sizes)
  {
    forall k :: 0 <= k < |ts| ==> Fits(ts[k], sizes)
  }

  /**
   * However long it is watched and however it ends, the walk lays the extents out correctly and its offsets
   * add up if and only if the size of every tensor read fits 64 bits.
   */
  lemma {:induction false} WalkLays(data: seq<Byte>, offset: nat, padded: bool, sizes: Sizes, limit: nat)
    requires |data| <= FILE_LIMIT
    ensures var w := WalkFrom(data, offset, padded, sizes, limit);
      Laid(data, padded, w.tensors, sizes, offset, w.offset) <==> AllFit(w.tensors, sizes)
    decreases limit
  {
    hide LoadTensor;
    hide Fits;
    hide TrueCount;
    hide ReadHead;
    if offset >= |data| || limit == 0 {
      WalkStops(data, offset, padded, sizes, limit);
    } else if LoadTensor(data, offset, padded, sizes).Err? {
      WalkBreaks(data, offset, padded, sizes, limit);
    } else {
      hide WalkFrom;
      hide Laid;
      hide AllFit;
      var (t, next) := LoadTensor(data, offset, padded, sizes).value;
      var rest := WalkFrom(data, next, padded, sizes, limit - 1);
      WalkOne(data, offset, padded, sizes, limit, t);
      TensorStep(data, offset, padded, sizes, t, next);
      WalkStaysLow(data, next, padded, sizes, limit - 1);
      if Fits(t, sizes) { WalkLays(data, next, padded, sizes, limit - 1); }
      LaysFirst(data, padded, t, next, rest.tensors, sizes, offset, rest.offset);
    }
  }

  lemma LaysFirst(data: seq<Byte>, padded: bool, t: Tensor, next: int, rest: seq<Tensor>, sizes: Sizes, offset: int, end: int)
    requires t.dtype in sizes && Placed(data, padded, sizes, offset, t) && end < LIMIT && (rest != [] ==> rest[0].start < LIMIT)
    requires t.bytes == TrueCount(t.dims, sizes[t.dtype]) && next == t.start + t.bytes <==> Fits(t, sizes)
    requires next == t.start + t.bytes <==> t.start + t.bytes < LIMIT
    requires Fits(t, sizes) ==> (Laid(data, padded, rest, sizes, next, end) <==> AllFit(rest, sizes))
    ensures Laid(data, padded, [t] + rest, sizes, offset, end) <==> AllFit([t] + rest, sizes)
  {
    hide Fits;
    hide TrueCount;
    hide Placed;
    FitFirst(t, rest, sizes);
    assert ([t] + rest)[1..] == rest;
    if !Fits(t, sizes) && t.bytes == TrueCount(t.dims, sizes[t.dtype]) {
      NotLaidHigh(data, padded, rest, sizes, t.start + t.bytes, end);
    }
  }

  lemma FitFirst(t: Tensor, rest: seq<Tensor>, sizes: Sizes)
    ensures AllFit([t] + rest, sizes) <==> Fits(t, sizes) && AllFit(rest, sizes)
  {
    var ts := [t] + rest;
    assert forall k :: 0 <= k < |rest| ==> ts[k + 1] == rest[k];
    assert ts[0] == t;
  }

  /** Every offset and start of a walk is a 64-bit number. */
  lemma {:induction false} WalkStaysLow(data: seq<Byte>, offset: int, padded: bool, sizes: Sizes, limit: nat)
    requires -LIMIT <= offset < LIMIT
    ensures var w := WalkFrom(data, offset, padded, sizes, limit);
      w.offset < LIMIT && (w.tensors != [] ==> w.tensors[0].start < LIMIT)
    decreases limit
  {
    hide LoadTensor;
    if offset < |data| && limit > 0 {
      var one := LoadTensor(data, offset, padded, sizes);
      if one.Ok? { WalkStaysLow(data, one.value.1, padded, sizes, limit - 1); }
    }
  }

  lemma NotLaidHigh(data: seq<Byte>, padded: bool, ts: seq<Tensor>, sizes: Sizes, offset: int, end: int)
    requires LIMIT <= offset && end < LIMIT && (ts != [] ==> ts[0].start < LIMIT)
    ensures !Laid(data, padded, ts, sizes, offset, end)
  {
    hide Placed;
    if ts != [] && Placed(data, padded, sizes, offset, ts[0]) { PlacedAfter(data, padded, sizes, offset, ts[0]); }
  }

  lemma {:induction false} LaidAdvances(data: seq<Byte>, padded: bool, ts: seq<Tensor>, sizes: Sizes, offset: int, end: int)
    requires Laid(data, padded, ts, sizes, offset, end)
    ensures offset + 12 * |ts| <= end
    ensures forall k :: 0 <= k < |ts| ==> offset + 12 <= ts[k].start && 0 <= ts[k].bytes && ts[k].start + ts[k].bytes <= end
  {
    hide Placed;
    if ts != [] {
      PlacedAfter(data, padded, sizes, offset, ts[0]);
      LaidAdvances(data, padded, ts[1..], sizes, ts[0].start + ts[0].bytes, end);
      assert forall k :: 0 < k < |ts| ==> ts[k] == ts[1..][k - 1];
    }
  }

  /** Extents laid out in order are pairwise disjoint, with room for a header between them. */
  lemma {:induction false} LaidDisjoint(data: seq<Byte>, padded: bool, ts: seq<Tensor>, sizes: Sizes, offset: int, end: int, i: nat, j: nat)
    requires Laid(data, padded, ts, sizes, offset, end) && i < j < |ts|
    ensures ts[i].start + ts[i].bytes + 12 <= ts[j].start
  {
    hide Placed;
    hide TrueCount;
    LaidAdvances(data, padded, ts[1..], sizes, ts[0].start + ts[0].bytes, end);
    if i > 0 {
      LaidDisjoint(data, padded, ts[1..], sizes, ts[0].start + ts[0].bytes, end, i - 1, j - 1);
    } else {
      assert ts[j] == ts[1..][j - 1];
    }
  }

  lemma {:induction false} RunningRounds(data: seq<Byte>, offset: int, padded: bool, sizes: Sizes, limit: nat)
    ensures var w := WalkFrom(data, offset, padded, sizes, limit);
      w.Running? ==> |w.tensors| == limit && w.offset < |data|
    decreases limit
  {
    hide LoadTensor;
    if offset < |data| && limit > 0 {
      var one := LoadTensor(data, offset, padded, sizes);
      if one.Ok? { RunningRounds(data, one.value.1, padded, sizes, limit - 1); }
    }
  }

  /** While the sizes fit, the loop ends within one round per twelve bytes of the file. */
  lemma WalkEnds(data: seq<Byte>, offset: nat, padded: bool, sizes: Sizes, limit: nat)
    requires |data| <= FILE_LIMIT && |data| <= offset + 12 * limit
    ensures var w := WalkFrom(data, offset, padded, sizes, limit);
      AllFit(w.tensors, sizes) ==> !w.Running?
  {
    var w := WalkFrom(data, offset, padded, sizes, limit);
    if AllFit(w.tensors, sizes) {
      WalkLays(data, offset, padded, sizes, limit);
      LaidAdvances(data, padded, w.tensors, sizes, offset, w.offset);
      RunningRounds(data, offset, padded, sizes, limit);
    }
  }

  // ---- A size that does not fit ----

  /** Dimensions 2^30 - 1, 2^30 + 1, 8 and 1: with four bytes an element, 2^65 - 32 bytes. */
  const STUCK_DIMS: seq<nat> := [0x3FFF_FFFF, 0x4000_0001, 8, 1]

  lemma StuckCount()
    ensures ByteCount(STUCK_DIMS, Quant(1, 4)) == -32
  {
    ProductWraps(STUCK_DIMS, 1);
    assert Product([8, 1]) == 8 * Product([1]) == 8 by {
      assert [8, 1][1..] == [1] && [1][1..] == [];
    }
    assert STUCK_DIMS[1..][1..] == [8, 1];
    assert Product(STUCK_DIMS) == 0x3FFF_FFFF * (0x4000_0001 * 8);
    WrapTimes(Product(STUCK_DIMS), 4);
    assert Product(STUCK_DIMS) * 4 == WORDS * 2 - 32;
    WrapSmall(-32);
    WrapShift(-32, 2);
  }

  lemma StuckStep(data: seq<Byte>, offset: nat, sizes: Sizes)
    requires 0 in sizes && sizes[0] == Quant(1, 4)
    requires offset % 32 == 0 && |data| <= FILE_LIMIT && Stands(data, offset, PrintHeader(STUCK_DIMS, [], 0))
    ensures LoadTensor(data, offset, true, sizes).Ok? && LoadTensor(data, offset, true, sizes).value.1 == offset
    ensures offset < |data|
  {
    hide ReadHead;
    hide ReadRest;
    hide Place;
    hide Wrap;
    hide PrintWords;
    hide WrappedProduct;
    TensorRead(data, offset, STUCK_DIMS, [], 0, true, sizes);
    StuckCount();
    WrapSmall(offset);
    var t := LoadTensor(data, offset, true, sizes).value.0;
    assert t.start == offset + 32;
  }

  /**
   * An unnamed tensor of that size: the recorded size is -32 bytes and cancels the header, so the loop reads the
   * same tensor again and never ends, however long it is watched.
   */
  lemma {:induction false} WalkStuck(data: seq<Byte>, offset: nat, sizes: Sizes, limit: nat)
    requires 0 in sizes && sizes[0] == Quant(1, 4)
    requires offset % 32 == 0 && |data| <= FILE_LIMIT && Stands(data, offset, PrintHeader(STUCK_DIMS, [], 0))
    ensures var w := WalkFrom(data, offset, true, sizes, limit); w.Running? && w.offset == offset && |w.tensors| == limit
    decreases limit
  {
    hide LoadTensor;
    hide PrintHeader;
    StuckStep(data, offset, sizes);
    if limit > 0 {
      WalkStuck(data, offset, sizes, limit - 1);
    }
  }
}
