/**
  The encoder of pb_encode.c as it runs: an output stream over a caller's buffer, with
  a size limit, and nested messages encoded twice, first on a sizing stream.
  Every method is proved against the bytes EncMsg and its companions define.
 */
module PbEncoder {
  import opened Bits
  import opened Options
  import opened PbWire
  import opened PbMessage
  import opened PbIter

  /** What a stream shows: its limit (none for a sizing stream), the count of bytes
      written, the buffer up to the write position, and the buffer past the limit. */
  datatype Progress = Progress(limit: Option<nat>, written: nat, sent: seq<Byte>, beyond: seq<Byte>)

  /** From p to q the stream took b: it reports success exactly if b exists and fits,
      and then has counted and stored b; it never touches the bytes past its limit. */
  predicate Emits(p: Progress, q: Progress, b: Option<seq<Byte>>, ok: bool) {
    && q.limit == p.limit && q.beyond == p.beyond
    && p.written <= q.written && p.sent <= q.sent
    && |q.sent| - |p.sent| == (if p.limit.Some? then q.written - p.written else 0)
    && (ok <==> b.Some? && (p.limit.Some? ==> p.written + |b.value| <= p.limit.value))
    && (ok ==> q.written == p.written + |b.value|)
    && (ok && p.limit.Some? ==> q.sent == p.sent + b.value)
  }

  function Cat(a: Option<seq<Byte>>, b: Option<seq<Byte>>): Option<seq<Byte>> {
    if a.None? || b.None? then None else Some(a.value + b.value)
  }

  lemma EmitsThen(p: Progress, q: Progress, r: Progress, a: Option<seq<Byte>>, b: Option<seq<Byte>>, ok: bool)
    requires Emits(p, q, a, true) && Emits(q, r, b, ok)
    requires q.limit.Some? ==> q.written <= q.limit.value
    ensures Emits(p, r, Cat(a, b), ok)
  {
    if ok { assert p.sent + (a.value + b.value) == (p.sent + a.value) + b.value; }
  }

  lemma EmitsStopped(p: Progress, q: Progress, a: Option<seq<Byte>>, b: Option<seq<Byte>>)
    requires Emits(p, q, a, false)
    ensures Emits(p, q, Cat(a, b), false)
  {
  }

  // ------------------------------------------------------------------ typed storage

  /** Storage of the C type the table names, with encoded sizes that fit a size_t.
      Lengths and counts may still be out of bounds; the encoder reports those. */
  ghost predicate ShapedVal(l: LType, v: Val)
    decreases v, 0
  {
    match l
    case SubmsgT(fs) => v.Sub? && ShapedMsg(fs, v.cells) && SizeFits(EncMsg(fs, v.cells))
    case BytesT(_) => v.Blob? && |v.bytes| < TWO_64
    case StringT(size) => v.Blob? && size <= |v.bytes| < TWO_64
    case FixedBytesT(size) => v.Blob? && |v.bytes| == size < TWO_64
    case Fixed32T => v.Num? && InUnsigned(v.n, 4)
    case Fixed64T => v.Num? && InUnsigned(v.n, 8)
    case UVarintT(size) => v.Num? && (IntSize(size) ==> InUnsigned(v.n, size))
    case _ => v.Num? && (IntSize(l.size) ==> InSigned(v.n, l.size))
  }

  ghost predicate SizeFits(b: Option<seq<Byte>>) {
    b.Some? ==> |b.value| < TWO_64
  }

  ghost predicate ShapedItems(l: LType, items: seq<Val>)
    decreases items, 1
  {
    && (Packable(l) ==> SizeFits(EncPacked(l, items)))
    && forall k :: 0 <= k < |items| ==> ShapedVal(l, items[k])
  }

  ghost predicate ShapedCell(f: Field, cell: Cell)
    decreases cell, 0
  {
    match f.rule
    case Required => cell.Single? && ShapedVal(f.ltype, cell.v)
    case Optional(hasFlag) =>
      if hasFlag then cell.Has? && (cell.has ==> ShapedVal(f.ltype, cell.v))
      else cell.Single? && ShapedVal(f.ltype, cell.v)
    case Repeated(counted, max) =>
      cell.Many? && (|cell.items| <= max ==> ShapedItems(f.ltype, cell.items)) && (counted || |cell.items| == max)
    case OneOf => cell.Union? && (cell.which == f.tag ==> ShapedVal(f.ltype, cell.v))
  }

  ghost predicate ShapedAt(fs: seq<Field>, cells: seq<Cell>, i: nat)
    requires i < |fs|
    decreases cells, 0
  {
    CellIndex(fs, i) < |cells| && ShapedCell(fs[i], cells[CellIndex(fs, i)])
  }

  ghost predicate ShapedMsg(fs: seq<Field>, cells: seq<Cell>)
    decreases cells, 1
  {
    forall i :: 0 <= i < |fs| ==> fs[i].tag < TWO_32 && ShapedAt(fs, cells, i)
  }

  // ------------------------------------------------------------------ substreams

  /** A substream of the given size starts where its parent stands. */
  predicate Nested(p: Progress, s: Progress, size: nat) {
    && p.limit.Some? && p.written + size <= p.limit.value
    && s.limit == Some(size) && s.written == 0 && s.sent == p.sent
    && var gap := p.limit.value - p.written - size;
       gap <= |s.beyond| && s.beyond[gap..] == p.beyond
  }

  /** A parent of the given limit once it stands where a full substream ended. */
  function Rejoined(limit: nat, written: nat, s: Progress): Progress {
    var gap := limit - written - s.written;
    Progress(Some(limit), written + s.written, s.sent, if 0 <= gap <= |s.beyond| then s.beyond[gap..] else [])
  }

  // ------------------------------------------------------------------ the stream

  class OStream {
    /** Null for a sizing stream, the C stream without a callback. */
    const buf: array?<Byte>
    const maxSize: nat
    var state: nat
    var bytesWritten: nat

    ghost predicate Valid()
      reads this
    {
      if buf == null then state == 0 else bytesWritten <= maxSize && state + (maxSize - bytesWritten) <= buf.Length
    }

    ghost function Now(): (p: Progress)
      reads this, buf
      requires Valid()
      ensures p.written == bytesWritten && p.limit == if buf == null then None else Some(maxSize)
      ensures p.limit.Some? ==> p.written <= p.limit.value
      ensures |p.sent| == state
    {
      if buf == null then Progress(None, bytesWritten, [], [])
      else Progress(Some(maxSize), bytesWritten, buf[..state], buf[state + (maxSize - bytesWritten)..])
    }

    /** PB_OSTREAM_SIZING. */
    constructor Sizing()
      ensures Valid() && buf == null && Now() == Progress(None, 0, [], [])
    {
      buf, maxSize, state, bytesWritten := null, 0, 0, 0;
    }

    /** pb_ostream_from_buffer. */
    constructor FromBuffer(buffer: array<Byte>, size: nat)
      requires size <= buffer.Length
      ensures Valid() && buf == buffer && Now() == Progress(Some(size), 0, [], buffer[size..])
    {
      buf, maxSize, state, bytesWritten := buffer, size, 0, 0;
    }

    /** The substream of pb_encode_submessage: the parent's position with its own limit. */
    constructor Within(parent: OStream, size: nat)
      requires parent.Valid() && parent.buf != null && parent.bytesWritten + size <= parent.maxSize
      ensures Valid() && buf == parent.buf && maxSize == size && state == parent.state
      ensures Nested(parent.Now(), Now(), size)
    {
      buf, maxSize, state, bytesWritten := parent.buf, size, parent.state, 0;
      new;
      SliceTwice(buf[..], state + size, parent.maxSize - parent.bytesWritten - size);
    }

    /** pb_write, with the copy loop of buf_write. */
    method Write(b: seq<Byte>) returns (ok: bool)
      requires Valid()
      modifies this, buf
      ensures Valid() && Emits(old(Now()), Now(), Some(b), ok)
    {
      if buf != null {
        if bytesWritten + |b| > maxSize { return false; }
        var dest := state;
        state := dest + |b|;
        var i := 0;
        while i < |b|
          invariant 0 <= i <= |b|
          invariant forall k :: 0 <= k < buf.Length ==> buf[k] == if dest <= k < dest + i then b[k - dest] else old(buf[k])
          modifies buf
        {
          buf[dest + i] := b[i];
          i := i + 1;
        }
        assert buf[..state] == old(buf[..state]) + b;
        assert buf[state + (maxSize - bytesWritten - |b|)..] == old(buf[state + (maxSize - bytesWritten)..]);
      }
      bytesWritten := bytesWritten + |b|;
      return true;
    }

    /** pb_write without data, on a sizing stream. */
    method Count(n: nat)
      requires Valid() && buf == null
      modifies this
      ensures Valid()
      ensures Now() == old(Now()).(written := old(bytesWritten) + n)
    {
      bytesWritten := bytesWritten + n;
    }

    /** The parent takes over the position of a substream that filled its limit. */
    method Absorb(sub: OStream)
      requires Valid() && sub.Valid() && sub != this && sub.buf == buf != null
      requires sub.bytesWritten == sub.maxSize && sub.state == state + sub.maxSize
      requires bytesWritten + sub.maxSize <= maxSize
      modifies this
      ensures Valid() && Now() == Rejoined(maxSize, old(bytesWritten), sub.Now())
    {
      ghost var gap := maxSize - bytesWritten - sub.maxSize;
      ghost var contents := buf[..];
      bytesWritten := bytesWritten + sub.bytesWritten;
      state := sub.state;
      assert sub.Now().beyond == contents[state..] && Now().beyond == contents[state + gap..];
      SliceTwice(contents, state, gap);
      assert sub.Now().sent == contents[..state] == Now().sent;
    }

    method EncodeVarint(value: nat) returns (ok: bool)
      requires Valid() && value < TWO_64
      modifies this, buf
      ensures Valid() && Emits(old(Now()), Now(), Some(Varint(value)), ok)
    {
      hide Varint, Emits;
      VarintUnfold(value);
      if value <= 0x7F {
        ok := Write([value]);
        return;
      }
      var buffer := new Byte[10](_ => 0);
      var i, v := 0, value;
      VarintAtMostTen(value);
      while v != 0
        invariant 0 <= i <= 10 && |Varint(value)| <= 10
        invariant v != 0 ==> Varint(value) == buffer[..i] + Varint(v)
        invariant v == 0 ==> i > 0 && buffer[i - 1] >= 128 && Varint(value) == buffer[..i - 1] + [buffer[i - 1] - 128]
        modifies buffer
        decreases v
      {
        ghost var done := buffer[..i];
        VarintUnfold(v);
        buffer[i] := v % 128 + 128;
        assert buffer[..i] == done;
        assert v / 128 != 0 ==> buffer[..i + 1] + Varint(v / 128) == done + ([v % 128 + 128] + Varint(v / 128));
        v := v / 128;
        i := i + 1;
      }
      buffer[i - 1] := buffer[i - 1] % 128;
      assert buffer[..i] == buffer[..i - 1] + [buffer[i - 1]];
      ok := Write(buffer[..i]);
    }

    method EncodeSVarint(value: int) returns (ok: bool)
      requires Valid() && -0x8000_0000_0000_0000 <= value < 0x8000_0000_0000_0000
      modifies this, buf
      ensures Valid() && Emits(old(Now()), Now(), Some(Varint(ZigZag(value))), ok)
    {
      var shifted := Unsigned64(value) * 2 % TWO_64;
      var zigzagged := if value < 0 then TWO_64 - 1 - shifted else shifted;
      assert zigzagged == ZigZag(value);
      ok := EncodeVarint(zigzagged);
    }

    method EncodeFixed32(val: nat) returns (ok: bool)
      requires Valid() && val < TWO_32
      modifies this, buf
      ensures Valid() && Emits(old(Now()), Now(), Some(LittleEndian(val, 4)), ok)
    {
      var bytes: seq<Byte> := [val % 256, val / 256 % 256, val / 0x1_0000 % 256, val / 0x100_0000 % 256];
      LittleEndianBytes(val);
      ok := Write(bytes);
    }

    method EncodeFixed64(val: nat) returns (ok: bool)
      requires Valid() && val < TWO_64
      modifies this, buf
      ensures Valid() && Emits(old(Now()), Now(), Some(LittleEndian(val, 8)), ok)
    {
      var bytes: seq<Byte> := [
        val % 256, val / 256 % 256, val / 0x1_0000 % 256, val / 0x100_0000 % 256,
        val / 0x1_0000_0000 % 256, val / 0x100_0000_0000 % 256, val / 0x1_0000_0000_0000 % 256, val / 0x100_0000_0000_0000 % 256];
      LittleEndianBytes64(val);
      ok := Write(bytes);
    }

    method EncodeTag(wireType: nat, tag: nat) returns (ok: bool)
      requires Valid() && wireType < 8 && tag < TWO_32
      modifies this, buf
      ensures Valid() && Emits(old(Now()), Now(), Some(TagBytes(tag, wireType)), ok)
    {
      assert Or(wireType, tag * 8) == tag * 8 + wireType by { OrDisjoint(wireType, tag, 3); Pow2Small(); }
      ok := EncodeVarint(Or(wireType, tag * 8));
    }

    method EncodeString(b: seq<Byte>) returns (ok: bool)
      requires Valid() && |b| < TWO_64
      modifies this, buf
      ensures Valid() && Emits(old(Now()), Now(), Some(Delimited(b)), ok)
    {
      ok := EncodeVarint(|b|);
      if !ok { return; }
      ghost var p := Now();
      ok := Write(b);
      EmitsThen(old(Now()), p, Now(), Some(Varint(|b|)), Some(b), ok);
    }
  }

  lemma LittleEndianBytes(v: nat)
    ensures LittleEndian(v, 4) == [v % 256, v / 256 % 256, v / 0x1_0000 % 256, v / 0x100_0000 % 256]
  {
    assert v / 256 / 256 == v / 0x1_0000;
    assert v / 0x1_0000 / 256 == v / 0x100_0000;
    assert LittleEndian(v / 0x100_0000, 1) == [v / 0x100_0000 % 256] + LittleEndian(v / 0x100_0000 / 256, 0);
    assert LittleEndian(v / 0x1_0000, 2) == [v / 0x1_0000 % 256] + LittleEndian(v / 0x100_0000, 1);
    assert LittleEndian(v / 256, 3) == [v / 256 % 256] + LittleEndian(v / 0x1_0000, 2);
  }

  lemma LittleEndianBytes64(v: nat)
    ensures LittleEndian(v, 8) == [
        v % 256, v / 256 % 256, v / 0x1_0000 % 256, v / 0x100_0000 % 256,
        v / 0x1_0000_0000 % 256, v / 0x100_0000_0000 % 256, v / 0x1_0000_0000_0000 % 256, v / 0x100_0000_0000_0000 % 256]
  {
    var h := v / TWO_32;
    LittleEndianBytes(v);
    LittleEndianBytes(h);
    LittleEndianSplit(v);
    assert h / 256 == v / 0x100_0000_0000 && h / 0x1_0000 == v / 0x1_0000_0000_0000 && h / 0x100_0000 == v / 0x100_0000_0000_0000;
  }

  lemma LittleEndianSplit(v: nat)
    ensures LittleEndian(v, 8) == LittleEndian(v, 4) + LittleEndian(v / TWO_32, 4)
  {
    var a, b, c := v / 256, v / 0x1_0000, v / 0x100_0000;
    assert a / 256 == b && b / 256 == c && c / 256 == v / TWO_32;
    assert LittleEndian(c, 1) == [c % 256];
    assert LittleEndian(c, 5) == LittleEndian(c, 1) + LittleEndian(v / TWO_32, 4);
    assert LittleEndian(b, 6) == LittleEndian(b, 2) + LittleEndian(v / TWO_32, 4);
    assert LittleEndian(a, 7) == LittleEndian(a, 3) + LittleEndian(v / TWO_32, 4);
  }

  // ------------------------------------------------------------------ values

  lemma CStringStop(b: seq<Byte>, size: nat, n: nat)
    requires n <= size <= |b| && (forall k :: 0 <= k < n ==> b[k] != 0) && (n == size || b[n] == 0)
    ensures CString(b, size) == b[..n]
  {
    if n > 0 {
      CStringStop(b[1..], size - 1, n - 1);
      assert b[..n] == [b[0]] + b[1..][..n - 1];
    }
  }

  /** pb_enc_varint, pb_enc_uvarint, pb_enc_svarint, pb_enc_fixed32 and pb_enc_fixed64. */
  method EncodeNum(stream: OStream, l: LType, n: int) returns (ok: bool)
    requires stream.Valid() && Packable(l) && ShapedVal(l, Num(n))
    modifies stream, stream.buf
    ensures stream.Valid() && Emits(old(stream.Now()), stream.Now(), EncNum(l, n), ok)
  {
    hide Varint, ZigZag, Pow2, LittleEndian;
    Pow2Values();
    match l
    case VarintT(size) =>
      if !IntSize(size) { return false; }
      ok := stream.EncodeVarint(Unsigned64(n));
    case UVarintT(size) =>
      if !IntSize(size) { return false; }
      assert n < TWO_64 by { Pow2Monotone(8 * size, 64); }
      ok := stream.EncodeVarint(n);
    case SVarintT(size) =>
      if !IntSize(size) { return false; }
      assert -0x8000_0000_0000_0000 <= n < 0x8000_0000_0000_0000 by { Pow2Monotone(8 * size, 64); }
      ok := stream.EncodeSVarint(n);
    case Fixed32T =>
      ok := stream.EncodeFixed32(n);
    case Fixed64T =>
      ok := stream.EncodeFixed64(n);
  }

  /** pb_enc_bytes, pb_enc_string, pb_enc_submessage and pb_enc_fixed_length_bytes; the
      other types are numbers. */
  method EncodeVal(stream: OStream, l: LType, v: Val) returns (ok: bool)
    requires stream.Valid() && ShapedVal(l, v)
    modifies stream, stream.buf
    ensures stream.Valid() && Emits(old(stream.Now()), stream.Now(), EncVal(l, v), ok)
    decreases v, 0
  {
    hide Varint, Emits;
    if Packable(l) {
      ok := EncodeNum(stream, l, v.n);
      return;
    }
    match l
    case BytesT(size) =>
      if |v.bytes| + BYTES_HEADER > size {
        FailsHere(stream.Now());
        return false;
      }
      ok := stream.EncodeString(v.bytes);
    case StringT(size) =>
      var n := 0;
      while n < size && v.bytes[n] != 0
        invariant 0 <= n <= size && forall k :: 0 <= k < n ==> v.bytes[k] != 0
      {
        n := n + 1;
      }
      CStringStop(v.bytes, size, n);
      ok := stream.EncodeString(v.bytes[..n]);
    case SubmsgT(fs) =>
      ok := EncodeSubmessage(stream, fs, v.cells);
    case FixedBytesT(size) =>
      ok := stream.EncodeString(v.bytes);
  }

  lemma FailsHere(p: Progress)
    ensures Emits(p, p, None, false)
  {
  }

  /** What a substream of the exact size leaves, seen from its parent. */
  lemma FromNested(p: Progress, p': Progress, q': Progress, b: seq<Byte>, ok: bool)
    requires Nested(p, p', |b|) && Emits(p', q', Some(b), ok)
    ensures ok && q'.written == |b| && |q'.sent| == |p.sent| + |b|
    ensures Emits(p, Rejoined(p.limit.value, p.written, q'), Some(b), true)
  {
  }

  /** pb_encode_submessage. The second pass always writes the size of the first: the
      check for a changed size cannot fail. */
  method EncodeSubmessage(stream: OStream, fs: seq<Field>, cells: seq<Cell>) returns (ok: bool)
    requires stream.Valid() && ShapedMsg(fs, cells) && SizeFits(EncMsg(fs, cells))
    modifies stream, stream.buf
    ensures stream.Valid()
    ensures var b := EncMsg(fs, cells);
            Emits(old(stream.Now()), stream.Now(), if b.None? then None else Some(Delimited(b.value)), ok)
    decreases cells, 3
  {
    hide EncMsg, ShapedMsg, Varint;
    var sizing := new OStream.Sizing();
    ok := EncodeMsg(sizing, fs, cells);
    if !ok { return; }
    ghost var b := EncMsg(fs, cells).value;
    var size := sizing.bytesWritten;
    ok := stream.EncodeVarint(size);
    if !ok { return; }
    ghost var p := stream.Now();
    ok := EncodeSized(stream, fs, cells, size);
    EmitsThen(old(stream.Now()), p, stream.Now(), Some(Varint(size)), Some(b), ok);
  }

  /** The part after the length prefix. */
  method EncodeSized(stream: OStream, fs: seq<Field>, cells: seq<Cell>, size: nat) returns (ok: bool)
    requires stream.Valid() && ShapedMsg(fs, cells) && EncMsg(fs, cells).Some? && size == |EncMsg(fs, cells).value|
    modifies stream, stream.buf
    ensures stream.Valid() && Emits(old(stream.Now()), stream.Now(), EncMsg(fs, cells), ok)
    decreases cells, 2, 1
  {
    hide EncMsg, ShapedMsg, Emits, Rejoined, Nested, OStream.Now;
    ghost var p, b := stream.Now(), EncMsg(fs, cells).value;
    if stream.buf == null {
      CountSized(stream, b);
      stream.Count(size);
      return true;
    }
    if stream.bytesWritten + size > stream.maxSize {
      assert Emits(p, p, Some(b), false) by { NoRoom(p, b); }
      return false;
    }
    var substream := new OStream.Within(stream, size);
    ghost var p' := substream.Now();
    var status := EncodeMsg(substream, fs, cells);
    FromNested(p, p', substream.Now(), b, status);
    stream.Absorb(substream);
    if substream.bytesWritten != size { assert false; return false; }
    ok := status;
  }

  lemma CountSized(stream: OStream, b: seq<Byte>)
    requires stream.Valid() && stream.buf == null
    ensures stream.Now().limit.None? && stream.Now().written == stream.bytesWritten
    ensures Emits(stream.Now(), stream.Now().(written := stream.bytesWritten + |b|), Some(b), true)
  {
  }

  lemma SliceTwice(s: seq<Byte>, i: nat, j: nat)
    requires i + j <= |s|
    ensures s[i..][j..] == s[i + j..]
  {
  }

  lemma NoRoom(p: Progress, b: seq<Byte>)
    requires p.limit.Some? && p.written + |b| > p.limit.value
    ensures Emits(p, p, Some(b), false)
  {
  }

  // ------------------------------------------------------------------ arrays

  lemma {:induction false} FixedPackedSize(l: LType, items: seq<Val>)
    requires l.Fixed32T? || l.Fixed64T?
    requires forall k :: 0 <= k < |items| ==> ShapedVal(l, items[k])
    ensures EncPacked(l, items).Some?
    ensures |EncPacked(l, items).value| == (if l.Fixed32T? then 4 else 8) * |items|
  {
    if items != [] {
      assert ShapedVal(l, items[0]);
      assert EncVal(l, items[0]) == EncNum(l, items[0].n);
      FixedPackedSize(l, items[1..]);
    }
  }

  lemma CatAssoc(a: Option<seq<Byte>>, b: Option<seq<Byte>>, c: Option<seq<Byte>>)
    ensures Cat(Cat(a, b), c) == Cat(a, Cat(b, c))
  {
    if a.Some? && b.Some? && c.Some? { assert (a.value + b.value) + c.value == a.value + (b.value + c.value); }
  }

  lemma CatEmpty(a: Option<seq<Byte>>)
    ensures Cat(a, Some([])) == a && Cat(Some([]), a) == a
  {
    if a.Some? { assert a.value + [] == a.value && [] + a.value == a.value; }
  }

  lemma PackedStep(l: LType, items: seq<Val>, i: nat)
    requires i < |items|
    ensures EncPacked(l, items[i..]) == Cat(EncVal(l, items[i]), EncPacked(l, items[i + 1..]))
  {
    assert items[i..][0] == items[i] && items[i..][1..] == items[i + 1..];
  }

  /** A list of pieces, taken as far as all, is extended by one more. */
  lemma EmitsNext(p: Progress, q: Progress, r: Progress, done: Option<seq<Byte>>, b: Option<seq<Byte>>,
                  rest: Option<seq<Byte>>, all: Option<seq<Byte>>, ok: bool)
    requires q.limit.Some? ==> q.written <= q.limit.value
    requires Emits(p, q, done, true) && Emits(q, r, b, ok) && all == Cat(done, Cat(b, rest))
    ensures Emits(p, r, Cat(done, b), ok) && all == Cat(Cat(done, b), rest)
    ensures !ok ==> Emits(p, r, all, false)
  {
    hide Emits, Cat;
    EmitsThen(p, q, r, done, b, ok);
    CatAssoc(done, b, rest);
    if !ok { EmitsStopped(p, r, Cat(done, b), rest); }
  }

  lemma EmitsNothing(p: Progress)
    requires p.limit.Some? ==> p.written <= p.limit.value
    ensures Emits(p, p, Some([]), true)
  {
  }

  /** The loop over packed elements, run on a sizing stream and on the real one. */
  method EncodeItems(stream: OStream, l: LType, items: seq<Val>) returns (ok: bool)
    requires stream.Valid() && ShapedItems(l, items)
    modifies stream, stream.buf
    ensures stream.Valid() && Emits(old(stream.Now()), stream.Now(), EncPacked(l, items), ok)
    decreases items, 1
  {
    hide Emits, EncPacked, EncVal, Cat;
    ghost var p, all := stream.Now(), EncPacked(l, items);
    ghost var done: Option<seq<Byte>> := Some([]);
    EmitsNothing(p);
    assert items[0..] == items;
    CatEmpty(all);
    var i := 0;
    while i < |items|
      invariant 0 <= i <= |items| && stream.Valid()
      invariant Emits(p, stream.Now(), done, true) && all == Cat(done, EncPacked(l, items[i..]))
    {
      ghost var q := stream.Now();
      ok := EncodeVal(stream, l, items[i]);
      PackedStep(l, items, i);
      EmitsNext(p, q, stream.Now(), done, EncVal(l, items[i]), EncPacked(l, items[i + 1..]), all, ok);
      if !ok { return; }
      done := Cat(done, EncVal(l, items[i]));
      i := i + 1;
    }
    assert EncPacked(l, items[i..]) == Some([]) by { PackedEmpty(l, items[i..]); }
    CatEmpty(done);
    ok := true;
  }

  lemma PackedEmpty(l: LType, items: seq<Val>)
    requires items == []
    ensures EncPacked(l, items) == Some([])
  {
  }

  method EncodeTagged(stream: OStream, f: Field, v: Val) returns (ok: bool)
    requires stream.Valid() && ShapedVal(f.ltype, v) && f.tag < TWO_32
    modifies stream, stream.buf
    ensures stream.Valid() && Emits(old(stream.Now()), stream.Now(), EncTagged(f, v), ok)
    decreases v, 1
  {
    hide Emits, EncVal, TagBytes;
    ghost var p := stream.Now();
    var key: Option<seq<Byte>> := Some(TagBytes(f.tag, WireType(f.ltype)));
    ok := stream.EncodeTag(WireType(f.ltype), f.tag);
    if !ok {
      EmitsStopped(p, stream.Now(), key, EncVal(f.ltype, v));
      return;
    }
    ghost var q := stream.Now();
    ok := EncodeVal(stream, f.ltype, v);
    EmitsThen(p, q, stream.Now(), key, EncVal(f.ltype, v), ok);
  }

  lemma UnpackedStep(f: Field, items: seq<Val>, i: nat)
    requires i < |items|
    ensures EncUnpacked(f, items[i..]) == Cat(EncTagged(f, items[i]), EncUnpacked(f, items[i + 1..]))
  {
    assert items[i..][0] == items[i] && items[i..][1..] == items[i + 1..];
  }

  lemma UnpackedEmpty(f: Field, items: seq<Val>)
    requires items == []
    ensures EncUnpacked(f, items) == Some([])
  {
  }

  /** The unpacked branch of encode_array. */
  method EncodeUnpacked(stream: OStream, f: Field, items: seq<Val>) returns (ok: bool)
    requires stream.Valid() && ShapedItems(f.ltype, items) && f.tag < TWO_32
    modifies stream, stream.buf
    ensures stream.Valid() && Emits(old(stream.Now()), stream.Now(), EncUnpacked(f, items), ok)
    decreases items, 1
  {
    hide Emits, EncUnpacked, EncTagged, Cat;
    ghost var p, all := stream.Now(), EncUnpacked(f, items);
    ghost var done: Option<seq<Byte>> := Some([]);
    EmitsNothing(p);
    assert items[0..] == items;
    CatEmpty(all);
    var i := 0;
    while i < |items|
      invariant 0 <= i <= |items| && stream.Valid()
      invariant Emits(p, stream.Now(), done, true) && all == Cat(done, EncUnpacked(f, items[i..]))
    {
      ghost var q := stream.Now();
      ok := EncodeTagged(stream, f, items[i]);
      UnpackedStep(f, items, i);
      EmitsNext(p, q, stream.Now(), done, EncTagged(f, items[i]), EncUnpacked(f, items[i + 1..]), all, ok);
      if !ok { return; }
      done := Cat(done, EncTagged(f, items[i]));
      i := i + 1;
    }
    assert EncUnpacked(f, items[i..]) == Some([]) by { UnpackedEmpty(f, items[i..]); }
    CatEmpty(done);
    ok := true;
  }

  /** The size of a packed payload: computed for fixed-width elements, measured otherwise. */
  method PackedSize(l: LType, items: seq<Val>) returns (ok: bool, size: nat)
    requires Packable(l) && ShapedItems(l, items)
    ensures ok <==> EncPacked(l, items).Some?
    ensures ok ==> size == |EncPacked(l, items).value|
    decreases items, 2, 0
  {
    hide EncPacked;
    ok := true;
    if l.Fixed32T? {
      size := 4 * |items|;
      FixedPackedSize(l, items);
    } else if l.Fixed64T? {
      size := 8 * |items|;
      FixedPackedSize(l, items);
    } else {
      var sizestream := new OStream.Sizing();
      ok := EncodeItems(sizestream, l, items);
      size := sizestream.bytesWritten;
    }
  }

  method EncodeArray(stream: OStream, f: Field, items: seq<Val>, max: nat) returns (ok: bool)
    requires stream.Valid() && (|items| <= max ==> ShapedItems(f.ltype, items)) && f.tag < TWO_32
    modifies stream, stream.buf
    ensures stream.Valid() && Emits(old(stream.Now()), stream.Now(), EncArray(f, items, max), ok)
    decreases items, 3
  {
    hide Emits, EncPacked, EncUnpacked, Varint;
    ghost var p := stream.Now();
    if items == [] {
      EmitsNothing(p);
      return true;
    }
    if |items| > max {
      FailsHere(p);
      return false;
    }
    if Packable(f.ltype) {
      ok := EncodePacked(stream, f, items);
    } else {
      ok := EncodeUnpacked(stream, f, items);
    }
  }

  function PackedField(f: Field, items: seq<Val>): Option<seq<Byte>> {
    var payload := EncPacked(f.ltype, items);
    if payload.None? then None else Some(TagBytes(f.tag, WT_STRING) + Delimited(payload.value))
  }

  /** The packed branch of encode_array: key, size, and only then the elements. */
  method EncodePacked(stream: OStream, f: Field, items: seq<Val>) returns (ok: bool)
    requires stream.Valid() && Packable(f.ltype) && ShapedItems(f.ltype, items) && f.tag < TWO_32
    modifies stream, stream.buf
    ensures stream.Valid() && Emits(old(stream.Now()), stream.Now(), PackedField(f, items), ok)
    decreases items, 2, 1
  {
    hide Emits, EncPacked, TagBytes, Varint;
    ghost var p := stream.Now();
    ghost var key: Option<seq<Byte>> := Some(TagBytes(f.tag, WT_STRING));
    ghost var payload := EncPacked(f.ltype, items);
    ghost var prefix: Option<seq<Byte>> := if payload.None? then None else Some(Varint(|payload.value|));
    assert PackedField(f, items) == Cat(key, Cat(prefix, payload));
    ok := stream.EncodeTag(WT_STRING, f.tag);
    ghost var q := stream.Now();
    if !ok {
      EmitsStopped(p, q, key, Cat(prefix, payload));
      return;
    }
    var size: nat;
    ok, size := PackedSize(f.ltype, items);
    if !ok {
      FailsHere(q);
      EmitsThen(p, q, q, key, None, false);
      return;
    }
    ok := stream.EncodeVarint(size);
    ghost var r := stream.Now();
    EmitsNext(p, q, r, key, prefix, payload, PackedField(f, items), ok);
    if !ok { return; }
    if stream.buf == null {
      stream.Count(size);
      assert Emits(r, stream.Now(), payload, true) by { Counted(r, payload.value); }
    } else {
      ok := EncodeItems(stream, f.ltype, items);
    }
    EmitsThen(p, r, stream.Now(), Cat(key, prefix), payload, ok);
  }

  lemma Counted(p: Progress, b: seq<Byte>)
    requires p.limit.None?
    ensures Emits(p, p.(written := p.written + |b|), Some(b), true)
  {
  }

  // ------------------------------------------------------------------ messages

  /** encode_basic_field on the cell that pData and pSize point into. */
  method EncodeField(stream: OStream, f: Field, cell: Cell) returns (ok: bool)
    requires stream.Valid() && ShapedCell(f, cell) && f.tag < TWO_32
    modifies stream, stream.buf
    ensures stream.Valid() && Emits(old(stream.Now()), stream.Now(), EncField(f, cell), ok)
    decreases cell, 0
  {
    hide Emits, EncTagged, EncArray;
    EmitsNothing(stream.Now());
    match f.rule
    case Required =>
      ok := EncodeTagged(stream, f, cell.v);
    case Optional(hasFlag) =>
      var present := if hasFlag then cell.has else !IsDefault(f, cell);
      if !present { return true; }
      ok := EncodeTagged(stream, f, cell.v);
    case Repeated(counted, max) =>
      ok := EncodeArray(stream, f, cell.items, max);
    case OneOf =>
      if cell.which != f.tag { return true; }
      ok := EncodeTagged(stream, f, cell.v);
  }

  /** pb_encode. */
  method EncodeMsg(stream: OStream, fs: seq<Field>, cells: seq<Cell>) returns (ok: bool)
    requires stream.Valid() && ShapedMsg(fs, cells)
    modifies stream, stream.buf
    ensures stream.Valid() && Emits(old(stream.Now()), stream.Now(), EncMsg(fs, cells), ok)
    decreases cells, 2, 0
  {
    hide Emits, EncFrom, EncAt, Cat, ShapedCell, CellIndex, RequiredIndex, DataAddr, SizeAddr;
    ghost var p, all := stream.Now(), EncFrom(fs, cells, 0);
    ghost var done: Option<seq<Byte>> := Some([]);
    EmitsNothing(p);
    if fs == [] {
      FromEnd(fs, cells);
      return true;
    }
    CatEmpty(all);
    var iter := new FieldIter(fs, 0);
    var more := true;
    while more
      invariant stream.Valid() && iter.Valid() && iter.start == fs
      invariant more ==> Emits(p, stream.Now(), done, true) && all == Cat(done, EncFrom(fs, cells, iter.pos))
      invariant !more ==> Emits(p, stream.Now(), all, true)
      modifies stream, stream.buf, iter
      decreases if more then |fs| - iter.pos else -1
    {
      var i := iter.pos;
      ghost var q := stream.Now();
      assert ShapedAt(fs, cells, i);
      ok := EncodeField(stream, fs[i], cells[CellIndex(fs, i)]);
      FromStep(fs, cells, i);
      EmitsNext(p, q, stream.Now(), done, EncAt(fs, cells, i), EncFrom(fs, cells, i + 1), all, ok);
      if !ok { return; }
      done := Cat(done, EncAt(fs, cells, i));
      more := iter.Next();
      if !more {
        FromEnd(fs, cells);
        CatEmpty(done);
      }
    }
    ok := true;
  }

  lemma FromStep(fs: seq<Field>, cells: seq<Cell>, i: nat)
    requires i < |fs|
    ensures EncFrom(fs, cells, i) == Cat(EncAt(fs, cells, i), EncFrom(fs, cells, i + 1))
    ensures CellIndex(fs, i) < |cells| ==> EncAt(fs, cells, i) == EncField(fs[i], cells[CellIndex(fs, i)])
  {
  }

  lemma FromEnd(fs: seq<Field>, cells: seq<Cell>)
    ensures EncFrom(fs, cells, |fs|) == Some([])
  {
  }

  /** pb_get_encoded_size. */
  method GetEncodedSize(fs: seq<Field>, cells: seq<Cell>) returns (ok: bool, size: nat)
    requires ShapedMsg(fs, cells)
    ensures ok <==> EncMsg(fs, cells).Some?
    ensures ok ==> size == |EncMsg(fs, cells).value|
  {
    hide EncMsg, ShapedMsg;
    var stream := new OStream.Sizing();
    ok := EncodeMsg(stream, fs, cells);
    size := stream.bytesWritten;
  }
}
