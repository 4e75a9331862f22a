/**
  The decoder of pb_decode.c as it runs: an input stream with a byte budget, substreams
  for nested messages, the wrap-around field iterator and the words of seen required
  fields. Every method is proved against the functions of PbParse on the bytes left.
 */
module PbDecoder {
  import opened Bits
  import opened Options
  import opened PbWire
  import opened PbMessage
  import opened PbParse
  import opened PbRoundTrip
  import opened PbIter

  // ------------------------------------------------------------------ the stream

  class IStream {
    const data: seq<Byte>
    var state: nat
    var bytesLeft: nat

    ghost predicate Valid()
      reads this
    {
      state + bytesLeft <= |data|
    }

    /** The bytes this stream may still read. */
    ghost function Rest(): (s: seq<Byte>)
      reads this
      requires Valid()
      ensures |s| == bytesLeft
    {
      data[state..state + bytesLeft]
    }

    /** Where this stream ends; reading never moves it. */
    ghost function End(): nat
      reads this
    {
      state + bytesLeft
    }

    /** pb_istream_from_buffer. */
    constructor (buf: seq<Byte>)
      ensures Valid() && Rest() == buf
    {
      data, state, bytesLeft := buf, 0, |buf|;
    }

    constructor Part(buf: seq<Byte>, start: nat, size: nat)
      requires start + size <= |buf|
      ensures Valid() && data == buf && state == start && bytesLeft == size
    {
      data, state, bytesLeft := buf, start, size;
    }

    method ReadByte() returns (ok: bool, b: Byte)
      requires Valid()
      modifies this
      ensures Valid() && End() == old(End())
      ensures ok <==> old(Rest()) != []
      ensures ok ==> b == old(Rest())[0] && Rest() == old(Rest())[1..]
      ensures !ok ==> Rest() == []
    {
      b := 0;
      if bytesLeft == 0 { return false, b; }
      b := data[state];
      state := state + 1;
      bytesLeft := bytesLeft - 1;
      return true, b;
    }

    /** pb_read; without a buffer it skips. */
    method Read(count: nat) returns (ok: bool, b: seq<Byte>)
      requires Valid()
      modifies this
      ensures Valid() && End() == old(End())
      ensures ok <==> count <= |old(Rest())|
      ensures ok ==> b == old(Rest())[..count] && Rest() == old(Rest())[count..]
    {
      if bytesLeft < count { return false, []; }
      b := data[state..state + count];
      state := state + count;
      bytesLeft := bytesLeft - count;
      return true, b;
    }

    method DecodeVarint() returns (ok: bool, dest: nat)
      requires Valid()
      modifies this
      ensures Valid() && End() == old(End())
      ensures ok <==> ReadVarint(old(Rest())).Ok?
      ensures ok ==> ReadVarint(old(Rest())) == Ok(dest, Rest()) && dest < TWO_64
    {
      hide Or, Place;
      var bitpos: nat, result: nat := 0, 0;
      var b: Byte := 128;
      while b >= 128
        invariant Valid() && End() == old(End()) && bitpos % 7 == 0 && bitpos <= 70 && result < TWO_64
        invariant b >= 128 ==> ReadVarintFrom(Rest(), bitpos, result) == ReadVarint(old(Rest()))
        invariant b < 128 ==> ReadVarint(old(Rest())) == Ok(result, Rest())
        decreases 70 - bitpos
      {
        if bitpos >= 64 { return false, 0; }
        ok, b := ReadByte();
        if !ok { return false, 0; }
        assert Or(result, Place(b, bitpos, TWO_64)) < TWO_64 by { Pow2Values(); OrBound(result, Place(b, bitpos, TWO_64), 64); }
        result := Or(result, Place(b, bitpos, TWO_64));
        bitpos := (bitpos + 7) % 256;
      }
      return true, result;
    }

    /** pb_decode_varint32_eof. */
    method DecodeVarint32() returns (ok: bool, dest: nat, eof: bool)
      requires Valid()
      modifies this
      ensures Valid() && End() == old(End())
      ensures ok <==> ReadVarint32(old(Rest())).Ok?
      ensures ok ==> ReadVarint32(old(Rest())) == Ok(dest, Rest()) && dest < TWO_32
      ensures eof <==> old(Rest()) == []
    {
      hide Or, Place;
      var b: Byte;
      ok, b := ReadByte();
      if !ok { return false, 0, true; }
      if b < 128 { return true, b, false; }
      var bitpos: nat, result: nat := 7, b % 128;
      while true
        invariant Valid() && End() == old(End()) && bitpos < 256 && result < TWO_32
        invariant ReadVarint32(old(Rest())) == ReadVarint32From(Rest(), bitpos, result)
        decreases bytesLeft
      {
        ok, b := ReadByte();
        if !ok { return false, 0, false; }
        if bitpos >= 32 {
          var signExtension := if bitpos < 63 then 0xFF else 0x01;
          if b % 128 != 0 && (result / 0x8000_0000 == 0 || b != signExtension) { return false, 0, false; }
        } else {
          assert Or(result, Place(b, bitpos, TWO_32)) < TWO_32 by { Pow2Values(); OrBound(result, Place(b, bitpos, TWO_32), 32); }
          result := Or(result, Place(b, bitpos, TWO_32));
        }
        bitpos := (bitpos + 7) % 256;
        if b < 128 {
          if bitpos == 35 && (b / 16) % 8 != 0 { return false, 0, false; }
          return true, result, false;
        }
      }
    }

    method SkipVarintBytes() returns (ok: bool)
      requires Valid()
      modifies this
      ensures Valid() && End() == old(End())
      ensures ok <==> SkipVarint(old(Rest())).Ok?
      ensures ok ==> SkipVarint(old(Rest())) == Ok((), Rest())
    {
      while true
        invariant Valid() && End() == old(End()) && SkipVarint(Rest()) == SkipVarint(old(Rest()))
        decreases bytesLeft
      {
        var b: Byte;
        ok, b := ReadByte();
        if !ok || b < 128 { return; }
      }
    }

    /** pb_skip_field. */
    method Skip(wireType: nat) returns (ok: bool)
      requires Valid()
      modifies this
      ensures Valid() && End() == old(End())
      ensures ok <==> SkipField(old(Rest()), wireType).Ok?
      ensures ok ==> SkipField(old(Rest()), wireType) == Ok((), Rest())
    {
      hide SkipVarint, ReadVarint32;
      var skipped: seq<Byte>;
      if wireType == WT_VARINT {
        ok := SkipVarintBytes();
      } else if wireType == WT_64BIT {
        ok, skipped := Read(8);
      } else if wireType == WT_STRING {
        var length, eof;
        ok, length, eof := DecodeVarint32();
        if !ok { return; }
        ok, skipped := Read(length);
      } else if wireType == WT_32BIT {
        ok, skipped := Read(4);
      } else {
        return false;
      }
    }

    /** pb_decode_tag; eof tells a message end from an error. */
    method DecodeTag() returns (ok: bool, wireType: nat, tag: nat, eof: bool)
      requires Valid()
      modifies this
      ensures Valid() && End() == old(End())
      ensures ok ==> ReadKey(old(Rest())) == Key(tag, wireType, Rest())
      ensures !ok && eof && old(Rest()) != [] ==> ReadKey(old(Rest())) == EndOfMessage(Rest())
      ensures !ok && !eof ==> ReadKey(old(Rest())) == BadKey
    {
      hide ReadVarint32;
      var temp;
      ok, temp, eof := DecodeVarint32();
      if !ok { return false, 0, 0, eof; }
      if temp == 0 { return false, 0, 0, true; }
      return true, temp % 8, temp / 8, false;
    }

    /** pb_make_string_substream. The parent keeps its position but gives up the bytes. */
    method MakeSubstream() returns (ok: bool, sub: IStream)
      requires Valid()
      modifies this
      ensures ok <==> ReadDelimited(old(Rest())).Ok?
      ensures fresh(sub) && sub.Valid() && sub.data == data
      ensures ok ==>
        && sub.Rest() == ReadDelimited(old(Rest())).value
        && |sub.Rest()| + bytesLeft < old(bytesLeft)
        && sub.End() + bytesLeft == old(End())
        && data[sub.End()..old(End())] == ReadDelimited(old(Rest())).rest
      ensures Valid() && End() <= old(End()) && (!ok ==> End() == old(End()))
    {
      hide ReadVarint32;
      var size, eof;
      ok, size, eof := DecodeVarint32();
      if !ok || bytesLeft < size {
        sub := new IStream.Part(data, 0, 0);
        return false, sub;
      }
      sub := new IStream.Part(data, state, size);
      bytesLeft := bytesLeft - size;
    }

    /** pb_close_string_substream: skips what the nested decoder left and moves the parent
        past the substream, however much of it was consumed. */
    method CloseSubstream(sub: IStream)
      requires sub != this && sub.Valid() && sub.data == data && sub.End() + bytesLeft <= |data|
      modifies this, sub
      ensures Valid() && state == old(sub.End()) && bytesLeft == old(bytesLeft)
      ensures Rest() == data[old(sub.End())..old(sub.End()) + bytesLeft]
    {
      if sub.bytesLeft != 0 {
        var ok, skipped := sub.Read(sub.bytesLeft);
      }
      state := sub.state;
    }
  }

  // ------------------------------------------------------------------ tables

  /** Tags are positive and distinct, in the table and in those of its submessages. */
  ghost predicate Table(fs: seq<Field>)
    decreases fs
  {
    && (forall i :: 0 <= i < |fs| ==> TableField(fs[i]))
    && (forall i, j :: 0 <= i < j < |fs| ==> fs[i].tag != fs[j].tag)
  }

  ghost predicate TableField(f: Field)
    decreases f
  {
    f.tag >= 1 && TableType(f.ltype)
  }

  ghost predicate TableType(l: LType)
    decreases l
  {
    l.SubmsgT? ==> Table(l.fields)
  }

  lemma TableTag(fs: seq<Field>, i: nat)
    requires Table(fs) && i < |fs|
    ensures fs[i].tag >= 1
  {
    assert TableField(fs[i]);
  }

  /** Wherever the wrap-around search starts, it stops where a search from the front does. */
  lemma FindIsUnique(fs: seq<Field>, i: nat)
    requires Table(fs) && i < |fs|
    ensures Find(fs, fs[i].tag) == Some(i)
  {
    var r := Find(fs, fs[i].tag);
    if r.None? || r.value != i { assert false; }
  }

  // ------------------------------------------------------------------ values

  /** pb_dec_varint and its siblings: a C cast and a check that it lost nothing. */
  method DecodeNum(stream: IStream, l: LType) returns (ok: bool, v: Val)
    requires stream.Valid() && Packable(l)
    modifies stream
    ensures stream.Valid() && stream.End() == old(stream.End())
    ensures ok <==> DecNum(l, old(stream.Rest())).Ok?
    ensures ok ==> DecNum(l, old(stream.Rest())) == Ok(v, stream.Rest())
  {
    hide ReadVarint, LittleEndianValue, Pow2, ToSigned, InSigned;
    var value: nat;
    v := Num(0);
    match l {
      case VarintT(size) =>
        ok, value := stream.DecodeVarint();
        if !ok || !IntSize(size) { return false, v; }
        var svalue := if size == 8 then ToSigned(value, 8) else ToSigned(value, 4);
        var clamped := ToSigned(svalue % TWO_64, size);
        SignedRange(value, if size == 8 then 8 else 4);
        ClampSigned(svalue, size);
        return clamped == svalue, Num(clamped);
      case UVarintT(size) =>
        ok, value := stream.DecodeVarint();
        if !ok || !IntSize(size) { return false, v; }
        var clamped := value % Pow2(8 * size);
        ClampUnsigned(value, Pow2(8 * size));
        return clamped == value, Num(clamped);
      case SVarintT(size) =>
        ok, value := stream.DecodeVarint();
        if !ok || !IntSize(size) { return false, v; }
        var svalue := UnZigZag(value);
        var clamped := ToSigned(svalue % TWO_64, size);
        ClampSigned(svalue, size);
        return clamped == svalue, Num(clamped);
      case Fixed32T =>
        var bytes;
        ok, bytes := stream.Read(4);
        if ok { v := Num(LittleEndianValue(bytes)); }
      case Fixed64T =>
        var bytes;
        ok, bytes := stream.Read(8);
        if ok { v := Num(LittleEndianValue(bytes)); }
    }
  }

  lemma ClampUnsigned(v: nat, p: nat)
    requires p > 0
    ensures v % p == v <==> v < p
  {
    if v < p { ModUnique(v, p, 0, v); }
  }

  lemma SignedRange(v: nat, size: nat)
    requires size == 4 || size == 8
    ensures -0x8000_0000_0000_0000 <= ToSigned(v, size) < 0x8000_0000_0000_0000
  {
    hide Pow2;
    var p := Pow2(8 * size);
    assert 0 < p <= TWO_64 by { Pow2Values(); Pow2Monotone(8 * size, 64); }
    assert 0 <= v % p < p;
  }

  method DecodeVal(stream: IStream, l: LType, stored: Val) returns (ok: bool, v: Val)
    requires stream.Valid() && TableType(l)
    modifies stream
    ensures stream.Valid() && stream.End() <= old(stream.End()) && (ok ==> stream.End() == old(stream.End()))
    ensures ok <==> DecVal(l, stored, old(stream.Rest())).Ok?
    ensures ok ==> DecVal(l, stored, old(stream.Rest())) == Ok(v, stream.Rest())
    decreases stream.bytesLeft, 3
  {
    hide DecNum, DecMsg, ReadVarint32;
    v := stored;
    if Packable(l) {
      ok, v := DecodeNum(stream, l);
      return;
    }
    match l {
      case SubmsgT(fs) =>
        ok, v := DecodeSubmessage(stream, fs, stored);
      case BytesT(size) =>
        var n, eof, bytes;
        ok, n, eof := stream.DecodeVarint32();
        if !ok || n + BYTES_HEADER > size { return false, v; }
        ok, bytes := stream.Read(n);
        v := Blob(bytes);
      case StringT(size) =>
        var n, eof, bytes;
        ok, n, eof := stream.DecodeVarint32();
        if !ok || n + 1 > size { return false, v; }
        ok, bytes := stream.Read(n);
        v := Blob(bytes);
      case FixedBytesT(size) =>
        var n, eof, bytes;
        ok, n, eof := stream.DecodeVarint32();
        if !ok { return; }
        if n == 0 { return true, Blob(seq(size, _ => 0)); }
        if n != size { return false, v; }
        ok, bytes := stream.Read(size);
        v := Blob(bytes);
    }
  }

  /** pb_dec_submessage; the caller passes the defaults for a new array element. */
  method DecodeSubmessage(stream: IStream, fs: seq<Field>, stored: Val) returns (ok: bool, v: Val)
    requires stream.Valid() && Table(fs)
    modifies stream
    ensures stream.Valid() && stream.End() <= old(stream.End()) && (ok ==> stream.End() == old(stream.End()))
    ensures ok <==> DecVal(SubmsgT(fs), stored, old(stream.Rest())).Ok?
    ensures ok ==> DecVal(SubmsgT(fs), stored, old(stream.Rest())) == Ok(v, stream.Rest())
    decreases stream.bytesLeft, 2, 1
  {
    hide DecMsg, ReadDelimited;
    var sub;
    v := stored;
    ok, sub := stream.MakeSubstream();
    if !ok { return; }
    var cells;
    ok, cells := DecodeNoinit(sub, fs, if stored.Sub? then stored.cells else DefaultCells(fs));
    stream.CloseSubstream(sub);
    v := Sub(cells);
  }

  /** The while loop over a packed array. */
  method DecodePacked(sub: IStream, l: LType, counted: bool, max: nat, items: seq<Val>, k: nat)
    returns (ok: bool, items': seq<Val>, k': nat)
    requires sub.Valid() && TableType(l)
    modifies sub
    ensures sub.Valid() && sub.End() <= old(sub.End()) && (ok ==> sub.End() == old(sub.End()))
    ensures ok <==> DecPacked(l, counted, max, items, k, old(sub.Rest())).Ok?
    ensures ok ==> DecPacked(l, counted, max, items, k, old(sub.Rest())) == Ok((items', k'), sub.Rest())
    decreases sub.bytesLeft, 4
  {
    hide DecPacked, DecVal, PutItem;
    items', k' := items, k;
    while sub.bytesLeft > 0 && k' < max
      invariant sub.Valid() && sub.End() == old(sub.End()) && sub.bytesLeft <= old(sub.bytesLeft)
      invariant DecPacked(l, counted, max, items', k', sub.Rest()) == DecPacked(l, counted, max, items, k, old(sub.Rest()))
      decreases sub.bytesLeft
    {
      PackedRound(l, counted, max, items', k', sub.Rest());
      var v;
      ok, v := DecodeVal(sub, l, ZeroVal(l));
      if !ok { return; }
      items', k' := PutItem(counted, items', k', v), k' + 1;
    }
    PackedRound(l, counted, max, items', k', sub.Rest());
    return true, items', k';
  }

  /** One round of the packed loop. */
  lemma PackedRound(l: LType, counted: bool, max: nat, items: seq<Val>, k: nat, s: seq<Byte>)
    ensures DecPacked(l, counted, max, items, k, s) ==
      if s == [] || k >= max then Ok((items, k), s)
      else
        var v := DecVal(l, ZeroVal(l), s);
        if v.Fail? then Fail else DecPacked(l, counted, max, PutItem(counted, items, k, v.value), k + 1, v.rest)
  {
  }

  // ------------------------------------------------------------------ fields

  /** pb_release_union_field: looks the old arm up and comes back to the new one. */
  method ReleaseUnionField(iter: FieldIter, which: nat) returns (ok: bool)
    requires iter.Valid() && iter.start != [] && Table(iter.start)
    modifies iter
    ensures iter.Valid() && (ok ==> iter.pos == old(iter.pos))
    ensures ok <==> which == 0 || Find(iter.start, which).Some?
  {
    ghost var here := iter.pos;
    var newTag := iter.Tag();
    if which == 0 { return true; }
    FindIsUnique(iter.start, here);
    if which == newTag { return true; }
    ok := iter.FindTag(which);
    if !ok {
      if Find(iter.start, which).Some? { assert false; }
      return;
    }
    FindIsUnique(iter.start, iter.pos);
    ok := iter.FindTag(newTag);
    FindIsUnique(iter.start, iter.pos);
  }

  /** decode_field: what it does to the cell the iterator points at, and to the progress
      of a fixed-count array. */
  method DecodeField(stream: IStream, iter: FieldIter, wireType: nat, cell: Cell, fixedCount: nat)
    returns (ok: bool, cell': Cell, fixedCount': nat)
    requires stream.Valid() && iter.Valid() && iter.start != [] && Table(iter.start)
    modifies stream, iter
    ensures stream.Valid() && stream.End() <= old(stream.End()) && (ok ==> stream.End() == old(stream.End()))
    ensures iter.Valid() && (ok ==> iter.pos == old(iter.pos))
    ensures ok <==> DecCell(iter.start, old(iter.pos), cell, fixedCount, wireType, old(stream.Rest())).Ok?
    ensures ok ==>
      DecCell(iter.start, old(iter.pos), cell, fixedCount, wireType, old(stream.Rest())) == Ok((cell', fixedCount'), stream.Rest())
    decreases stream.bytesLeft, 6
  {
    hide DecVal, ReadDelimited, Find;
    var f := iter.start[iter.pos];
    assert TableField(f);
    cell', fixedCount' := cell, fixedCount;
    var v;
    match f.rule {
      case Required =>
        ok, v := DecodeVal(stream, f.ltype, Stored(cell));
        cell' := Single(v);
      case Optional(hasFlag) =>
        ok, v := DecodeVal(stream, f.ltype, Stored(cell));
        cell' := if hasFlag then Has(true, v) else Single(v);
      case Repeated(counted, max) =>
        var items := if cell.Many? then cell.items else [];
        var size := if counted then |items| else fixedCount;
        ok, items, size := DecodeRepeated(stream, f.ltype, counted, max, items, size, wireType);
        cell' := Many(items);
        if !counted { fixedCount' := size; }
      case OneOf =>
        if cell.Union? {
          ok := ReleaseUnionField(iter, cell.which);
          if !ok { return; }
        }
        ok, v := DecodeVal(stream, f.ltype, if f.ltype.SubmsgT? then ZeroVal(f.ltype) else Stored(cell));
        cell' := Union(f.tag, v);
    }
  }

  /** The repeated case of decode_static_field. */
  method DecodeRepeated(stream: IStream, l: LType, counted: bool, max: nat, items: seq<Val>, k: nat, wireType: nat)
    returns (ok: bool, items': seq<Val>, k': nat)
    requires stream.Valid() && TableType(l)
    modifies stream
    ensures stream.Valid() && stream.End() <= old(stream.End()) && (ok ==> stream.End() == old(stream.End()))
    ensures ok <==> DecRepeated(l, counted, max, items, k, wireType, old(stream.Rest())).Ok?
    ensures ok ==> DecRepeated(l, counted, max, items, k, wireType, old(stream.Rest())) == Ok((items', k'), stream.Rest())
    decreases stream.bytesLeft, 5
  {
    hide DecVal, DecPacked, ReadDelimited, PutItem, TableType;
    items', k' := items, k;
    if wireType == WT_STRING && Packable(l) {
      var substream, status;
      ok, substream := stream.MakeSubstream();
      if !ok { return; }
      status, items', k' := DecodePacked(substream, l, counted, max, items, k);
      if substream.bytesLeft != 0 { return false, items', k'; }
      stream.CloseSubstream(substream);
      ok := status;
    } else {
      if k >= max { return false, items', k'; }
      var v;
      ok, v := DecodeVal(stream, l, ZeroVal(l));
      items', k' := PutItem(counted, items, k, v), k + 1;
    }
  }

  // ------------------------------------------------------------------ required fields

  /** The words of fields_seen hold exactly the set. */
  ghost predicate Holds(words: seq<nat>, seen: set<nat>) {
    && |words| == 2 && words[0] < TWO_32 && words[1] < TWO_32
    && (forall k :: k in seen ==> k < 64)
    && forall k: nat :: k < 64 ==> (k in seen <==> Bit(words[k / 32], k % 32))
  }

  lemma HoldsNothing()
    ensures Holds([0, 0], {})
  {
    forall k: nat | k < 64 ensures !Bit([0, 0][k / 32], k % 32) { BitOfZero(k % 32); }
  }

  lemma MarkSeen(words: seq<nat>, seen: set<nat>, j: nat)
    requires Holds(words, seen) && j < 64
    ensures Holds(words[j / 32 := Or(words[j / 32], Pow2(j % 32))], seen + {j})
  {
    hide Bit, Or, Pow2;
    var w := words[j / 32];
    assert Or(w, Pow2(j % 32)) < TWO_32 by {
      Pow2Values();
      assert Pow2(j % 32) < Pow2(32) by { assert Pow2(j % 32 + 1) == 2 * Pow2(j % 32) by { Pow2Add(1, j % 32); } Pow2Monotone(j % 32 + 1, 32); }
      OrBound(w, Pow2(j % 32), 32);
    }
    forall k: nat | k < 64 && k / 32 == j / 32
      ensures Bit(Or(w, Pow2(j % 32)), k % 32) <==> k in seen + {j}
    {
      BitOr(w, Pow2(j % 32), k % 32);
      BitPow2(j % 32, k % 32);
      assert k == k / 32 * 32 + k % 32;
    }
  }

  predicate LowBitsSet(w: nat, n: nat) {
    forall k: nat :: k < n ==> Bit(w, k)
  }

  /** A word equals the mask of its n low bits exactly if those are the bits it has. */
  lemma MaskIff(w: nat, n: nat)
    requires n <= 32 && w < TWO_32 && forall k: nat :: n <= k < 32 ==> !Bit(w, k)
    ensures w == Pow2(n) - 1 <==> LowBitsSet(w, n)
  {
    hide Pow2;
    assert Pow2(n) <= Pow2(32) == TWO_32 by { Pow2Monotone(n, 32); Pow2Values(); }
    var mask: nat := Pow2(n) - 1;
    forall k: nat ensures Bit(mask, k) <==> k < n { BitAllOnes(n, k); }
    if w != mask && LowBitsSet(w, n) { BitsDetermine(w, mask, 32); }
  }

  lemma WordIff(words: seq<nat>, seen: set<nat>, i: nat, n: nat)
    requires Holds(words, seen) && i < 2 && n <= 32 && forall k :: k in seen ==> k < 32 * i + n || k >= 32 * i + 32
    ensures words[i] == Pow2(n) - 1 <==> forall k: nat :: 32 * i <= k < 32 * i + n ==> k in seen
  {
    hide Bit, Pow2;
    forall k: nat | k < 32 ensures Bit(words[i], k) <==> 32 * i + k in seen {
      assert (32 * i + k) / 32 == i && (32 * i + k) % 32 == k;
    }
    MaskIff(words[i], n);
    if words[i] == Pow2(n) - 1 {
      forall k: nat | 32 * i <= k < 32 * i + n ensures k in seen {
        var j: nat := k - 32 * i;
        assert Bit(words[i], j);
      }
    } else {
      var j: nat :| j < n && !Bit(words[i], j);
      assert 32 * i + j !in seen;
    }
  }

  /** The two comparisons that end pb_decode_noinit. */
  predicate WordsComplete(words: seq<nat>, count: nat)
    requires |words| == 2 && count <= 64
  {
    && (forall i :: 0 <= i < count / 32 ==> words[i] == 0xFFFF_FFFF)
    && (count % 32 != 0 ==> words[count / 32] == Pow2(count % 32) - 1)
  }

  /** They pass exactly if each of the counted fields was seen. */
  lemma WordsCompleteIff(words: seq<nat>, seen: set<nat>, count: nat)
    requires |words| == 2 && Holds(words, seen) && count <= 64 && forall k :: k in seen ==> k < count
    ensures WordsComplete(words, count) <==> forall k: nat :: k < count ==> k in seen
  {
    hide Bit, Pow2, Holds;
    assert Pow2(32) == TWO_32 by { Pow2Values(); }
    if count < 32 {
      WordIff(words, seen, 0, count);
    } else {
      WordIff(words, seen, 0, 32);
      if count > 32 { WordIff(words, seen, 1, count - 32); }
    }
  }

  // ------------------------------------------------------------------ messages

  /** How many required fields there are, found by running the iterator to the end of
      the table from wherever it stands. */
  method CountRequired(iter: FieldIter) returns (count: nat)
    requires iter.Valid() && Table(iter.start)
    modifies iter
    ensures iter.Valid()
    ensures count == RequiredIndex(iter.start, |iter.start|)
  {
    hide Table;
    count := 0;
    var lastRequired := false;
    var more := true;
    while more
      invariant iter.Valid()
      invariant !more && iter.start != [] ==>
        count + (if lastRequired then 1 else 0) == RequiredIndex(iter.start, |iter.start|)
      invariant !more && iter.start == [] ==> count == 0
      decreases if more then |iter.start| + 1 - iter.pos else 0
    {
      count := iter.requiredFieldIndex;
      lastRequired := iter.start != [] && iter.start[iter.pos].rule.Required?;
      more := iter.Next();
    }
    assert iter.start != [] ==> iter.Tag() >= 1 by { if iter.start != [] { TableTag(iter.start, iter.pos); } }
    if lastRequired && iter.Tag() != 0 { count := count + 1; }
  }

  /** One round of the loop on a key. */
  lemma LoopRound(fs: seq<Field>, st: State, s: seq<Byte>, tag: nat, wireType: nat, rest: seq<Byte>)
    requires ReadKey(s) == Key(tag, wireType, rest) && s != []
    ensures DecLoop(fs, st, s) ==
      match Find(fs, tag) {
        case Some(i) =>
          var r := DecField(fs, st, i, wireType, rest);
          if r.Fail? then Fail else DecLoop(fs, r.value, r.rest)
        case None =>
          var r := SkipField(rest, wireType);
          if r.Fail? || (fs == [] && tag == 0) then Fail else DecLoop(fs, st, r.rest)
      }
  {
  }

  lemma LoopEnds(fs: seq<Field>, st: State, s: seq<Byte>)
    ensures s == [] ==> DecLoop(fs, st, s) == Ok(st, [])
    ensures s != [] && ReadKey(s).EndOfMessage? ==> DecLoop(fs, st, s) == Ok(st, ReadKey(s).after)
    ensures s != [] && ReadKey(s).BadKey? ==> DecLoop(fs, st, s) == Fail
  {
  }

  lemma RequiredIndexMonotone(fs: seq<Field>, i: nat, j: nat)
    requires i <= j <= |fs|
    ensures RequiredIndex(fs, i) <= RequiredIndex(fs, j)
  {
    if i < j { RequiredIndexMonotone(fs, i, j - 1); }
  }

  /** The last step of pb_decode_noinit: were the first 64 required fields seen? */
  method CheckRequired(iter: FieldIter, fieldsSeen: array<nat>, ghost seen: set<nat>) returns (ok: bool)
    requires iter.Valid() && Table(iter.start) && fieldsSeen.Length == 2 && Holds(fieldsSeen[..], seen)
    requires SeenBound(iter.start, seen)
    modifies iter
    ensures ok <==> AllRequiredSeen(iter.start, seen)
  {
    hide Holds, Bit, Pow2, Table, RequiredIndex;
    var count := CountRequired(iter);
    if count > MAX_REQUIRED { count := MAX_REQUIRED; }
    WordsCompleteIff(fieldsSeen[..], seen, count);
    var w := 0;
    while w < count / 32
      invariant 0 <= w <= count / 32 && forall i :: 0 <= i < w ==> fieldsSeen[i] == 0xFFFF_FFFF
    {
      if fieldsSeen[w] != 0xFFFF_FFFF { return false; }
      w := w + 1;
    }
    return count % 32 == 0 || fieldsSeen[count / 32] == Pow2(count % 32) - 1;
  }

  /** The bookkeeping for the field the iterator found, and its decoding. */
  method DecodeFound(stream: IStream, iter: FieldIter, fieldsSeen: array<nat>, wireType: nat, cells: seq<Cell>,
                     fixedPos: Option<nat>, fixedCount: nat, ghost seen: set<nat>)
    returns (ok: bool, cells': seq<Cell>, fixedPos': Option<nat>, fixedCount': nat, ghost seen': set<nat>)
    requires stream.Valid() && iter.Valid() && iter.start != [] && Table(iter.start)
    requires fieldsSeen.Length == 2 && Holds(fieldsSeen[..], seen) && SeenBound(iter.start, seen)
    requires FixedField(iter.start, fixedPos)
    modifies stream, iter, fieldsSeen
    ensures stream.Valid() && stream.End() <= old(stream.End()) && (ok ==> stream.End() == old(stream.End()))
    ensures iter.Valid()
    ensures var r := DecField(iter.start, State(cells, seen, fixedPos, fixedCount), old(iter.pos), wireType, old(stream.Rest()));
            if ok then r == Ok(State(cells', seen', fixedPos', fixedCount'), stream.Rest()) else r.Fail?
    ensures ok ==> Holds(fieldsSeen[..], seen') && SeenBound(iter.start, seen') && FixedField(iter.start, fixedPos')
    decreases stream.bytesLeft, 7
  {
    hide DecCell, Holds, Bit, Or, Pow2, Table, CellIndex, RequiredIndex, DataAddr, SizeAddr, SeenBound;
    ok, cells', fixedPos', fixedCount', seen' := false, cells, fixedPos, fixedCount, seen;
    var i, f := iter.pos, iter.start[iter.pos];
    if f.rule.Repeated? && !f.rule.counted && fixedPos != Some(i) {
      if fixedPos.Some? && fixedCount != iter.start[fixedPos.value].rule.max { return; }
      fixedPos', fixedCount' := Some(i), 0;
    }
    if f.rule.Required? && iter.requiredFieldIndex < MAX_REQUIRED {
      var j := iter.requiredFieldIndex;
      ghost var words := fieldsSeen[..];
      MarkSeen(words, seen, j);
      fieldsSeen[j / 32] := Or(fieldsSeen[j / 32], Pow2(j % 32));
      assert fieldsSeen[..] == words[j / 32 := Or(words[j / 32], Pow2(j % 32))];
      seen' := seen + {j};
      assert SeenBound(iter.start, seen') by { RequiredIndexUp(iter.start, i, seen); }
    }
    var c := CellIndex(iter.start, i);
    if c >= |cells| { return; }
    var cell;
    ok, cell, fixedCount' := DecodeField(stream, iter, wireType, cells[c], fixedCount');
    if ok { cells' := cells[c := cell]; }
  }

  ghost predicate FixedField(fs: seq<Field>, fixedPos: Option<nat>) {
    fixedPos.Some? ==> fixedPos.value < |fs| && fs[fixedPos.value].rule.Repeated?
  }

  ghost predicate SeenBound(fs: seq<Field>, seen: set<nat>) {
    forall k :: k in seen ==> k < MAX_REQUIRED && k < RequiredIndex(fs, |fs|)
  }

  /** pb_decode_noinit. */
  method DecodeNoinit(stream: IStream, fs: seq<Field>, dest: seq<Cell>) returns (ok: bool, cells: seq<Cell>)
    requires stream.Valid() && Table(fs)
    modifies stream
    ensures stream.Valid() && stream.End() <= old(stream.End()) && (ok ==> stream.End() == old(stream.End()))
    ensures ok <==> DecMsg(fs, dest, old(stream.Rest())).Ok?
    ensures ok ==> DecMsg(fs, dest, old(stream.Rest())) == Ok(cells, stream.Rest())
    decreases stream.bytesLeft, 2, 0
  {
    hide DecField, ReadKey, Find, SkipField, Holds, Table, DecLoop, SeenBound, AllRequiredSeen, DataAddr, SizeAddr,
      RequiredIndex, IStream.Rest;
    cells := dest;
    var fieldsSeen := new nat[2](_ => 0);
    assert fieldsSeen[..] == [0, 0];
    HoldsNothing();
    var iter := new FieldIter(fs, 0);
    var fixedPos: Option<nat>, fixedCount := None, 0;
    ghost var seen: set<nat> := {};
    ghost var whole := DecLoop(fs, State(dest, {}, None, 0), stream.Rest());
    assert SeenBound(fs, seen) by { NothingSeen(fs); }
    while stream.bytesLeft > 0
      invariant stream.Valid() && stream.End() == old(stream.End()) && stream.bytesLeft <= old(stream.bytesLeft)
      invariant iter.Valid() && iter.start == fs
      invariant Holds(fieldsSeen[..], seen) && SeenBound(fs, seen) && FixedField(fs, fixedPos)
      invariant DecLoop(fs, State(cells, seen, fixedPos, fixedCount), stream.Rest()) == whole
      decreases stream.bytesLeft
    {
      ghost var s, st := stream.Rest(), State(cells, seen, fixedPos, fixedCount);
      LoopEnds(fs, st, s);
      var wireType, tag, eof;
      ok, wireType, tag, eof := stream.DecodeTag();
      if !ok {
        if eof { break; }
        return;
      }
      LoopRound(fs, st, s, tag, wireType, stream.Rest());
      var found := iter.FindTag(tag);
      if !found {
        ok := stream.Skip(wireType);
        if !ok { return; }
      } else {
        // On an empty message the terminator's tag 0 is found; its zero data_size fails.
        if fs == [] { return false, cells; }
        FindIsUnique(fs, iter.pos);
        ok, cells, fixedPos, fixedCount, seen :=
          DecodeFound(stream, iter, fieldsSeen, wireType, cells, fixedPos, fixedCount, seen);
        if !ok { return; }
      }
    }
    LoopEnds(fs, State(cells, seen, fixedPos, fixedCount), stream.Rest());
    if fixedPos.Some? && fixedCount != fs[fixedPos.value].rule.max { return false, cells; }
    ok := CheckRequired(iter, fieldsSeen, seen);
  }

  /** pb_decode. */
  method DecodeMessage(stream: IStream, fs: seq<Field>) returns (ok: bool, cells: seq<Cell>)
    requires stream.Valid() && Table(fs)
    modifies stream
    ensures stream.Valid()
    ensures ok <==> Decode(fs, old(stream.Rest())).Ok?
    ensures ok ==> Decode(fs, old(stream.Rest())) == Ok(cells, stream.Rest())
  {
    hide DecMsg, Table, DefaultCells;
    ok, cells := DecodeNoinit(stream, fs, DefaultCells(fs));
  }

  lemma NothingSeen(fs: seq<Field>)
    ensures SeenBound(fs, {})
  {
  }

  lemma RequiredIndexUp(fs: seq<Field>, i: nat, seen: set<nat>)
    requires i < |fs| && fs[i].rule.Required? && RequiredIndex(fs, i) < MAX_REQUIRED && SeenBound(fs, seen)
    ensures SeenBound(fs, seen + {RequiredIndex(fs, i)})
  {
    RequiredIndexMonotone(fs, i + 1, |fs|);
  }
}
