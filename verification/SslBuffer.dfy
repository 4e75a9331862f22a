/**
  SSLBuffer of ssl_buffer.cc: a window of size bytes, with room for cap, that starts
  offset bytes into an allocation and slides forward as bytes are consumed. The offset is
  a 16-bit field, and near the largest capacity it can wrap around.
 */
module SslBuffer {
  import opened Bits

  const ALIGN := 8           // SSL3_ALIGN_PAYLOAD
  const MAX_CAP := 0xFFFF
  const TWO_16 := 0x1_0000

  /** Where EnsureCap puts the window in a new allocation, which lies at address. */
  function AlignedOffset(headerLen: nat, address: nat): (offset: nat)
    ensures offset < ALIGN && (address + offset + headerLen) % ALIGN == 0
  {
    (0 - headerLen - address) % ALIGN
  }

  class Buffer {
    var buf: array?<Byte>
    var offset: nat
    var size: nat
    var cap: nat

    ghost predicate Valid()
      reads this
    {
      && size <= cap <= MAX_CAP
      && offset < TWO_16
      && if buf == null then offset == 0 && cap == 0 else offset + cap <= buf.Length
    }

    /** The offset does not wrap before the window is consumed. */
    predicate Straight()
      reads this
    {
      offset + size <= TWO_16
    }

    /** The whole allocation. */
    ghost function Allocation(): seq<Byte>
      reads this, buf
    {
      if buf == null then [] else buf[..]
    }

    /** The bytes in the window. */
    ghost function Data(): (d: seq<Byte>)
      reads this, buf
      requires Valid()
      ensures |d| == size && offset + size <= |Allocation()| && d == Allocation()[offset..offset + size]
    {
      if buf == null then [] else buf[offset..offset + size]
    }

    constructor ()
      ensures Valid() && Data() == [] && buf == null
    {
      buf, offset, size, cap := null, 0, 0, 0;
    }

    method Clear()
      modifies this
      ensures Valid() && Data() == [] && buf == null && cap == 0 && offset == 0
    {
      buf, offset, size, cap := null, 0, 0, 0;
    }

    /** Room for newCap bytes in all, keeping the contents; headerLen bytes from the start
        a new allocation is aligned, wherever it lies. */
    method EnsureCap(headerLen: nat, newCap: nat, address: nat) returns (ok: bool)
      requires Valid()
      modifies this
      ensures Valid() && Data() == old(Data()) && size == old(size)
      ensures ok <==> newCap <= MAX_CAP
      ensures ok ==> cap >= newCap && (newCap > 0 ==> buf != null)
      ensures if ok && old(cap) < newCap
              then fresh(buf) && cap == newCap && offset == AlignedOffset(headerLen, address)
              else buf == old(buf) && cap == old(cap) && offset == old(offset)
    {
      if newCap > MAX_CAP { return false; }
      if cap >= newCap { return true; }
      var newBuf := new Byte[newCap + ALIGN - 1](_ => 0);
      var newOffset := AlignedOffset(headerLen, address);
      if buf != null {
        Copy(newBuf, newOffset);
      }
      ghost var kept := Data();
      assert newBuf[newOffset..newOffset + size] == kept;
      buf, offset, cap := newBuf, newOffset, newCap;
      return true;
    }

    method Copy(dest: array<Byte>, at: nat)
      requires Valid() && buf != null && dest != buf && at + size <= dest.Length
      modifies dest
      ensures dest[at..at + size] == old(Data())
    {
      var i := 0;
      while i < size
        invariant 0 <= i <= size && dest[at..at + i] == buf[offset..offset + i]
      {
        dest[at + i] := buf[offset + i];
        i := i + 1;
        assert dest[at..at + i] == buf[offset..offset + i - 1] + [buf[offset + i - 1]];
      }
    }

    /** Writes at the end of the window and takes the bytes in: remaining() and DidWrite. */
    method Append(b: seq<Byte>)
      requires Valid() && |b| <= cap - size && (|b| > 0 ==> buf != null)
      modifies this`size, buf
      ensures Valid() && Data() == old(Data()) + b
    {
      if |b| == 0 {
        assert Data() == Data() + b;
        return;
      }
      ghost var kept := buf[offset..offset + size];
      forall i | 0 <= i < |b| { buf[offset + size + i] := b[i]; }
      assert buf[offset..offset + size] == kept;
      size := size + |b|;
      assert buf[offset..offset + size] == kept + b;
    }

    method Span() returns (d: seq<Byte>)
      requires Valid()
      ensures d == Data()
    {
      return if buf == null then [] else buf[offset..offset + size];
    }

    /** Consume: drops bytes from the front, unless the offset wraps with bytes left. */
    method Consume(len: nat)
      requires Valid() && len <= size
      modifies this`offset, this`size, this`cap
      ensures Valid() && offset == (old(offset) + len) % TWO_16 && size == old(size) - len && cap == old(cap) - len
      ensures old(Straight()) ==> Straight() && Data() == old(Data())[len..]
    {
      offset := (offset + len) % TWO_16;
      size := size - len;
      cap := cap - len;
    }
  }

  // ------------------------------------------------------------------ short writes

  function Sum(writes: seq<nat>): nat {
    if writes == [] then 0 else Sum(writes[..|writes| - 1]) + writes[|writes| - 1]
  }

  /** The bytes handed over when the window is consumed by these writes: each starts at data(). */
  function Handed(allocation: seq<Byte>, offset: nat, writes: seq<nat>): (s: seq<Byte>)
    requires offset + Sum(writes) <= |allocation|
    ensures |s| == Sum(writes)
  {
    if writes == [] then []
    else
      var before := writes[..|writes| - 1];
      var at := (offset + Sum(before)) % TWO_16;
      Handed(allocation, offset, before) + allocation[at..at + writes[|writes| - 1]]
  }

  /** Short writes that take up to size bytes, at least one each. */
  predicate Short(writes: seq<nat>, size: nat) {
    Sum(writes) <= size && forall i :: 0 <= i < |writes| ==> writes[i] > 0
  }

  lemma HandedNext(allocation: seq<Byte>, offset: nat, writes: seq<nat>, n: nat)
    requires offset + Sum(writes) + n <= |allocation|
    ensures Sum(writes + [n]) == Sum(writes) + n
    ensures var at := (offset + Sum(writes)) % TWO_16;
      Handed(allocation, offset, writes + [n]) == Handed(allocation, offset, writes) + allocation[at..at + n]
  {
    assert (writes + [n])[..|writes|] == writes;
  }

  /** Without a wrap the writes hand over the beginning of the window. */
  lemma {:induction false} HandedStraight(allocation: seq<Byte>, offset: nat, size: nat, writes: seq<nat>)
    requires offset + size <= |allocation| && offset + size <= TWO_16 && Short(writes, size)
    ensures Handed(allocation, offset, writes) == allocation[offset..offset + Sum(writes)]
  {
    if writes == [] {
      assert Sum(writes) == 0;
    } else {
      var front, n := writes[..|writes| - 1], writes[|writes| - 1];
      hide Sum, Handed, Short;
      ShortFront(writes, size);
      assert front + [n] == writes;
      HandedStraight(allocation, offset, size, front);
      HandedNext(allocation, offset, front, n);
      Slices(allocation, offset, Sum(front), n);
    }
  }

  lemma ShortFront(writes: seq<nat>, size: nat)
    requires writes != [] && Short(writes, size)
    ensures var n := |writes| - 1;
      Short(writes[..n], size) && Sum(writes[..n]) + writes[n] == Sum(writes) && Sum(writes[..n]) < size
  {
  }

  lemma Slices(a: seq<Byte>, at: nat, n: nat, m: nat)
    requires at + n + m <= |a|
    ensures a[at..at + n] + a[at + n..at + n + m] == a[at..at + n + m]
  {
  }

  /** Whatever the allocation holds and however short the writes are that empty the window, they
      hand over exactly the window. */
  ghost predicate AlwaysHandsOver(length: nat, offset: nat, size: nat)
    requires offset + size <= length
  {
    forall a: seq<Byte>, writes: seq<nat> :: |a| == length && Short(writes, size) && Sum(writes) == size ==>
      Handed(a, offset, writes) == a[offset..offset + size]
  }

  /** That is so if and only if the window ends within 2^16 bytes from the start of the allocation. */
  lemma HandsOverIff(length: nat, offset: nat, size: nat)
    requires offset + size <= length && offset < TWO_16 && size <= MAX_CAP
    ensures AlwaysHandsOver(length, offset, size) <==> offset + size <= TWO_16
  {
    if offset + size <= TWO_16 {
      forall a: seq<Byte>, writes: seq<nat> | |a| == length && Short(writes, size) && Sum(writes) == size
        ensures Handed(a, offset, writes) == a[offset..offset + size]
      {
        HandedStraight(a, offset, size, writes);
      }
    } else {
      var first := TWO_16 - offset;
      var a: seq<Byte> := seq(length, i => if i == TWO_16 then 1 else 0);
      WrappedWrite(a, offset, first, size - first);
      assert a[offset..offset + size][first] == 1;
      assert (a[offset..TWO_16] + a[0..size - first])[first] == 0;
      assert Short([first, size - first], size);
    }
  }

  /** A second write that starts where the offset has wrapped. */
  lemma WrappedWrite(a: seq<Byte>, offset: nat, first: nat, second: nat)
    requires offset < TWO_16 <= offset + first && offset + first + second <= |a| && first < TWO_16
    ensures var at := offset + first - TWO_16;
      Sum([first, second]) == first + second &&
      Handed(a, offset, [first, second]) == a[offset..offset + first] + a[at..at + second]
  {
    hide Sum, Handed;
    HandedOnce(a, offset, first);
    Wraps(offset + first);
    HandedNext(a, offset, [first], second);
    assert [first] + [second] == [first, second];
  }

  lemma Wraps(x: nat)
    requires TWO_16 <= x < 2 * TWO_16
    ensures x % TWO_16 == x - TWO_16
  {
  }

  lemma HandedOnce(a: seq<Byte>, offset: nat, first: nat)
    requires offset < TWO_16 && offset + first <= |a|
    ensures Sum([first]) == first && Handed(a, offset, [first]) == a[offset..offset + first]
  {
    assert [first][..0] == [];
  }

  /** A buffer of this capacity hands over whatever it is filled with if and only if its last byte
      lies within 2^16 bytes from the start of the allocation. */
  lemma CapacityIff(length: nat, offset: nat, cap: nat)
    requires offset + cap <= length && offset < TWO_16 && cap <= MAX_CAP
    ensures (forall size: nat :: size <= cap ==> AlwaysHandsOver(length, offset, size)) <==> offset + cap <= TWO_16
  {
    hide AlwaysHandsOver;
    forall size: nat | size <= cap ensures AlwaysHandsOver(length, offset, size) <==> offset + size <= TWO_16 {
      HandsOverIff(length, offset, size);
    }
    assert AlwaysHandsOver(length, offset, cap) <==> offset + cap <= TWO_16;
  }

  /** A capacity that is safe wherever malloc puts the allocation. */
  predicate Roomy(newCap: nat) {
    newCap <= TWO_16 - ALIGN + 1
  }

  lemma RoomyIff(headerLen: nat, newCap: nat)
    ensures (forall address: nat :: AlignedOffset(headerLen, address) + newCap <= TWO_16) <==> Roomy(newCap)
  {
    FarthestOffset(headerLen);
    var address := 1 + 7 * headerLen;
    assert AlignedOffset(headerLen, address) == ALIGN - 1;
  }

  lemma FarthestOffset(headerLen: nat)
    ensures AlignedOffset(headerLen, 1 + 7 * headerLen) == ALIGN - 1
  {
    ModUnique(0 - headerLen - (1 + 7 * headerLen), ALIGN, 0 - headerLen - 1, ALIGN - 1);
  }

  /** What EnsureCap grants beyond that can go wrong: of 65535 bytes that start at offset 7 a short
      write takes 65530, and the next one sends the bytes from offset 1 instead of the last five. */
  lemma WrappedFlush(a: seq<Byte>)
    requires |a| == MAX_CAP + ALIGN - 1
    ensures AlignedOffset(1, 0) == 7 && Sum([65530, 5]) == MAX_CAP
    ensures Handed(a, 7, [65530, 5]) == a[7..65537] + a[1..6]
    ensures Handed(a, 7, [65530, 5]) == a[7..7 + MAX_CAP] <==> a[1..6] == a[65537..65542]
  {
    hide Sum, Handed;
    WrappedWrite(a, 7, 65530, 5);
    var sent, window := Handed(a, 7, [65530, 5]), a[7..7 + MAX_CAP];
    assert sent[65530..] == a[1..6] && sent[..65530] == a[7..65537];
    assert window[65530..] == a[65537..65542] && window[..65530] == a[7..65537];
    assert window == window[..65530] + window[65530..];
  }
}
