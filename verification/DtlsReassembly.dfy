/**
  Reassembly of one DTLS handshake message (hm_fragment in d1_both.cc; section 4.2.3 of
  RFC 6347): a body filled piece by piece and a bitmask of the bytes received, dropped
  once the message is complete.
 */
module DtlsReassembly {
  import opened Bits

  const ALL := 0xFF

  /** bit_range: the bits from start up to end. */
  function BitRange(start: nat, end: nat): (b: nat)
    requires start <= end <= 8
    ensures b < 256
  {
    Pow2Monotone(start, 8);
    And(0xFFFF_FFFF - (Pow2(start) - 1), Pow2(end) - 1) % 256
  }

  lemma Pow2Word()
    ensures Pow2(8) == 256 && Pow2(32) == 0x1_0000_0000
  {
    assert Pow2(8) == 256;
    hide Pow2;
    Pow2Add(8, 8);
    Pow2Add(16, 16);
  }

  lemma BitOfRange(start: nat, end: nat, k: nat)
    requires start <= end <= 8
    ensures Bit(BitRange(start, end), k) <==> start <= k < end
  {
    hide Bit, And, Pow2;
    Pow2Word();
    Pow2Monotone(start, 8);
    Pow2Monotone(end, 8);
    var high: nat := Pow2(32) - 1 - (Pow2(start) - 1);
    var low: nat := Pow2(end) - 1;
    AndBound(high, low);
    assert And(high, low) % 256 == And(high, low) by { ModUnique(And(high, low), 256, 0, And(high, low)); }
    BitAnd(high, low, k);
    BitComplement(Pow2(start) - 1, 32, k);
    BitAllOnes(start, k);
    BitAllOnes(end, k);
  }

  /** A byte that has exactly the bits of a range is its mask. */
  lemma RangeMask(b: Byte, end: nat)
    requires end <= 8 && forall k: nat :: end <= k < 8 ==> !Bit(b, k)
    ensures b == BitRange(0, end) <==> LowBits(b, end)
  {
    hide Bit, And, BitRange;
    Pow2Word();
    forall k: nat | k < 8 ensures Bit(BitRange(0, end), k) <==> k < end { BitOfRange(0, end, k); }
    if LowBits(b, end) { BitsDetermine(b, BitRange(0, end), 8); }
  }

  predicate LowBits(b: nat, n: nat) {
    forall k: nat :: k < n ==> Bit(b, k)
  }

  lemma FullByte()
    ensures BitRange(0, 8) == ALL
  {
    hide Bit, And;
    Pow2Word();
    assert LowBits(ALL, 8) by {
      forall k: nat | k < 8 ensures Bit(ALL, k) { BitAllOnes(8, k); }
    }
    RangeMask(ALL, 8);
  }

  /** Byte i of the message is marked in the mask. */
  predicate Marked(mask: seq<Byte>, i: nat) {
    i / 8 < |mask| && Bit(mask[i / 8], i % 8)
  }

  lemma MarkedAt(mask: seq<Byte>, j: nat, k: nat)
    requires k < 8
    ensures Marked(mask, 8 * j + k) <==> j < |mask| && Bit(mask[j], k)
  {
    assert (8 * j + k) / 8 == j && (8 * j + k) % 8 == k;
  }

  /** Byte b became b' when the bytes from start up to end of the message were marked; it
      is byte j of the mask. */
  ghost predicate Shows(b: Byte, b': Byte, j: nat, start: nat, end: nat) {
    forall k: nat :: k < 8 ==> (Bit(b', k) <==> Bit(b, k) || start <= 8 * j + k < end)
  }

  /** A distance in bits within one byte. */
  function Clamp(x: int): (n: nat)
    ensures n <= 8
  {
    if x < 0 then 0 else if x > 8 then 8 else x
  }

  lemma ShowsRange(b: Byte, j: nat, start: nat, end: nat, lo: nat, hi: nat)
    requires lo <= hi && lo == Clamp(start - 8 * j) && hi == Clamp(end - 8 * j)
    ensures Or(b, BitRange(lo, hi)) < 256
    ensures Shows(b, Or(b, BitRange(lo, hi)), j, start, end)
  {
    hide Bit, Or, BitRange;
    Pow2Word();
    OrBound(b, BitRange(lo, hi), 8);
    forall k: nat | k < 8 ensures Bit(Or(b, BitRange(lo, hi)), k) <==> Bit(b, k) || start <= 8 * j + k < end {
      BitOr(b, BitRange(lo, hi), k);
      BitOfRange(lo, hi, k);
    }
  }

  lemma ShowsAll(b: Byte, j: nat, start: nat, end: nat)
    requires start <= 8 * j && 8 * j + 8 <= end
    ensures Shows(b, ALL, j, start, end)
  {
    hide Bit, BitRange;
    FullByte();
    forall k: nat | k < 8 ensures Bit(ALL, k) { BitOfRange(0, 8, k); }
  }

  /** A mask whose every byte shows the marking shows it bit by bit. */
  lemma MaskShows(mask: seq<Byte>, mask': seq<Byte>, start: nat, end: nat, i: nat)
    requires |mask'| == |mask| && i < 8 * |mask|
    requires forall j :: 0 <= j < |mask| ==> Shows(mask[j], mask'[j], j, start, end)
    ensures Marked(mask', i) <==> Marked(mask, i) || start <= i < end
  {
    hide Bit;
    assert Shows(mask[i / 8], mask'[i / 8], i / 8, start, end);
    assert i == 8 * (i / 8) + i % 8;
  }

  /** The marking half of dtls1_hm_fragment_mark. */
  method MarkRange(mask: array<Byte>, start: nat, end: nat)
    requires start < end <= 8 * mask.Length
    modifies mask
    ensures forall i: nat :: i < 8 * mask.Length ==> (Marked(mask[..], i) <==> old(Marked(mask[..], i)) || start <= i < end)
  {
    hide Bit, Or, BitRange, Marked, Shows;
    ghost var before := mask[..];
    var first, last := start / 8, end / 8;
    if first == last {
      ShowsRange(mask[first], first, start, end, start % 8, end % 8);
      mask[first] := Or(mask[first], BitRange(start % 8, end % 8));
    } else {
      ShowsRange(mask[first], first, start, end, start % 8, 8);
      mask[first] := Or(mask[first], BitRange(start % 8, 8));
      var i := first + 1;
      while i < last
        invariant first < i <= last
        invariant forall j :: 0 <= j < mask.Length ==>
          if first <= j < i then Shows(before[j], mask[j], j, start, end) else mask[j] == before[j]
      {
        ShowsAll(before[i], i, start, end);
        mask[i] := ALL;
        i := i + 1;
      }
      if end % 8 != 0 {
        ShowsRange(mask[last], last, start, end, 0, end % 8);
        mask[last] := Or(mask[last], BitRange(0, end % 8));
      }
    }
    forall j | 0 <= j < mask.Length ensures Shows(before[j], mask[j], j, start, end) {
      if j < first || j > last || (j == last && end % 8 == 0) { ShowsNothing(before[j], j, start, end); }
    }
    forall i: nat | i < 8 * mask.Length
      ensures Marked(mask[..], i) <==> Marked(before, i) || start <= i < end
    {
      MaskShows(before, mask[..], start, end, i);
    }
  }

  lemma ShowsNothing(b: Byte, j: nat, start: nat, end: nat)
    requires 8 * j + 8 <= start || end <= 8 * j
    ensures Shows(b, b, j, start, end)
  {
  }

  /** The completeness test of dtls1_hm_fragment_mark. */
  method IsComplete(mask: array<Byte>, msgLen: nat) returns (complete: bool)
    requires mask.Length == (msgLen + 7) / 8
    requires forall i: nat :: msgLen <= i < 8 * mask.Length ==> !Marked(mask[..], i)
    ensures complete <==> forall i: nat :: i < msgLen ==> Marked(mask[..], i)
  {
    hide Bit, BitRange, Marked;
    FullByte();
    var i := 0;
    while i < msgLen / 8
      invariant 0 <= i <= msgLen / 8 && forall j :: 0 <= j < i ==> mask[j] == ALL
    {
      if mask[i] != ALL {
        HoleInByte(mask[..], i, 8);
        return false;
      }
      i := i + 1;
    }
    if msgLen % 8 != 0 && mask[msgLen / 8] != BitRange(0, msgLen % 8) {
      HoleInByte(mask[..], msgLen / 8, msgLen % 8);
      return false;
    }
    forall m: nat | m < msgLen ensures Marked(mask[..], m) {
      FilledByte(mask[..], m / 8, if m / 8 == msgLen / 8 then msgLen % 8 else 8, m % 8);
      assert m == 8 * (m / 8) + m % 8;
    }
    return true;
  }

  lemma HoleInByte(mask: seq<Byte>, j: nat, n: nat)
    requires j < |mask| && n <= 8 && mask[j] != BitRange(0, n)
    requires forall i: nat :: 8 * j + n <= i < 8 * j + 8 ==> !Marked(mask, i)
    ensures exists i: nat :: 8 * j <= i < 8 * j + n && !Marked(mask, i)
  {
    hide Bit, BitRange;
    forall k: nat | k < 8 ensures Marked(mask, 8 * j + k) <==> Bit(mask[j], k) { MarkedAt(mask, j, k); }
    RangeMask(mask[j], n);
    var k: nat :| k < n && !Bit(mask[j], k);
    assert !Marked(mask, 8 * j + k);
  }

  lemma FilledByte(mask: seq<Byte>, j: nat, n: nat, k: nat)
    requires j < |mask| && k < n <= 8 && mask[j] == BitRange(0, n)
    ensures Marked(mask, 8 * j + k)
  {
    MarkedAt(mask, j, k);
    BitOfRange(0, n, k);
  }

  // ------------------------------------------------------------------ fragments

  /** A fragment under reassembly, by value: which bytes it has, and the bytes. */
  datatype Held = Held(kind: nat, number: nat, msgLen: nat, complete: bool, has: set<nat>, data: seq<Byte>)

  function Range(a: nat, b: nat): (s: set<nat>)
    ensures forall k :: k in s <==> a <= k < b
    decreases b - a
  {
    if a >= b then {} else {a} + Range(a + 1, b)
  }

  predicate Whole(has: set<nat>, msgLen: nat) {
    forall k: nat :: k < msgLen ==> k in has
  }

  function Fresh(kind: nat, number: nat, msgLen: nat): Held {
    Held(kind, number, msgLen, msgLen == 0, {}, seq(msgLen, _ => 0))
  }

  /** A piece of the body written over what is held, unless the message is complete. */
  function Written(h: Held, offset: nat, body: seq<Byte>): Held
    requires |h.data| == h.msgLen && offset + |body| <= h.msgLen
  {
    if h.complete then h
    else
      var end := offset + |body|;
      var has := h.has + Range(offset, end);
      Held(h.kind, h.number, h.msgLen, Whole(has, h.msgLen), has, h.data[..offset] + body + h.data[end..])
  }

  class Fragment {
    const kind: nat
    const number: nat       // message sequence number
    const msgLen: nat
    const data: array<Byte> // the body; its header is rebuilt from the fields above
    const mask: array<Byte>
    var reassembly: array?<Byte>   // the mask, or null once the message is complete

    /** The mask holds msgLen bits and nothing past them; it is gone exactly when every
        byte has arrived. */
    ghost predicate Valid()
      reads this, data, mask
    {
      && data.Length == msgLen && data != mask
      && (reassembly != null ==>
          && reassembly == mask && msgLen > 0
          && reassembly.Length == (msgLen + 7) / 8
          && (forall i: nat :: msgLen <= i < 8 * reassembly.Length ==> !Marked(reassembly[..], i))
          && exists i: nat :: i < msgLen && !Marked(reassembly[..], i))
    }

    /** Byte i has been received. */
    ghost predicate Has(i: nat)
      reads this, mask
    {
      i < msgLen && (reassembly == null || Marked(mask[..], i))
    }

    /** The bytes received, below n. */
    ghost function Having(n: nat): (s: set<nat>)
      reads this, mask
      ensures forall k: nat :: k in s <==> k < n && Has(k)
    {
      if n == 0 then {} else Having(n - 1) + (if Has(n - 1) then {n - 1} else {})
    }

    ghost function Now(): (h: Held)
      reads this, data, mask
    {
      Held(kind, number, msgLen, reassembly == null, Having(msgLen), data[..])
    }

    /** dtls1_hm_fragment_new. */
    constructor (kind: nat, number: nat, msgLen: nat)
      ensures Valid() && fresh(data) && fresh(mask)
      ensures Now() == Fresh(kind, number, msgLen)
    {
      this.kind, this.number, this.msgLen := kind, number, msgLen;
      data := new Byte[msgLen](_ => 0);
      mask := new Byte[(msgLen + 7) / 8](_ => 0);
      reassembly := null;
      new;
      if msgLen > 0 {
        reassembly := mask;
        forall i: nat | i < 8 * reassembly.Length ensures !Marked(reassembly[..], i) { BitOfZero(i % 8); }
        assert !Marked(reassembly[..], 0);
      }
      assert Having(msgLen) == {};
    }

    /** dtls1_hm_fragment_mark: afterwards exactly the marked range is had in addition, and
        the mask is gone if and only if nothing is missing. */
    method Mark(start: nat, end: nat)
      requires Valid() && reassembly != null && start <= end <= msgLen
      modifies `reassembly, mask
      ensures Valid() && (reassembly == null || reassembly == old(reassembly))
      ensures forall i: nat :: Has(i) <==> old(Has(i)) || start <= i < end
      ensures reassembly == null <==> forall i: nat :: i < msgLen ==> old(Has(i)) || start <= i < end
    {
      hide Marked;
      ghost var before := reassembly[..];
      ghost var hole: nat :| hole < msgLen && !Marked(before, hole);
      assert !old(Has(hole));
      if start == end { return; }
      MarkRange(reassembly, start, end);
      ghost var after := reassembly[..];
      var complete := IsComplete(reassembly, msgLen);
      assert after == reassembly[..];
      if complete {
        forall i: nat | i < msgLen ensures Marked(before, i) || start <= i < end { assert Marked(after, i); }
        reassembly := null;
        assert forall i: nat :: i < msgLen ==> old(Has(i)) || start <= i < end;
      } else {
        ghost var i: nat :| i < msgLen && !Marked(after, i);
        assert !Marked(before, i) && !(start <= i < end);
        assert !old(Has(i));
      }
    }

    /** The copy and the marking that dtls1_open_handshake does for one piece of the body. */
    method Receive(offset: nat, body: seq<Byte>)
      requires Valid() && offset + |body| <= msgLen
      modifies `reassembly, mask, data
      ensures Valid() && Now() == Written(old(Now()), offset, body)
    {
      hide Marked;
      if reassembly == null { return; }
      ghost var mask, before := reassembly[..], Now();
      var end := offset + |body|;
      forall i | 0 <= i < |body| { data[offset + i] := body[i]; }
      assert reassembly[..] == mask;
      assert data[..] == before.data[..offset] + body + before.data[end..];
      Mark(offset, end);
      ghost var has := before.has + Range(offset, end);
      assert Having(msgLen) == has by { assert forall k: nat :: k in Having(msgLen) <==> k in has; }
      assert reassembly == null <==> Whole(has, msgLen);
    }
  }
}
