/**
  The anti-replay window and the per-epoch sequence numbers of the DTLS record layer
  (dtls_record.cc and dtls_method.cc; sections 4.1 and 4.1.2.6 of RFC 6347).
 */
module DtlsRecord {
  import opened Bits
  import opened Options

  const WINDOW := 64                           // bits of DTLS1_BITMAP.map
  const SEQUENCE_LIMIT := 0x1_0000_0000_0000   // 48-bit record sequence numbers
  const MAX_PLAIN := 16384                     // SSL3_RT_MAX_PLAIN_LENGTH

  // ------------------------------------------------------------------ the window

  /** DTLS1_BITMAP: bit i stands for sequence number max - i. */
  datatype Window = Window(bits: nat, max: nat)

  const EMPTY_WINDOW := Window(0, 0)

  /** dtls1_bitmap_should_discard. */
  predicate ShouldDiscard(w: Window, s: nat) {
    s <= w.max && (w.max - s >= WINDOW || And(w.bits, Pow2(w.max - s)) != 0)
  }

  /** dtls1_bitmap_record. */
  function Record(w: Window, s: nat): Window {
    var w1 :=
      if s > w.max then
        Window(if s - w.max >= WINDOW then 0 else w.bits * Pow2(s - w.max) % Pow2(WINDOW), s)
      else w;
    if w1.max - s < WINDOW then w1.(bits := Or(w1.bits, Pow2(w1.max - s))) else w1
  }

  /** The window is a faithful record of a set of numbers within its width. */
  ghost predicate Agrees(w: Window, recorded: set<nat>) {
    && w.bits < Pow2(WINDOW)
    && (forall s :: s in recorded ==> s <= w.max)
    && (forall i: nat :: i < WINDOW ==> (Bit(w.bits, i) <==> i <= w.max && w.max - i in recorded))
  }

  lemma EmptyAgrees()
    ensures Agrees(EMPTY_WINDOW, {})
  {
    forall i: nat | i < WINDOW ensures !Bit(0, i) { BitOfZero(i); }
  }

  lemma AndPow2(m: nat, i: nat)
    ensures And(m, Pow2(i)) != 0 <==> Bit(m, i)
  {
    if Bit(m, i) {
      BitAnd(m, Pow2(i), i);
      BitPow2(i, i);
      BitOfZero(i);
    } else {
      forall k: nat ensures !Bit(And(m, Pow2(i)), k) {
        BitAnd(m, Pow2(i), k);
        BitPow2(i, k);
      }
      NoBits(And(m, Pow2(i)));
    }
  }

  lemma {:induction false} NoBits(m: nat)
    requires forall k: nat :: !Bit(m, k)
    ensures m == 0
    decreases m
  {
    if m != 0 {
      assert !Bit(m, 0);
      forall k: nat ensures !Bit(m / 2, k) { assert !Bit(m, k + 1); }
      NoBits(m / 2);
    }
  }

  /** A number is discarded exactly if it was recorded or is too far below the largest. */
  lemma DiscardsExactly(w: Window, recorded: set<nat>, s: nat)
    requires Agrees(w, recorded)
    ensures ShouldDiscard(w, s) <==> s in recorded || s + WINDOW <= w.max
  {
    hide Bit, And, Pow2;
    if s <= w.max && w.max - s < WINDOW {
      AndPow2(w.bits, w.max - s);
    }
  }

  lemma RecordBit(w: Window, s: nat, i: nat)
    requires w.bits < Pow2(WINDOW) && i < WINDOW
    ensures Record(w, s).bits < Pow2(WINDOW)
    ensures Record(w, s).max == (if s > w.max then s else w.max)
    ensures var shift := Record(w, s).max - w.max;
            Bit(Record(w, s).bits, i) <==> (i >= shift && Bit(w.bits, i - shift)) || Record(w, s).max - s == i
  {
    hide Bit, Or, Pow2;
    var max := if s > w.max then s else w.max;
    var shift := max - w.max;
    var m := if shift >= WINDOW then 0 else if shift == 0 then w.bits else w.bits * Pow2(shift) % Pow2(WINDOW);
    assert m < Pow2(WINDOW);
    assert Bit(m, i) <==> i >= shift && Bit(w.bits, i - shift) by {
      BitOfZero(i);
      if 0 < shift < WINDOW {
        BitTruncate(w.bits * Pow2(shift), WINDOW, i);
        BitShiftLeft(w.bits, shift, i);
      }
    }
    if max - s < WINDOW {
      Pow2Below(max - s, WINDOW);
      OrBound(m, Pow2(max - s), WINDOW);
      BitOr(m, Pow2(max - s), i);
      BitPow2(max - s, i);
    }
  }

  lemma Pow2Below(i: nat, n: nat)
    requires i < n
    ensures Pow2(i) < Pow2(n)
  {
    hide Pow2;
    assert Pow2(i + 1) == 2 * Pow2(i) by { Pow2Add(1, i); Pow2One(); }
    Pow2Monotone(i + 1, n);
  }

  lemma Pow2One()
    ensures Pow2(1) == 2
  {
  }

  /** Recording keeps the agreement, also for a number below the window. */
  lemma RecordAgrees(w: Window, recorded: set<nat>, s: nat)
    requires Agrees(w, recorded)
    ensures Agrees(Record(w, s), recorded + {s})
  {
    hide Bit, Pow2, Record;
    var w' := Record(w, s);
    RecordBit(w, s, 0);
    forall i: nat | i < WINDOW ensures Bit(w'.bits, i) <==> i <= w'.max && w'.max - i in recorded + {s} {
      RecordBit(w, s, i);
      var shift := w'.max - w.max;
      if i >= shift {
        assert Bit(w.bits, i - shift) <==> i - shift <= w.max && w.max - (i - shift) in recorded;
      }
    }
  }

  // ------------------------------------------------------------------ reading epochs

  /** The 64-bit number of a record: the epoch in its top 16 bits. */
  function Numbered(epoch: nat, num: nat): nat {
    epoch * SEQUENCE_LIMIT + num
  }

  /** What becomes of a record: dropped, an error, or handed on. */
  datatype Opened = Discard | Overflow | Accept

  class ReadState {
    var epoch: nat
    var bitmap: Window
    /** The numbers recorded in this epoch, and every pair accepted so far. */
    ghost var recorded: set<nat>
    ghost var accepted: seq<(nat, nat)>

    ghost predicate Valid()
      reads this
    {
      Agrees(bitmap, recorded) && History(accepted, recorded, epoch)
    }

    constructor ()
      ensures Valid() && epoch == 0 && accepted == []
    {
      epoch := 0;
      bitmap := EMPTY_WINDOW;
      recorded := {};
      accepted := [];
      EmptyAgrees();
    }

    /** The tests of dtls_open_record on a well-formed record: plain is the length of what the AEAD
        opened, none if it failed. A record is accepted exactly if it is of the current epoch,
        new, within the window, authentic and not too long. */
    method Open(recordEpoch: nat, num: nat, plain: Option<nat>) returns (r: Opened)
      requires Valid() && num < SEQUENCE_LIMIT
      modifies this
      ensures Valid() && epoch == old(epoch)
      ensures var wanted := recordEpoch == epoch && (recordEpoch, num) !in old(accepted) &&
        Numbered(epoch, num) + WINDOW > old(bitmap.max);
        r == if !wanted || plain.None? then Discard else if plain.value > MAX_PLAIN then Overflow else Accept
      ensures accepted == old(accepted) + (if r.Accept? then [(recordEpoch, num)] else [])
      ensures !r.Accept? ==> bitmap == old(bitmap)
    {
      hide Agrees, History, ShouldDiscard, Record, Numbered;
      var number := Numbered(recordEpoch, num);
      DiscardsExactly(bitmap, recorded, number);
      assert accepted + [] == accepted;
      if recordEpoch != epoch || ShouldDiscard(bitmap, number) {
        if recordEpoch == epoch { Known(accepted, recorded, epoch, num); }
        return Discard;
      }
      Known(accepted, recorded, epoch, num);
      if plain.None? { return Discard; }
      if plain.value > MAX_PLAIN { return Overflow; }
      RecordAgrees(bitmap, recorded, number);
      Accepts(accepted, recorded, epoch, num);
      bitmap := Record(bitmap, number);
      recorded := recorded + {number};
      accepted := accepted + [(recordEpoch, num)];
      return Accept;
    }

    /** dtls1_set_read_state, which refuses while dtls_has_unprocessed_handshake_data. */
    method SetReadState(unprocessed: bool) returns (ok: bool)
      requires Valid()
      modifies this
      ensures Valid() && accepted == old(accepted) && (ok <==> !unprocessed)
      ensures if ok then epoch == old(epoch) + 1 && bitmap == EMPTY_WINDOW else epoch == old(epoch) && bitmap == old(bitmap)
    {
      hide Agrees;
      if unprocessed { return false; }
      epoch := epoch + 1;
      bitmap := EMPTY_WINDOW;
      recorded := {};
      EmptyAgrees();
      return true;
    }
  }

  /** No (epoch, sequence) pair stands twice. */
  predicate NoRepeats(pairs: seq<(nat, nat)>) {
    forall i, j :: 0 <= i < j < |pairs| ==> pairs[i] != pairs[j]
  }

  /** The accepted pairs are distinct, none is of a later epoch, and those of this epoch
      are the numbers recorded. */
  ghost predicate History(accepted: seq<(nat, nat)>, recorded: set<nat>, epoch: nat) {
    && NoRepeats(accepted)
    && (forall i :: 0 <= i < |accepted| ==> accepted[i].0 <= epoch && accepted[i].1 < SEQUENCE_LIMIT)
    && (forall i :: 0 <= i < |accepted| && accepted[i].0 == epoch ==> Numbered(epoch, accepted[i].1) in recorded)
    && (forall n :: n in recorded ==> IsAccepted(accepted, epoch, n))
  }

  ghost predicate IsAccepted(accepted: seq<(nat, nat)>, epoch: nat, n: nat) {
    exists i :: 0 <= i < |accepted| && accepted[i].0 == epoch && n == Numbered(epoch, accepted[i].1)
  }

  lemma Known(accepted: seq<(nat, nat)>, recorded: set<nat>, epoch: nat, num: nat)
    requires History(accepted, recorded, epoch)
    ensures Numbered(epoch, num) in recorded <==> (epoch, num) in accepted
  {
    if (epoch, num) in accepted {
      var i :| 0 <= i < |accepted| && accepted[i] == (epoch, num);
    }
    if Numbered(epoch, num) in recorded {
      assert IsAccepted(accepted, epoch, Numbered(epoch, num));
    }
  }

  lemma Accepts(accepted: seq<(nat, nat)>, recorded: set<nat>, epoch: nat, num: nat)
    requires History(accepted, recorded, epoch) && num < SEQUENCE_LIMIT && (epoch, num) !in accepted
    ensures History(accepted + [(epoch, num)], recorded + {Numbered(epoch, num)}, epoch)
  {
    var accepted', recorded' := accepted + [(epoch, num)], recorded + {Numbered(epoch, num)};
    assert accepted'[|accepted|] == (epoch, num);
    forall n | n in recorded' ensures IsAccepted(accepted', epoch, n) {
      if n in recorded {
        assert IsAccepted(accepted, epoch, n);
        var i :| 0 <= i < |accepted| && accepted[i].0 == epoch && n == Numbered(epoch, accepted[i].1);
        assert accepted'[i] == accepted[i];
      }
    }
  }

  // ------------------------------------------------------------------ writing epochs

  class WriteState {
    var epoch: nat
    var sequence: nat
    var lastSequence: nat
    /** A 48-bit number has wrapped: nothing is promised any more. */
    ghost var wrapped: bool
    /** What the AEAD has sealed. */
    ghost var sealed: seq<(nat, nat)>

    ghost predicate Valid()
      reads this
    {
      sequence < SEQUENCE_LIMIT && lastSequence < SEQUENCE_LIMIT &&
      (!wrapped ==>
        && NoRepeats(sealed)
        && forall i :: 0 <= i < |sealed| ==> Below(sealed[i], epoch, sequence, lastSequence))
    }

    constructor ()
      ensures Valid() && epoch == 0 && sealed == [] && !wrapped
    {
      epoch, sequence, lastSequence, wrapped, sealed := 0, 0, 0, false, [];
    }

    /** dtls_seal_record, in the current or the previous epoch. len is what the AEAD made of the
        record, none if it failed. The number is used up even if the record is then too long;
        that it wraps is noticed when the last one has been used. */
    method Seal(previous: bool, len: Option<nat>) returns (ok: bool)
      requires Valid() && (previous ==> epoch >= 1)
      modifies this
      ensures Valid() && epoch == old(epoch)
      ensures var num := old(if previous then lastSequence else sequence);
        && (wrapped <==> old(wrapped) || (len.Some? && num + 1 == SEQUENCE_LIMIT))
        && (ok <==> len.Some? && num + 1 < SEQUENCE_LIMIT && len.value < 0x1_0000)
        && sealed == old(sealed) + (if len.Some? then [(if previous then epoch - 1 else epoch, num)] else [])
      ensures !old(wrapped) && len.Some? ==> sealed[|old(sealed)|] !in old(sealed)
    {
      var num := if previous then lastSequence else sequence;
      if len.None? {
        assert sealed + [] == sealed;
        return false;
      }
      sealed := sealed + [(if previous then epoch - 1 else epoch, num)];
      var next := (num + 1) % SEQUENCE_LIMIT;
      if previous { lastSequence := next; } else { sequence := next; }
      if next == 0 {
        wrapped := true;
        return false;
      }
      return len.value < 0x1_0000;
    }

    /** dtls1_set_write_state. */
    method SetWriteState()
      requires Valid()
      modifies this
      ensures Valid() && epoch == old(epoch) + 1 && sealed == old(sealed) && wrapped == old(wrapped)
    {
      epoch := epoch + 1;
      lastSequence := sequence;
      sequence := 0;
    }
  }

  /** The pair was sealed before the counters reached where they are. */
  predicate Below(p: (nat, nat), epoch: nat, sequence: nat, lastSequence: nat) {
    || (p.0 == epoch && p.1 < sequence)
    || (p.0 + 1 == epoch && p.1 < lastSequence)
    || p.0 + 1 < epoch
  }
}
