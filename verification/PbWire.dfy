/**
  The scalar layer of the Protocol Buffers wire format, as nanopb reads and
  writes it: base-128 varints, the zigzag mapping and little-endian words.
  A reader is a function from the bytes left to a value and the bytes after it.
 */
module PbWire {
  import opened Bits

  datatype Parsed<+T> = Ok(value: T, rest: seq<Byte>) | Fail {

    function GetOr(default: T): T {
      if Ok? then value else default
    }
  }

  const TWO_32: nat := 0x1_0000_0000
  const TWO_63: nat := 0x8000_0000_0000_0000
  const TWO_64: nat := 0x1_0000_0000_0000_0000

  // ---------------------------------------------------------------- writing

  /** The bytes pb_encode_varint writes for a 64-bit value. */
  function Varint(v: nat): (s: seq<Byte>)
    ensures |s| >= 1
    decreases v
  {
    if v < 128 then [v] else [v % 128 + 128] + Varint(v / 128)
  }

  /** The zigzag mapping of pb_encode_svarint: shift left, complement when negative. */
  function ZigZag(n: int): nat {
    if n < 0 then -2 * n - 1 else 2 * n
  }

  function LittleEndian(v: nat, n: nat): (s: seq<Byte>)
    ensures |s| == n
  {
    if n == 0 then [] else [v % 256] + LittleEndian(v / 256, n - 1)
  }

  // ---------------------------------------------------------------- reading

  /** (uintN_t)(byte & 0x7F) << bitpos, for a word type of the given size. */
  function Place(b: Byte, bitpos: nat, word: nat): (p: nat)
    requires word > 0
    ensures p < word
  {
    (b % 128) * Pow2(bitpos) % word
  }

  /** The loop of pb_decode_varint from bit position bitpos on. */
  function ReadVarintFrom(s: seq<Byte>, bitpos: nat, result: nat): (r: Parsed<nat>)
    ensures r.Ok? ==> |r.rest| < |s|
    decreases |s|
  {
    if bitpos >= 64 || s == [] then Fail
    else
      var result' := Or(result, Place(s[0], bitpos, TWO_64));
      if s[0] >= 128 then ReadVarintFrom(s[1..], bitpos + 7, result') else Ok(result', s[1..])
  }

  function ReadVarint(s: seq<Byte>): (r: Parsed<nat>)
    ensures r.Ok? ==> |r.rest| < |s|
  {
    ReadVarintFrom(s, 0, 0)
  }

  function UnZigZag(v: nat): int {
    if v % 2 == 1 then -(v / 2) - 1 else v / 2
  }

  /** The do-while loop of pb_decode_varint32_eof. The position is a uint_fast8_t
      of 8 bits, so it wraps. */
  function ReadVarint32From(s: seq<Byte>, bitpos: nat, result: nat): (r: Parsed<nat>)
    ensures r.Ok? ==> |r.rest| < |s|
    decreases |s|
  {
    if s == [] then Fail
    else if bitpos >= 32 && Overflows32(s[0], bitpos, result) then Fail
    else
      var result' := if bitpos >= 32 then result else Or(result, Place(s[0], bitpos, TWO_32));
      var bitpos' := (bitpos + 7) % 256;
      if s[0] >= 128 then ReadVarint32From(s[1..], bitpos', result')
      else if bitpos' == 35 && (s[0] / 16) % 8 != 0 then Fail
      else Ok(result', s[1..])
  }

  /** A byte past bit 32 must be empty or continue the sign of a negative int32. */
  predicate Overflows32(b: Byte, bitpos: nat, result: nat) {
    var signExtension := if bitpos < 63 then 0xFF else 0x01;
    b % 128 != 0 && (result / 0x8000_0000 == 0 || b != signExtension)
  }

  function ReadVarint32(s: seq<Byte>): (r: Parsed<nat>)
    ensures r.Ok? ==> |r.rest| < |s|
  {
    if s == [] then Fail
    else if s[0] < 128 then Ok(s[0], s[1..])
    else ReadVarint32From(s[1..], 7, s[0] % 128)
  }

  function ReadLittleEndian(s: seq<Byte>, n: nat): (r: Parsed<nat>)
    ensures r.Ok? ==> |r.rest| + n == |s|
  {
    if |s| < n then Fail else Ok(LittleEndianValue(s[..n]), s[n..])
  }

  function LittleEndianValue(s: seq<Byte>): nat {
    if s == [] then 0 else s[0] + 256 * LittleEndianValue(s[1..])
  }

  // -------------------------------------------------- the wire-format reference

  /** A well-formed varint: continuation bits on all bytes but the last. */
  predicate IsVarint(s: seq<Byte>) {
    s != [] && s[|s| - 1] < 128 && forall i :: 0 <= i < |s| - 1 ==> s[i] >= 128
  }

  /** The number a varint denotes: seven bits a byte, least significant first. */
  function Groups(s: seq<Byte>): nat {
    if s == [] then 0 else s[0] % 128 + 128 * Groups(s[1..])
  }

  // ------------------------------------------------------------------ varints

  /** One unfolding of the encoder. */
  lemma VarintUnfold(v: nat)
    ensures v < 128 ==> Varint(v) == [v]
    ensures v >= 128 ==> Varint(v) == [v % 128 + 128] + Varint(v / 128)
  {
  }

  lemma VarintCons(b: Byte, t: seq<Byte>)
    requires b >= 128 && IsVarint(t)
    ensures IsVarint([b] + t) && Groups([b] + t) == b % 128 + 128 * Groups(t)
  {
    var s := [b] + t;
    assert s[1..] == t && s[|s| - 1] == t[|t| - 1];
    assert forall i :: 1 <= i < |s| - 1 ==> s[i] == t[i - 1];
  }

  lemma {:induction false} VarintShape(v: nat)
    ensures IsVarint(Varint(v)) && Groups(Varint(v)) == v
    decreases v
  {
    hide Varint;
    VarintUnfold(v);
    var s := Varint(v);
    if v >= 128 {
      VarintShape(v / 128);
      VarintCons(s[0], Varint(v / 128));
    } else {
      assert s[1..] == [];
    }
  }

  /** The word an accumulator becomes when t is added k digits up. */
  function Total(result: nat, t: nat, k: nat, word: nat): (n: nat)
    requires word > 0
    ensures n < word
  {
    (result + t * Pow2(7 * k)) % word
  }

  /** One digit or-ed into an accumulator that is below it is added to it. */
  lemma OrDigit(result: nat, b: Byte, k: nat, width: nat)
    requires result < Pow2(7 * k) && 7 * k <= width
    ensures var p := Place(b, 7 * k, Pow2(width));
            && Or(result, p) == result + p == Total(result, b % 128, k, Pow2(width))
            && result + p < Pow2(7 * (k + 1))
  {
    hide Or, Pow2;
    var digit := b % 128;
    var p, w, gap := Pow2(7 * k), Pow2(width), Pow2(width - 7 * k);
    var kept := (digit % gap) * p;
    assert w == gap * p by { Pow2Add(width - 7 * k, 7 * k); }
    assert digit * p % w == kept && (result + digit * p) % w == result + kept && result + kept < w by {
      DigitModulo(result, digit, p, gap);
    }
    assert Or(result, kept) == result + kept by { OrDisjoint(result, digit % gap, 7 * k); }
    assert result + kept < Pow2(7 * (k + 1)) by {
      assert Pow2(7 * k + 7) == 128 * p by { Pow2Step(k); }
      assert digit % gap < 128 by { ModAtMost(digit, gap); }
      MulMonotone(digit % gap + 1, 128, p);
      MulSucc(digit % gap, p);
    }
  }

  lemma ModAtMost(a: nat, b: nat)
    requires b >= 1
    ensures a % b <= a
  {
    if a < b { ModUnique(a, b, 0, a); }
  }

  lemma DigitModulo(r: nat, d: nat, p: nat, gap: nat)
    requires r < p && gap >= 1
    ensures (d * p) % (gap * p) == (d % gap) * p
    ensures (r + d * p) % (gap * p) == r + (d % gap) * p
    ensures r + (d % gap) * p < gap * p
  {
    var q, c := d / gap, d % gap;
    assert d * p == q * (gap * p) + c * p by {
      assert d == q * gap + c;
      MulDistribute(q * gap, c, p);
      MulAssoc(q, gap, p);
    }
    MulMonotone(c + 1, gap, p);
    MulSucc(c, p);
    MulPositive(gap, p);
    ModUnique(d * p, gap * p, q, c * p);
    ModUnique(r + d * p, gap * p, q, r + c * p);
  }

  lemma MulAssoc(a: int, b: int, c: int)
    ensures (a * b) * c == a * (b * c)
  {
  }

  lemma MulDistribute(a: int, b: int, c: int)
    ensures (a + b) * c == a * c + b * c
  {
  }

  lemma MulSucc(a: int, c: int)
    ensures (a + 1) * c == a * c + c
  {
  }

  lemma MulPositive(a: int, c: int)
    requires a >= 1 && c >= 1
    ensures a * c >= 1
  {
  }

  lemma MulMonotone(a: int, b: int, c: int)
    requires a <= b && c >= 0
    ensures a * c <= b * c
  {
  }

  lemma Pow2Values()
    ensures Pow2(0) == 1 && Pow2(1) == 2 && Pow2(3) == 8 && Pow2(4) == 16 && Pow2(7) == 128 && Pow2(8) == 256
    ensures Pow2(28) == 0x1000_0000 && Pow2(31) == 0x8000_0000 && Pow2(32) == TWO_32
    ensures Pow2(63) == TWO_63 && Pow2(64) == TWO_64
  {
    Pow2Small();
    hide Pow2;
    Pow2Add(7, 7); Pow2Add(14, 14); Pow2Add(3, 28); Pow2Add(4, 28); Pow2Add(31, 32); Pow2Add(32, 32);
  }

  lemma Pow2Small()
    ensures Pow2(0) == 1 && Pow2(1) == 2 && Pow2(3) == 8 && Pow2(4) == 16 && Pow2(7) == 128 && Pow2(8) == 256
  {
  }

  lemma Pow2Step(k: nat)
    ensures Pow2(7 * k + 7) == 128 * Pow2(7 * k)
  {
    Pow2Add(7, 7 * k);
    Pow2Values();
  }

  /** One round of the pb_decode_varint loop. */
  lemma VarintRound(b: Byte, tail: seq<Byte>, k: nat, result: nat) returns (next: nat)
    requires k <= 9 && result < Pow2(7 * k)
    ensures next == result + Place(b, 7 * k, TWO_64)
    ensures next < Pow2(7 * (k + 1)) && next == Total(result, b % 128, k, TWO_64)
    ensures ReadVarintFrom([b] + tail, 7 * k, result)
         == if b >= 128 then ReadVarintFrom(tail, 7 * (k + 1), next) else Ok(next, tail)
  {
    hide Or, Pow2, Place, Total;
    assert Pow2(64) == TWO_64 by { Pow2Values(); }
    OrDigit(result, b, k, 64);
    next := result + Place(b, 7 * k, TWO_64);
    assert ([b] + tail)[1..] == tail;
  }

  /** Adding the low digit first and the rest one digit further up gives the same word. */
  lemma TotalStep(result: nat, t: nat, k: nat, word: nat)
    requires word > 0
    ensures Total(Total(result, t % 128, k, word), t / 128, k + 1, word) == Total(result, t, k, word)
  {
    hide Pow2;
    var w := Pow2(7 * k);
    var a, c := result + (t % 128) * w, (t / 128) * (128 * w);
    assert Pow2(7 * (k + 1)) == 128 * w by { Pow2Step(k); }
    assert (a % word + c) % word == (result + t * w) % word by {
      DigitSplit(t, w);
      ModAdd(a, c, word);
    }
  }

  lemma DigitSplit(t: nat, w: nat)
    ensures (t % 128) * w + (t / 128) * (128 * w) == t * w
  {
    MulDistribute(t % 128, 128 * (t / 128), w);
    MulAssoc(t / 128, 128, w);
  }

  lemma FirstDigit(d: nat, word: nat)
    requires d < 128 <= word
    ensures Total(0, d, 0, word) == d
  {
    hide Pow2;
    assert Pow2(0) == 1 by { Pow2Values(); }
    ModUnique(d, word, 0, d);
  }

  lemma WholeValue(v: nat, word: nat)
    requires word > 0
    ensures Total(v % 128, v / 128, 1, word) == v % word
  {
    hide Pow2;
    assert Pow2(7) == 128 by { Pow2Values(); }
  }

  lemma ModAdd(a: nat, c: nat, word: nat)
    requires word > 0
    ensures (a % word + c) % word == (a + c) % word
  {
    var q, r := (a % word + c) / word, (a % word + c) % word;
    MulDistribute(a / word, q, word);
    ModUnique(a + c, word, a / word + q, r);
  }

  /** The loop computes the reference value of the varint in front of it, modulo 2^64. */
  lemma {:induction false} ReadVarintFromSpec(p: seq<Byte>, rest: seq<Byte>, k: nat, result: nat)
    requires IsVarint(p) && k + |p| <= 10 && result < Pow2(7 * k)
    ensures ReadVarintFrom(p + rest, 7 * k, result) == Ok(Total(result, Groups(p), k, TWO_64), rest)
    decreases |p|
  {
    hide Or, Pow2, Place, Total;
    var tail := p[1..];
    assert p + rest == [p[0]] + (tail + rest);
    var next := VarintRound(p[0], tail + rest, k, result);
    assert Groups(p) % 128 == p[0] % 128 && Groups(p) / 128 == Groups(tail);
    if |p| == 1 {
      assert tail == [] && tail + rest == rest;
    } else {
      assert tail[|tail| - 1] == p[|p| - 1];
      assert forall i :: 0 <= i < |tail| - 1 ==> tail[i] == p[i + 1];
      ReadVarintFromSpec(tail, rest, k + 1, next);
      TotalStep(result, Groups(p), k, TWO_64);
    }
  }

  /** pb_decode_varint on any varint of at most ten bytes: its value modulo 2^64. */
  lemma ReadVarintOfVarint(p: seq<Byte>, rest: seq<Byte>)
    requires IsVarint(p) && |p| <= 10
    ensures ReadVarint(p + rest) == Ok(Groups(p) % TWO_64, rest)
  {
    hide Or, Pow2, Place, Groups, IsVarint, ReadVarintFrom;
    ReadVarintFromSpec(p, rest, 0, 0);
    assert Pow2(0) == 1 by { Pow2Values(); }
  }

  /** ... and it accepts nothing else: a success has consumed exactly such a varint. */
  lemma {:induction false} ReadVarintConsumes(s: seq<Byte>, k: nat, result: nat) returns (n: nat)
    requires ReadVarintFrom(s, 7 * k, result).Ok?
    ensures 1 <= n <= |s| && k + n <= 10
    ensures IsVarint(s[..n]) && ReadVarintFrom(s, 7 * k, result).rest == s[n..]
    decreases |s|
  {
    if s[0] < 128 {
      n := 1;
    } else {
      var result' := Or(result, Place(s[0], 7 * k, TWO_64));
      var m := ReadVarintConsumes(s[1..], k + 1, result');
      n := m + 1;
      assert s[..n] == [s[0]] + s[1..][..m];
      assert s[n..] == s[1..][m..];
    }
  }

  /** Acceptance is exactly: a varint of at most ten bytes stands in front. */
  lemma ReadVarintAccepts(s: seq<Byte>)
    ensures ReadVarint(s).Ok? <==> exists n :: 1 <= n <= |s| && n <= 10 && IsVarint(s[..n])
  {
    hide Or, Pow2, Place, ReadVarintFrom, Groups;
    if ReadVarint(s).Ok? {
      var n := ReadVarintConsumes(s, 0, 0);
      assert IsVarint(s[..n]);
    }
    if n :| 1 <= n <= |s| && n <= 10 && IsVarint(s[..n]) {
      ReadVarintOfVarint(s[..n], s[n..]);
      assert s[..n] + s[n..] == s;
    }
  }

  lemma {:induction false} VarintLength(v: nat, n: nat)
    requires n >= 1 && v < Pow2(7 * n)
    ensures |Varint(v)| <= n
    decreases n
  {
    hide Varint, Pow2;
    VarintUnfold(v);
    if v >= 128 {
      Pow2Values();
      if n == 1 { assert false; }
      Pow2Step(n - 1);
      VarintLength(v / 128, n - 1);
    }
  }

  lemma VarintAtMostTen(v: nat)
    requires v < TWO_64
    ensures |Varint(v)| <= 10
  {
    Pow2Values();
    Pow2Monotone(64, 70);
    VarintLength(v, 10);
  }

  /** Decoding inverts encoding on all 64-bit values. */
  lemma VarintRoundTrip(v: nat, rest: seq<Byte>)
    requires v < TWO_64
    ensures ReadVarint(Varint(v) + rest) == Ok(v, rest)
  {
    hide ReadVarint, Varint, Groups, IsVarint;
    VarintShape(v);
    VarintAtMostTen(v);
    ReadVarintOfVarint(Varint(v), rest);
  }

  // ------------------------------------------------------------------ zigzag

  lemma ZigZagRoundTrip(n: int)
    requires -0x8000_0000_0000_0000 <= n < 0x8000_0000_0000_0000
    ensures 0 <= ZigZag(n) < TWO_64 && UnZigZag(ZigZag(n)) == n
  {
  }

  /** The mapping is onto: every 64-bit pattern is the zigzag of one int64. */
  lemma ZigZagOnto(v: nat)
    requires v < TWO_64
    ensures -0x8000_0000_0000_0000 <= UnZigZag(v) < 0x8000_0000_0000_0000 && ZigZag(UnZigZag(v)) == v
  {
  }

  // ------------------------------------------------------------ little endian

  lemma {:induction false} LittleEndianRoundTrip(v: nat, n: nat, rest: seq<Byte>)
    requires v < Pow2(8 * n)
    ensures ReadLittleEndian(LittleEndian(v, n) + rest, n) == Ok(v, rest)
  {
    var s := LittleEndian(v, n);
    assert (s + rest)[..n] == s && (s + rest)[n..] == rest;
    LittleEndianInverse(v, n);
  }

  lemma {:induction false} LittleEndianInverse(v: nat, n: nat)
    requires v < Pow2(8 * n)
    ensures LittleEndianValue(LittleEndian(v, n)) == v
  {
    hide Pow2;
    Pow2Values();
    if n > 0 {
      assert Pow2(8 * n) == 256 * Pow2(8 * n - 8) by { Pow2Add(8, 8 * n - 8); }
      LittleEndianInverse(v / 256, n - 1);
      assert LittleEndian(v, n)[1..] == LittleEndian(v / 256, n - 1);
    }
  }

  // ------------------------------------------------ the 32-bit varint decoder

  /** One round of the pb_decode_varint32_eof loop while bits still fit. */
  lemma Varint32Round(b: Byte, tail: seq<Byte>, k: nat, result: nat) returns (next: nat)
    requires 1 <= k <= 4 && result < Pow2(7 * k)
    ensures next == result + Place(b, 7 * k, TWO_32)
    ensures next < Pow2(7 * (k + 1)) && next == Total(result, b % 128, k, TWO_32)
    ensures ReadVarint32From([b] + tail, 7 * k, result)
         == if b >= 128 then ReadVarint32From(tail, 7 * (k + 1), next)
            else if k == 4 && (b / 16) % 8 != 0 then Fail
            else Ok(next, tail)
  {
    hide Or, Pow2, Place, Total;
    assert Pow2(32) == TWO_32 by { Pow2Values(); }
    OrDigit(result, b, k, 32);
    next := result + Place(b, 7 * k, TWO_32);
    assert ([b] + tail)[1..] == tail;
  }

  /** One round past bit 32, where the result no longer changes. */
  lemma Varint32TailRound(b: Byte, tail: seq<Byte>, k: nat, result: nat)
    requires 5 <= k <= 9
    ensures ReadVarint32From([b] + tail, 7 * k, result)
         == if b % 128 != 0 && (result < 0x8000_0000 || b != if k == 9 then 0x01 else 0xFF) then Fail
            else if b >= 128 then ReadVarint32From(tail, 7 * (k + 1), result)
            else Ok(result, tail)
  {
    assert ([b] + tail)[1..] == tail;
  }

  lemma AddMultiple(r: nat, d: nat, e: nat)
    ensures (r + d * (e * TWO_32)) % TWO_32 == r % TWO_32
  {
    MulAssoc(d, e, TWO_32);
    ModUnique(r + d * (e * TWO_32), TWO_32, r / TWO_32 + d * e, r % TWO_32);
  }

  /** Digits from bit 35 on do not reach the low word. */
  lemma HighDigit(r: nat, d: nat, k: nat)
    requires k >= 5
    ensures Total(r, d, k, TWO_64) % TWO_32 == r % TWO_32
    ensures Total(r, d, k, TWO_32) == r % TWO_32
  {
    hide Pow2;
    Mod64Then32(r + d * Pow2(7 * k));
    assert Pow2(7 * k) == Pow2(7 * k - 32) * TWO_32 by { Pow2Add(7 * k - 32, 32); Pow2Values(); }
    AddMultiple(r, d, Pow2(7 * k - 32));
  }

  /** Below bit 32 the two word sizes see the same digits. */
  lemma LowDigit(r: nat, d: nat, k: nat)
    ensures Total(r, d, k, TWO_64) % TWO_32 == Total(r, d, k, TWO_32)
  {
    hide Pow2;
    Mod64Then32(r + d * Pow2(7 * k));
  }

  lemma Mod64Then32(a: nat)
    ensures (a % TWO_64) % TWO_32 == a % TWO_32
  {
  }

  /** Lockstep of the two loops: same bytes consumed, equal modulo 2^32. */
  lemma {:induction false} ReadersAgreeFrom(s: seq<Byte>, k: nat, r32: nat, r64: nat)
    requires 1 <= k <= 9 && r64 < Pow2(7 * k) && r64 < TWO_64 && r32 == r64 % TWO_32
    requires ReadVarint32From(s, 7 * k, r32).Ok? && ReadVarintFrom(s, 7 * k, r64).Ok?
    ensures ReadVarint32From(s, 7 * k, r32).rest == ReadVarintFrom(s, 7 * k, r64).rest
    ensures ReadVarint32From(s, 7 * k, r32).value == ReadVarintFrom(s, 7 * k, r64).value % TWO_32
    decreases |s|
  {
    hide Or, Pow2, Place, Total, ReadVarint32From;
    var b, tail := s[0], s[1..];
    assert s == [b] + tail;
    var n64 := VarintRound(b, tail, k, r64);
    var n32 := r32;
    if k >= 5 {
      Varint32TailRound(b, tail, k, r32);
      HighDigit(r64, b % 128, k);
    } else {
      assert r32 == r64 by { Pow2Monotone(7 * k, 28); Pow2Values(); }
      n32 := Varint32Round(b, tail, k, r32);
      LowDigit(r64, b % 128, k);
    }
    if b >= 128 { ReadersAgreeFrom(tail, k + 1, n32, n64); }
  }

  /** Where both varint decoders accept, they consume the same bytes and agree modulo 2^32. */
  lemma VarintReadersAgree(s: seq<Byte>)
    requires ReadVarint32(s).Ok? && ReadVarint(s).Ok?
    ensures ReadVarint32(s).rest == ReadVarint(s).rest
    ensures ReadVarint32(s).value == ReadVarint(s).value % TWO_32
  {
    hide Or, Pow2, Place, Total, ReadVarint32From, ReadVarintFrom;
    var b := s[0];
    assert s == [b] + s[1..];
    Pow2Values();
    FirstDigit(b % 128, TWO_64);
    var next := VarintRound(b, s[1..], 0, 0);
    if b >= 128 { ReadersAgreeFrom(s[1..], 1, b % 128, b % 128); }
  }

  lemma {:induction false} Canonical32From(t: nat, rest: seq<Byte>, k: nat, result: nat)
    requires 1 <= k <= 4 && t < Pow2(32 - 7 * k) && result < Pow2(7 * k)
    ensures ReadVarint32From(Varint(t) + rest, 7 * k, result) == Ok(Total(result, t, k, TWO_32), rest)
    decreases 4 - k
  {
    hide Or, Pow2, Place, Total, Varint, ReadVarint32From;
    VarintUnfold(t);
    var tail := if t < 128 then rest else Varint(t / 128) + rest;
    if k == 4 { Pow2Values(); }
    assert Varint(t) + rest == [Varint(t)[0]] + tail;
    var next := Varint32Round(Varint(t)[0], tail, k, result);
    if t >= 128 {
      var shorter := Pow2(32 - 7 * (k + 1));
      assert Pow2(32 - 7 * k) == 128 * shorter by { Pow2Add(7, 25 - 7 * k); Pow2Values(); }
      Canonical32From(t / 128, rest, k + 1, next);
      TotalStep(result, t, k, TWO_32);
    }
  }

  /** The 32-bit decoder accepts every canonical encoding below 2^32. */
  lemma Varint32RoundTrip(v: nat, rest: seq<Byte>)
    requires v < TWO_32
    ensures ReadVarint32(Varint(v) + rest) == Ok(v, rest)
  {
    hide Or, Pow2, Place, Total, Varint, ReadVarint32From;
    VarintUnfold(v);
    var s := Varint(v) + rest;
    if v < 128 {
      assert s[1..] == rest;
    } else {
      assert s[1..] == Varint(v / 128) + rest;
      assert Pow2(25) * 128 == TWO_32 && Pow2(7) == 128 by { Pow2Add(25, 7); Pow2Values(); }
      Canonical32From(v / 128, rest, 1, v % 128);
      WholeValue(v, TWO_32);
    }
  }

  lemma {:induction false} SignTail(rest: seq<Byte>, k: nat, result: nat)
    requires 5 <= k <= 9 && 0x8000_0000 <= result < TWO_32
    ensures ReadVarint32From(Varint(Pow2(64 - 7 * k) - 1) + rest, 7 * k, result) == Ok(result, rest)
    decreases 9 - k
  {
    hide Or, Pow2, Place, Total, Varint, ReadVarint32From;
    var t := Pow2(64 - 7 * k) - 1;
    VarintUnfold(t);
    if k == 9 {
      assert t == 1 by { Pow2Values(); }
      Varint32TailRound(1, rest, k, result);
    } else {
      var t' := Pow2(64 - 7 * (k + 1)) - 1;
      assert t + 1 == 128 * (t' + 1) by { Pow2Add(7, 57 - 7 * k); Pow2Values(); }
      assert t' >= 1 by { Pow2Monotone(1, 57 - 7 * k); Pow2Values(); }
      assert Varint(t) + rest == [0xFF] + (Varint(t') + rest);
      Varint32TailRound(0xFF, Varint(t') + rest, k, result);
      SignTail(rest, k + 1, result);
    }
  }

  lemma LowBits(result: nat, digit: nat)
    requires result < 0x1000_0000 && 120 <= digit < 128
    ensures Total(result, digit, 4, TWO_32) >= 0x8000_0000
  {
    hide Pow2;
    assert Pow2(28) == 0x1000_0000 by { Pow2Values(); }
    ModUnique(result + digit * 0x1000_0000, TWO_32, 7, result + (digit - 112) * 0x1000_0000);
  }

  lemma {:induction false} SignExtendedFrom(t: nat, rest: seq<Byte>, k: nat, result: nat)
    requires 1 <= k <= 4 && result < Pow2(7 * k)
    requires Pow2(64 - 7 * k) - Pow2(31 - 7 * k) <= t < Pow2(64 - 7 * k)
    ensures ReadVarint32From(Varint(t) + rest, 7 * k, result)
         == Ok(Total(result, t, k, TWO_32), rest)
    decreases 4 - k
  {
    hide Or, Pow2, Place, Total, Varint, ReadVarint32From;
    VarintUnfold(t);
    var t' := t / 128;
    assert t >= 128 by {
      Pow2Add(1, 63 - 7 * k); Pow2Monotone(31 - 7 * k, 63 - 7 * k); Pow2Monotone(7, 63 - 7 * k); Pow2Values();
    }
    assert Varint(t) + rest == [t % 128 + 128] + (Varint(t') + rest);
    var next := Varint32Round(t % 128 + 128, Varint(t') + rest, k, result);
    var high := Pow2(64 - 7 * (k + 1));
    assert Pow2(64 - 7 * k) == 128 * high by { Pow2Add(7, 57 - 7 * k); Pow2Values(); }
    TotalStep(result, t, k, TWO_32);
    if k == 4 {
      assert Pow2(31 - 7 * k) == 8 && Pow2(28) == 0x1000_0000 by { Pow2Values(); }
      assert t' == high - 1 && t % 128 >= 120;
      LowBits(result, t % 128);
      SignTail(rest, 5, next);
      HighDigit(next, t', 5);
    } else {
      var low := Pow2(31 - 7 * (k + 1));
      assert Pow2(31 - 7 * k) == 128 * low by { Pow2Add(7, 24 - 7 * k); Pow2Values(); }
      SignExtendedFrom(t', rest, k + 1, next);
    }
  }

  /** The 32-bit decoder accepts every negative int32 sign-extended to 64 bits. */
  lemma SignExtendedAccepted(n: int, rest: seq<Byte>)
    requires -0x8000_0000 <= n < 0
    ensures ReadVarint32(Varint(n + TWO_64) + rest) == Ok(n + TWO_32, rest)
  {
    hide Or, Pow2, Place, Total, Varint, ReadVarint32From;
    VarintUnfold(n + TWO_64);
    var v := n + TWO_64;
    var s := Varint(v) + rest;
    assert s[1..] == Varint(v / 128) + rest;
    assert 128 * Pow2(57) == TWO_64 by { Pow2Add(7, 57); Pow2Values(); }
    assert 128 * Pow2(24) == 0x8000_0000 by { Pow2Add(7, 24); Pow2Values(); }
    assert Pow2(7) == 128 by { Pow2Values(); }
    SignExtendedFrom(v / 128, rest, 1, v % 128);
    WholeValue(v, TWO_32);
    assert v % TWO_32 == n + TWO_32 by { ModUnique(v, TWO_32, TWO_32 - 1, n + TWO_32); }
  }

  lemma {:induction false} RejectTail(t: nat, rest: seq<Byte>, k: nat, result: nat)
    requires 5 <= k <= 9 && 1 <= t < Pow2(63 - 7 * k)
    ensures ReadVarint32From(Varint(t) + rest, 7 * k, result) == Fail
    decreases 9 - k
  {
    hide Or, Pow2, Place, Total, Varint, ReadVarint32From;
    VarintUnfold(t);
    Pow2Values();
    if k < 9 {
      if t < 128 {
        Varint32TailRound(t, rest, k, result);
      } else {
        assert Varint(t) + rest == [t % 128 + 128] + (Varint(t / 128) + rest);
        Varint32TailRound(t % 128 + 128, Varint(t / 128) + rest, k, result);
        var shorter := Pow2(63 - 7 * (k + 1));
        assert Pow2(63 - 7 * k) == 128 * shorter by { Pow2Add(7, 56 - 7 * k); }
        RejectTail(t / 128, rest, k + 1, result);
      }
    }
  }

  lemma {:induction false} RejectFrom(t: nat, rest: seq<Byte>, k: nat, result: nat)
    requires 1 <= k <= 4 && result < Pow2(7 * k) && Pow2(32 - 7 * k) <= t < Pow2(63 - 7 * k)
    ensures ReadVarint32From(Varint(t) + rest, 7 * k, result) == Fail
    decreases 4 - k
  {
    hide Or, Pow2, Place, Total, Varint, ReadVarint32From;
    VarintUnfold(t);
    var high := Pow2(63 - 7 * (k + 1));
    assert Pow2(63 - 7 * k) == 128 * high by { Pow2Add(7, 56 - 7 * k); Pow2Values(); }
    if k == 4 {
      assert Pow2(32 - 7 * k) == 16 by { Pow2Values(); }
    } else {
      var low := Pow2(32 - 7 * (k + 1));
      assert Pow2(32 - 7 * k) == 128 * low by { Pow2Add(7, 25 - 7 * k); Pow2Values(); }
    }
    if t < 128 {
      assert k == 4;
      var next := Varint32Round(t, rest, k, result);
    } else {
      assert Varint(t) + rest == [t % 128 + 128] + (Varint(t / 128) + rest);
      var next := Varint32Round(t % 128 + 128, Varint(t / 128) + rest, k, result);
      if k == 4 { RejectTail(t / 128, rest, 5, next); }
      else { RejectFrom(t / 128, rest, k + 1, next); }
    }
  }

  /** The 32-bit decoder rejects every canonical encoding in [2^32, 2^63). */
  lemma Varint32Rejects(v: nat, rest: seq<Byte>)
    requires TWO_32 <= v < TWO_63
    ensures ReadVarint32(Varint(v) + rest) == Fail
  {
    hide Or, Pow2, Place, Total, Varint, ReadVarint32From;
    VarintUnfold(v);
    var s := Varint(v) + rest;
    assert s[1..] == Varint(v / 128) + rest;
    assert Pow2(25) * 128 == TWO_32 by { Pow2Add(25, 7); Pow2Values(); }
    assert Pow2(56) * 128 == TWO_63 by { Pow2Add(56, 7); Pow2Values(); }
    assert Pow2(7) == 128 by { Pow2Values(); }
    RejectFrom(v / 128, rest, 1, v % 128);
  }
}
