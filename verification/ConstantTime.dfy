/**
  The branch-free words of crypto/internal.h. A crypto_word_t has n bits, 32 or 64
  depending on the platform; what is proved here holds for every width.
 */
module ConstantTime {
  import opened Bits

  predicate Word(n: nat, a: nat) {
    a < Pow2(n)
  }

  /** Unsigned subtraction, which wraps around. */
  function Sub(n: nat, a: nat, b: nat): (r: nat)
    requires Word(n, a) && Word(n, b)
    ensures Word(n, r)
  {
    if a >= b then a - b else a + Pow2(n) - b
  }

  function Not(n: nat, a: nat): (r: nat)
    requires Word(n, a)
    ensures Word(n, r)
  {
    Pow2(n) - 1 - a
  }

  function Xor(a: nat, b: nat): nat {
    if a == 0 then b
    else if b == 0 then a
    else (if (a % 2 == 1) != (b % 2 == 1) then 1 else 0) + 2 * Xor(a / 2, b / 2)
  }

  /** constant_time_msb_w: the top bit, copied to all others. */
  function Msb(n: nat, a: nat): nat
    requires n >= 1 && Word(n, a)
  {
    Sub(n, 0, Shifted(n, a))
  }

  /** A right shift by all but one bit. */
  function Shifted(n: nat, a: nat): (r: nat)
    requires n >= 1 && Word(n, a)
    ensures r == if a >= Pow2(n - 1) then 1 else 0
  {
    ModUnique(a, Pow2(n - 1), if a >= Pow2(n - 1) then 1 else 0, if a >= Pow2(n - 1) then a - Pow2(n - 1) else a);
    a / Pow2(n - 1)
  }

  /** constant_time_lt_w. */
  function Lt(n: nat, a: nat, b: nat): nat
    requires n >= 1 && Word(n, a) && Word(n, b)
  {
    XorBound(n, a, b);
    XorBound(n, Sub(n, a, b), a);
    OrBound(Xor(a, b), Xor(Sub(n, a, b), a), n);
    XorBound(n, a, Or(Xor(a, b), Xor(Sub(n, a, b), a)));
    Msb(n, Xor(a, Or(Xor(a, b), Xor(Sub(n, a, b), a))))
  }

  /** constant_time_ge_w. */
  function Ge(n: nat, a: nat, b: nat): nat
    requires n >= 1 && Word(n, a) && Word(n, b)
  {
    LtIsLess(n, a, b);
    Not(n, Lt(n, a, b))
  }

  /** constant_time_is_zero_w. */
  function IsZero(n: nat, a: nat): nat
    requires n >= 1 && Word(n, a)
  {
    AndBound(Not(n, a), Sub(n, a, 1));
    Msb(n, And(Not(n, a), Sub(n, a, 1)))
  }

  /** constant_time_eq_w. */
  function Eq(n: nat, a: nat, b: nat): nat
    requires n >= 1 && Word(n, a) && Word(n, b)
  {
    XorBound(n, a, b);
    IsZero(n, Xor(a, b))
  }

  /** constant_time_select_w. */
  function Select(n: nat, mask: nat, a: nat, b: nat): nat
    requires Word(n, mask) && Word(n, a) && Word(n, b)
  {
    Or(And(mask, a), And(Not(n, mask), b))
  }

  /** A cast to uint8_t. */
  function Truncate(a: nat): Byte {
    a % 256
  }

  /** CONSTTIME_TRUE_W or CONSTTIME_FALSE_W. */
  function Mask(n: nat, c: bool): (r: nat)
    ensures Word(n, r)
  {
    if c then Pow2(n) - 1 else 0
  }

  function Mask8(c: bool): Byte {
    if c then 0xFF else 0
  }

  // ------------------------------------------------------------------ bits

  lemma {:induction false} BitXor(a: nat, b: nat, k: nat)
    ensures Bit(Xor(a, b), k) == (Bit(a, k) != Bit(b, k))
    decreases k
  {
    BitOfZero(k);
    if a != 0 && b != 0 {
      var low := if (a % 2 == 1) != (b % 2 == 1) then 1 else 0;
      var x := low + 2 * Xor(a / 2, b / 2);
      assert x == Xor(a, b);
      assert x % 2 == low && x / 2 == Xor(a / 2, b / 2);
      hide Xor;
      if k > 0 { BitXor(a / 2, b / 2, k - 1); }
    }
  }

  lemma {:induction false} XorBound(n: nat, a: nat, b: nat)
    requires Word(n, a) && Word(n, b)
    ensures Word(n, Xor(a, b))
    decreases n
  {
    if n > 0 && a != 0 && b != 0 { XorBound(n - 1, a / 2, b / 2); }
  }

  lemma {:induction false} XorIsZero(a: nat, b: nat)
    ensures Xor(a, b) == 0 <==> a == b
  {
    if a != 0 && b != 0 { XorIsZero(a / 2, b / 2); }
  }

  /** The top bit of a word is set exactly in its upper half. */
  lemma {:induction false} TopBit(n: nat, a: nat)
    requires n >= 1 && Word(n, a)
    ensures Bit(a, n - 1) <==> a >= Pow2(n - 1)
  {
    if n > 1 { TopBit(n - 1, a / 2); }
  }

  lemma MsbIsTopBit(n: nat, a: nat)
    requires n >= 1 && Word(n, a)
    ensures Msb(n, a) == Mask(n, Bit(a, n - 1))
  {
    TopBit(n, a);
  }

  /** The comparison mask is that of the numbers, however the subtraction wraps. */
  lemma LtIsLess(n: nat, a: nat, b: nat)
    requires n >= 1 && Word(n, a) && Word(n, b)
    ensures Lt(n, a, b) == Mask(n, a < b)
  {
    hide Bit, Xor, Or, Msb;
    var d := Sub(n, a, b);
    var x := Xor(a, b);
    var y := Xor(d, a);
    var k := n - 1;
    XorBound(n, a, b);
    XorBound(n, d, a);
    OrBound(x, y, n);
    XorBound(n, a, Or(x, y));
    BitXor(a, b, k);
    BitXor(d, a, k);
    BitOr(x, y, k);
    BitXor(a, Or(x, y), k);
    TopBit(n, a);
    TopBit(n, b);
    TopBit(n, d);
    MsbIsTopBit(n, Xor(a, Or(x, y)));
    assert Pow2(n) == 2 * Pow2(n - 1);
  }

  lemma GeIsAtLeast(n: nat, a: nat, b: nat)
    requires n >= 1 && Word(n, a) && Word(n, b)
    ensures Ge(n, a, b) == Mask(n, a >= b)
  {
    hide Lt;
    LtIsLess(n, a, b);
  }

  lemma IsZeroIsZero(n: nat, a: nat)
    requires n >= 1 && Word(n, a)
    ensures IsZero(n, a) == Mask(n, a == 0)
  {
    hide Bit, And, Msb;
    var x, y := Not(n, a), Sub(n, a, 1);
    AndBound(x, y);
    BitAnd(x, y, n - 1);
    TopBit(n, a);
    TopBit(n, x);
    TopBit(n, y);
    MsbIsTopBit(n, And(x, y));
    assert Pow2(n) == 2 * Pow2(n - 1);
  }

  lemma EqIsEqual(n: nat, a: nat, b: nat)
    requires n >= 1 && Word(n, a) && Word(n, b)
    ensures Eq(n, a, b) == Mask(n, a == b)
  {
    hide IsZero, Xor;
    XorBound(n, a, b);
    XorIsZero(a, b);
    IsZeroIsZero(n, Xor(a, b));
  }

  lemma {:induction false} AndOnes(n: nat, a: nat)
    requires Word(n, a)
    ensures And(Pow2(n) - 1, a) == a
  {
    if a != 0 {
      assert (Pow2(n) - 1) % 2 == 1 && (Pow2(n) - 1) / 2 == Pow2(n - 1) - 1;
      AndOnes(n - 1, a / 2);
    }
  }

  lemma SelectChooses(n: nat, c: bool, a: nat, b: nat)
    requires Word(n, a) && Word(n, b)
    ensures Select(n, Mask(n, c), a, b) == if c then a else b
  {
    AndOnes(n, a);
    AndOnes(n, b);
    assert And(0, a) == 0 && And(0, b) == 0;
  }

  // ------------------------------------------------------------------ bytes

  /** constant_time_is_zero_8. */
  function IsZero8(n: nat, a: nat): Byte
    requires n >= 8 && Word(n, a)
  {
    Truncate(IsZero(n, a))
  }

  /** constant_time_eq_8. */
  function Eq8(n: nat, a: nat, b: nat): Byte
    requires n >= 8 && Word(n, a) && Word(n, b)
  {
    Truncate(Eq(n, a, b))
  }

  /** The cast of an int to a word. */
  function OfInt(n: nat, a: int): nat {
    a % Pow2(n)
  }

  /** constant_time_eq_int_8. */
  function EqInt8(n: nat, a: int, b: int): Byte
    requires n >= 8
  {
    Eq8(n, OfInt(n, a), OfInt(n, b))
  }

  /** constant_time_select_8: the mask is widened with zeros. */
  function Select8(n: nat, mask: Byte, a: Byte, b: Byte): Byte
    requires n >= 8
  {
    ByteIsWord(n, mask);
    ByteIsWord(n, a);
    ByteIsWord(n, b);
    Truncate(Select(n, mask, a, b))
  }

  lemma ByteIsWord(n: nat, a: Byte)
    requires n >= 8
    ensures Word(n, a)
  {
    assert Pow2(8) == 256;
    Pow2Monotone(8, n);
  }

  lemma TruncatedMask(n: nat, c: bool)
    requires n >= 8
    ensures Truncate(Mask(n, c)) == Mask8(c)
  {
    assert Pow2(8) == 256;
    hide Pow2;
    Pow2Add(n - 8, 8);
    if c { ModUnique(Pow2(n) - 1, 256, Pow2(n - 8) - 1, 255); }
  }

  lemma IsZero8IsZero(n: nat, a: nat)
    requires n >= 8 && Word(n, a)
    ensures IsZero8(n, a) == Mask8(a == 0)
  {
    hide IsZero, Mask, Mask8, Truncate;
    IsZeroIsZero(n, a);
    TruncatedMask(n, a == 0);
  }

  lemma Eq8IsEqual(n: nat, a: nat, b: nat)
    requires n >= 8 && Word(n, a) && Word(n, b)
    ensures Eq8(n, a, b) == Mask8(a == b)
  {
    hide Eq, Mask, Mask8, Truncate;
    EqIsEqual(n, a, b);
    TruncatedMask(n, a == b);
  }

  /** Negative numbers included: an int has at most as many bits as a word. */
  lemma EqInt8IsEqual(n: nat, a: int, b: int)
    requires n >= 32 && -0x8000_0000 <= a < 0x8000_0000 && -0x8000_0000 <= b < 0x8000_0000
    ensures EqInt8(n, a, b) == Mask8(a == b)
  {
    hide Pow2, Eq8, Mask8;
    IntFits(n);
    var p := Pow2(n);
    ModUnique(a, p, if a < 0 then -1 else 0, if a < 0 then a + p else a);
    ModUnique(b, p, if b < 0 then -1 else 0, if b < 0 then b + p else b);
    Eq8IsEqual(n, OfInt(n, a), OfInt(n, b));
  }

  lemma IntFits(n: nat)
    requires n >= 32
    ensures Pow2(n) >= 0x1_0000_0000
  {
    assert Pow2(8) == 256;
    hide Pow2;
    Pow2Add(8, 8);
    Pow2Add(16, 16);
    Pow2Monotone(32, n);
  }

  lemma BytesAreWords(n: nat)
    requires n >= 8
    ensures forall a: Byte :: Word(n, a)
  {
    hide Word;
    forall a: Byte ensures Word(n, a) { ByteIsWord(n, a); }
  }

  /** No bit of a byte is set in the complement of 0xFF. */
  lemma {:induction false} AndDisjoint(m: nat, a: nat, k: nat)
    requires a < Pow2(k)
    ensures And(m * Pow2(k), a) == 0
  {
    if k > 0 && a != 0 && m != 0 {
      var w := m * Pow2(k);
      assert w == 2 * (m * Pow2(k - 1));
      assert w % 2 == 0 && w / 2 == m * Pow2(k - 1);
      AndDisjoint(m, a / 2, k - 1);
    }
  }

  lemma HighMask(n: nat, b: Byte)
    requires n >= 8 && Word(n, 0xFF)
    ensures And(Not(n, 0xFF), b) == 0
  {
    var high := Pow2(n - 8) - 1;
    assert Pow2(8) == 256;
    hide Pow2, And;
    Pow2Add(n - 8, 8);
    AndDisjoint(high, b, 8);
    assert Not(n, 0xFF) == high * Pow2(8);
  }

  lemma LowMask(a: Byte)
    ensures And(0xFF, a) == a
  {
    assert Pow2(8) == 256;
    hide Pow2, And;
    AndOnes(8, a);
  }

  lemma Select8Chooses(n: nat, c: bool, a: Byte, b: Byte)
    requires n >= 8
    ensures Select8(n, Mask8(c), a, b) == if c then a else b
  {
    hide Pow2, Or, And, Word;
    ByteIsWord(n, 0xFF);
    ByteIsWord(n, 0);
    ByteIsWord(n, a);
    ByteIsWord(n, b);
    OrZero(a, b);
    if c {
      HighMask(n, b);
      LowMask(a);
    } else {
      AndOnes(n, b);
    }
  }

  lemma OrZero(a: nat, b: nat)
    ensures Or(a, 0) == a && Or(0, b) == b && And(0, a) == 0
  {
  }

  /** Masks of truth values are truth values. */
  lemma MaskAnd(c: bool, d: bool)
    ensures And(Mask8(c), Mask8(d)) == Mask8(c && d)
  {
    assert Pow2(8) == 256;
    if d && c { AndOnes(8, 0xFF); }
  }

  lemma MaskNot(c: bool)
    ensures 0xFF - Mask8(c) == Mask8(!c)
  {
  }
}
