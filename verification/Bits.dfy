/**
  Machine words as natural numbers. A word of width n is a number below
  Pow2(n); the C operators are written out on numbers, with their truncation,
  and related to single bits by induction.
 */
module Bits {

  type Byte = b: nat | b < 256

  function Pow2(n: nat): (p: nat)
    ensures p >= 1
  {
    if n == 0 then 1 else 2 * Pow2(n - 1)
  }

  /** Bit k of the word w. */
  predicate Bit(w: nat, k: nat) {
    if k == 0 then w % 2 == 1 else Bit(w / 2, k - 1)
  }

  /** Bitwise or. */
  function Or(a: nat, b: nat): nat {
    if a == 0 then b
    else if b == 0 then a
    else (if a % 2 == 1 || b % 2 == 1 then 1 else 0) + 2 * Or(a / 2, b / 2)
  }

  /** Bitwise and. */
  function And(a: nat, b: nat): nat {
    if a == 0 || b == 0 then 0
    else (if a % 2 == 1 && b % 2 == 1 then 1 else 0) + 2 * And(a / 2, b / 2)
  }

  lemma {:induction false} Pow2Add(m: nat, n: nat)
    ensures Pow2(m + n) == Pow2(m) * Pow2(n)
  {
    if m > 0 { Pow2Add(m - 1, n); }
  }

  lemma {:induction false} Pow2Monotone(m: nat, n: nat)
    requires m <= n
    ensures Pow2(m) <= Pow2(n)
    decreases n
  {
    if m < n { Pow2Monotone(m, n - 1); }
  }

  lemma {:induction false} BitOfZero(k: nat)
    ensures !Bit(0, k)
  {
    if k > 0 { BitOfZero(k - 1); }
  }

  lemma {:induction false} BitOr(a: nat, b: nat, k: nat)
    ensures Bit(Or(a, b), k) == (Bit(a, k) || Bit(b, k))
    decreases k
  {
    BitOfZero(k);
    if a != 0 && b != 0 {
      var low := if a % 2 == 1 || b % 2 == 1 then 1 else 0;
      var o := low + 2 * Or(a / 2, b / 2);
      assert o % 2 == low && o / 2 == Or(a / 2, b / 2);
      if k > 0 { BitOr(a / 2, b / 2, k - 1); }
    }
  }

  lemma {:induction false} BitAnd(a: nat, b: nat, k: nat)
    ensures Bit(And(a, b), k) == (Bit(a, k) && Bit(b, k))
    decreases k
  {
    BitOfZero(k);
    if a != 0 && b != 0 {
      var low := if a % 2 == 1 && b % 2 == 1 then 1 else 0;
      var o := low + 2 * And(a / 2, b / 2);
      assert o % 2 == low && o / 2 == And(a / 2, b / 2);
      if k > 0 { BitAnd(a / 2, b / 2, k - 1); }
    }
  }

  lemma {:induction false} BitPow2(j: nat, k: nat)
    ensures Bit(Pow2(j), k) == (j == k)
  {
    if j == 0 {
      if k > 0 { BitOfZero(k - 1); }
    } else if k > 0 {
      BitPow2(j - 1, k - 1);
    }
  }

  /** The word with exactly its n low bits set. */
  lemma {:induction false} BitAllOnes(n: nat, k: nat)
    ensures Bit(Pow2(n) - 1, k) == (k < n)
  {
    if n == 0 {
      BitOfZero(k);
    } else {
      assert (Pow2(n) - 1) % 2 == 1 && (Pow2(n) - 1) / 2 == Pow2(n - 1) - 1;
      if k > 0 { BitAllOnes(n - 1, k - 1); }
    }
  }

  /** Two words with the same bits are the same number. */
  lemma {:induction false} BitsDetermine(a: nat, b: nat, n: nat)
    requires a < Pow2(n) && b < Pow2(n)
    requires forall k: nat :: k < n ==> Bit(a, k) == Bit(b, k)
    ensures a == b
  {
    if n > 0 {
      assert Bit(a, 0) == Bit(b, 0);
      forall k: nat | k < n - 1 ensures Bit(a / 2, k) == Bit(b / 2, k) {
        assert Bit(a, k + 1) == Bit(b, k + 1);
      }
      BitsDetermine(a / 2, b / 2, n - 1);
    }
  }

  lemma {:induction false} OrBound(a: nat, b: nat, n: nat)
    requires a < Pow2(n) && b < Pow2(n)
    ensures Or(a, b) < Pow2(n)
    decreases n
  {
    if n > 0 && a != 0 && b != 0 { OrBound(a / 2, b / 2, n - 1); }
  }

  /** Or-ing a multiple of Pow2(n) into a word below Pow2(n) is addition. */
  lemma {:induction false} OrDisjoint(a: nat, c: nat, n: nat)
    requires a < Pow2(n)
    ensures Or(a, c * Pow2(n)) == a + c * Pow2(n)
  {
    if n > 0 && a != 0 && c != 0 {
      var b := c * Pow2(n);
      assert b == 2 * (c * Pow2(n - 1));
      assert b % 2 == 0 && b / 2 == c * Pow2(n - 1);
      OrDisjoint(a / 2, c, n - 1);
    }
  }

  /** A left shift by s moves bit k - s to bit k. */
  lemma {:induction false} BitShiftLeft(w: nat, s: nat, k: nat)
    ensures Bit(w * Pow2(s), k) == (k >= s && Bit(w, k - s))
  {
    if s > 0 {
      var v := w * Pow2(s - 1);
      assert w * Pow2(s) == 2 * v;
      assert (2 * v) % 2 == 0 && (2 * v) / 2 == v;
      if k > 0 { BitShiftLeft(w, s - 1, k - 1); }
    }
  }

  /** Truncation to n bits keeps the bits below n and clears the others. */
  lemma {:induction false} BitTruncate(w: nat, n: nat, k: nat)
    ensures Bit(w % Pow2(n), k) == (k < n && Bit(w, k))
  {
    if n == 0 {
      BitOfZero(k);
    } else {
      ModHalf(w, Pow2(n - 1));
      if k > 0 { BitTruncate(w / 2, n - 1, k - 1); }
    }
  }

  /** The complement of x in a word of n bits. */
  lemma {:induction false} BitComplement(x: nat, n: nat, k: nat)
    requires x < Pow2(n)
    ensures Bit(Pow2(n) - 1 - x, k) == (k < n && !Bit(x, k))
  {
    if n == 0 {
      BitOfZero(k);
    } else {
      var y := Pow2(n) - 1 - x;
      assert y % 2 == 1 - x % 2 && y / 2 == Pow2(n - 1) - 1 - x / 2;
      if k > 0 { BitComplement(x / 2, n - 1, k - 1); }
    }
  }

  lemma {:induction false} AndBound(a: nat, b: nat)
    ensures And(a, b) <= b
    decreases b
  {
    if a != 0 && b != 0 { AndBound(a / 2, b / 2); }
  }

  lemma ModHalf(w: nat, p: nat)
    requires p > 0
    ensures (w % (2 * p)) % 2 == w % 2
    ensures (w % (2 * p)) / 2 == (w / 2) % p
  {
    var q, r := w / (2 * p), w % (2 * p);
    assert w == q * (2 * p) + r;
    assert w == 2 * (q * p) + r;
    assert w / 2 == q * p + r / 2;
    assert r / 2 < p;
    ModUnique(w / 2, p, q, r / 2);
  }

  /** Division with remainder is unique. */
  lemma ModUnique(w: int, p: int, q: int, r: int)
    requires p > 0 && 0 <= r < p && w == q * p + r
    ensures w % p == r && w / p == q
  {
    var d := w / p - q;
    assert d * p == r - w % p by {
      assert w == (w / p) * p + w % p;
      assert d * p == (w / p) * p - q * p;
    }
    if d >= 1 { MulAtLeast(d, p); }
    if d <= -1 { MulAtLeast(-d, p); }
  }

  lemma {:induction false} MulAtLeast(d: int, p: int)
    requires d >= 1 && p > 0
    ensures d * p >= p
    ensures (-d) * p <= -p
  {
  }
}
