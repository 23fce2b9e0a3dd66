/** Unsigned words as natural numbers, bit by bit. */
module Bits {

  function Pow2(l: nat): (r: nat)
    ensures r >= 1
  {
    if l == 0 then 1 else 2 * Pow2(l - 1)
  }

  predicate Bit(word: nat, k: nat) {
    if k == 0 then word % 2 == 1 else Bit(word / 2, k - 1)
  }

  /** Bitwise conjunction and disjunction. */
  function And(a: nat, b: nat): nat {
    if a == 0 || b == 0 then 0 else (if a % 2 == 1 && b % 2 == 1 then 1 else 0) + 2 * And(a / 2, b / 2)
  }

  function Or(a: nat, b: nat): nat {
    if a == 0 then b else if b == 0 then a else
    (if a % 2 == 1 || b % 2 == 1 then 1 else 0) + 2 * Or(a / 2, b / 2)
  }

  /** The low `width` bits of `word`. */
  function Truncate(word: nat, width: nat): nat {
    if width == 0 then 0 else word % 2 + 2 * Truncate(word / 2, width - 1)
  }

  /** `word` times two to the power of `s`. */
  function ShiftLeft(word: nat, s: nat): nat {
    if s == 0 then word else 2 * ShiftLeft(word, s - 1)
  }

  lemma {:induction false} NoBits(k: nat)
    ensures !Bit(0, k)
  {
    if k > 0 { NoBits(k - 1); }
  }

  lemma {:induction false} BitOfTruncate(word: nat, width: nat, k: nat)
    ensures Truncate(word, width) < Pow2(width)
    ensures Bit(Truncate(word, width), k) <==> k < width && Bit(word, k)
    decreases width
  {
    if width == 0 {
      NoBits(k);
    } else if k == 0 {
      BitOfTruncate(word / 2, width - 1, 0);
    } else {
      BitOfTruncate(word / 2, width - 1, k - 1);
    }
  }

  lemma {:induction false} BitOfShift(word: nat, s: nat, k: nat)
    ensures Bit(ShiftLeft(word, s), k) <==> k >= s && Bit(word, k - s)
    decreases s
  {
    if s > 0 && k > 0 { BitOfShift(word, s - 1, k - 1); }
  }

  lemma {:induction false} BitOfOr(a: nat, b: nat, k: nat)
    ensures Bit(Or(a, b), k) <==> Bit(a, k) || Bit(b, k)
    decreases k
  {
    NoBits(k);
    if a != 0 && b != 0 && k > 0 {
      assert Or(a, b) / 2 == Or(a / 2, b / 2);
      BitOfOr(a / 2, b / 2, k - 1);
    }
  }

  lemma {:induction false} BitOfOne(k: nat)
    ensures Bit(1, k) <==> k == 0
  {
    if k > 0 { NoBits(k - 1); }
  }

  lemma {:induction false} BitOfPow2(n: nat, k: nat)
    ensures Bit(Pow2(n), k) <==> k == n
  {
    if n == 0 { BitOfOne(k); } else if k > 0 { BitOfPow2(n - 1, k - 1); }
  }

  lemma {:induction false} OrBelow(a: nat, b: nat, width: nat)
    requires a < Pow2(width) && b < Pow2(width)
    ensures Or(a, b) < Pow2(width)
  {
    if a != 0 && b != 0 { OrBelow(a / 2, b / 2, width - 1); }
  }

  /** Words of one width with the same bits are equal. */
  lemma {:induction false} SameBits(a: nat, b: nat, width: nat)
    requires a < Pow2(width) && b < Pow2(width)
    requires forall k: nat :: k < width ==> (Bit(a, k) <==> Bit(b, k))
    ensures a == b
  {
    if width > 0 {
      forall k: nat | k < width - 1 ensures Bit(a / 2, k) <==> Bit(b / 2, k) {
        assert Bit(a, k + 1) <==> Bit(b, k + 1);
      }
      SameBits(a / 2, b / 2, width - 1);
      assert Bit(a, 0) <==> Bit(b, 0);
    }
  }

  lemma {:induction false} Pow2Monotone(a: nat, b: nat)
    requires a <= b
    ensures Pow2(a) <= Pow2(b)
  {
    if a < b { Pow2Monotone(a, b - 1); }
  }
}
