/** Reversal of the bits of an unsigned word. */
module ReverseBits {
  import opened Bits

  /** `r` is `value` with its `width` bits in the opposite order. */
  ghost predicate IsReverse(value: nat, r: nat, width: nat) {
    r < Pow2(width) && forall k: nat :: k < width ==> (Bit(r, k) <==> Bit(value, width - 1 - k))
  }

  /** The bits of `result` after `j` rounds: the low bits of `value` reversed, then `value` itself. */
  ghost predicate PartlyReversed(value: nat, result: nat, j: nat, width: nat) {
    && result < Pow2(width)
    && forall k: nat :: k < width ==> (Bit(result, k) <==> Bit(value, if k < j then j - k else k - j))
  }

  /** `rest` is `value` shifted right by `j` bits. */
  ghost predicate IsShifted(value: nat, j: nat, rest: nat) {
    if j == 0 then rest == value else IsShifted(value / 2, j - 1, rest)
  }

  lemma {:induction false} BitOfHalf(value: nat, j: nat, k: nat, rest: nat)
    requires IsShifted(value, j, rest)
    ensures Bit(rest, k) <==> Bit(value, j + k)
    decreases j
  {
    if j > 0 { BitOfHalf(value / 2, j - 1, k, rest); }
  }

  lemma {:induction false} ShiftOnce(value: nat, j: nat, rest: nat)
    requires IsShifted(value, j, rest)
    ensures IsShifted(value, j + 1, rest / 2)
  {
    if j > 0 { ShiftOnce(value / 2, j - 1, rest); }
  }

  lemma {:induction false} ShiftedZero(j: nat, rest: nat)
    requires IsShifted(0, j, rest)
    ensures rest == 0
  {
    if j > 0 { ShiftedZero(j - 1, rest); }
  }

  lemma {:induction false} ShiftedBelow(value: nat, j: nat, rest: nat, width: nat)
    requires IsShifted(value, j, rest) && value < Pow2(width) && rest != 0
    ensures j < width
  {
    if j > 0 && width > 0 { ShiftedBelow(value / 2, j - 1, rest, width - 1); }
    if j > 0 && width == 0 { ShiftedZero(j, rest); }
  }

  lemma LowBit(rest: nat)
    ensures And(rest, 1) == rest % 2
  {
  }

  lemma OneRound(value: nat, result: nat, j: nat, rest: nat, width: nat)
    requires PartlyReversed(value, result, j, width) && IsShifted(value, j + 1, rest) && j + 1 < width
    ensures PartlyReversed(value, Or(Truncate(ShiftLeft(result, 1), width), And(rest, 1)), j + 1, width)
  {
    var up, low := Truncate(ShiftLeft(result, 1), width), And(rest, 1);
    LowBit(rest);
    BitOfTruncate(ShiftLeft(result, 1), width, 0);
    Pow2Monotone(1, width);
    OrBelow(up, low, width);
    forall k: nat | k < width
      ensures Bit(Or(up, low), k) <==> Bit(value, if k < j + 1 then j + 1 - k else k - j - 1)
    {
      BitOfOr(up, low, k);
      BitOfTruncate(ShiftLeft(result, 1), width, k);
      BitOfShift(result, 1, k);
      NoBits(k);
      BitOfOne(k);
      BitOfHalf(value, j + 1, 0, rest);
    }
  }

  lemma LastShift(value: nat, result: nat, j: nat, width: nat)
    requires value < Pow2(width) && j < width
    requires PartlyReversed(value, result, j, width) && IsShifted(value, j + 1, 0)
    ensures IsReverse(value, Truncate(ShiftLeft(result, width - 1 - j), width), width)
  {
    var s := width - 1 - j;
    BitOfTruncate(ShiftLeft(result, s), width, 0);
    forall k: nat | k < width
      ensures Bit(Truncate(ShiftLeft(result, s), width), k) <==> Bit(value, width - 1 - k)
    {
      BitOfTruncate(ShiftLeft(result, s), width, k);
      BitOfShift(result, s, k);
      if k < s {
        BitOfHalf(value, j + 1, width - 1 - k - (j + 1), 0);
        NoBits(width - 1 - k - (j + 1));
      }
    }
  }

  /** Bit `k` of the result is bit `width - 1 - k` of the value. */
  method ReverseBits(value: nat, width: nat) returns (result: nat)
    requires width >= 1 && value < Pow2(width)
    ensures IsReverse(value, result, width)
  {
    result := value;
    var s := width - 1;
    var rest: nat := value / 2;
    ShiftOnce(value, 0, value);
    while rest != 0
      invariant 0 <= s < width && IsShifted(value, width - s, rest)
      invariant PartlyReversed(value, result, width - 1 - s, width)
      decreases rest
    {
      ShiftedBelow(value, width - s, rest, width);
      OneRound(value, result, width - 1 - s, rest, width);
      ShiftOnce(value, width - s, rest);
      result := Truncate(ShiftLeft(result, 1), width);
      result := Or(result, And(rest, 1));
      s := s - 1;
      rest := rest / 2;
    }
    LastShift(value, result, width - 1 - s, width);
    result := Truncate(ShiftLeft(result, s), width);
  }

  /** Only one word is the reverse of a given one. */
  lemma ReverseIsUnique(value: nat, r: nat, t: nat, width: nat)
    requires IsReverse(value, r, width) && IsReverse(value, t, width)
    ensures r == t
  {
    SameBits(r, t, width);
  }

  /** Reversing twice gives the word back. */
  lemma ReverseTwice(value: nat, r: nat, t: nat, width: nat)
    requires value < Pow2(width) && IsReverse(value, r, width) && IsReverse(r, t, width)
    ensures t == value
  {
    forall k: nat | k < width ensures Bit(t, k) <==> Bit(value, k) {
      assert Bit(r, width - 1 - k) <==> Bit(value, width - 1 - (width - 1 - k));
    }
    SameBits(t, value, width);
  }
}
