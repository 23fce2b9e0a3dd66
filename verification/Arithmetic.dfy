/** 32-bit words, and products, quotients and remainders with a variable divisor. */
module Arithmetic {

  const WORD: nat := 0x1_0000_0000

  /** A number as a 32-bit unsigned one. */
  function Wrap(x: int): nat {
    x % WORD
  }

  lemma WrapSmall(x: int)
    requires 0 <= x < WORD
    ensures Wrap(x) == x
  {
  }

  lemma WrapAdd(a: int, b: int)
    ensures Wrap(Wrap(a) + Wrap(b)) == Wrap(a + b) && Wrap(Wrap(a) + b) == Wrap(a + b)
  {
  }

  lemma {:induction false} TimesMonotone(a: nat, b: nat, g: nat)
    requires a <= b
    ensures a * g <= b * g
    decreases b
  {
    if a < b {
      TimesMonotone(a, b - 1, g);
      assert b * g == (b - 1) * g + g;
    }
  }

  /** Quotient and remainder are unique. */
  lemma DivModUnique(x: int, d: nat, k: int, r: nat)
    requires r < d && x == k * d + r
    ensures x / d == k && x % d == r
  {
    var k', r' := x / d, x % d;
    assert x == k' * d + r';
    assert (k - k') * d == k * d - k' * d && (k' - k) * d == k' * d - k * d;
    if k < k' {
      TimesMonotone(1, k' - k, d);
    } else if k' < k {
      TimesMonotone(1, k - k', d);
    }
  }

  lemma ModSmall(a: int, d: nat)
    requires 0 <= a < d
    ensures a % d == a
  {
    DivModUnique(a, d, 0, a);
  }

  /** Euclidean remainder. */
  function Remainder(a: int, d: nat): (r: int)
    requires d > 0
    ensures 0 <= r < d
    ensures 0 <= a < d ==> r == a
  {
    assert 0 <= a < d ==> a % d == a by { if 0 <= a < d { ModSmall(a, d); } }
    a % d
  }

  /** Reducing before adding makes no difference to the remainder. */
  lemma ModAdd(a: int, b: int, d: nat)
    requires d > 0
    ensures (a % d + b) % d == (a + b) % d
  {
    var k := (a % d + b) / d;
    assert a == a / d * d + a % d;
    assert a % d + b == k * d + (a % d + b) % d;
    assert (a / d + k) * d == a / d * d + k * d;
    DivModUnique(a + b, d, a / d + k, (a % d + b) % d);
  }

  lemma QuotientBelow(r: nat, p: nat, d: nat)
    requires d > 0 && r < p * d
    ensures r / d < p
  {
    if r / d >= p {
      TimesMonotone(p, r / d, d);
    }
  }
}

/** Extents of a grid in any number of dimensions. */
module Extents {

  function Product(size: seq<nat>): nat {
    if size == [] then 1 else size[0] * Product(size[1..])
  }

  predicate InRange(size: seq<nat>, idx: seq<int>) {
    |idx| == |size| && forall d :: 0 <= d < |size| ==> 0 <= idx[d] < size[d]
  }

  lemma {:induction false} ProductSplit(size: seq<nat>, d: nat)
    requires d < |size|
    ensures Product(size[..d + 1]) == Product(size[..d]) * size[d]
  {
    if d == 0 {
      assert size[..1] == [size[0]] && size[..0] == [];
    } else {
      ProductSplit(size[1..], d - 1);
      assert size[..d + 1][1..] == size[1..][..d] && size[..d][1..] == size[1..][..d - 1];
      assert size[0] * (Product(size[1..][..d - 1]) * size[d]) == size[0] * Product(size[1..][..d - 1]) * size[d];
    }
  }

  lemma InRangeCons(size: seq<nat>, first: int, rest: seq<int>)
    requires size != [] && 0 <= first < size[0] && InRange(size[1..], rest)
    ensures InRange(size, [first] + rest)
  {
    assert forall d :: 1 <= d < |size| ==> ([first] + rest)[d] == rest[d - 1] && size[d] == size[1..][d - 1];
  }
}
