/** Directions to neighbours and their exchange ids: one ternary digit per axis. */
module ExchangeTypes {

  const RIGHT: nat := 1
  const LEFT: nat := 2
  const BOTTOM: nat := 3
  const TOP: nat := 6
  const BACK: nat := 9
  const FRONT: nat := 18

  function Digit(dir: int): nat
    requires -1 <= dir <= 1
  {
    if dir == -1 then 2 else dir
  }

  ghost predicate Directions(dirs: seq<int>) {
    forall d :: 0 <= d < |dirs| ==> -1 <= dirs[d] <= 1
  }

  /** The exchange id of a direction: one ternary digit per axis, the first one lowest. */
  ghost function Encode(dirs: seq<int>): nat
    requires Directions(dirs)
  {
    if dirs == [] then 0 else Digit(dirs[0]) + 3 * Encode(dirs[1..])
  }

  function Decode(exchange: nat, dim: nat): seq<int> {
    if dim == 0 then []
    else [if exchange % 3 == 2 then -1 else exchange % 3] + Decode(exchange / 3, dim - 1)
  }

  /** A direction that leads nowhere. */
  ghost predicate Here(dirs: seq<int>) {
    forall d :: 0 <= d < |dirs| ==> dirs[d] == 0
  }

  lemma {:induction false} DecodeEncode(dirs: seq<int>)
    requires Directions(dirs)
    ensures Decode(Encode(dirs), |dirs|) == dirs
  {
    if dirs != [] {
      DecodeEncode(dirs[1..]);
      assert dirs == [dirs[0]] + dirs[1..];
    }
  }

  lemma {:induction false} ZeroIsHere(dirs: seq<int>)
    requires Directions(dirs)
    ensures Encode(dirs) == 0 <==> Here(dirs)
  {
    if dirs != [] {
      ZeroIsHere(dirs[1..]);
      assert Here(dirs) <==> dirs[0] == 0 && Here(dirs[1..]) by {
        if Here(dirs[1..]) && dirs[0] == 0 {
          forall d | 0 <= d < |dirs| ensures dirs[d] == 0 { if d > 0 { assert dirs[d] == dirs[1..][d - 1]; } }
        }
      }
    }
  }

  ghost function Pow3(n: nat): nat {
    if n == 0 then 1 else 3 * Pow3(n - 1)
  }

  lemma {:induction false} EncodeSnoc(dirs: seq<int>, dir: int)
    requires Directions(dirs) && -1 <= dir <= 1
    ensures Directions(dirs + [dir])
    ensures Encode(dirs + [dir]) == Encode(dirs) + Digit(dir) * Pow3(|dirs|)
  {
    if dirs == [] {
      assert dirs + [dir] == [dir];
      assert Encode([dir]) == Digit(dir) + 3 * Encode([]);
    } else {
      EncodeSnoc(dirs[1..], dir);
      assert (dirs + [dir])[1..] == dirs[1..] + [dir];
      assert 3 * (Digit(dir) * Pow3(|dirs| - 1)) == Digit(dir) * Pow3(|dirs|);
    }
  }

  lemma {:induction false} EncodeBelow(dirs: seq<int>)
    requires Directions(dirs)
    ensures Encode(dirs) < Pow3(|dirs|)
  {
    if dirs != [] { EncodeBelow(dirs[1..]); }
  }

  /** Every number with as many ternary digits is the id of a direction. */
  lemma {:induction false} EncodeDecode(i: nat, dim: nat)
    requires i < Pow3(dim)
    ensures |Decode(i, dim)| == dim && Directions(Decode(i, dim)) && Encode(Decode(i, dim)) == i
  {
    if dim > 0 {
      EncodeDecode(i / 3, dim - 1);
      assert Decode(i, dim)[1..] == Decode(i / 3, dim - 1);
    }
  }

  /** Along each axis, what a step forward (right, bottom, back) and a step backward (left, top,
      front) add to the id. */
  lemma IdOfSteps(dirs: seq<int>)
    requires Directions(dirs) && 2 <= |dirs| <= 3
    ensures Encode(dirs) == (if dirs[0] == 1 then 1 else if dirs[0] == -1 then 2 else 0)
                            + (if dirs[1] == 1 then 3 else if dirs[1] == -1 then 6 else 0)
                            + (if |dirs| < 3 then 0 else if dirs[2] == 1 then 9 else if dirs[2] == -1 then 18 else 0)
  {
    assert Encode(dirs[1..]) == Digit(dirs[1]) + 3 * Encode(dirs[1..][1..]);
    if |dirs| == 3 { assert dirs[1..][1..] == [dirs[2]] && Encode([dirs[2]]) == Digit(dirs[2]) + 3 * Encode([]); }
  }
}
