/** Cartesian process topologies, after section 7.5.5 of MPI-3.1: ranks in row-major order,
    coordinates that wrap around in periodic dimensions and must be in range elsewhere. */
module Cartesian {
  import opened Arithmetic
  import opened Extents

  lemma BelowProduct(c: nat, d: nat, p: nat, rest: nat)
    requires c < d && rest < p
    ensures c * p + rest < d * p
  {
    TimesMonotone(c + 1, d, p);
    assert (c + 1) * p == c * p + p;
  }

  lemma SplitRank(r: nat, d: nat, p: nat)
    requires r < d * p
    ensures p > 0 && r / p < d && r % p < p && r / p * p + r % p == r
  {
    assert p > 0;
    QuotientBelow(r, d, p);
  }

  function RowMajor(dims: seq<nat>, c: seq<int>): (r: nat)
    requires InRange(dims, c)
    ensures r < Product(dims)
  {
    if dims == [] then 0
    else
      var rest := RowMajor(dims[1..], c[1..]);
      BelowProduct(c[0], dims[0], Product(dims[1..]), rest);
      c[0] * Product(dims[1..]) + rest
  }

  function FromRowMajor(dims: seq<nat>, r: nat): (c: seq<int>)
    requires r < Product(dims)
    ensures InRange(dims, c)
  {
    if dims == [] then []
    else
      var p := Product(dims[1..]);
      SplitRank(r, dims[0], p);
      var rest := FromRowMajor(dims[1..], r % p);
      InRangeCons(dims, r / p, rest);
      [r / p] + rest
  }

  datatype Topology = Topology(dims: seq<nat>, periodic: seq<bool>) {
    /** Two or three dimensions, at least one process along each. */
    predicate Ok() {
      && 2 <= |dims| <= 3 && |periodic| == |dims|
      && forall j :: 0 <= j < |dims| ==> 1 <= dims[j]
    }

    predicate Covers(c: seq<int>) {
      InRange(dims, c)
    }

    /** What the rank inquiry accepts. */
    predicate Legal(c: seq<int>) {
      |c| == |dims| && |periodic| == |dims| && forall j :: 0 <= j < |dims| ==> periodic[j] || 0 <= c[j] < dims[j]
    }

    /** Coordinates taken modulo the extents. */
    function Wrapped(c: seq<int>): (w: seq<int>)
      requires Ok() && |c| == |dims|
      ensures Covers(w)
      ensures Covers(c) ==> w == c
    {
      seq(|c|, j requires 0 <= j < |c| => Remainder(c[j], dims[j]))
    }

    function Size(): nat {
      Product(dims)
    }

    /** `MPI_Cart_rank` */
    function Rank(c: seq<int>): (r: nat)
      requires Ok() && Legal(c)
      ensures r < Size()
    {
      RowMajor(dims, Wrapped(c))
    }

    /** `MPI_Cart_coords` */
    function Coords(r: nat): (c: seq<int>)
      requires Ok() && r < Size()
      ensures Covers(c)
    {
      FromRowMajor(dims, r)
    }
  }

  lemma {:induction false} RankOfCoords(dims: seq<nat>, r: nat)
    requires r < Product(dims)
    ensures RowMajor(dims, FromRowMajor(dims, r)) == r
  {
    if dims != [] {
      var p := Product(dims[1..]);
      SplitRank(r, dims[0], p);
      RankOfCoords(dims[1..], r % p);
      assert FromRowMajor(dims, r)[1..] == FromRowMajor(dims[1..], r % p);
    }
  }

  lemma {:induction false} CoordsOfRank(dims: seq<nat>, c: seq<int>)
    requires InRange(dims, c)
    ensures FromRowMajor(dims, RowMajor(dims, c)) == c
  {
    if dims != [] {
      var p, rest := Product(dims[1..]), RowMajor(dims[1..], c[1..]);
      CoordsOfRank(dims[1..], c[1..]);
      DivModUnique(RowMajor(dims, c), p, c[0], rest);
      assert c == [c[0]] + c[1..];
    }
  }

  /** Ranks are row-major: the first process has rank 0, ... */
  lemma {:induction false} FirstRank(dims: seq<nat>, c: seq<int>)
    requires InRange(dims, c) && forall d :: 0 <= d < |c| ==> c[d] == 0
    ensures RowMajor(dims, c) == 0
  {
    if dims != [] { FirstRank(dims[1..], c[1..]); }
  }

  /** ... and a step along a dimension passes as many ranks as the later dimensions have. */
  lemma {:induction false} RankStep(dims: seq<nat>, c: seq<int>, d: nat)
    requires InRange(dims, c) && d < |dims| && c[d] + 1 < dims[d]
    ensures RowMajor(dims, c[d := c[d] + 1]) == RowMajor(dims, c) + Product(dims[d + 1..])
  {
    var next := c[d := c[d] + 1];
    var p := Product(dims[1..]);
    if d == 0 {
      assert next[1..] == c[1..] && (c[0] + 1) * p == c[0] * p + p;
    } else {
      RankStep(dims[1..], c[1..], d - 1);
      assert next[1..] == c[1..][d - 1 := c[d] + 1] && dims[1..][d..] == dims[d + 1..];
    }
  }
}

/** The communicator with a sliding window: every rank shifts its logical y coordinate by a
    common offset and keeps the ranks of its neighbours, one for each direction. */
module Communicator {
  import opened Arithmetic
  import opened Cartesian
  import opened ExchangeTypes
  import opened Extents

  // ---------------------------------------------------------------- modular arithmetic

  /** The remainder of a division that truncates toward zero. */
  function Rem(a: int, b: int): int
    requires b > 0
  {
    if a >= 0 then a % b else -((-a) % b)
  }

  // ---------------------------------------------------------------- directions

  /** `Mask::containsExchangeType` of the mask for the single direction `i`. */
  predicate Contains(i: nat, ex: nat) {
    if ex >= 3 then Contains(i / 3, ex / 3) else i % 3 == ex
  }

  /** `Mask::getMirroredExchangeType` */
  function Mirror(i: nat): nat {
    (if Contains(i, RIGHT) then LEFT else 0) + (if Contains(i, LEFT) then RIGHT else 0)
    + (if Contains(i, BOTTOM) then TOP else 0) + (if Contains(i, TOP) then BOTTOM else 0)
    + (if Contains(i, FRONT) then BACK else 0) + (if Contains(i, BACK) then FRONT else 0)
  }

  /** How far direction `i` goes along an axis. */
  function Step(i: nat, axis: nat): int
    requires axis < 3
  {
    var plus := [RIGHT, BOTTOM, BACK][axis];
    var minus := [LEFT, TOP, FRONT][axis];
    (if Contains(i, plus) then 1 else 0) - (if Contains(i, minus) then 1 else 0)
  }

  /** Number of directions, the direction "here" included: 3 to the power of the dimension. */
  function Exchanges(dim: nat): int {
    -12 * dim + 6 * dim * dim + 9
  }

  /** A direction is written in ternary, one digit per axis. */
  lemma DirectionDigits(i: nat)
    ensures Contains(i, RIGHT) == (i % 3 == 1) && Contains(i, LEFT) == (i % 3 == 2)
    ensures Contains(i, BOTTOM) == (i / 3 % 3 == 1) && Contains(i, TOP) == (i / 3 % 3 == 2)
    ensures Contains(i, BACK) == (i / 9 % 3 == 1) && Contains(i, FRONT) == (i / 9 % 3 == 2)
  {
    assert Contains(i, BACK) == Contains(i / 3, 3) && Contains(i / 3, 3) == Contains(i / 3 / 3, 1);
    assert Contains(i, FRONT) == Contains(i / 3, 6) && Contains(i / 3, 6) == Contains(i / 3 / 3, 2);
    assert i / 3 / 3 == i / 9;
  }

  /** The way a ternary digit points along its axis. */
  function Toward(digit: nat): int
    requires digit < 3
  {
    if digit == 2 then -1 else digit
  }

  function Opposite(digit: nat): nat
    requires digit < 3
  {
    if digit == 0 then 0 else 3 - digit
  }

  lemma MirrorDigits(i: nat, x: nat, y: nat, z: nat)
    requires x < 3 && y < 3 && z < 3 && i == x + 3 * y + 9 * z
    ensures Mirror(i) == Opposite(x) + 3 * Opposite(y) + 9 * Opposite(z)
    ensures Step(i, 0) == Toward(x) && Step(i, 1) == Toward(y) && Step(i, 2) == Toward(z)
  {
    DirectionDigits(i);
    assert i % 3 == x && i / 3 % 3 == y && i / 9 % 3 == z;
  }

  lemma MirrorIsOpposite(i: nat, dim: nat)
    requires 2 <= dim <= 3 && 1 <= i < Exchanges(dim)
    ensures 1 <= Mirror(i) < Exchanges(dim) && Mirror(Mirror(i)) == i
    ensures forall axis: nat :: axis < 3 ==> Step(Mirror(i), axis) == -Step(i, axis)
  {
    var x, y, z := i % 3, i / 3 % 3, i / 9;
    MirrorDigits(i, x, y, z);
    MirrorDigits(Mirror(i), Opposite(x), Opposite(y), Opposite(z));
    forall axis: nat | axis < 3 ensures Step(Mirror(i), axis) == -Step(i, axis) {
      if axis == 0 {} else if axis == 1 {} else {}
    }
  }

  lemma ThreeDigits(e: nat, a: nat, b: nat, c: nat)
    requires a < 3 && b < 3 && c < 3 && e == a + 3 * b + 9 * c
    ensures e % 3 == a && e / 3 % 3 == b && e / 9 % 3 == c
  {
  }

  /** An exchange id leads where its direction does. */
  lemma ExchangeNamesNeighbour(dirs: seq<int>, axis: nat)
    requires Directions(dirs) && 2 <= |dirs| <= 3 && axis < |dirs|
    ensures Step(Encode(dirs), axis) == dirs[axis]
  {
    var e := Encode(dirs);
    var a, b, c := Digit(dirs[0]), Digit(dirs[1]), if |dirs| == 3 then Digit(dirs[2]) else 0;
    assert e == a + 3 * Encode(dirs[1..]);
    assert Encode(dirs[1..]) == b + 3 * Encode(dirs[1..][1..]);
    assert dirs[1..][1..] == dirs[2..];
    assert Encode(dirs[2..]) == c by {
      if |dirs| == 3 { assert dirs[2..][1..] == []; }
    }
    ThreeDigits(e, a, b, c);
    DirectionDigits(e);
    if axis == 0 {
      assert Step(e, 0) == (if a == 1 then 1 else 0) - (if a == 2 then 1 else 0);
    } else if axis == 1 {
      assert Step(e, 1) == (if b == 1 then 1 else 0) - (if b == 2 then 1 else 0);
    } else {
      assert Step(e, 2) == (if c == 1 then 1 else 0) - (if c == 2 then 1 else 0);
    }
  }

  /** The ids below `Exchanges` are those of all directions, each of one. */
  lemma ExchangeIds(dirs: seq<int>)
    requires Directions(dirs) && 2 <= |dirs| <= 3
    ensures Exchanges(|dirs|) == Pow3(|dirs|) == if |dirs| == 2 then 9 else 27
    ensures Encode(dirs) < Exchanges(|dirs|) && (Encode(dirs) == 0 <==> Here(dirs))
    ensures forall other :: Directions(other) && |other| == |dirs| && Encode(other) == Encode(dirs) ==> other == dirs
  {
    EncodeBelow(dirs);
    ZeroIsHere(dirs);
    DecodeEncode(dirs);
    assert Pow3(2) == 3 * Pow3(1) && Pow3(1) == 3 * Pow3(0);
    assert Pow3(3) == 3 * Pow3(2);
    forall other | Directions(other) && |other| == |dirs| && Encode(other) == Encode(dirs) ensures other == dirs {
      DecodeEncode(other);
    }
  }

  // ---------------------------------------------------------------- logical coordinates

  /** Where rank `rank` is in the window that has moved by `-y` processes. */
  function LogicalCoords(t: Topology, rank: nat, y: int): (c: seq<int>)
    requires t.Ok() && rank < t.Size()
    ensures t.Covers(c)
  {
    var c := t.Coords(rank);
    c[1 := (c[1] + y) % t.dims[1]]
  }

  /** The rank at logical coordinates `c`. */
  function RankAt(t: Topology, c: seq<int>, y: int): (r: nat)
    requires t.Ok() && t.Legal(c)
    ensures r < t.Size()
  {
    t.Rank(c[1 := (c[1] - y) % t.dims[1]])
  }

  lemma LogicalOfRankAt(t: Topology, c: seq<int>, y: int)
    requires t.Ok() && t.Legal(c)
    ensures LogicalCoords(t, RankAt(t, c, y), y) == t.Wrapped(c)
  {
    var d := t.dims[1];
    var p := c[1 := (c[1] - y) % d];
    CoordsOfRank(t.dims, t.Wrapped(p));
    ModSmall((c[1] - y) % d, d);
    ModAdd(c[1] - y, y, d);
    assert LogicalCoords(t, RankAt(t, c, y), y) == t.Wrapped(p)[1 := (t.Wrapped(p)[1] + y) % d];
  }

  lemma WrapBack(x: int, y: int, d: nat)
    requires 0 <= x < d
    ensures ((x + y) % d - y) % d == x
  {
    ModAdd(x + y, -y, d);
    ModSmall(x, d);
  }

  lemma BackToCoords(t: Topology, rank: nat, y: int)
    requires t.Ok() && rank < t.Size()
    ensures var l := LogicalCoords(t, rank, y); l[1 := (l[1] - y) % t.dims[1]] == t.Coords(rank)
  {
    WrapBack(t.Coords(rank)[1], y, t.dims[1]);
  }

  lemma RankAtOfLogical(t: Topology, rank: nat, y: int)
    requires t.Ok() && rank < t.Size()
    ensures RankAt(t, LogicalCoords(t, rank, y), y) == rank
  {
    BackToCoords(t, rank, y);
    assert RankAt(t, LogicalCoords(t, rank, y), y) == t.Rank(t.Coords(rank));
    assert t.Wrapped(t.Coords(rank)) == t.Coords(rank);
    RankOfCoords(t.dims, rank);
  }

  // ---------------------------------------------------------------- neighbours

  function Displaced(c: seq<int>, i: nat): seq<int>
    requires |c| <= 3
  {
    seq(|c|, j requires 0 <= j < |c| => c[j] + Step(i, j))
  }

  /** The neighbour table: the rank in direction `i`, or -1 beyond a border. */
  function Neighbour(t: Topology, rank: nat, y: int, i: nat): int
    requires t.Ok() && rank < t.Size()
  {
    var m := Displaced(LogicalCoords(t, rank, y), i);
    if t.Legal(m) then RankAt(t, m, y) else -1
  }

  /** The place one step into a direction. */
  function Away(c: seq<int>, dirs: seq<int>): seq<int>
    requires |dirs| == |c|
  {
    seq(|c|, j requires 0 <= j < |c| => c[j] + dirs[j])
  }

  lemma DisplacedIsAway(c: seq<int>, dirs: seq<int>, i: nat)
    requires Directions(dirs) && 2 <= |dirs| <= 3 && |c| == |dirs| && i == Encode(dirs)
    ensures Displaced(c, i) == Away(c, dirs)
  {
    forall j: nat | j < |dirs| ensures Step(i, j) == dirs[j] { ExchangeNamesNeighbour(dirs, j); }
  }

  /** `r` is the rank that the window shows one step away from logical coordinates `c`, or -1 if
      that is beyond a border. */
  ghost predicate OneStepAway(t: Topology, y: int, c: seq<int>, dirs: seq<int>, r: int)
    requires t.Ok() && t.Covers(c) && |dirs| == |t.dims|
  {
    if t.Legal(Away(c, dirs)) then 0 <= r < t.Size() && LogicalCoords(t, r, y) == t.Wrapped(Away(c, dirs))
    else r == -1
  }

  /** The neighbour under a direction's exchange id is one step away in this direction. */
  lemma NeighbourIsAway(t: Topology, rank: nat, y: int, dirs: seq<int>)
    requires t.Ok() && rank < t.Size() && Directions(dirs) && |dirs| == |t.dims|
    ensures OneStepAway(t, y, LogicalCoords(t, rank, y), dirs, Neighbour(t, rank, y, Encode(dirs)))
  {
    var c := LogicalCoords(t, rank, y);
    DisplacedIsAway(c, dirs, Encode(dirs));
    if t.Legal(Away(c, dirs)) { LogicalOfRankAt(t, Away(c, dirs), y); }
  }

  /** There and back again: the opposite direction undoes a step, around a periodic border too. */
  lemma StepBack(t: Topology, c: seq<int>, i: nat)
    requires t.Ok() && t.Covers(c) && 1 <= i < Exchanges(|t.dims|) && t.Legal(Displaced(c, i))
    ensures t.Legal(Displaced(t.Wrapped(Displaced(c, i)), Mirror(i)))
    ensures t.Wrapped(Displaced(t.Wrapped(Displaced(c, i)), Mirror(i))) == c
  {
    MirrorIsOpposite(i, |t.dims|);
    var m := Displaced(c, i);
    var w := t.Wrapped(m);
    var back := Displaced(w, Mirror(i));
    forall j | 0 <= j < |c| ensures back[j] % t.dims[j] == c[j] && (t.periodic[j] || back[j] == c[j]) {
      assert back[j] == m[j] % t.dims[j] - Step(i, j);
      ModAdd(m[j], -Step(i, j), t.dims[j]);
      ModSmall(c[j], t.dims[j]);
      if !t.periodic[j] { ModSmall(m[j], t.dims[j]); }
    }
    assert t.Wrapped(back) == c;
  }

  lemma SameRank(t: Topology, a: seq<int>, b: seq<int>, y: int)
    requires t.Ok() && t.Legal(a) && t.Covers(b) && t.Wrapped(a) == b
    ensures RankAt(t, a, y) == RankAt(t, b, y)
  {
    var d := t.dims[1];
    ModAdd(a[1], -y, d);
    assert b[1] == a[1] % d;
    var p, q := a[1 := (a[1] - y) % d], b[1 := (b[1] - y) % d];
    assert t.Wrapped(p) == t.Wrapped(q) by {
      forall j | 0 <= j < |a| ensures p[j] % t.dims[j] == q[j] % t.dims[j] {
        if j != 1 {
          assert b[j] == a[j] % t.dims[j];
          ModSmall(b[j], t.dims[j]);
        }
      }
    }
  }

  /** Whatever the grid, its borders and the position of the window: the neighbour's table
      names this rank in the opposite direction. */
  lemma NeighboursAreMutual(t: Topology, rank: nat, y: int, i: nat)
    requires t.Ok() && rank < t.Size() && 1 <= i < Exchanges(|t.dims|)
    requires Neighbour(t, rank, y, i) != -1
    ensures var q := Neighbour(t, rank, y, i);
            0 <= q < t.Size() && Neighbour(t, q, y, Mirror(i)) == rank
  {
    var c := LogicalCoords(t, rank, y);
    var m := Displaced(c, i);
    LogicalOfRankAt(t, m, y);
    StepBack(t, c, i);
    var back := Displaced(t.Wrapped(m), Mirror(i));
    SameRank(t, back, c, y);
    RankAtOfLogical(t, rank, y);
  }

  /** Direction `i` leads out of the grid along axis `j`. */
  predicate AtBorder(t: Topology, c: seq<int>, i: nat, j: nat)
    requires j < |t.dims| && j < |c| && j < 3
  {
    (c[j] == 0 && Step(i, j) == -1) || (c[j] + 1 == t.dims[j] && Step(i, j) == 1)
  }

  /** There is no neighbour exactly at a border that is not periodic. */
  lemma NoNeighbourIff(t: Topology, rank: nat, y: int, i: nat)
    requires t.Ok() && rank < t.Size()
    ensures Neighbour(t, rank, y, i) == -1 <==>
            exists j :: 0 <= j < |t.dims| && !t.periodic[j] && AtBorder(t, LogicalCoords(t, rank, y), i, j)
  {
    var c := LogicalCoords(t, rank, y);
    var m := Displaced(c, i);
    if !t.Legal(m) {
      var j :| 0 <= j < |t.dims| && !(t.periodic[j] || 0 <= m[j] < t.dims[j]);
      assert AtBorder(t, c, i, j);
    }
  }

  // ---------------------------------------------------------------- slides

  predicate OffsetOk(t: Topology, y: int)
    requires t.Ok()
  {
    0 < y + t.dims[1] && y <= 0
  }

  function NextOffset(t: Topology, y: int): (y': int)
    requires t.Ok() && OffsetOk(t, y)
    ensures OffsetOk(t, y')
  {
    if y - 1 + t.dims[1] == 0 then 0 else y - 1
  }

  /** The offset after `k` slides. */
  function OffsetAfter(t: Topology, y: int, k: nat): (y': int)
    requires t.Ok() && OffsetOk(t, y)
    ensures OffsetOk(t, y')
  {
    if k == 0 then y else NextOffset(t, OffsetAfter(t, y, k - 1))
  }

  lemma {:induction false} OffsetClosedForm(t: Topology, y: int, k: nat)
    requires t.Ok() && OffsetOk(t, y)
    ensures OffsetAfter(t, y, k) == -((k - y) % t.dims[1])
  {
    var d := t.dims[1];
    if k == 0 {
      ModSmall(-y, d);
    } else {
      OffsetClosedForm(t, y, k - 1);
      var x := (k - 1 - y) % d;
      ModAdd(k - 1 - y, 1, d);
      if x + 1 == d { DivModUnique(d, d, 1, 0); } else { ModSmall(x + 1, d); }
    }
  }

  /** Only the number of slides modulo the number of processes along y matters. */
  lemma OffsetPeriod(t: Topology, y: int, k: nat)
    requires t.Ok() && OffsetOk(t, y)
    ensures OffsetAfter(t, y, k % t.dims[1]) == OffsetAfter(t, y, k)
  {
    OffsetClosedForm(t, y, k);
    OffsetClosedForm(t, y, k % t.dims[1]);
    ModAdd(k, -y, t.dims[1]);
  }

  /** What `slide` returns: this rank is now the last one along y. */
  predicate AtFront(t: Topology, rank: nat, y: int)
    requires t.Ok() && rank < t.Size()
  {
    LogicalCoords(t, rank, y)[1] == t.dims[1] - 1
  }

  /** A slide returns true on exactly one y-plane of ranks: the one that was first. */
  lemma OnePlanePerSlide(t: Topology, rank: nat, y: int)
    requires t.Ok() && OffsetOk(t, y) && rank < t.Size()
    ensures AtFront(t, rank, NextOffset(t, y)) <==> t.Coords(rank)[1] == -y
    ensures t.Coords(rank)[1] == -y <==> LogicalCoords(t, rank, y)[1] == 0
  {
    var d := t.dims[1];
    var c := t.Coords(rank)[1];
    var y' := NextOffset(t, y);
    if c + y >= 0 { ModSmall(c + y, d); } else { DivModUnique(c + y, d, -1, c + y + d); }
    if y' == 0 {
      ModSmall(c, d);
    } else if c + y - 1 >= 0 {
      ModSmall(c + y - 1, d);
    } else {
      DivModUnique(c + y - 1, d, -1, c + y - 1 + d);
    }
  }

  /** The `k`-th slide from offset `y` on returns true. */
  predicate SlideReturns(t: Topology, rank: nat, y: int, k: nat)
    requires t.Ok() && OffsetOk(t, y) && rank < t.Size()
  {
    AtFront(t, rank, OffsetAfter(t, y, k))
  }

  /** Over any round of slides, each rank is told exactly once that it is at the front. */
  lemma OncePerRound(t: Topology, rank: nat, y: int)
    requires t.Ok() && OffsetOk(t, y) && rank < t.Size()
    ensures var k := LogicalCoords(t, rank, y)[1] + 1;
            && 1 <= k <= t.dims[1]
            && forall j: nat :: 1 <= j <= t.dims[1] ==> (SlideReturns(t, rank, y, j) <==> j == k)
  {
    var d := t.dims[1];
    var c := t.Coords(rank)[1];
    var k := (c + y) % d + 1;
    forall j: nat | 1 <= j <= d ensures SlideReturns(t, rank, y, j) <==> j == k {
      OnePlanePerSlide(t, rank, OffsetAfter(t, y, j - 1));
      OffsetClosedForm(t, y, j - 1);
      ModAdd(j - 1 - y, y, d);
      ModSmall(j - 1, d);
      ModAdd(c + y, -y, d);
      ModSmall(c, d);
    }
  }

  /** `setStateAfterSlides` and as many single slides return the same, except on the front
      plane when whole rounds of slides are skipped. */
  lemma SameReturnIff(t: Topology, rank: nat, y: int, n: nat)
    requires t.Ok() && OffsetOk(t, y) && rank < t.Size()
    ensures var skipped := n % t.dims[1] != 0 && AtFront(t, rank, OffsetAfter(t, y, n));
            var single := n != 0 && AtFront(t, rank, OffsetAfter(t, y, n));
            skipped == single <==> n == 0 || n % t.dims[1] != 0 || !AtFront(t, rank, y)
  {
    OffsetPeriod(t, y, n);
    if n == 0 { ModSmall(0, t.dims[1]); }
  }

  /** After one whole round on a single process along y, the slide returned true and the jump does not. */
  lemma WholeRoundDiffers()
    ensures var t := Topology([1, 1], [false, false]);
            && t.Ok() && 0 < t.Size() && OffsetOk(t, 0) && SlideReturns(t, 0, 0, 1) && 1 % t.dims[1] == 0
  {
    var t := Topology([1, 1], [false, false]);
    assert t.dims[1..] == [1] && t.dims[1..][1..] == [];
    assert Product([1]) == 1 * Product([]);
    assert t.Coords(0)[1] == 0;
  }

  // ---------------------------------------------------------------- all ranks

  /** A rank's whole neighbour table, by direction; the entry for "here" is not used. */
  function Table(t: Topology, rank: nat, y: int): (table: seq<int>)
    requires t.Ok() && rank < t.Size()
    ensures |table| == Exchanges(|t.dims|)
  {
    seq(Exchanges(|t.dims|), i requires 0 <= i < Exchanges(|t.dims|) => Neighbour(t, rank, y, i))
  }

  /** What one rank keeps: its offset, its logical coordinates and its neighbours. */
  datatype Local = Local(yoffset: int, coordinates: seq<int>, ranks: seq<int>)

  function LocalAt(t: Topology, rank: nat, y: int): Local
    requires t.Ok() && rank < t.Size()
  {
    Local(y, LogicalCoords(t, rank, y), Table(t, rank, y))
  }

  /** All ranks after initialization and `k` slides in step. */
  ghost function World(t: Topology, k: nat): (w: seq<Local>)
    requires t.Ok()
    ensures |w| == t.Size() && forall r :: 0 <= r < |w| ==> OffsetOk(t, w[r].yoffset)
  {
    if k == 0 then seq(t.Size(), r requires 0 <= r < t.Size() => LocalAt(t, r, 0))
    else
      var w := World(t, k - 1);
      seq(t.Size(), r requires 0 <= r < t.Size() => LocalAt(t, r, NextOffset(t, w[r].yoffset)))
  }

  lemma {:induction false} WorldInStep(t: Topology, k: nat, r: nat)
    requires t.Ok() && r < t.Size()
    ensures World(t, k)[r] == LocalAt(t, r, OffsetAfter(t, 0, k))
  {
    if k > 0 { WorldInStep(t, k - 1, r); }
  }

  /** Rank `r`'s table entry for direction `i` in the world after `k` slides. */
  ghost function Entry(t: Topology, k: nat, r: nat, i: nat): int
    requires t.Ok() && r < t.Size() && 1 <= i < Exchanges(|t.dims|)
  {
    var ranks := World(t, k)[r].ranks;
    if |ranks| == Exchanges(|t.dims|) then ranks[i] else -1
  }

  lemma EntryIsNeighbour(t: Topology, k: nat, r: nat, i: nat)
    requires t.Ok() && r < t.Size() && 1 <= i < Exchanges(|t.dims|)
    ensures Entry(t, k, r, i) == Neighbour(t, r, OffsetAfter(t, 0, k), i)
  {
    WorldInStep(t, k, r);
  }

  /** In every world that slides lead to, the neighbour tables of all ranks agree. */
  lemma WorldIsSymmetric(t: Topology, k: nat, r: nat, i: nat)
    requires t.Ok() && r < t.Size() && 1 <= i < Exchanges(|t.dims|)
    requires Entry(t, k, r, i) != -1
    ensures 0 <= Entry(t, k, r, i) < t.Size() && 1 <= Mirror(i) < Exchanges(|t.dims|)
    ensures Entry(t, k, Entry(t, k, r, i), Mirror(i)) == r
  {
    MirrorIsOpposite(i, |t.dims|);
    EntryIsNeighbour(t, k, r, i);
    NeighboursAreMutual(t, r, OffsetAfter(t, 0, k), i);
    EntryIsNeighbour(t, k, Entry(t, k, r, i), Mirror(i));
  }

  /** In every such world a table has an entry for every direction: the rank one step away. */
  lemma EntriesByDirection(t: Topology, k: nat, r: nat, dirs: seq<int>)
    requires t.Ok() && r < t.Size() && Directions(dirs) && |dirs| == |t.dims| && !Here(dirs)
    ensures 1 <= Encode(dirs) < Exchanges(|t.dims|) && t.Covers(World(t, k)[r].coordinates)
    ensures OneStepAway(t, World(t, k)[r].yoffset, World(t, k)[r].coordinates, dirs, Entry(t, k, r, Encode(dirs)))
  {
    ExchangeIds(dirs);
    WorldInStep(t, k, r);
    EntryIsNeighbour(t, k, r, Encode(dirs));
    NeighbourIsAway(t, r, OffsetAfter(t, 0, k), dirs);
  }

  /** In every such world an entry is missing exactly at a border that is not periodic, by the
      coordinates the rank holds. */
  lemma MissingOnlyAtBorders(t: Topology, k: nat, r: nat, i: nat)
    requires t.Ok() && r < t.Size() && 1 <= i < Exchanges(|t.dims|)
    ensures var c := World(t, k)[r].coordinates;
            && |c| == |t.dims|
            && (Entry(t, k, r, i) == -1 <==> exists j :: 0 <= j < |t.dims| && !t.periodic[j] && AtBorder(t, c, i, j))
  {
    WorldInStep(t, k, r);
    EntryIsNeighbour(t, k, r, i);
    NoNeighbourIff(t, r, OffsetAfter(t, 0, k), i);
  }

  /** Truncation toward zero leaves at most one wrap to be undone. */
  lemma OffsetWraps(c: int, y: int, d: nat)
    requires 0 <= c < d && 0 < y + d && y <= 0
    ensures d == 1 ==> c == (c + y) % d
    ensures d > 1 ==> (Rem(c + y, d) == (c + y) % d && 0 <= Rem(c + y, d)) || Rem(c + y, d) + d == (c + y) % d
  {
    if c + y >= 0 {
      ModSmall(c + y, d);
    } else {
      ModSmall(-(c + y), d);
      DivModUnique(c + y, d, -1, c + y + d);
    }
  }

  /** The coordinates of a lookup are legal, also when the remainder is negative, and name the
      rank at the logical coordinates `m`. */
  lemma LookupIsLegal(t: Topology, m: seq<int>, y: int)
    requires t.Ok() && OffsetOk(t, y) && t.Legal(m) && -1 <= m[1] <= t.dims[1]
    ensures var p := if t.dims[1] > 1 then m[1 := Rem(m[1] - y, t.dims[1])] else m;
            t.Legal(p) && t.Rank(p) == RankAt(t, m, y)
  {
    var d := t.dims[1];
    var p := if d > 1 then m[1 := Rem(m[1] - y, d)] else m;
    var q := m[1 := (m[1] - y) % d];
    if d > 1 && m[1] - y < 0 {
      ModSmall(1, d);
      DivModUnique(-1, d, -1, d - 1);
      ModSmall(d - 1, d);
    } else if d > 1 {
      ModSmall((m[1] - y) % d, d);
    }
    assert t.Wrapped(p) == t.Wrapped(q);
  }

  /** The coordinates one step into direction `i`. */
  method Shift(coords: seq<int>, i: nat) returns (m: seq<int>)
    requires 2 <= |coords| <= 3
    ensures m == Displaced(coords, i)
  {
    var x, y := coords[0], coords[1];
    if Contains(i, LEFT) { x := x - 1; }
    if Contains(i, RIGHT) { x := x + 1; }
    assert x == coords[0] + Step(i, 0);
    if Contains(i, TOP) { y := y - 1; }
    if Contains(i, BOTTOM) { y := y + 1; }
    assert y == coords[1] + Step(i, 1);
    m := [x, y];
    if |coords| == 3 {
      var z := coords[2];
      if Contains(i, BACK) { z := z + 1; }
      if Contains(i, FRONT) { z := z - 1; }
      assert z == coords[2] + Step(i, 2);
      m := [x, y, z];
    }
  }

  method InsideBorders(t: Topology, m: seq<int>) returns (ok: bool)
    requires t.Ok() && |m| == |t.dims|
    ensures ok <==> t.Legal(m)
  {
    ok := true;
    for j := 0 to |t.dims|
      invariant ok <==> forall a :: 0 <= a < j ==> t.periodic[a] || 0 <= m[a] < t.dims[a]
    {
      if !t.periodic[j] && (m[j] < 0 || m[j] >= t.dims[j]) { ok := false; }
    }
  }

  /** The rank in direction `i`: every lookup is legal, and none is made beyond a border. */
  method FindNeighbour(t: Topology, rank: nat, yoffset: int, coordinates: seq<int>, i: nat) returns (r: int)
    requires t.Ok() && rank < t.Size() && OffsetOk(t, yoffset)
    requires coordinates == LogicalCoords(t, rank, yoffset)
    ensures r == Neighbour(t, rank, yoffset, i)
  {
    var m := Shift(coordinates, i);
    var ok := InsideBorders(t, m);
    if !ok {
      return -1;
    }
    LookupIsLegal(t, m, yoffset);
    if t.dims[1] > 1 {
      m := m[1 := Rem(m[1] - yoffset, t.dims[1])];
    }
    r := t.Rank(m);
  }

  /** One rank's communicator. */
  class CommunicatorMPI {
    const t: Topology
    const rank: nat
    var yoffset: int
    var coordinates: seq<int>
    const ranks: array<int>
    var communicationMask: set<nat>

    ghost predicate Valid()
      reads this
    {
      t.Ok() && rank < t.Size() && ranks.Length == 27 && OffsetOk(t, yoffset)
    }

    /** The neighbours below direction `n` are those of the table, and the mask has just the
        directions that have one. */
    ghost predicate TableUpTo(table: seq<int>, n: int)
      requires n <= |table| <= ranks.Length
      reads this, ranks
    {
      && (forall i :: 1 <= i < n ==> ranks[i] == table[i])
      && (forall i: nat :: i in communicationMask <==> 1 <= i < n && ranks[i] != -1)
    }

    /** Coordinates, neighbour table and mask belong to the current offset. */
    ghost predicate Coherent()
      requires Valid()
      reads this, ranks
    {
      && coordinates == LogicalCoords(t, rank, yoffset)
      && TableUpTo(Table(t, rank, yoffset), Exchanges(|t.dims|))
    }

    /** In the table and in the mask, every direction is represented by the rank one step away,
        or by none beyond a border. */
    ghost predicate ByDirection()
      requires Valid()
      reads this, ranks
    {
      && t.Covers(coordinates)
      && (forall i: nat :: i in communicationMask ==> 1 <= i < Exchanges(|t.dims|))
      && forall dirs :: Directions(dirs) && |dirs| == |t.dims| && !Here(dirs) ==>
           && 1 <= Encode(dirs) < ranks.Length
           && OneStepAway(t, yoffset, coordinates, dirs, ranks[Encode(dirs)])
           && (Encode(dirs) in communicationMask <==> t.Legal(Away(coordinates, dirs)))
    }

    lemma CoherentByDirection()
      requires Valid() && Coherent()
      ensures ByDirection()
    {
      forall dirs | Directions(dirs) && |dirs| == |t.dims| && !Here(dirs)
        ensures 1 <= Encode(dirs) < ranks.Length && OneStepAway(t, yoffset, coordinates, dirs, ranks[Encode(dirs)])
        ensures Encode(dirs) in communicationMask <==> t.Legal(Away(coordinates, dirs))
      {
        ExchangeIds(dirs);
        NeighbourIsAway(t, rank, yoffset, dirs);
        assert ranks[Encode(dirs)] == Table(t, rank, yoffset)[Encode(dirs)];
      }
    }

    /** Stores the rank found in direction `i`. */
    method StoreNeighbour(i: nat, r: int, ghost table: seq<int>)
      requires 1 <= i < |table| <= ranks.Length && TableUpTo(table, i) && r == table[i]
      modifies this`communicationMask, ranks
      ensures TableUpTo(table, i + 1)
    {
      ranks[i] := r;
      if r != -1 {
        communicationMask := communicationMask + {i};
      }
    }

    /** The loop over all directions. */
    method UpdateNeighbours()
      requires Valid() && coordinates == LogicalCoords(t, rank, yoffset) && communicationMask == {}
      modifies this`communicationMask, ranks
      ensures Coherent() && ByDirection()
    {
      ghost var table := Table(t, rank, yoffset);
      for i: nat := 1 to Exchanges(|t.dims|)
        invariant TableUpTo(table, i)
      {
        var r := FindNeighbour(t, rank, yoffset, coordinates, i);
        StoreNeighbour(i, r, table);
      }
      CoherentByDirection();
    }

    method UpdateCoordinates()
      requires Valid()
      modifies this`coordinates, this`communicationMask, ranks
      ensures Valid() && Coherent() && ByDirection()
    {
      var d := t.dims[1];
      var coords := t.Coords(rank);
      ghost var c := coords[1];
      if d > 1 {
        coords := coords[1 := Rem(coords[1] + yoffset, d)];
      }
      OffsetWraps(c, yoffset, d);
      while coords[1] < 0
        invariant |coords| == |t.dims| && coords == t.Coords(rank)[1 := coords[1]]
        invariant coords[1] == (c + yoffset) % d || coords[1] + d == (c + yoffset) % d
        decreases -coords[1]
      {
        coords := coords[1 := coords[1] + d];
      }
      coordinates := coords;
      communicationMask := {};
      UpdateNeighbours();
    }

    constructor (t: Topology, rank: nat)
      requires t.Ok() && rank < t.Size()
      ensures Valid() && Coherent() && ByDirection() && this.t == t && this.rank == rank && yoffset == 0 && fresh(ranks)
    {
      this.t, this.rank, yoffset := t, rank, 0;
      coordinates, communicationMask := [], {};
      ranks := new int[27];
      new;
      UpdateCoordinates();
    }

    /** Slides the window by one process along y; true if this rank is the last one then. */
    method Slide() returns (last: bool)
      requires Valid()
      modifies this`yoffset, this`coordinates, this`communicationMask, ranks
      ensures Valid() && Coherent() && ByDirection() && yoffset == NextOffset(t, old(yoffset))
      ensures last <==> AtFront(t, rank, yoffset)
    {
      yoffset := yoffset - 1;
      if yoffset + t.dims[1] == 0 {
        yoffset := 0;
      }
      UpdateCoordinates();
      last := coordinates[1] == t.dims[1] - 1;
    }

    /** Jumps to the state that `numSlides` slides lead to. */
    method SetStateAfterSlides(numSlides: nat) returns (last: bool)
      requires Valid() && Coherent()
      modifies this`yoffset, this`coordinates, this`communicationMask, ranks
      ensures Valid() && Coherent() && yoffset == OffsetAfter(t, old(yoffset), numSlides)
      ensures last <==> numSlides % t.dims[1] != 0 && AtFront(t, rank, yoffset)
    {
      last := false;
      if numSlides == 0 {
        ModSmall(0, t.dims[1]);
        return;
      }
      ghost var start := yoffset;
      var n := numSlides % t.dims[1];
      for i := 0 to n
        invariant Valid() && Coherent() && yoffset == OffsetAfter(t, start, i)
        invariant last <==> i != 0 && AtFront(t, rank, yoffset)
      {
        last := Slide();
      }
      OffsetPeriod(t, start, numSlides);
    }
  }

  // ---------------------------------------------------------------- sliding in step

  /** A communicator holds what its rank keeps in the world. */
  ghost predicate Matches(c: CommunicatorMPI, x: Local)
    reads c, c.ranks
  {
    && c.Valid() && c.yoffset == x.yoffset && c.coordinates == x.coordinates
    && |x.ranks| == Exchanges(|c.t.dims|) && c.TableUpTo(x.ranks, |x.ranks|)
  }

  /** No two ranks share anything. */
  ghost predicate Separate(cs: seq<CommunicatorMPI>) {
    forall i, j :: 0 <= i < j < |cs| ==> cs[i] != cs[j] && cs[i].ranks != cs[j].ranks
  }

  ghost predicate IsWorld(cs: seq<CommunicatorMPI>, t: Topology, w: seq<Local>)
    reads cs, set c | c in cs :: c.ranks
  {
    && Separate(cs) && |cs| == |w|
    && forall r :: 0 <= r < |cs| ==> cs[r].t == t && cs[r].rank == r && Matches(cs[r], w[r])
  }

  lemma CoherentMatches(c: CommunicatorMPI, t: Topology, y: int)
    requires t.Ok() && c.t == t && c.Valid() && c.Coherent() && c.yoffset == y
    ensures Matches(c, LocalAt(t, c.rank, y))
  {
  }

  /** This rank is the last one along y. */
  ghost predicate InFront(t: Topology, x: Local) {
    |x.coordinates| >= 2 && |t.dims| >= 2 && x.coordinates[1] + 1 == t.dims[1]
  }

  /** What a rank keeps, before and after a slide. */
  ghost predicate SlidesTo(t: Topology, rank: nat, was: Local, next: Local) {
    && t.Ok() && rank < t.Size() && OffsetOk(t, was.yoffset)
    && next == LocalAt(t, rank, NextOffset(t, was.yoffset))
  }

  method SlideOne(c: CommunicatorMPI, ghost was: Local, ghost next: Local) returns (front: bool)
    requires SlidesTo(c.t, c.rank, was, next) && Matches(c, was)
    modifies c`yoffset, c`coordinates, c`communicationMask, c.ranks
    ensures Matches(c, next) && (front <==> InFront(c.t, next))
  {
    front := c.Slide();
    CoherentMatches(c, c.t, c.yoffset);
  }

  method SlideEach(cs: seq<CommunicatorMPI>, t: Topology, ghost was: seq<Local>, ghost next: seq<Local>)
    returns (last: seq<bool>)
    requires IsWorld(cs, t, was) && |next| == |was| && forall r :: 0 <= r < |cs| ==> SlidesTo(t, r, was[r], next[r])
    modifies cs, set c | c in cs :: c.ranks
    ensures IsWorld(cs, t, next)
    ensures |last| == |cs| && forall r :: 0 <= r < |cs| ==> (last[r] <==> InFront(t, next[r]))
  {
    last := [];
    for i := 0 to |cs|
      invariant |last| == i && forall r :: 0 <= r < i ==> (last[r] <==> InFront(t, next[r]))
      invariant forall r :: 0 <= r < i ==> Matches(cs[r], next[r])
      invariant forall r :: i <= r < |cs| ==> Matches(cs[r], was[r])
    {
      var front := SlideOne(cs[i], was[i], next[i]);
      last := last + [front];
    }
  }

  /** One slide on every rank: the objects go from one world to the next. */
  method SlideAll(cs: seq<CommunicatorMPI>, t: Topology, ghost k: nat) returns (last: seq<bool>)
    requires t.Ok() && IsWorld(cs, t, World(t, k))
    modifies cs, set c | c in cs :: c.ranks
    ensures IsWorld(cs, t, World(t, k + 1))
    ensures |last| == |cs| && forall r :: 0 <= r < |cs| ==> (last[r] <==> InFront(t, World(t, k + 1)[r]))
  {
    forall r | 0 <= r < |cs| ensures SlidesTo(t, r, World(t, k)[r], World(t, k + 1)[r]) {
      WorldInStep(t, k, r);
      WorldInStep(t, k + 1, r);
    }
    last := SlideEach(cs, t, World(t, k), World(t, k + 1));
  }

  method CreateOne(t: Topology, rank: nat) returns (c: CommunicatorMPI)
    requires t.Ok() && rank < t.Size()
    ensures fresh(c) && fresh(c.ranks) && c.t == t && c.rank == rank && Matches(c, LocalAt(t, rank, 0))
  {
    c := new CommunicatorMPI(t, rank);
    CoherentMatches(c, t, 0);
  }

  /** All ranks after initialization. */
  method CreateAll(t: Topology) returns (cs: seq<CommunicatorMPI>)
    requires t.Ok()
    ensures IsWorld(cs, t, World(t, 0)) && forall c :: c in cs ==> fresh(c) && fresh(c.ranks)
  {
    cs := [];
    for r := 0 to t.Size()
      invariant |cs| == r && Separate(cs) && forall c :: c in cs ==> fresh(c) && fresh(c.ranks)
      invariant forall i :: 0 <= i < r ==> cs[i].t == t && cs[i].rank == i && Matches(cs[i], World(t, 0)[i])
    {
      var c := CreateOne(t, r);
      cs := cs + [c];
    }
  }

  /** All ranks after initialization and `k` slides in step. */
  method Run(t: Topology, k: nat) returns (cs: seq<CommunicatorMPI>)
    requires t.Ok()
    ensures IsWorld(cs, t, World(t, k))
  {
    cs := CreateAll(t);
    for i := 0 to k
      invariant IsWorld(cs, t, World(t, i)) && forall c :: c in cs ==> fresh(c) && fresh(c.ranks)
    {
      var last := SlideAll(cs, t, i);
    }
  }
}
