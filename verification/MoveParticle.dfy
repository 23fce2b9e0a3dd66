/** Linear cell indices: the first dimension varies fastest. */
module CellIndex {
  import opened Arithmetic
  import opened Extents

  function Linear(size: seq<nat>, idx: seq<int>): int
    requires |idx| == |size|
  {
    if size == [] then 0 else idx[0] + size[0] * Linear(size[1..], idx[1..])
  }

  lemma {:induction false} LinearBounds(size: seq<nat>, idx: seq<int>)
    requires InRange(size, idx)
    ensures 0 <= Linear(size, idx) < Product(size)
  {
    if size != [] {
      LinearBounds(size[1..], idx[1..]);
      var rest := Linear(size[1..], idx[1..]);
      TimesMonotone(rest + 1, Product(size[1..]), size[0]);
      assert (rest + 1) * size[0] == size[0] * rest + size[0];
      assert 0 <= rest * size[0] == size[0] * rest;
      assert Product(size) == size[0] * Product(size[1..]);
    }
  }

  lemma SplitIndex(size: seq<nat>, l: nat)
    requires size != [] && l < Product(size)
    ensures size[0] > 0 && l / size[0] < Product(size[1..])
  {
    var p := Product(size[1..]);
    assert l < p * size[0];
    QuotientBelow(l, p, size[0]);
  }

  /** The cell with linear index `l`. */
  ghost function CellOf(size: seq<nat>, l: nat): (idx: seq<int>)
    requires l < Product(size)
    ensures InRange(size, idx)
  {
    if size == [] then []
    else
      SplitIndex(size, l);
      var rest := CellOf(size[1..], l / size[0]);
      InRangeCons(size, l % size[0], rest);
      [l % size[0]] + rest
  }

  lemma {:induction false} LinearOfCell(size: seq<nat>, l: nat)
    requires l < Product(size)
    ensures Linear(size, CellOf(size, l)) == l
  {
    if size != [] {
      SplitIndex(size, l);
      LinearOfCell(size[1..], l / size[0]);
      assert CellOf(size, l)[1..] == CellOf(size[1..], l / size[0]);
    }
  }

  /** Different cells have different indices. */
  lemma {:induction false} LinearInjective(size: seq<nat>, a: seq<int>, b: seq<int>)
    requires InRange(size, a) && InRange(size, b) && Linear(size, a) == Linear(size, b)
    ensures a == b
  {
    if size != [] {
      var ra, rb := Linear(size[1..], a[1..]), Linear(size[1..], b[1..]);
      assert ra * size[0] == size[0] * ra && rb * size[0] == size[0] * rb;
      DivModUnique(Linear(size, a), size[0], ra, a[0]);
      DivModUnique(Linear(size, b), size[0], rb, b[0]);
      LinearInjective(size[1..], a[1..], b[1..]);
      assert a == [a[0]] + a[1..] && b == [b[0]] + b[1..];
    }
  }

  /** The first cell has index 0, ... */
  lemma {:induction false} LinearOfFirst(size: seq<nat>, idx: seq<int>)
    requires |idx| == |size| && forall d :: 0 <= d < |idx| ==> idx[d] == 0
    ensures Linear(size, idx) == 0
  {
    if size != [] { LinearOfFirst(size[1..], idx[1..]); }
  }

  /** ... and a step along a dimension passes as many cells as the earlier dimensions have. */
  lemma {:induction false} LinearStep(size: seq<nat>, idx: seq<int>, d: nat)
    requires |idx| == |size| && d < |size|
    ensures Linear(size, idx[d := idx[d] + 1]) == Linear(size, idx) + Product(size[..d])
  {
    var next := idx[d := idx[d] + 1];
    if d == 0 {
      assert next[1..] == idx[1..] && size[..0] == [];
    } else {
      var l, p := Linear(size[1..], idx[1..]), Product(size[1..][..d - 1]);
      LinearStep(size[1..], idx[1..], d - 1);
      assert next[1..] == idx[1..][d - 1 := idx[d] + 1];
      assert size[..d][1..] == size[1..][..d - 1] && size[0] * (l + p) == size[0] * l + size[0] * p;
    }
  }

  /** `linearize`: Horner's rule from the last dimension down. */
  method Linearize(size: seq<nat>, idx: seq<int>) returns (l: int)
    requires |idx| == |size| >= 1
    ensures l == Linear(size, idx)
    ensures (forall d :: 0 <= d < |idx| ==> idx[d] == 0) ==> l == 0
    ensures forall d :: 0 <= d < |idx| ==> Linear(size, idx[d := idx[d] + 1]) == l + Product(size[..d])
  {
    if forall d :: 0 <= d < |idx| ==> idx[d] == 0 { LinearOfFirst(size, idx); }
    forall d | 0 <= d < |idx| ensures Linear(size, idx[d := idx[d] + 1]) == Linear(size, idx) + Product(size[..d]) {
      LinearStep(size, idx, d);
    }
    var d := |size| - 1;
    l := idx[d];
    assert Linear(size[d..], idx[d..]) == l;
    while d > 0
      invariant 0 <= d < |size|
      invariant l == Linear(size[d..], idx[d..])
    {
      d := d - 1;
      l := l * size[d] + idx[d];
      assert size[d..][1..] == size[d + 1..] && idx[d..][1..] == idx[d + 1..];
    }
  }

  lemma SplitOff(pitch: nat, extent: nat, l: nat, rest: int)
    requires l < pitch * extent
    ensures pitch > 0 && 0 <= l / pitch < extent && 0 <= l - pitch * (l / pitch) < pitch
    ensures l - pitch * (l / pitch) + pitch * (l / pitch + extent * rest) == l + pitch * extent * rest
  {
    assert pitch > 0;
    QuotientBelow(l, extent, pitch);
    var q := l / pitch;
    assert l == q * pitch + l % pitch;
    assert pitch * (q + extent * rest) == pitch * q + pitch * (extent * rest);
    assert pitch * (extent * rest) == pitch * extent * rest;
  }

  /** How many cells one step along each dimension but the first skips. */
  method Pitches(size: seq<nat>) returns (pitch: seq<nat>)
    requires |size| >= 1
    ensures |pitch| == |size| - 1 && forall d :: 0 <= d < |pitch| ==> pitch[d] == Product(size[..d + 1])
  {
    pitch := [];
    for d := 0 to |size| - 1
      invariant |pitch| == d && forall e :: 0 <= e < d ==> pitch[e] == Product(size[..e + 1])
    {
      ProductSplit(size, d);
      if d == 0 { assert size[..0] == []; }
      pitch := pitch + [size[d] * if d == 0 then 1 else pitch[d - 1]];
    }
  }

  /** The dimensions above `d` are found, and `l` is what is left for the others. */
  ghost predicate SplitAbove(size: seq<nat>, linearIdx: nat, d: nat, l: int, idx: seq<int>)
    requires d < |size|
  {
    && InRange(size[d + 1..], idx) && 0 <= l < Product(size[..d + 1])
    && linearIdx == l + Product(size[..d + 1]) * Linear(size[d + 1..], idx)
  }

  lemma SplitNext(size: seq<nat>, linearIdx: nat, d: nat, l: int, idx: seq<int>, pitch: nat)
    requires 1 <= d < |size| && SplitAbove(size, linearIdx, d, l, idx) && pitch == Product(size[..d])
    ensures pitch > 0 && SplitAbove(size, linearIdx, d - 1, l - pitch * (l / pitch), [l / pitch] + idx)
  {
    ProductSplit(size, d);
    var rest := Linear(size[d + 1..], idx);
    SplitOff(pitch, size[d], l, rest);
    var q := l / pitch;
    assert size[d..][1..] == size[d + 1..] && ([q] + idx)[1..] == idx && size[d..][0] == size[d];
    assert Linear(size[d..], [q] + idx) == q + size[d] * rest;
    InRangeCons(size[d..], q, idx);
  }

  lemma FirstProduct(size: seq<nat>)
    requires |size| >= 1
    ensures Product(size[..1]) == size[0]
  {
    assert size[..1] == [size[0]] && [size[0]][1..] == [];
    assert Product([size[0]]) == size[0] * Product([]);
  }

  lemma SplitDone(size: seq<nat>, linearIdx: nat, l: int, idx: seq<int>)
    requires |size| >= 1 && SplitAbove(size, linearIdx, 0, l, idx)
    ensures InRange(size, [l] + idx) && Linear(size, [l] + idx) == linearIdx
  {
    FirstProduct(size);
    var whole := [l] + idx;
    assert whole[1..] == idx && whole[0] == l;
    assert Linear(size, whole) == whole[0] + size[0] * Linear(size[1..], whole[1..]);
    InRangeCons(size, l, idx);
  }

  /** `mapToND`: divide by the pitches from the last dimension down.  It undoes `linearize`. */
  method MapToND(size: seq<nat>, linearIdx: nat) returns (idx: seq<int>)
    requires |size| >= 1 && linearIdx < Product(size)
    ensures InRange(size, idx) && Linear(size, idx) == linearIdx
  {
    var pitch := Pitches(size);
    var l, d: int := linearIdx, |size| - 1;
    idx := [];
    assert size[..|size|] == size && size[|size|..] == [];
    while d >= 1
      invariant 0 <= d < |size| && SplitAbove(size, linearIdx, d, l, idx)
    {
      SplitNext(size, linearIdx, d, l, idx, pitch[d - 1]);
      idx := [l / pitch[d - 1]] + idx;
      l := l - pitch[d - 1] * (l / pitch[d - 1]);
      d := d - 1;
    }
    SplitDone(size, linearIdx, l, idx);
    idx := [l] + idx;
  }
}

/** Moving a particle by less than a cell: cell and supercell arithmetic, and the ternary code
    of the direction in which a particle leaves its supercell.  Positions are exact reals. */
module MoveParticle {
  import opened Arithmetic
  import opened CellIndex
  import opened ExchangeTypes
  import opened Extents

  // ---------------------------------------------------------------- one axis

  /** In which direction the position has left the cell. */
  function Leaves(x: real): int {
    if x < 0.0 then -1 else if x >= 1.0 then 1 else 0
  }

  /** The direction in which the supercell is left, given the cell and the cell's step. */
  function Crosses(size: nat, cell: int, x: real): int {
    var c := cell + Leaves(x);
    if c < 0 || c >= size then Leaves(x) else 0
  }

  function NewCell(size: nat, cell: int, x: real): int {
    cell + Leaves(x) - Crosses(size, cell, x) * size
  }

  function NewPos(x: real): real {
    x - Leaves(x) as real
  }

  /** A coordinate in cells, from supercell, cell and position in the cell. */
  function Absolute(size: nat, superCell: int, cell: int, pos: real): real {
    (superCell * size + cell) as real + pos
  }

  lemma AxisMoves(size: nat, superCell: int, cell: int, x: real)
    requires 0 <= cell < size && -1.0 <= x < 2.0
    ensures 0.0 <= NewPos(x) < 1.0
    ensures 0 <= NewCell(size, cell, x) < size
    ensures Absolute(size, superCell + Crosses(size, cell, x), NewCell(size, cell, x), NewPos(x))
            == Absolute(size, superCell, cell, x)
  {
    var dir := Crosses(size, cell, x);
    assert (superCell + dir) * size == superCell * size + dir * size;
  }

  // ---------------------------------------------------------------- all axes

  /** Where a particle is: supercell, cell in it, position in the cell. */
  datatype Spot = Spot(superCell: seq<int>, cell: seq<int>, pos: seq<real>)

  predicate SpotOk(size: seq<nat>, p: Spot) {
    && |p.superCell| == |p.pos| == |size| && InRange(size, p.cell)
    && forall d :: 0 <= d < |size| ==> 0.0 <= p.pos[d] < 1.0
  }

  /** The caller's side of the bargain: at most one cell per step. */
  predicate StepOk(size: seq<nat>, newPos: seq<real>) {
    |newPos| == |size| && forall d :: 0 <= d < |size| ==> -1.0 <= newPos[d] < 2.0
  }

  function CrossedBy(size: seq<nat>, cell: seq<int>, newPos: seq<real>): seq<int>
    requires |cell| == |newPos| == |size|
  {
    seq(|size|, d requires 0 <= d < |size| => Crosses(size[d], cell[d], newPos[d]))
  }

  lemma CrossedIsDirection(size: seq<nat>, cell: seq<int>, newPos: seq<real>)
    requires |cell| == |newPos| == |size|
    ensures Directions(CrossedBy(size, cell, newPos))
  {
  }

  function CellsAfter(size: seq<nat>, cell: seq<int>, newPos: seq<real>): seq<int>
    requires |cell| == |newPos| == |size|
  {
    seq(|size|, d requires 0 <= d < |size| => NewCell(size[d], cell[d], newPos[d]))
  }

  function PositionsAfter(newPos: seq<real>): seq<real> {
    seq(|newPos|, d requires 0 <= d < |newPos| => NewPos(newPos[d]))
  }

  /** A move, and the hand-over to the supercell that its direction names. */
  function Moved(size: seq<nat>, p: Spot, newPos: seq<real>): Spot
    requires SpotOk(size, p) && StepOk(size, newPos)
  {
    var dirs := CrossedBy(size, p.cell, newPos);
    Spot(seq(|size|, d requires 0 <= d < |size| => p.superCell[d] + dirs[d]),
         CellsAfter(size, p.cell, newPos), PositionsAfter(newPos))
  }

  lemma MovedIsOk(size: seq<nat>, p: Spot, newPos: seq<real>)
    requires SpotOk(size, p) && StepOk(size, newPos)
    ensures SpotOk(size, Moved(size, p, newPos))
  {
    forall d | 0 <= d < |size|
      ensures 0.0 <= NewPos(newPos[d]) < 1.0 && 0 <= NewCell(size[d], p.cell[d], newPos[d]) < size[d]
    {
      AxisMoves(size[d], 0, p.cell[d], newPos[d]);
    }
  }

  function AbsoluteOf(size: seq<nat>, p: Spot, d: nat): real
    requires SpotOk(size, p) && d < |size|
  {
    Absolute(size[d], p.superCell[d], p.cell[d], p.pos[d])
  }

  function Plus(pos: seq<real>, move: seq<real>): seq<real>
    requires |pos| == |move|
  {
    seq(|pos|, d requires 0 <= d < |pos| => pos[d] + move[d])
  }

  /** A run of moves by the given displacements, none of which leads further than one cell. */
  ghost predicate RunOk(size: seq<nat>, p: Spot, moves: seq<seq<real>>)
    requires SpotOk(size, p)
    decreases |moves|
  {
    moves == [] ||
    (&& |moves[0]| == |size|
     && StepOk(size, Plus(p.pos, moves[0]))
     && (MovedIsOk(size, p, Plus(p.pos, moves[0]));
         RunOk(size, Moved(size, p, Plus(p.pos, moves[0])), moves[1..])))
  }

  ghost function AfterRun(size: seq<nat>, p: Spot, moves: seq<seq<real>>): Spot
    requires SpotOk(size, p) && RunOk(size, p, moves)
    decreases |moves|
  {
    if moves == [] then p
    else
      MovedIsOk(size, p, Plus(p.pos, moves[0]));
      AfterRun(size, Moved(size, p, Plus(p.pos, moves[0])), moves[1..])
  }

  /** The sum of all displacements along one axis. */
  ghost function Travelled(moves: seq<seq<real>>, d: nat): real
    requires forall k :: 0 <= k < |moves| ==> d < |moves[k]|
  {
    if moves == [] then 0.0 else moves[0][d] + Travelled(moves[1..], d)
  }

  lemma {:induction false} RunLengths(size: seq<nat>, p: Spot, moves: seq<seq<real>>)
    requires SpotOk(size, p) && RunOk(size, p, moves)
    ensures forall k :: 0 <= k < |moves| ==> |moves[k]| == |size|
    decreases |moves|
  {
    if moves != [] {
      MovedIsOk(size, p, Plus(p.pos, moves[0]));
      RunLengths(size, Moved(size, p, Plus(p.pos, moves[0])), moves[1..]);
      forall k | 0 <= k < |moves| ensures |moves[k]| == |size| {
        if k > 0 { assert moves[k] == moves[1..][k - 1]; }
      }
    }
  }

  /** Over every run, nothing but the displacements changes the absolute position, and the
      particle stays inside its cell and supercell. */
  lemma {:induction false} RunConservesPosition(size: seq<nat>, p: Spot, moves: seq<seq<real>>, d: nat)
    requires SpotOk(size, p) && RunOk(size, p, moves) && d < |size|
    ensures forall k :: 0 <= k < |moves| ==> d < |moves[k]|
    ensures SpotOk(size, AfterRun(size, p, moves))
    ensures AbsoluteOf(size, AfterRun(size, p, moves), d) == AbsoluteOf(size, p, d) + Travelled(moves, d)
    decreases |moves|
  {
    RunLengths(size, p, moves);
    if moves != [] {
      var newPos := Plus(p.pos, moves[0]);
      MovedIsOk(size, p, newPos);
      var q := Moved(size, p, newPos);
      RunConservesPosition(size, q, moves[1..], d);
      AxisMoves(size[d], p.superCell[d], p.cell[d], newPos[d]);
    }
  }

  // ---------------------------------------------------------------- the code

  class Particle {
    var position: seq<real>
    var localCellIdx: nat
    var multiMask: nat
  }

  /** Per axis, the position back inside a cell and the direction in which it had left. */
  method SplitPosition(newPos: seq<real>) returns (position: seq<real>, dir: seq<int>)
    requires forall d :: 0 <= d < |newPos| ==> -1.0 <= newPos[d] < 2.0
    ensures position == PositionsAfter(newPos)
    ensures |dir| == |newPos| && forall d :: 0 <= d < |dir| ==> dir[d] == Leaves(newPos[d])
  {
    var shift := 0.5;
    position, dir := [], [];
    for i := 0 to |newPos|
      invariant |position| == |dir| == i
      invariant forall d :: 0 <= d < i ==> position[d] == NewPos(newPos[d]) && dir[d] == Leaves(newPos[d])
    {
      var pos := newPos[i] - shift;
      var moveDir := 0.0;
      if pos < -0.5 { moveDir := -1.0; }
      if pos >= 0.5 { moveDir := 1.0; }
      pos := pos - moveDir;
      position := position + [pos + shift];
      dir := dir + [moveDir.Floor];
    }
  }

  /** Per axis, the cell back inside the supercell and the direction in which it had left. */
  method SplitCell(size: seq<nat>, cell: seq<int>, step: seq<int>, ghost newPos: seq<real>)
    returns (localCell: seq<int>, dir: seq<int>)
    requires InRange(size, cell) && |step| == |newPos| == |size|
    requires forall d :: 0 <= d < |size| ==> size[d] < WORD && step[d] == Leaves(newPos[d])
    ensures localCell == CellsAfter(size, cell, newPos)
    ensures dir == CrossedBy(size, cell, newPos)
  {
    localCell, dir := [], [];
    for i := 0 to |size|
      invariant |localCell| == |dir| == i
      invariant forall d :: 0 <= d < i ==> dir[d] == Crosses(size[d], cell[d], newPos[d])
      invariant forall d :: 0 <= d < i ==> localCell[d] == NewCell(size[d], cell[d], newPos[d])
    {
      var c := cell[i] + step[i];
      var out := if Wrap(c) >= size[i] then step[i] else 0;
      dir := dir + [out];
      localCell := localCell + [c - out * size[i]];
    }
  }

  /** The multi mask of a direction: 1 if it stays, else one more than the exchange id. */
  method DirectionMask(dir: seq<int>) returns (mask: nat)
    requires Directions(dir)
    ensures mask == 1 + Encode(dir)
  {
    mask := 1;
    var exchangeType := 1;
    assert dir[..0] == [];
    for i := 0 to |dir|
      invariant exchangeType == Pow3(i) && mask == 1 + Encode(dir[..i])
    {
      EncodeSnoc(dir[..i], dir[i]);
      assert dir[..i] + [dir[i]] == dir[..i + 1];
      mask := mask + (if dir[i] == -1 then 2 else dir[i]) * exchangeType;
      exchangeType := exchangeType * 3;
    }
    assert dir[..|dir|] == dir;
  }

  ghost predicate LeavesSuperCell(size: seq<nat>, cell: seq<int>, newPos: seq<real>)
    requires |cell| == |newPos| == |size|
  {
    !Here(CrossedBy(size, cell, newPos))
  }

  /** `l` is the linear index of the cell a particle comes to. */
  ghost predicate IndexAfter(size: seq<nat>, cell: seq<int>, newPos: seq<real>, l: nat)
    requires |cell| == |newPos| == |size|
  {
    var c := CellsAfter(size, cell, newPos);
    l < Product(size) && l == Linear(size, c) && CellOf(size, l) == c
  }

  /** `mask` is one more than the exchange id of `dirs`, which can be read off it. */
  ghost predicate Shows(mask: nat, dirs: seq<int>) {
    Directions(dirs) && mask == 1 + Encode(dirs) && Decode(mask - 1, |dirs|) == dirs
  }

  lemma StaysPut(size: seq<nat>, idx: nat, newPos: seq<real>)
    requires idx < Product(size) && |newPos| == |size|
    requires forall d :: 0 <= d < |size| ==> Leaves(newPos[d]) == 0
    ensures IndexAfter(size, CellOf(size, idx), newPos, idx)
    ensures !LeavesSuperCell(size, CellOf(size, idx), newPos)
  {
    var cell := CellOf(size, idx);
    assert CellsAfter(size, cell, newPos) == cell by {
      assert forall d :: 0 <= d < |size| ==> NewCell(size[d], cell[d], newPos[d]) == cell[d];
    }
    LinearOfCell(size, idx);
  }

  lemma NewIndex(size: seq<nat>, cell: seq<int>, newPos: seq<real>)
    requires InRange(size, cell) && StepOk(size, newPos)
    ensures var c := CellsAfter(size, cell, newPos);
            InRange(size, c) && 0 <= Linear(size, c) < Product(size) && CellOf(size, Linear(size, c)) == c
  {
    var c := CellsAfter(size, cell, newPos);
    forall d | 0 <= d < |size| ensures 0 <= c[d] < size[d] { AxisMoves(size[d], 0, cell[d], newPos[d]); }
    LinearBounds(size, c);
    LinearOfCell(size, Linear(size, c));
    LinearInjective(size, CellOf(size, Linear(size, c)), c);
  }

  lemma MaskOf(dirs: seq<int>, mask: nat)
    requires Directions(dirs) && mask == 1 + Encode(dirs)
    ensures Shows(mask, dirs) && (mask >= 2 <==> !Here(dirs))
  {
    DecodeEncode(dirs);
    ZeroIsHere(dirs);
  }

  /** The new cell index and multi mask of a particle that leaves its cell. */
  method LeaveCell(size: seq<nat>, idx: nat, step: seq<int>, ghost newPos: seq<real>) returns (l: nat, mask: nat)
    requires |size| >= 1 && idx < Product(size) && StepOk(size, newPos) && |step| == |size|
    requires forall d :: 0 <= d < |size| ==> size[d] < WORD && step[d] == Leaves(newPos[d])
    ensures IndexAfter(size, CellOf(size, idx), newPos, l)
    ensures Shows(mask, CrossedBy(size, CellOf(size, idx), newPos))
    ensures mask >= 2 <==> LeavesSuperCell(size, CellOf(size, idx), newPos)
  {
    ghost var cell := CellOf(size, idx);
    var localCell := MapToND(size, idx);
    LinearOfCell(size, idx);
    LinearInjective(size, localCell, cell);
    var dir;
    localCell, dir := SplitCell(size, localCell, step, newPos);
    NewIndex(size, cell, newPos);
    l := Linearize(size, localCell);
    CrossedIsDirection(size, cell, newPos);
    mask := DirectionMask(dir);
    MaskOf(dir, mask);
  }

  /** `moveParticle`: writes position, cell index and, on leaving the supercell, the multi mask
      from which the direction can be read off.  True exactly if the supercell is left. */
  method Move(particle: Particle, size: seq<nat>, newPos: seq<real>) returns (left: bool)
    requires |size| >= 1 && particle.localCellIdx < Product(size) && StepOk(size, newPos)
    requires forall d :: 0 <= d < |size| ==> size[d] < WORD
    modifies particle
    ensures var cell := CellOf(size, old(particle.localCellIdx));
            && particle.position == PositionsAfter(newPos)
            && IndexAfter(size, cell, newPos, particle.localCellIdx)
            && (left <==> LeavesSuperCell(size, cell, newPos))
            && (left ==> Shows(particle.multiMask, CrossedBy(size, cell, newPos)))
            && (!left ==> particle.multiMask == old(particle.multiMask))
  {
    var position, dir := SplitPosition(newPos);
    particle.position := position;
    var newMultimask := 1;
    if exists d :: 0 <= d < |dir| && dir[d] != 0 {
      var l;
      l, newMultimask := LeaveCell(size, particle.localCellIdx, dir, newPos);
      particle.localCellIdx := l;
      if newMultimask >= 2 {
        particle.multiMask := newMultimask;
      }
    } else {
      StaysPut(size, particle.localCellIdx, newPos);
    }
    left := newMultimask >= 2;
  }
}
