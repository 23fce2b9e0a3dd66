/** Finite sums of reals. */
module Sums {

  /** f(lo) + ... + f(lo + n - 1) */
  function Sum(f: int -> real, lo: int, n: nat): real
    decreases n
  {
    if n == 0 then 0.0 else Sum(f, lo, n - 1) + f(lo + n - 1)
  }

  lemma SumNext(f: int -> real, lo: int, n: nat, next: real)
    requires f(lo + n) == next
    ensures Sum(f, lo, n + 1) == Sum(f, lo, n) + next
  {
  }

  lemma {:induction false} SumSame(f: int -> real, g: int -> real, lo: int, n: nat)
    requires forall x :: lo <= x < lo + n ==> f(x) == g(x)
    ensures Sum(f, lo, n) == Sum(g, lo, n)
    decreases n
  {
    if n > 0 { SumSame(f, g, lo, n - 1); }
  }

  lemma {:induction false} SumScaled(f: int -> real, g: int -> real, c: real, lo: int, n: nat)
    requires forall x :: lo <= x < lo + n ==> g(x) == f(x) * c
    ensures Sum(g, lo, n) == Sum(f, lo, n) * c
    decreases n
  {
    if n > 0 { SumScaled(f, g, c, lo, n - 1); }
  }

  lemma {:induction false} SumMoved(f: int -> real, g: int -> real, s: int, lo: int, n: nat)
    requires forall x :: lo <= x < lo + n ==> g(x) == f(x + s)
    ensures Sum(g, lo, n) == Sum(f, lo + s, n)
    decreases n
  {
    if n > 0 { SumMoved(f, g, s, lo, n - 1); }
  }

  lemma {:induction false} SumSplit(f: int -> real, lo: int, m: nat, n: nat)
    ensures Sum(f, lo, m + n) == Sum(f, lo, m) + Sum(f, lo + m, n)
    decreases n
  {
    if n > 0 { SumSplit(f, lo, m, n - 1); }
  }

  lemma {:induction false} SumZero(f: int -> real, lo: int, n: nat)
    requires forall x :: lo <= x < lo + n ==> f(x) == 0.0
    ensures Sum(f, lo, n) == 0.0
    decreases n
  {
    if n > 0 { SumZero(f, lo, n - 1); }
  }

  /** Terms that are zero may be left out at both ends. */
  lemma SumWithin(f: int -> real, lo: int, a: nat, m: nat, b: nat)
    requires forall x :: lo <= x < lo + a ==> f(x) == 0.0
    requires forall x :: lo + a + m <= x < lo + a + m + b ==> f(x) == 0.0
    ensures Sum(f, lo, a + m + b) == Sum(f, lo + a, m)
  {
    SumSplit(f, lo, a + m, b);
    SumSplit(f, lo, a, m);
    SumZero(f, lo, a);
    SumZero(f, lo + a + m, b);
  }

  lemma TermBounds(f: real, w: real, min: real, max: real)
    requires w >= 0.0 && min <= f <= max
    ensures min * w <= f * w <= max * w
  {
  }

  lemma Distribute(c: real, a: real, b: real)
    ensures c * (a + b) == c * a + c * b
  {
  }

  /** A sum with weights that are not negative lies between the bounds of its values. */
  lemma {:induction false} SumBounds(f: int -> real, w: int -> real, g: int -> real, lo: int, n: nat,
                                     min: real, max: real)
    requires forall x :: lo <= x < lo + n ==> g(x) == f(x) * w(x) && w(x) >= 0.0 && min <= f(x) <= max
    ensures min * Sum(w, lo, n) <= Sum(g, lo, n) <= max * Sum(w, lo, n)
    decreases n
  {
    if n > 0 {
      SumBounds(f, w, g, lo, n - 1, min, max);
      var last := lo + n - 1;
      assert g(last) == f(last) * w(last);
      TermBounds(f(last), w(last), min, max);
      Distribute(min, Sum(w, lo, n - 1), w(last));
      Distribute(max, Sum(w, lo, n - 1), w(last));
    }
  }
}

/** Interpolation of a field from the grid to a particle. */
module Interpolation {
  import opened Sums

  // ---------------------------------------------------------------- stencil and margins

  /** Division that truncates towards zero. */
  function Quotient(a: int, b: int): int
    requires b > 0
  {
    if a >= 0 then a / b else -((-a) / b)
  }

  function LowerMargin(support: nat): int { support / 2 }

  function UpperMargin(support: nat): int { (support + 1) / 2 }

  function Begin(support: nat): int { Quotient(0 - support, 2) + (support + 1) % 2 }

  function End(support: nat): int { Begin(support) + support - 1 }

  predicate Even(support: nat) { support % 2 == 0 }

  /** How far the grid moves for a particle at `x` from the field's position. */
  function IntShift(support: nat, x: real): int {
    if Even(support) then (if x - 0.5 >= -0.5 then 0 else -1) else (if x - 0.5 >= 0.0 then 1 else 0)
  }

  /** Where the shifted position must lie for the assignment functions. */
  predicate OnSupport(support: nat, q: real) {
    if Even(support) then 0.0 <= q < 1.0 else -0.5 <= q < 0.5
  }

  /** The shift lands on the support exactly for distances within one cell of it; all positions
      in [0, 1) and field positions in [0, 0.5] have one. */
  lemma ShiftLandsOnSupport(support: nat, pos: real, fieldPos: real)
    ensures var x := pos - fieldPos;
            OnSupport(support, x - IntShift(support, x) as real) <==>
            if Even(support) then -1.0 <= x < 1.0 else -0.5 <= x < 1.5
    ensures 0.0 <= pos < 1.0 && 0.0 <= fieldPos <= 0.5 ==>
              var x := pos - fieldPos; OnSupport(support, x - IntShift(support, x) as real)
  {
  }

  /** Every cell of the shifted stencil is within the margins. */
  lemma StencilWithinMargins(support: nat, x: real, j: int)
    requires Begin(support) <= j <= End(support)
    ensures -LowerMargin(support) <= IntShift(support, x) + j <= UpperMargin(support)
  {
  }

  /** Some particle position, with some field position, needs the cell. */
  ghost predicate Needs(support: nat, pos: real, fieldPos: real, cell: int) {
    && 0.0 <= pos < 1.0 && 0.0 <= fieldPos <= 0.5
    && Begin(support) <= cell - IntShift(support, pos - fieldPos) <= End(support)
  }

  lemma NeededCell(support: nat, cell: int)
    requires support >= 1 && -LowerMargin(support) <= cell <= UpperMargin(support)
    ensures Needs(support, 0.0, 0.5, cell) || Needs(support, 0.75, 0.0, cell)
  {
    assert IntShift(support, 0.0 - 0.5) == if Even(support) then -1 else 0;
    assert IntShift(support, 0.75 - 0.0) == if Even(support) then 0 else 1;
  }

  lemma NeededWithinMargins(support: nat, pos: real, fieldPos: real, cell: int)
    requires Needs(support, pos, fieldPos, cell)
    ensures -LowerMargin(support) <= cell <= UpperMargin(support)
  {
    StencilWithinMargins(support, pos - fieldPos, cell - IntShift(support, pos - fieldPos));
  }

  /** The cells that some particle needs are exactly those within the margins. */
  lemma MarginsAreExact(support: nat, cell: int)
    requires support >= 1
    ensures (exists pos, fieldPos :: Needs(support, pos, fieldPos, cell))
       <==> -LowerMargin(support) <= cell <= UpperMargin(support)
  {
    if -LowerMargin(support) <= cell <= UpperMargin(support) {
      NeededCell(support, cell);
    }
    if pos, fieldPos :| Needs(support, pos, fieldPos, cell) {
      NeededWithinMargins(support, pos, fieldPos, cell);
    }
  }

  /** Moves the grid and the particle's position on it to where the assignment function is
      defined.  A data box is given by the cell it starts at. */
  method ShiftCoordinateSystem(support: nat, dataBox: array<int>, pos: array<real>, fieldPos: seq<real>)
    requires dataBox.Length == pos.Length == |fieldPos|
    modifies dataBox, pos
    ensures forall d :: 0 <= d < pos.Length ==>
              && dataBox[d] == old(dataBox[d]) + IntShift(support, old(pos[d]) - fieldPos[d])
              && pos[d] + (dataBox[d] - old(dataBox[d])) as real == old(pos[d]) - fieldPos[d]
  {
    var intShift := new int[pos.Length];
    for d := 0 to pos.Length
      invariant forall k :: 0 <= k < d ==>
                  && intShift[k] == IntShift(support, old(pos[k]) - fieldPos[k])
                  && pos[k] + intShift[k] as real == old(pos[k]) - fieldPos[k]
      invariant forall k :: d <= k < pos.Length ==> pos[k] == old(pos[k])
      invariant forall k :: 0 <= k < dataBox.Length ==> dataBox[k] == old(dataBox[k])
    {
      var v := pos[d] - fieldPos[d] - 0.5;
      if support % 2 == 0 {
        intShift[d] := if v >= -0.5 then 0 else -1;
      } else {
        intShift[d] := if v >= 0.0 then 1 else 0;
      }
      pos[d] := v - intShift[d] as real + 0.5;
    }
    for d := 0 to dataBox.Length
      invariant forall k :: 0 <= k < d ==> dataBox[k] == old(dataBox[k]) + intShift[k]
      invariant forall k :: d <= k < dataBox.Length ==> dataBox[k] == old(dataBox[k])
      invariant forall k :: 0 <= k < pos.Length ==>
                  && intShift[k] == IntShift(support, old(pos[k]) - fieldPos[k])
                  && pos[k] + intShift[k] as real == old(pos[k]) - fieldPos[k]
    {
      dataBox[d] := dataBox[d] + intShift[d];
    }
  }

  // ---------------------------------------------------------------- nested sums

  type Field2 = (int, int) -> real
  type Field3 = (int, int, int) -> real
  type Weight = int -> real

  ghost function RowTerm(f: Field2, w: Weight, y: int): Weight {
    x => f(x, y) * w(x)
  }

  ghost function PlaneTerm(f: Field2, w0: Weight, w1: Weight, lo: int, n: nat): Weight {
    y => Sum(RowTerm(f, w0, y), lo, n) * w1(y)
  }

  ghost function Nested2(f: Field2, w0: Weight, w1: Weight, lo: int, n: nat): real {
    Sum(PlaneTerm(f, w0, w1, lo, n), lo, n)
  }

  function Slice(f: Field3, z: int): Field2 {
    (x, y) => f(x, y, z)
  }

  ghost function BoxTerm(f: Field3, w0: Weight, w1: Weight, w2: Weight, lo: int, n: nat): Weight {
    z => Nested2(Slice(f, z), w0, w1, lo, n) * w2(z)
  }

  ghost function Nested3(f: Field3, w0: Weight, w1: Weight, w2: Weight, lo: int, n: nat): real {
    Sum(BoxTerm(f, w0, w1, w2, lo, n), lo, n)
  }

  /** The nested accumulation along one row, ... */
  method InterpolateRow(f: Field2, w0: Weight, begin: int, end: int, y: int) returns (resultX: real)
    requires begin <= end + 1
    ensures resultX == Sum(RowTerm(f, w0, y), begin, end + 1 - begin)
  {
    resultX := 0.0;
    for x := begin to end + 1
      invariant resultX == Sum(RowTerm(f, w0, y), begin, x - begin)
    {
      SumNext(RowTerm(f, w0, y), begin, x - begin, f(x, y) * w0(x));
      resultX := resultX + f(x, y) * w0(x);
    }
  }

  /** ... in two dimensions, ... */
  method Interpolate2(f: Field2, w0: Weight, w1: Weight, begin: int, end: int) returns (resultY: real)
    requires begin <= end + 1
    ensures resultY == Nested2(f, w0, w1, begin, end + 1 - begin)
  {
    resultY := 0.0;
    for y := begin to end + 1
      invariant resultY == Sum(PlaneTerm(f, w0, w1, begin, end + 1 - begin), begin, y - begin)
    {
      var resultX := InterpolateRow(f, w0, begin, end, y);
      SumNext(PlaneTerm(f, w0, w1, begin, end + 1 - begin), begin, y - begin, resultX * w1(y));
      resultY := resultY + resultX * w1(y);
    }
  }

  /** ... and in three. */
  method Interpolate3(f: Field3, w0: Weight, w1: Weight, w2: Weight, begin: int, end: int) returns (resultZ: real)
    requires begin <= end + 1
    ensures resultZ == Nested3(f, w0, w1, w2, begin, end + 1 - begin)
  {
    resultZ := 0.0;
    for z := begin to end + 1
      invariant resultZ == Sum(BoxTerm(f, w0, w1, w2, begin, end + 1 - begin), begin, z - begin)
    {
      var resultY := Interpolate2(Slice(f, z), w0, w1, begin, end);
      SumNext(BoxTerm(f, w0, w1, w2, begin, end + 1 - begin), begin, z - begin, resultY * w2(z));
      resultZ := resultZ + resultY * w2(z);
    }
  }

  // ---------------------------------------------------------------- what the nested sums mean

  ghost function Cell2(f: Field2, w0: Weight, w1: Weight, y: int): Weight {
    x => f(x, y) * (w0(x) * w1(y))
  }

  ghost function CellRow2(f: Field2, w0: Weight, w1: Weight, lo: int, n: nat): Weight {
    y => Sum(Cell2(f, w0, w1, y), lo, n)
  }

  ghost function Cell3(f: Field3, w0: Weight, w1: Weight, w2: Weight, y: int, z: int): Weight {
    x => f(x, y, z) * (w0(x) * w1(y) * w2(z))
  }

  ghost function CellRow3(f: Field3, w0: Weight, w1: Weight, w2: Weight, lo: int, n: nat, z: int): Weight {
    y => Sum(Cell3(f, w0, w1, w2, y, z), lo, n)
  }

  ghost function CellPlane3(f: Field3, w0: Weight, w1: Weight, w2: Weight, lo: int, n: nat): Weight {
    z => Sum(CellRow3(f, w0, w1, w2, lo, n, z), lo, n)
  }

  /** The plain sum over all cells of the stencil of the field times the product of the weights. */
  ghost function Flat2(f: Field2, w0: Weight, w1: Weight, lo: int, n: nat): real {
    Sum(CellRow2(f, w0, w1, lo, n), lo, n)
  }

  ghost function Flat3(f: Field3, w0: Weight, w1: Weight, w2: Weight, lo: int, n: nat): real {
    Sum(CellPlane3(f, w0, w1, w2, lo, n), lo, n)
  }

  lemma Regroup(f: real, a: real, b: real, c: real)
    ensures f * (a * b) == f * a * b && f * (a * b * c) == f * (a * b) * c
  {
  }

  lemma NestedIsFlat2(f: Field2, w0: Weight, w1: Weight, lo: int, n: nat)
    ensures Nested2(f, w0, w1, lo, n) == Flat2(f, w0, w1, lo, n)
  {
    forall y | lo <= y < lo + n ensures CellRow2(f, w0, w1, lo, n)(y) == PlaneTerm(f, w0, w1, lo, n)(y) {
      forall x | lo <= x < lo + n ensures Cell2(f, w0, w1, y)(x) == RowTerm(f, w0, y)(x) * w1(y) {
        Regroup(f(x, y), w0(x), w1(y), 1.0);
      }
      SumScaled(RowTerm(f, w0, y), Cell2(f, w0, w1, y), w1(y), lo, n);
    }
    SumSame(CellRow2(f, w0, w1, lo, n), PlaneTerm(f, w0, w1, lo, n), lo, n);
  }

  lemma CellTimes(f: Field3, w0: Weight, w1: Weight, w2: Weight, lo: int, n: nat, y: int, z: int)
    ensures Sum(Cell3(f, w0, w1, w2, y, z), lo, n) == Sum(Cell2(Slice(f, z), w0, w1, y), lo, n) * w2(z)
  {
    var a, b := Cell2(Slice(f, z), w0, w1, y), Cell3(f, w0, w1, w2, y, z);
    forall x | lo <= x < lo + n ensures b(x) == a(x) * w2(z) {
      assert a(x) == f(x, y, z) * (w0(x) * w1(y)) && b(x) == f(x, y, z) * (w0(x) * w1(y) * w2(z));
      Regroup(f(x, y, z), w0(x), w1(y), w2(z));
    }
    SumScaled(a, b, w2(z), lo, n);
  }

  lemma CellRowTimes(f: Field3, w0: Weight, w1: Weight, w2: Weight, lo: int, n: nat, z: int)
    ensures Sum(CellRow3(f, w0, w1, w2, lo, n, z), lo, n) == Flat2(Slice(f, z), w0, w1, lo, n) * w2(z)
  {
    var a, b := CellRow2(Slice(f, z), w0, w1, lo, n), CellRow3(f, w0, w1, w2, lo, n, z);
    forall y | lo <= y < lo + n ensures b(y) == a(y) * w2(z) {
      CellTimes(f, w0, w1, w2, lo, n, y, z);
    }
    SumScaled(a, b, w2(z), lo, n);
  }

  lemma PlaneIsFlat(f: Field3, w0: Weight, w1: Weight, w2: Weight, lo: int, n: nat, z: int)
    ensures BoxTerm(f, w0, w1, w2, lo, n)(z) == CellPlane3(f, w0, w1, w2, lo, n)(z)
  {
    var flat := Flat2(Slice(f, z), w0, w1, lo, n);
    assert BoxTerm(f, w0, w1, w2, lo, n)(z) == flat * w2(z) by { NestedIsFlat2(Slice(f, z), w0, w1, lo, n); }
    assert CellPlane3(f, w0, w1, w2, lo, n)(z) == flat * w2(z) by { CellRowTimes(f, w0, w1, w2, lo, n, z); }
  }

  lemma NestedIsFlat3(f: Field3, w0: Weight, w1: Weight, w2: Weight, lo: int, n: nat)
    ensures Nested3(f, w0, w1, w2, lo, n) == Flat3(f, w0, w1, w2, lo, n)
  {
    var a, b := BoxTerm(f, w0, w1, w2, lo, n), CellPlane3(f, w0, w1, w2, lo, n);
    forall z | lo <= z < lo + n ensures a(z) == b(z) {
      PlaneIsFlat(f, w0, w1, w2, lo, n, z);
    }
    SumSame(a, b, lo, n);
  }

  /** Weights of one axis that are not negative and add up to one. */
  ghost predicate Convex(w: Weight, lo: int, n: nat) {
    Sum(w, lo, n) == 1.0 && forall x :: lo <= x < lo + n ==> w(x) >= 0.0
  }

  ghost function RowSums(f: Field2, w0: Weight, lo: int, n: nat): Weight {
    y => Sum(RowTerm(f, w0, y), lo, n)
  }

  ghost function PlaneSums(f: Field3, w0: Weight, w1: Weight, lo: int, n: nat): Weight {
    z => Nested2(Slice(f, z), w0, w1, lo, n)
  }

  lemma RowBounded(f: Field2, w0: Weight, lo: int, n: nat, y: int, min: real, max: real)
    requires Convex(w0, lo, n)
    requires forall x :: lo <= x < lo + n ==> min <= f(x, y) <= max
    ensures min <= RowSums(f, w0, lo, n)(y) <= max
  {
    var row := x => f(x, y);
    SumBounds(row, w0, RowTerm(f, w0, y), lo, n, min, max);
    assert min * 1.0 == min && max * 1.0 == max;
  }

  /** The result lies between the bounds of the stencil's values; a constant field is reproduced. */
  lemma Bounded2(f: Field2, w0: Weight, w1: Weight, lo: int, n: nat, min: real, max: real)
    requires Convex(w0, lo, n) && Convex(w1, lo, n)
    requires forall x, y :: lo <= x < lo + n && lo <= y < lo + n ==> min <= f(x, y) <= max
    ensures min <= Nested2(f, w0, w1, lo, n) <= max
  {
    var rows := RowSums(f, w0, lo, n);
    forall y | lo <= y < lo + n ensures min <= rows(y) <= max {
      RowBounded(f, w0, lo, n, y, min, max);
    }
    SumBounds(rows, w1, PlaneTerm(f, w0, w1, lo, n), lo, n, min, max);
    assert min * 1.0 == min && max * 1.0 == max;
  }

  lemma Bounded3(f: Field3, w0: Weight, w1: Weight, w2: Weight, lo: int, n: nat, min: real, max: real)
    requires Convex(w0, lo, n) && Convex(w1, lo, n) && Convex(w2, lo, n)
    requires forall x, y, z :: lo <= x < lo + n && lo <= y < lo + n && lo <= z < lo + n ==> min <= f(x, y, z) <= max
    ensures min <= Nested3(f, w0, w1, w2, lo, n) <= max
  {
    var planes := PlaneSums(f, w0, w1, lo, n);
    forall z | lo <= z < lo + n ensures min <= planes(z) <= max {
      Bounded2(Slice(f, z), w0, w1, lo, n, min, max);
    }
    SumBounds(planes, w2, BoxTerm(f, w0, w1, w2, lo, n), lo, n, min, max);
    assert min * 1.0 == min && max * 1.0 == max;
  }

  // ---------------------------------------------------------------- field to particle

  /** The weights of the cells around a particle at `q`: an assignment function is given the
      particle's position relative to the cell. */
  function Shape(assign: real -> real, q: real): Weight {
    j => assign(q - j as real)
  }

  /** The assignment function is zero outside of half its support to either side. */
  ghost predicate Vanishes(assign: real -> real, support: nat) {
    forall t :: t >= support as real / 2.0 || t < -(support as real / 2.0) ==> assign(t) == 0.0
  }

  function Width(support: nat): nat { LowerMargin(support) + UpperMargin(support) + 1 }

  /** A stencil of `n` cells and the margin around it. */
  datatype Span = Span(lo: int, width: nat, begin: int, n: nat) {
    predicate Holds(s: int) { lo <= begin + s && begin + s + n <= lo + width }

    predicate OnStencil(j: int) { begin <= j < begin + n }

    /** Cells of the margin outside the shifted stencil. */
    predicate Beside(c: int, s: int) { lo <= c < begin + s || begin + s + n <= c < lo + width }
  }

  function SpanOf(support: nat): Span {
    Span(-LowerMargin(support), Width(support), Begin(support), support)
  }

  /** Two functions of a cell: one on the shifted stencil, one on the whole margin. */
  ghost predicate Widens(w: Weight, wide: Weight, p: Span, s: int) {
    && p.Holds(s)
    && (forall j {:trigger p.OnStencil(j)} :: p.OnStencil(j) ==> w(j) == wide(j + s))
    && (forall c {:trigger p.Beside(c, s)} :: p.Beside(c, s) ==> wide(c) == 0.0)
  }

  /** A sum over the shifted stencil is then a sum over the whole margin. */
  lemma SumWidens(h: Weight, k: Weight, p: Span, s: int)
    requires Widens(h, k, p, s)
    ensures Sum(h, p.begin, p.n) == Sum(k, p.lo, p.width)
  {
    forall x | p.begin <= x < p.begin + p.n ensures h(x) == k(x + s) {
      assert p.OnStencil(x);
    }
    SumMoved(k, h, s, p.begin, p.n);
    var a: nat := p.begin + s - p.lo;
    var b: nat := p.lo + p.width - (p.begin + s + p.n);
    forall c | p.lo <= c < p.begin + s || p.begin + s + p.n <= c < p.lo + p.width ensures k(c) == 0.0 {
      assert p.Beside(c, s);
    }
    SumWithin(k, p.lo, a, p.n, b);
  }

  /** Cells next to the stencil are out of the support. */
  lemma OffStencil(support: nat, q: real, j: int)
    requires OnSupport(support, q)
    ensures j < Begin(support) ==> q - j as real >= support as real / 2.0
    ensures j > End(support) ==> q - j as real < -(support as real / 2.0)
  {
    var m := support / 2;
    if Even(support) {
      assert support as real / 2.0 == m as real && Begin(support) == 1 - m && End(support) == m;
    } else {
      assert support as real / 2.0 == m as real + 0.5 && Begin(support) == -m && End(support) == m;
    }
  }

  lemma ShapeMoves(assign: real -> real, x: real, s: int, q: real, j: int)
    requires q == x - s as real
    ensures Shape(assign, q)(j) == Shape(assign, x)(j + s)
  {
    assert (j + s) as real == j as real + s as real;
    assert q - j as real == x - (j + s) as real;
  }

  lemma ShiftHolds(support: nat, x: real, s: int)
    requires support >= 1 && s == IntShift(support, x)
    ensures SpanOf(support).Holds(s)
  {
    StencilWithinMargins(support, x, Begin(support));
    StencilWithinMargins(support, x, End(support));
  }

  lemma ZeroBeside(assign: real -> real, support: nat, x: real, s: int, q: real, c: int)
    requires support >= 1 && Vanishes(assign, support) && q == x - s as real && OnSupport(support, q)
    requires SpanOf(support).Beside(c, s)
    ensures Shape(assign, x)(c) == 0.0
  {
    OffStencil(support, q, c - s);
    assert assign(q - (c - s) as real) == 0.0;
    ShapeMoves(assign, x, s, q, c - s);
  }

  lemma ShapeWidens(assign: real -> real, support: nat, p: Span, x: real, s: int, q: real)
    requires support >= 1 && Vanishes(assign, support) && p == SpanOf(support)
    requires s == IntShift(support, x) && q == x - s as real && OnSupport(support, q)
    ensures Widens(Shape(assign, q), Shape(assign, x), p, s)
  {
    ShiftHolds(support, x, s);
    forall j | p.OnStencil(j) ensures Shape(assign, q)(j) == Shape(assign, x)(j + s) {
      ShapeMoves(assign, x, s, q, j);
    }
    forall c | p.Beside(c, s) ensures Shape(assign, x)(c) == 0.0 {
      ZeroBeside(assign, support, x, s, q, c);
    }
  }

  lemma RowWidens(f: Field2, g: Field2, w: Weight, v: Weight, p: Span, s0: int, y: int, at: int)
    requires Widens(w, v, p, s0)
    requires forall x :: p.OnStencil(x) ==> g(x, y) == f(x + s0, at)
    ensures Sum(RowTerm(g, w, y), p.begin, p.n) == Sum(RowTerm(f, v, at), p.lo, p.width)
  {
    assert Widens(RowTerm(g, w, y), RowTerm(f, v, at), p, s0);
    SumWidens(RowTerm(g, w, y), RowTerm(f, v, at), p, s0);
  }

  lemma PlaneWidens(f: Field2, g: Field2, w0: Weight, w1: Weight, v0: Weight, v1: Weight, p: Span, s0: int, s1: int)
    requires Widens(w0, v0, p, s0) && Widens(w1, v1, p, s1)
    requires forall x, y :: p.OnStencil(x) && p.OnStencil(y) ==> g(x, y) == f(x + s0, y + s1)
    ensures Nested2(g, w0, w1, p.begin, p.n) == Nested2(f, v0, v1, p.lo, p.width)
  {
    var h, k := PlaneTerm(g, w0, w1, p.begin, p.n), PlaneTerm(f, v0, v1, p.lo, p.width);
    forall y | p.OnStencil(y) ensures h(y) == k(y + s1) {
      RowWidens(f, g, w0, v0, p, s0, y, y + s1);
    }
    assert Widens(h, k, p, s1);
    SumWidens(h, k, p, s1);
  }

  lemma BoxWidens(f: Field3, g: Field3, w0: Weight, w1: Weight, w2: Weight, v0: Weight, v1: Weight, v2: Weight,
                  p: Span, s0: int, s1: int, s2: int)
    requires Widens(w0, v0, p, s0) && Widens(w1, v1, p, s1) && Widens(w2, v2, p, s2)
    requires forall x, y, z :: p.OnStencil(x) && p.OnStencil(y) && p.OnStencil(z) ==>
                                 g(x, y, z) == f(x + s0, y + s1, z + s2)
    ensures Nested3(g, w0, w1, w2, p.begin, p.n) == Nested3(f, v0, v1, v2, p.lo, p.width)
  {
    var h, k := BoxTerm(g, w0, w1, w2, p.begin, p.n), BoxTerm(f, v0, v1, v2, p.lo, p.width);
    forall z | p.OnStencil(z) ensures h(z) == k(z + s2) {
      PlaneWidens(Slice(f, z + s2), Slice(g, z), w0, w1, v0, v1, p, s0, s1);
    }
    assert Widens(h, k, p, s2);
    SumWidens(h, k, p, s2);
  }

  predicate InCell(pos: seq<real>) {
    forall d :: 0 <= d < |pos| ==> 0.0 <= pos[d] < 1.0
  }

  predicate IsFieldPosition(pos: seq<real>) {
    forall d :: 0 <= d < |pos| ==> 0.0 <= pos[d] <= 0.5
  }

  /** The field at a particle: over all cells of the margin, the field times the assignment
      function's value for the distance, on each axis, from the cell to the particle. */
  ghost function AtParticle3(f: Field3, assign: real -> real, p: Span, pos: seq<real>, fieldPos: seq<real>): real
    requires |pos| == |fieldPos| == 3
  {
    Flat3(f, Shape(assign, pos[0] - fieldPos[0]), Shape(assign, pos[1] - fieldPos[1]),
          Shape(assign, pos[2] - fieldPos[2]), p.lo, p.width)
  }

  ghost function AtParticle2(f: Field2, assign: real -> real, p: Span, pos: seq<real>, fieldPos: seq<real>): real
    requires |pos| == |fieldPos| == 2
  {
    Flat2(f, Shape(assign, pos[0] - fieldPos[0]), Shape(assign, pos[1] - fieldPos[1]), p.lo, p.width)
  }

  function Moved2(f: Field2, a: int, b: int): Field2 { (x, y) => f(x + a, y + b) }

  function Moved3(f: Field3, a: int, b: int, c: int): Field3 { (x, y, z) => f(x + a, y + b, z + c) }

  /** A position on one axis and what the shift makes of it. */
  ghost predicate IsShifted(support: nat, pos: real, fieldPos: real, s: int, q: real) {
    s == IntShift(support, pos - fieldPos) && q + s as real == pos - fieldPos
  }

  lemma Lands(support: nat, pos: real, fieldPos: real, s: int, q: real)
    requires 0.0 <= pos < 1.0 && 0.0 <= fieldPos <= 0.5 && IsShifted(support, pos, fieldPos, s, q)
    ensures OnSupport(support, q)
  {
    ShiftLandsOnSupport(support, pos, fieldPos);
    assert q == pos - fieldPos - s as real;
  }

  lemma AxisWidens(assign: real -> real, support: nat, p: Span, pos: real, fieldPos: real, s: int, q: real, x: real)
    requires support >= 1 && Vanishes(assign, support) && p == SpanOf(support)
    requires 0.0 <= pos < 1.0 && 0.0 <= fieldPos <= 0.5
    requires IsShifted(support, pos, fieldPos, s, q) && x == pos - fieldPos
    ensures Widens(Shape(assign, q), Shape(assign, x), p, s)
  {
    Lands(support, pos, fieldPos, s, q);
    ShapeWidens(assign, support, p, x, s, q);
  }

  lemma MovedWidens3(f: Field3, w0: Weight, w1: Weight, w2: Weight, v0: Weight, v1: Weight, v2: Weight,
                     p: Span, s0: int, s1: int, s2: int)
    requires Widens(w0, v0, p, s0) && Widens(w1, v1, p, s1) && Widens(w2, v2, p, s2)
    ensures Nested3(Moved3(f, s0, s1, s2), w0, w1, w2, p.begin, p.n) == Flat3(f, v0, v1, v2, p.lo, p.width)
  {
    BoxWidens(f, Moved3(f, s0, s1, s2), w0, w1, w2, v0, v1, v2, p, s0, s1, s2);
    NestedIsFlat3(f, v0, v1, v2, p.lo, p.width);
  }

  lemma MovedWidens2(f: Field2, w0: Weight, w1: Weight, v0: Weight, v1: Weight, p: Span, s0: int, s1: int)
    requires Widens(w0, v0, p, s0) && Widens(w1, v1, p, s1)
    ensures Nested2(Moved2(f, s0, s1), w0, w1, p.begin, p.n) == Flat2(f, v0, v1, p.lo, p.width)
  {
    PlaneWidens(f, Moved2(f, s0, s1), w0, w1, v0, v1, p, s0, s1);
    NestedIsFlat2(f, v0, v1, p.lo, p.width);
  }

  /** The weights after the shift, and those for the distances themselves. */
  ghost predicate SameWeights(assign: real -> real, p: Span, pos: real, fieldPos: real, s: int, q: real) {
    Widens(Shape(assign, q), Shape(assign, pos - fieldPos), p, s)
  }

  lemma AxisAt(assign: real -> real, support: nat, p: Span, pos: seq<real>, fieldPos: seq<real>,
               s: seq<int>, q: seq<real>, d: nat)
    requires support >= 1 && Vanishes(assign, support) && p == SpanOf(support)
    requires |pos| == |fieldPos| == |s| == |q| && d < |s| && 0.0 <= pos[d] < 1.0 && 0.0 <= fieldPos[d] <= 0.5
    requires IsShifted(support, pos[d], fieldPos[d], s[d], q[d])
    ensures SameWeights(assign, p, pos[d], fieldPos[d], s[d], q[d])
  {
    AxisWidens(assign, support, p, pos[d], fieldPos[d], s[d], q[d], pos[d] - fieldPos[d]);
  }

  lemma AllAxes(assign: real -> real, support: nat, p: Span, pos: seq<real>, fieldPos: seq<real>,
                s: seq<int>, q: seq<real>)
    requires support >= 1 && Vanishes(assign, support) && p == SpanOf(support)
    requires |pos| == |fieldPos| == |s| == |q| && InCell(pos) && IsFieldPosition(fieldPos)
    requires forall d :: 0 <= d < |s| ==> IsShifted(support, pos[d], fieldPos[d], s[d], q[d])
    ensures forall d :: 0 <= d < |s| ==> SameWeights(assign, p, pos[d], fieldPos[d], s[d], q[d])
  {
    forall d | 0 <= d < |s| ensures SameWeights(assign, p, pos[d], fieldPos[d], s[d], q[d]) {
      AxisAt(assign, support, p, pos, fieldPos, s, q, d);
    }
  }

  /** A copy of the position, and how the coordinate system moves for it. */
  method Shifted(support: nat, particlePos: seq<real>, fieldPos: seq<real>) returns (s: seq<int>, q: seq<real>)
    requires |particlePos| == |fieldPos|
    ensures |s| == |q| == |fieldPos|
    ensures forall d :: 0 <= d < |s| ==> IsShifted(support, particlePos[d], fieldPos[d], s[d], q[d])
  {
    var box := new int[|particlePos|](_ => 0);
    var pos := new real[|particlePos|](i requires 0 <= i < |particlePos| => particlePos[i]);
    ShiftCoordinateSystem(support, box, pos, fieldPos);
    s, q := box[..], pos[..];
  }

  lemma WholeMargin3(f: Field3, assign: real -> real, p: Span, pos: seq<real>, fieldPos: seq<real>,
                     s: seq<int>, q: seq<real>)
    requires |pos| == |fieldPos| == |s| == |q| == 3
    requires forall d :: 0 <= d < 3 ==> SameWeights(assign, p, pos[d], fieldPos[d], s[d], q[d])
    ensures Nested3(Moved3(f, s[0], s[1], s[2]), Shape(assign, q[0]), Shape(assign, q[1]), Shape(assign, q[2]),
                    p.begin, p.n) == AtParticle3(f, assign, p, pos, fieldPos)
  {
    assert SameWeights(assign, p, pos[0], fieldPos[0], s[0], q[0]);
    assert SameWeights(assign, p, pos[1], fieldPos[1], s[1], q[1]);
    assert SameWeights(assign, p, pos[2], fieldPos[2], s[2], q[2]);
    MovedWidens3(f, Shape(assign, q[0]), Shape(assign, q[1]), Shape(assign, q[2]),
                 Shape(assign, pos[0] - fieldPos[0]), Shape(assign, pos[1] - fieldPos[1]),
                 Shape(assign, pos[2] - fieldPos[2]), p, s[0], s[1], s[2]);
  }

  lemma WholeMargin2(f: Field2, assign: real -> real, p: Span, pos: seq<real>, fieldPos: seq<real>,
                     s: seq<int>, q: seq<real>)
    requires |pos| == |fieldPos| == |s| == |q| == 2
    requires forall d :: 0 <= d < 2 ==> SameWeights(assign, p, pos[d], fieldPos[d], s[d], q[d])
    ensures Nested2(Moved2(f, s[0], s[1]), Shape(assign, q[0]), Shape(assign, q[1]), p.begin, p.n)
         == AtParticle2(f, assign, p, pos, fieldPos)
  {
    assert SameWeights(assign, p, pos[0], fieldPos[0], s[0], q[0]);
    assert SameWeights(assign, p, pos[1], fieldPos[1], s[1], q[1]);
    MovedWidens2(f, Shape(assign, q[0]), Shape(assign, q[1]), Shape(assign, pos[0] - fieldPos[0]),
                 Shape(assign, pos[1] - fieldPos[1]), p, s[0], s[1]);
  }

  /** One component of a field, at a particle in three dimensions or in two. */
  method Component3(f: Field3, assign: real -> real, support: nat, particlePos: seq<real>, fieldPos: seq<real>)
    returns (r: real)
    requires support >= 1 && Vanishes(assign, support)
    requires |particlePos| == |fieldPos| == 3 && InCell(particlePos) && IsFieldPosition(fieldPos)
    ensures r == AtParticle3(f, assign, SpanOf(support), particlePos, fieldPos)
  {
    var s, q := Shifted(support, particlePos, fieldPos);
    var begin, end := Begin(support), End(support);
    r := Interpolate3(Moved3(f, s[0], s[1], s[2]), Shape(assign, q[0]), Shape(assign, q[1]), Shape(assign, q[2]),
                      begin, end);
    AllAxes(assign, support, SpanOf(support), particlePos, fieldPos, s, q);
    WholeMargin3(f, assign, SpanOf(support), particlePos, fieldPos, s, q);
  }

  method Component2(f: Field2, assign: real -> real, support: nat, particlePos: seq<real>, fieldPos: seq<real>)
    returns (r: real)
    requires support >= 1 && Vanishes(assign, support)
    requires |particlePos| == |fieldPos| == 2 && InCell(particlePos) && IsFieldPosition(fieldPos)
    ensures r == AtParticle2(f, assign, SpanOf(support), particlePos, fieldPos)
  {
    var s, q := Shifted(support, particlePos, fieldPos);
    var begin, end := Begin(support), End(support);
    r := Interpolate2(Moved2(f, s[0], s[1]), Shape(assign, q[0]), Shape(assign, q[1]), begin, end);
    AllAxes(assign, support, SpanOf(support), particlePos, fieldPos, s, q);
    WholeMargin2(f, assign, SpanOf(support), particlePos, fieldPos, s, q);
  }

  /** The field's components at a particle, each with its own position on the grid. */
  ghost function Components3(field: seq<Field3>, assign: real -> real, p: Span, pos: seq<real>,
                             fieldPos: seq<seq<real>>): (r: seq<real>)
    requires |pos| == 3 && |field| == |fieldPos|
    requires forall i :: 0 <= i < |fieldPos| ==> |fieldPos[i]| == 3
    ensures |r| == |field|
  {
    seq(|field|, i requires 0 <= i < |field| => AtParticle3(field[i], assign, p, pos, fieldPos[i]))
  }

  /** All components: each is shifted on its own, from the unshifted field and position. */
  method FieldToParticle3(field: seq<Field3>, assign: real -> real, support: nat, particlePos: seq<real>,
                          fieldPos: seq<seq<real>>) returns (result: seq<real>)
    requires support >= 1 && Vanishes(assign, support) && |particlePos| == 3 && InCell(particlePos)
    requires |field| == |fieldPos|
    requires forall i :: 0 <= i < |fieldPos| ==> |fieldPos[i]| == 3 && IsFieldPosition(fieldPos[i])
    ensures result == Components3(field, assign, SpanOf(support), particlePos, fieldPos)
    ensures forall i :: 0 <= i < |field| ==>
              result[i] == AtParticle3(field[i], assign, SpanOf(support), particlePos, fieldPos[i])
  {
    ghost var want := Components3(field, assign, SpanOf(support), particlePos, fieldPos);
    result := [];
    for i := 0 to |field|
      invariant result == want[..i]
    {
      var r := Component3(field[i], assign, support, particlePos, fieldPos[i]);
      assert r == want[i];
      result := result + [r];
    }
  }

  /** The field's components at a particle, each with its own position on the grid. */
  ghost function Components2(field: seq<Field2>, assign: real -> real, p: Span, pos: seq<real>,
                             fieldPos: seq<seq<real>>): (r: seq<real>)
    requires |pos| == 2 && |field| == |fieldPos|
    requires forall i :: 0 <= i < |fieldPos| ==> |fieldPos[i]| == 2
    ensures |r| == |field|
  {
    seq(|field|, i requires 0 <= i < |field| => AtParticle2(field[i], assign, p, pos, fieldPos[i]))
  }

  /** All components: each is shifted on its own, from the unshifted field and position. */
  method FieldToParticle2(field: seq<Field2>, assign: real -> real, support: nat, particlePos: seq<real>,
                          fieldPos: seq<seq<real>>) returns (result: seq<real>)
    requires support >= 1 && Vanishes(assign, support) && |particlePos| == 2 && InCell(particlePos)
    requires |field| == |fieldPos|
    requires forall i :: 0 <= i < |fieldPos| ==> |fieldPos[i]| == 2 && IsFieldPosition(fieldPos[i])
    ensures result == Components2(field, assign, SpanOf(support), particlePos, fieldPos)
    ensures forall i :: 0 <= i < |field| ==>
              result[i] == AtParticle2(field[i], assign, SpanOf(support), particlePos, fieldPos[i])
  {
    ghost var want := Components2(field, assign, SpanOf(support), particlePos, fieldPos);
    result := [];
    for i := 0 to |field|
      invariant result == want[..i]
    {
      var r := Component2(field[i], assign, support, particlePos, fieldPos[i]);
      assert r == want[i];
      result := result + [r];
    }
  }

  // ---------------------------------------------------------------- assignment functions

  function Abs(t: real): real { if t >= 0.0 then t else -t }

  /** Nearest grid point: zeroth-order spline; its value on the one cell of the support. */
  function Ngp(t: real): real { if -0.5 <= t < 0.5 then 1.0 else 0.0 }

  function NgpValues(x: real): seq<real> { [1.0] }

  /** Cloud in cell: first-order spline; its values on the two cells of the support. */
  function Cic(t: real): real { if Abs(t) < 1.0 then 1.0 - Abs(t) else 0.0 }

  function CicValues(x: real): seq<real> { [1.0 - x, x] }

  function TscInner(t: real): real { 0.75 - t * t }

  function TscOuter(t: real): real { 0.5 * ((1.5 - t) * (1.5 - t)) }

  /** Triangular-shaped cloud: second-order spline; its values on the three cells of the support. */
  function Tsc(t: real): real {
    if Abs(t) < 0.5 then TscInner(Abs(t)) else if Abs(t) < 1.5 then TscOuter(Abs(t)) else 0.0
  }

  function TscValues(x: real): seq<real> {
    var low, mid := TscOuter(Abs(-1.0 - x)), TscInner(Abs(x));
    [low, mid, 1.0 - (low + mid)]
  }

  function PqsInner(t: real): real { (4.0 - 6.0 * (t * t) + 3.0 * (t * t * t)) / 6.0 }

  function PqsOuter(t: real): real { (2.0 - t) * (2.0 - t) * (2.0 - t) / 6.0 }

  /** Piecewise quadratic cloud: third-order spline; its values on the four cells of the support. */
  function Pqs(t: real): real {
    if Abs(t) < 1.0 then PqsInner(Abs(t)) else if Abs(t) < 2.0 then PqsOuter(Abs(t)) else 0.0
  }

  function PqsValues(x: real): seq<real> {
    var a, b, d := PqsOuter(Abs(-1.0 - x)), PqsInner(x), PqsOuter(2.0 - x);
    [a, b, 1.0 - (a + b + d), d]
  }

  function PcsInner(t: real): real { 115.0 / 192.0 + t * t * (-5.0 / 8.0 + t * t / 4.0) }

  function PcsMiddle(t: real): real {
    (55.0 + 4.0 * t * (5.0 - 2.0 * t * (15.0 + 2.0 * t * (t - 5.0)))) / 96.0
  }

  function PcsOuter(t: real): real {
    var square := (5.0 - 2.0 * t) * (5.0 - 2.0 * t);
    square * square / 384.0
  }

  /** Piecewise cubic cloud: fourth-order spline; its values on the five cells of the support. */
  function Pcs(t: real): real {
    if Abs(t) < 0.5 then PcsInner(Abs(t))
    else if Abs(t) < 1.5 then PcsMiddle(Abs(t))
    else if Abs(t) < 2.5 then PcsOuter(Abs(t))
    else 0.0
  }

  function PcsValues(x: real): seq<real> {
    var a, b, c, e := PcsOuter(Abs(-2.0 - x)), PcsMiddle(Abs(-1.0 - x)), PcsInner(Abs(x)), PcsOuter(2.0 - x);
    [a, b, c, 1.0 - (a + b + c + e), e]
  }

  lemma NgpWeights(x: real)
    requires OnSupport(1, x)
    ensures Convex(Shape(Ngp, x), Begin(1), 1) && NgpValues(x)[0] == Shape(Ngp, x)(Begin(1))
  {
    var w := Shape(Ngp, x);
    assert Begin(1) == 0 && w(0) == 1.0;
    assert Sum(w, 0, 1) == Sum(w, 0, 0) + w(0);
  }

  lemma CicWeights(x: real)
    requires OnSupport(2, x)
    ensures Convex(Shape(Cic, x), Begin(2), 2)
    ensures forall j :: 0 <= j < 2 ==> CicValues(x)[j] == Shape(Cic, x)(Begin(2) + j)
  {
    var w := Shape(Cic, x);
    assert Begin(2) == 0 && w(0) == 1.0 - x && w(1) == x;
    assert Sum(w, 0, 2) == Sum(w, 0, 1) + w(1) && Sum(w, 0, 1) == Sum(w, 0, 0) + w(0);
  }

  lemma Squares(x: real)
    ensures Abs(x) * Abs(x) == x * x
    ensures 0.5 * ((0.5 + x) * (0.5 + x)) == 1.0 - (0.5 * ((0.5 - x) * (0.5 - x)) + (0.75 - x * x))
    ensures (0.5 - x) * (0.5 - x) >= 0.0 && (0.5 + x) * (0.5 + x) >= 0.0
  {
  }

  lemma TscAt(x: real)
    requires -0.5 <= x < 0.5
    ensures Tsc(x + 1.0) == 0.5 * ((0.5 - x) * (0.5 - x))
    ensures Tsc(x) == 0.75 - x * x
    ensures Tsc(x - 1.0) == 0.5 * ((0.5 + x) * (0.5 + x))
  {
    if x == -0.5 {
      assert Tsc(-0.5) == TscOuter(0.5);
    }
    Squares(x);
  }

  lemma ProductSign(a: real, b: real)
    requires a >= 0.0 && b >= 0.0
    ensures a * b >= 0.0
  {
  }

  lemma InnerIsPositive(x: real)
    requires -0.5 <= x <= 0.5
    ensures 0.75 - x * x >= 0.0
  {
    var a, b := 0.5 - x, 0.5 + x;
    ProductSign(a, b);
    assert a * b == 0.25 - x * x;
  }

  lemma SumOfThree(w: Weight, lo: int)
    ensures Sum(w, lo, 3) == w(lo) + w(lo + 1) + w(lo + 2)
  {
    assert Sum(w, lo, 2) == Sum(w, lo, 1) + w(lo + 1) && Sum(w, lo, 1) == Sum(w, lo, 0) + w(lo);
  }

  /** The values on the support, the last one of which the program takes as the rest to one. */
  lemma TscOnSupport(x: real)
    requires OnSupport(3, x)
    ensures TscValues(x) == [Tsc(x + 1.0), Tsc(x), Tsc(x - 1.0)]
    ensures Tsc(x + 1.0) >= 0.0 && Tsc(x) >= 0.0 && Tsc(x - 1.0) >= 0.0
    ensures Tsc(x + 1.0) + Tsc(x) + Tsc(x - 1.0) == 1.0
  {
    TscAt(x);
    Squares(x);
    InnerIsPositive(x);
  }

  lemma ThreeWeights(assign: real -> real, x: real, v: seq<real>)
    requires v == [assign(x + 1.0), assign(x), assign(x - 1.0)]
    requires v[0] >= 0.0 && v[1] >= 0.0 && v[2] >= 0.0 && v[0] + v[1] + v[2] == 1.0
    ensures Convex(Shape(assign, x), -1, 3) && forall j :: 0 <= j < 3 ==> v[j] == Shape(assign, x)(-1 + j)
  {
    var w := Shape(assign, x);
    assert x - (-1) as real == x + 1.0 && x - 0 as real == x && x - 1 as real == x - 1.0;
    assert w(-1) == v[0] && w(0) == v[1] && w(1) == v[2];
    SumOfThree(w, -1);
  }

  lemma TscWeights(x: real)
    requires OnSupport(3, x)
    ensures Convex(Shape(Tsc, x), Begin(3), 3)
    ensures forall j :: 0 <= j < 3 ==> TscValues(x)[j] == Shape(Tsc, x)(Begin(3) + j)
  {
    TscOnSupport(x);
    ThreeWeights(Tsc, x, TscValues(x));
    assert Begin(3) == -1;
  }

  /** Where the pieces meet they agree. */
  lemma PqsAt(x: real)
    requires 0.0 <= x < 1.0
    ensures Pqs(x + 1.0) == PqsOuter(x + 1.0) && Pqs(x) == PqsInner(x)
    ensures Pqs(x - 1.0) == PqsInner(1.0 - x) && Pqs(x - 2.0) == PqsOuter(2.0 - x)
  {
    assert PqsOuter(1.0) == PqsInner(1.0) && PqsOuter(2.0) == 0.0;
  }

  lemma PqsAddsUp(x: real)
    ensures PqsOuter(x + 1.0) + PqsInner(x) + PqsInner(1.0 - x) + PqsOuter(2.0 - x) == 1.0
  {
  }

  lemma PqsNotNegative(t: real)
    ensures 0.0 <= t <= 1.0 ==> PqsInner(t) >= 0.0
    ensures 1.0 <= t <= 2.0 ==> PqsOuter(t) >= 0.0
  {
    if 0.0 <= t <= 1.0 {
      ProductSign(t, 1.0 - t);
      ProductSign(1.0 - t, 1.0 + t * (1.0 - t));
      assert 6.0 * PqsInner(t) == 1.0 + 3.0 * ((1.0 - t) * (1.0 + t * (1.0 - t)));
    }
    if 1.0 <= t <= 2.0 {
      ProductSign(2.0 - t, 2.0 - t);
      ProductSign((2.0 - t) * (2.0 - t), 2.0 - t);
    }
  }

  lemma PqsOnSupport(x: real)
    requires OnSupport(4, x)
    ensures PqsValues(x) == [Pqs(x + 1.0), Pqs(x), Pqs(x - 1.0), Pqs(x - 2.0)]
    ensures Pqs(x + 1.0) >= 0.0 && Pqs(x) >= 0.0 && Pqs(x - 1.0) >= 0.0 && Pqs(x - 2.0) >= 0.0
    ensures Pqs(x + 1.0) + Pqs(x) + Pqs(x - 1.0) + Pqs(x - 2.0) == 1.0
  {
    PqsAt(x);
    PqsAddsUp(x);
    PqsNotNegative(x + 1.0);
    PqsNotNegative(x);
    PqsNotNegative(1.0 - x);
    PqsNotNegative(2.0 - x);
  }

  lemma SumOfFive(w: Weight, lo: int)
    ensures Sum(w, lo, 4) == w(lo) + w(lo + 1) + w(lo + 2) + w(lo + 3)
    ensures Sum(w, lo, 5) == w(lo) + w(lo + 1) + w(lo + 2) + w(lo + 3) + w(lo + 4)
  {
    SumOfThree(w, lo);
    SumNext(w, lo, 3, w(lo + 3));
    SumNext(w, lo, 4, w(lo + 4));
  }

  lemma FourWeights(assign: real -> real, x: real, v: seq<real>)
    requires v == [assign(x + 1.0), assign(x), assign(x - 1.0), assign(x - 2.0)]
    requires v[0] >= 0.0 && v[1] >= 0.0 && v[2] >= 0.0 && v[3] >= 0.0 && v[0] + v[1] + v[2] + v[3] == 1.0
    ensures Convex(Shape(assign, x), -1, 4) && forall j :: 0 <= j < 4 ==> v[j] == Shape(assign, x)(-1 + j)
  {
    var w := Shape(assign, x);
    assert x - (-1) as real == x + 1.0 && x - 0 as real == x && x - 1 as real == x - 1.0 && x - 2 as real == x - 2.0;
    assert w(-1) == v[0] && w(0) == v[1] && w(1) == v[2] && w(2) == v[3];
    SumOfFive(w, -1);
  }

  lemma PqsWeights(x: real)
    requires OnSupport(4, x)
    ensures Convex(Shape(Pqs, x), Begin(4), 4)
    ensures forall j :: 0 <= j < 4 ==> PqsValues(x)[j] == Shape(Pqs, x)(Begin(4) + j)
  {
    PqsOnSupport(x);
    FourWeights(Pqs, x, PqsValues(x));
    assert Begin(4) == -1;
  }

  lemma PcsMeets()
    ensures PcsInner(0.5) == PcsMiddle(0.5) && PcsMiddle(1.5) == PcsOuter(1.5) && PcsOuter(2.5) == 0.0
  {
  }

  lemma PcsAt(x: real)
    requires -0.5 <= x < 0.5
    ensures Pcs(x + 2.0) == PcsOuter(x + 2.0) && Pcs(x + 1.0) == PcsMiddle(x + 1.0) && Pcs(x) == PcsInner(Abs(x))
    ensures Pcs(x - 1.0) == PcsMiddle(1.0 - x) && Pcs(x - 2.0) == PcsOuter(2.0 - x)
  {
    PcsMeets();
  }

  lemma PcsAddsUp(x: real)
    ensures PcsOuter(x + 2.0) + PcsMiddle(x + 1.0) + PcsInner(Abs(x)) + PcsMiddle(1.0 - x) + PcsOuter(2.0 - x) == 1.0
  {
    Squares(x);
  }

  lemma PcsInnerSign(t: real)
    requires 0.0 <= t <= 0.5
    ensures PcsInner(t) >= 0.0
  {
    ProductSign(t, 0.5 - t);
    var s := t * t;
    assert 0.0 <= s <= 0.5 * t;
    ProductSign(s, s);
    assert PcsInner(t) == 115.0 / 192.0 - 5.0 / 8.0 * s + s * s / 4.0;
  }

  /** The middle piece, by the distance to its end. */
  lemma PcsMiddleSign(v: real)
    requires 0.0 <= v <= 1.0
    ensures PcsMiddle(1.5 - v) >= 0.0
  {
    ProductSign(v, v);
    ProductSign(v * v, v);
    ProductSign(v * v * v, 1.0 - v);
    assert 96.0 * PcsMiddle(1.5 - v) == 4.0 + 16.0 * v + 24.0 * (v * v) + 16.0 * (v * v * v * (1.0 - v));
  }

  lemma PcsOuterSign(t: real)
    ensures PcsOuter(t) >= 0.0
  {
    var square := (5.0 - 2.0 * t) * (5.0 - 2.0 * t);
    ProductSign(square, square);
  }

  lemma PcsNotNegative(t: real)
    ensures 0.0 <= t <= 0.5 ==> PcsInner(t) >= 0.0
    ensures 0.5 <= t <= 1.5 ==> PcsMiddle(t) >= 0.0
    ensures PcsOuter(t) >= 0.0
  {
    if 0.0 <= t <= 0.5 {
      PcsInnerSign(t);
    }
    if 0.5 <= t <= 1.5 {
      PcsMiddleSign(1.5 - t);
    }
    PcsOuterSign(t);
  }

  lemma PcsOnSupport(x: real)
    requires OnSupport(5, x)
    ensures PcsValues(x) == [Pcs(x + 2.0), Pcs(x + 1.0), Pcs(x), Pcs(x - 1.0), Pcs(x - 2.0)]
    ensures Pcs(x + 2.0) >= 0.0 && Pcs(x + 1.0) >= 0.0 && Pcs(x) >= 0.0 && Pcs(x - 1.0) >= 0.0 && Pcs(x - 2.0) >= 0.0
    ensures Pcs(x + 2.0) + Pcs(x + 1.0) + Pcs(x) + Pcs(x - 1.0) + Pcs(x - 2.0) == 1.0
  {
    PcsAt(x);
    PcsAddsUp(x);
    PcsNotNegative(x + 2.0);
    PcsNotNegative(x + 1.0);
    PcsNotNegative(Abs(x));
    PcsNotNegative(1.0 - x);
    PcsNotNegative(2.0 - x);
  }

  lemma FiveWeights(assign: real -> real, x: real, v: seq<real>)
    requires v == [assign(x + 2.0), assign(x + 1.0), assign(x), assign(x - 1.0), assign(x - 2.0)]
    requires v[0] >= 0.0 && v[1] >= 0.0 && v[2] >= 0.0 && v[3] >= 0.0 && v[4] >= 0.0
    requires v[0] + v[1] + v[2] + v[3] + v[4] == 1.0
    ensures Convex(Shape(assign, x), -2, 5) && forall j :: 0 <= j < 5 ==> v[j] == Shape(assign, x)(-2 + j)
  {
    var w := Shape(assign, x);
    assert x - (-2) as real == x + 2.0 && x - (-1) as real == x + 1.0 && x - 0 as real == x;
    assert w(-2) == v[0] && w(-1) == v[1] && w(0) == v[2] && w(1) == v[3] && w(2) == v[4];
    SumOfFive(w, -2);
  }

  lemma PcsWeights(x: real)
    requires OnSupport(5, x)
    ensures Convex(Shape(Pcs, x), Begin(5), 5)
    ensures forall j :: 0 <= j < 5 ==> PcsValues(x)[j] == Shape(Pcs, x)(Begin(5) + j)
  {
    PcsOnSupport(x);
    FiveWeights(Pcs, x, PcsValues(x));
    assert Begin(5) == -2;
  }

  /** The assignment functions are the splines of their orders: each follows from the one before
      by the recursion for splines. */
  lemma CicIsSpline(t: real)
    ensures Cic(t) == (1.0 + t) * Ngp(t + 0.5) + (1.0 - t) * Ngp(t - 0.5)
  {
  }

  lemma TscIsSpline(t: real)
    ensures 2.0 * Tsc(t) == (1.5 + t) * Cic(t + 0.5) + (1.5 - t) * Cic(t - 0.5)
  {
    if t >= 1.5 || t < -1.5 {
    } else if t >= 0.5 {
      assert Cic(t + 0.5) == 0.0 && Cic(t - 0.5) == 1.5 - t;
    } else if t < -0.5 {
      assert Cic(t - 0.5) == 0.0 && Cic(t + 0.5) == 1.5 + t;
    } else {
      assert Cic(t + 0.5) == 0.5 - t && Cic(t - 0.5) == 0.5 + t;
      TscAt(t);
    }
  }

  lemma Mirrored(t: real)
    ensures Tsc(-t) == Tsc(t) && Pqs(-t) == Pqs(t) && Pcs(-t) == Pcs(t)
  {
    assert Abs(-t) == Abs(t);
  }

  lemma PqsPieces(t: real)
    ensures 3.0 * PqsOuter(t) == (2.0 - t) * TscOuter(t - 0.5)
    ensures 3.0 * PqsInner(t) == (2.0 + t) * TscOuter(t + 0.5) + (2.0 - t) * TscInner(t - 0.5)
  {
  }

  lemma TscNear(t: real)
    requires 0.0 <= t < 2.0
    ensures Tsc(t - 0.5) == if t < 1.0 then TscInner(t - 0.5) else TscOuter(t - 0.5)
    ensures Tsc(t + 0.5) == if t < 1.0 then TscOuter(t + 0.5) else 0.0
  {
    if t < 1.0 { TscAt(t - 0.5); }
  }

  lemma PqsRight(t: real)
    requires t >= 0.0
    ensures 3.0 * Pqs(t) == (2.0 + t) * Tsc(t + 0.5) + (2.0 - t) * Tsc(t - 0.5)
  {
    if t < 2.0 {
      PqsPieces(t);
      TscNear(t);
    }
  }

  lemma SwapTerms(t: real, u: real, n: real, a: real, b: real)
    requires u == -t
    ensures (n + u) * b + (n - u) * a == (n + t) * a + (n - t) * b
  {
  }

  lemma PqsIsSpline(t: real)
    ensures 3.0 * Pqs(t) == (2.0 + t) * Tsc(t + 0.5) + (2.0 - t) * Tsc(t - 0.5)
  {
    if t >= 0.0 {
      PqsRight(t);
    } else {
      var u := -t;
      PqsRight(u);
      Mirrored(t);
      Mirrored(t + 0.5);
      Mirrored(t - 0.5);
      assert u + 0.5 == -(t - 0.5) && u - 0.5 == -(t + 0.5);
      SwapTerms(t, u, 2.0, Tsc(t + 0.5), Tsc(t - 0.5));
    }
  }

  lemma PcsOuterPiece(t: real)
    ensures 4.0 * PcsOuter(t) == (2.5 - t) * PqsOuter(t - 0.5)
  {
  }

  lemma PcsMiddlePiece(t: real)
    ensures 4.0 * PcsMiddle(t) == (2.5 + t) * PqsOuter(t + 0.5) + (2.5 - t) * PqsInner(t - 0.5)
  {
  }

  lemma PcsInnerPiece(t: real)
    ensures 4.0 * PcsInner(t) == (2.5 + t) * PqsInner(t + 0.5) + (2.5 - t) * PqsInner(0.5 - t)
  {
  }

  lemma PqsNear(t: real)
    requires 0.0 <= t < 2.5
    ensures Pqs(t - 0.5) == if t < 0.5 then PqsInner(0.5 - t)
                            else if t < 1.5 then PqsInner(t - 0.5) else PqsOuter(t - 0.5)
    ensures Pqs(t + 0.5) == if t < 0.5 then PqsInner(t + 0.5) else if t < 1.5 then PqsOuter(t + 0.5) else 0.0
  {
  }

  lemma PcsNear(t: real)
    requires 0.0 <= t < 2.5
    ensures Pcs(t) == if t < 0.5 then PcsInner(t) else if t < 1.5 then PcsMiddle(t) else PcsOuter(t)
  {
  }

  lemma PcsRight(t: real)
    requires t >= 0.0
    ensures 4.0 * Pcs(t) == (2.5 + t) * Pqs(t + 0.5) + (2.5 - t) * Pqs(t - 0.5)
  {
    if t < 2.5 {
      PqsNear(t);
      PcsNear(t);
      if t < 0.5 { PcsInnerPiece(t); } else if t < 1.5 { PcsMiddlePiece(t); } else { PcsOuterPiece(t); }
    }
  }

  lemma PcsIsSpline(t: real)
    ensures 4.0 * Pcs(t) == (2.5 + t) * Pqs(t + 0.5) + (2.5 - t) * Pqs(t - 0.5)
  {
    if t >= 0.0 {
      PcsRight(t);
    } else {
      var u := -t;
      PcsRight(u);
      Mirrored(t);
      Mirrored(t + 0.5);
      Mirrored(t - 0.5);
      assert u + 0.5 == -(t - 0.5) && u - 0.5 == -(t + 0.5);
      SwapTerms(t, u, 2.5, Pqs(t + 0.5), Pqs(t - 0.5));
    }
  }

  // ---------------------------------------------------------------- what particles see

  /** On the support the weights of an axis are not negative and add up to one. */
  ghost predicate Partitions(assign: real -> real, support: nat) {
    forall q :: OnSupport(support, q) ==> Convex(Shape(assign, q), Begin(support), support)
  }

  /** The field on the cells of the margin is between two values. */
  ghost predicate Within2(f: Field2, p: Span, min: real, max: real) {
    forall x, y :: p.lo <= x < p.lo + p.width && p.lo <= y < p.lo + p.width ==> min <= f(x, y) <= max
  }

  ghost predicate Within3(f: Field3, p: Span, min: real, max: real) {
    forall x, y, z :: p.lo <= x < p.lo + p.width && p.lo <= y < p.lo + p.width && p.lo <= z < p.lo + p.width ==>
                        min <= f(x, y, z) <= max
  }

  /** Where the shift leaves a particle. */
  lemma ShiftOf(assign: real -> real, support: nat, p: Span, pos: seq<real>, fieldPos: seq<real>)
    returns (s: seq<int>, q: seq<real>)
    requires support >= 1 && Vanishes(assign, support) && Partitions(assign, support) && p == SpanOf(support)
    requires |pos| == |fieldPos| && InCell(pos) && IsFieldPosition(fieldPos)
    ensures |s| == |q| == |pos|
    ensures forall d :: 0 <= d < |s| ==> SameWeights(assign, p, pos[d], fieldPos[d], s[d], q[d])
    ensures forall d :: 0 <= d < |s| ==> Convex(Shape(assign, q[d]), p.begin, p.n)
  {
    s := seq(|pos|, d requires 0 <= d < |pos| => IntShift(support, pos[d] - fieldPos[d]));
    q := seq(|pos|, d requires 0 <= d < |pos| =>
               pos[d] - fieldPos[d] - IntShift(support, pos[d] - fieldPos[d]) as real);
    forall d | 0 <= d < |s| ensures OnSupport(support, q[d]) { Lands(support, pos[d], fieldPos[d], s[d], q[d]); }
    AllAxes(assign, support, p, pos, fieldPos, s, q);
  }

  lemma MovedBounded3(f: Field3, w0: Weight, w1: Weight, w2: Weight, p: Span, a: int, b: int, c: int,
                      min: real, max: real)
    requires p.Holds(a) && p.Holds(b) && p.Holds(c) && Within3(f, p, min, max)
    requires Convex(w0, p.begin, p.n) && Convex(w1, p.begin, p.n) && Convex(w2, p.begin, p.n)
    ensures min <= Nested3(Moved3(f, a, b, c), w0, w1, w2, p.begin, p.n) <= max
  {
    Bounded3(Moved3(f, a, b, c), w0, w1, w2, p.begin, p.n, min, max);
  }

  /** What a particle sees is between the bounds of the field on the margin; in particular it
      sees a constant field as it is. */
  lemma AtParticleBounded3(f: Field3, assign: real -> real, support: nat, p: Span, pos: seq<real>, fieldPos: seq<real>,
                           min: real, max: real)
    requires support >= 1 && Vanishes(assign, support) && Partitions(assign, support) && p == SpanOf(support)
    requires |pos| == |fieldPos| == 3 && InCell(pos) && IsFieldPosition(fieldPos) && Within3(f, p, min, max)
    ensures min <= AtParticle3(f, assign, p, pos, fieldPos) <= max
  {
    var s, q := ShiftOf(assign, support, p, pos, fieldPos);
    WholeMargin3(f, assign, p, pos, fieldPos, s, q);
    MovedBounded3(f, Shape(assign, q[0]), Shape(assign, q[1]), Shape(assign, q[2]), p, s[0], s[1], s[2], min, max);
  }

  lemma MovedBounded2(f: Field2, w0: Weight, w1: Weight, p: Span, a: int, b: int, min: real, max: real)
    requires p.Holds(a) && p.Holds(b) && Within2(f, p, min, max)
    requires Convex(w0, p.begin, p.n) && Convex(w1, p.begin, p.n)
    ensures min <= Nested2(Moved2(f, a, b), w0, w1, p.begin, p.n) <= max
  {
    Bounded2(Moved2(f, a, b), w0, w1, p.begin, p.n, min, max);
  }

  lemma AtParticleBounded2(f: Field2, assign: real -> real, support: nat, p: Span, pos: seq<real>, fieldPos: seq<real>,
                           min: real, max: real)
    requires support >= 1 && Vanishes(assign, support) && Partitions(assign, support) && p == SpanOf(support)
    requires |pos| == |fieldPos| == 2 && InCell(pos) && IsFieldPosition(fieldPos) && Within2(f, p, min, max)
    ensures min <= AtParticle2(f, assign, p, pos, fieldPos) <= max
  {
    var s, q := ShiftOf(assign, support, p, pos, fieldPos);
    WholeMargin2(f, assign, p, pos, fieldPos, s, q);
    MovedBounded2(f, Shape(assign, q[0]), Shape(assign, q[1]), p, s[0], s[1], min, max);
  }

  lemma SplinesVanish()
    ensures Vanishes(Ngp, 1) && Vanishes(Cic, 2) && Vanishes(Tsc, 3) && Vanishes(Pqs, 4) && Vanishes(Pcs, 5)
  {
  }

  /** The shapes meet all that is asked of an assignment function. */
  lemma ShapesFit()
    ensures Vanishes(Ngp, 1) && Vanishes(Cic, 2) && Vanishes(Tsc, 3) && Vanishes(Pqs, 4) && Vanishes(Pcs, 5)
    ensures Partitions(Ngp, 1) && Partitions(Cic, 2) && Partitions(Tsc, 3) && Partitions(Pqs, 4) && Partitions(Pcs, 5)
  {
    SplinesVanish();
    forall q | OnSupport(1, q) ensures Convex(Shape(Ngp, q), Begin(1), 1) { NgpWeights(q); }
    forall q | OnSupport(2, q) ensures Convex(Shape(Cic, q), Begin(2), 2) { CicWeights(q); }
    forall q | OnSupport(3, q) ensures Convex(Shape(Tsc, q), Begin(3), 3) { TscWeights(q); }
    forall q | OnSupport(4, q) ensures Convex(Shape(Pqs, q), Begin(4), 4) { PqsWeights(q); }
    forall q | OnSupport(5, q) ensures Convex(Shape(Pcs, q), Begin(5), 5) { PcsWeights(q); }
  }

  /** The particle shapes, each with its support and assignment function. */
  datatype ParticleShape = NGP | CIC | TSC | PQS | PCS {
    function Support(): nat {
      match this case NGP => 1 case CIC => 2 case TSC => 3 case PQS => 4 case PCS => 5
    }

    function Assign(): real -> real {
      match this case NGP => Ngp case CIC => Cic case TSC => Tsc case PQS => Pqs case PCS => Pcs
    }
  }

  /** Whatever the shape, a particle sees every component within its bounds on the margin, and a
      constant one as it is. */
  lemma ParticleSees3(shape: ParticleShape, f: Field3, pos: seq<real>, fieldPos: seq<real>, min: real, max: real)
    requires |pos| == |fieldPos| == 3 && InCell(pos) && IsFieldPosition(fieldPos)
    requires Within3(f, SpanOf(shape.Support()), min, max)
    ensures min <= AtParticle3(f, shape.Assign(), SpanOf(shape.Support()), pos, fieldPos) <= max
  {
    ShapesFit();
    AtParticleBounded3(f, shape.Assign(), shape.Support(), SpanOf(shape.Support()), pos, fieldPos, min, max);
  }

  lemma ParticleSees2(shape: ParticleShape, f: Field2, pos: seq<real>, fieldPos: seq<real>, min: real, max: real)
    requires |pos| == |fieldPos| == 2 && InCell(pos) && IsFieldPosition(fieldPos)
    requires Within2(f, SpanOf(shape.Support()), min, max)
    ensures min <= AtParticle2(f, shape.Assign(), SpanOf(shape.Support()), pos, fieldPos) <= max
  {
    ShapesFit();
    AtParticleBounded2(f, shape.Assign(), shape.Support(), SpanOf(shape.Support()), pos, fieldPos, min, max);
  }

  // ---------------------------------------------------------------- linear fields

  function Moment(w: Weight): Weight {
    j => w(j) * j as real
  }

  /** On the support, the weights of an axis are centred at the particle. */
  ghost predicate Centred(assign: real -> real, support: nat) {
    forall q :: OnSupport(support, q) ==> Sum(Moment(Shape(assign, q)), Begin(support), support) == q
  }

  lemma MomentOfThree(assign: real -> real, x: real, v: seq<real>)
    requires v == [assign(x + 1.0), assign(x), assign(x - 1.0)]
    ensures Sum(Moment(Shape(assign, x)), -1, 3) == v[2] - v[0]
  {
    var m := Moment(Shape(assign, x));
    assert x - (-1) as real == x + 1.0 && x - 0 as real == x && x - 1 as real == x - 1.0;
    assert m(-1) == v[0] * -1.0 && m(0) == v[1] * 0.0 && m(1) == v[2] * 1.0;
    SumOfThree(m, -1);
  }

  lemma MomentOfFour(assign: real -> real, x: real, v: seq<real>)
    requires v == [assign(x + 1.0), assign(x), assign(x - 1.0), assign(x - 2.0)]
    ensures Sum(Moment(Shape(assign, x)), -1, 4) == v[2] + 2.0 * v[3] - v[0]
  {
    var m := Moment(Shape(assign, x));
    assert x - (-1) as real == x + 1.0 && x - 0 as real == x && x - 1 as real == x - 1.0 && x - 2 as real == x - 2.0;
    assert m(-1) == v[0] * -1.0 && m(0) == v[1] * 0.0 && m(1) == v[2] * 1.0 && m(2) == v[3] * 2.0;
    SumOfFive(m, -1);
  }

  lemma MomentOfFive(assign: real -> real, x: real, v: seq<real>)
    requires v == [assign(x + 2.0), assign(x + 1.0), assign(x), assign(x - 1.0), assign(x - 2.0)]
    ensures Sum(Moment(Shape(assign, x)), -2, 5) == v[3] + 2.0 * v[4] - v[1] - 2.0 * v[0]
  {
    var m := Moment(Shape(assign, x));
    assert x - (-2) as real == x + 2.0 && x - (-1) as real == x + 1.0 && x - 0 as real == x;
    assert m(-2) == v[0] * -2.0 && m(-1) == v[1] * -1.0 && m(0) == v[2] * 0.0;
    assert m(1) == v[3] * 1.0 && m(2) == v[4] * 2.0;
    SumOfFive(m, -2);
  }

  lemma CicCentred(x: real)
    requires OnSupport(2, x)
    ensures Sum(Moment(Shape(Cic, x)), Begin(2), 2) == x
  {
    CicWeights(x);
    var w := Shape(Cic, x);
    var m := Moment(w);
    assert Begin(2) == 0 && CicValues(x)[1] == w(Begin(2) + 1) && m(0) == w(0) * 0.0 && m(1) == w(1) * 1.0;
    assert Sum(m, 0, 2) == Sum(m, 0, 1) + m(1) && Sum(m, 0, 1) == Sum(m, 0, 0) + m(0);
  }

  lemma TscMoment(x: real)
    ensures 0.5 * ((0.5 + x) * (0.5 + x)) - 0.5 * ((0.5 - x) * (0.5 - x)) == x
  {
  }

  lemma TscCentred(x: real)
    requires OnSupport(3, x)
    ensures Sum(Moment(Shape(Tsc, x)), Begin(3), 3) == x
  {
    TscOnSupport(x);
    TscAt(x);
    TscMoment(x);
    MomentOfThree(Tsc, x, TscValues(x));
    assert Begin(3) == -1;
  }

  lemma PqsMoment(x: real)
    ensures PqsInner(1.0 - x) + 2.0 * PqsOuter(2.0 - x) - PqsOuter(x + 1.0) == x
  {
  }

  lemma PqsCentred(x: real)
    requires OnSupport(4, x)
    ensures Sum(Moment(Shape(Pqs, x)), Begin(4), 4) == x
  {
    PqsOnSupport(x);
    PqsAt(x);
    PqsMoment(x);
    MomentOfFour(Pqs, x, PqsValues(x));
    assert Begin(4) == -1;
  }

  lemma PcsMoment(x: real)
    ensures PcsMiddle(1.0 - x) + 2.0 * PcsOuter(2.0 - x) - PcsMiddle(x + 1.0) - 2.0 * PcsOuter(x + 2.0) == x
  {
  }

  lemma PcsCentred(x: real)
    requires OnSupport(5, x)
    ensures Sum(Moment(Shape(Pcs, x)), Begin(5), 5) == x
  {
    PcsOnSupport(x);
    PcsAt(x);
    PcsMoment(x);
    MomentOfFive(Pcs, x, PcsValues(x));
    assert Begin(5) == -2;
  }

  lemma ShapesCentred()
    ensures Centred(Cic, 2) && Centred(Tsc, 3) && Centred(Pqs, 4) && Centred(Pcs, 5)
  {
    forall q | OnSupport(2, q) ensures Sum(Moment(Shape(Cic, q)), Begin(2), 2) == q { CicCentred(q); }
    forall q | OnSupport(3, q) ensures Sum(Moment(Shape(Tsc, q)), Begin(3), 3) == q { TscCentred(q); }
    forall q | OnSupport(4, q) ensures Sum(Moment(Shape(Pqs, q)), Begin(4), 4) == q { PqsCentred(q); }
    forall q | OnSupport(5, q) ensures Sum(Moment(Shape(Pcs, q)), Begin(5), 5) == q { PcsCentred(q); }
  }

  lemma ShapeIsCentred(shape: ParticleShape, assign: real -> real, support: nat)
    requires shape != NGP && assign == shape.Assign() && support == shape.Support()
    ensures Vanishes(assign, support) && Partitions(assign, support) && Centred(assign, support)
  {
    ShapesFit();
    ShapesCentred();
  }

  /** Weights that add up to one, with mean `mean`. */
  ghost predicate Mean(w: Weight, lo: int, n: nat, mean: real) {
    Sum(w, lo, n) == 1.0 && Sum(Moment(w), lo, n) == mean
  }

  function Times(w: Weight, c: real): Weight {
    x => w(x) * c
  }

  lemma {:induction false} SumPlus(f: Weight, g: Weight, h: Weight, lo: int, n: nat)
    requires forall x :: lo <= x < lo + n ==> h(x) == f(x) + g(x)
    ensures Sum(h, lo, n) == Sum(f, lo, n) + Sum(g, lo, n)
    decreases n
  {
    if n > 0 { SumPlus(f, g, h, lo, n - 1); }
  }

  /** The weight times a value that is affine in the cell. */
  ghost predicate AffineAt(g: Weight, w: Weight, k: real, b: real, x: int) {
    g(x) == Times(w, k)(x) + Times(Moment(w), b)(x)
  }

  lemma AffineTerm(k: real, b: real, x: real, w: real, value: real)
    requires value == k + b * x
    ensures value * w == w * k + w * x * b
  {
  }

  /** A sum of affine values with weights is the value at their mean. */
  lemma SumAffine(w: Weight, g: Weight, k: real, b: real, lo: int, n: nat, mean: real)
    requires Mean(w, lo, n, mean) && forall x :: lo <= x < lo + n ==> AffineAt(g, w, k, b, x)
    ensures Sum(g, lo, n) == k + mean * b
  {
    SumScaled(w, Times(w, k), k, lo, n);
    SumScaled(Moment(w), Times(Moment(w), b), b, lo, n);
    forall x | lo <= x < lo + n ensures g(x) == Times(w, k)(x) + Times(Moment(w), b)(x) {
      assert AffineAt(g, w, k, b, x);
    }
    SumPlus(Times(w, k), Times(Moment(w), b), g, lo, n);
  }

  /** The field's value is linear in the coordinates of the cell. */
  ghost predicate IsLinear2(f: Field2, k: real, b: real, c: real) {
    forall x, y :: f(x, y) == k + b * x as real + c * y as real
  }

  ghost predicate IsLinear3(f: Field3, k: real, b: real, c: real, d: real) {
    forall x, y, z :: f(x, y, z) == k + b * x as real + c * y as real + d * z as real
  }

  lemma RowOfLinear(f: Field2, k: real, b: real, c: real, w: Weight, lo: int, n: nat, m: real, y: int)
    requires Mean(w, lo, n, m) && IsLinear2(f, k, b, c)
    ensures Sum(RowTerm(f, w, y), lo, n) == k + c * y as real + b * m
  {
    var row, at := RowTerm(f, w, y), k + c * y as real;
    forall x | lo <= x < lo + n ensures AffineAt(row, w, at, b, x) {
      assert f(x, y) == k + b * x as real + c * y as real;
      AffineTerm(at, b, x as real, w(x), f(x, y));
    }
    SumAffine(w, row, at, b, lo, n, m);
  }

  lemma SeesLinear2(f: Field2, k: real, b: real, c: real, w0: Weight, w1: Weight, lo: int, n: nat, m0: real, m1: real)
    requires Mean(w0, lo, n, m0) && Mean(w1, lo, n, m1) && IsLinear2(f, k, b, c)
    ensures Nested2(f, w0, w1, lo, n) == k + b * m0 + c * m1
  {
    var g, at := PlaneTerm(f, w0, w1, lo, n), k + b * m0;
    forall y | lo <= y < lo + n ensures AffineAt(g, w1, at, c, y) {
      RowOfLinear(f, k, b, c, w0, lo, n, m0, y);
      AffineTerm(at, c, y as real, w1(y), Sum(RowTerm(f, w0, y), lo, n));
    }
    SumAffine(w1, g, at, c, lo, n, m1);
  }

  lemma PlaneOfLinear(f: Field3, k: real, b: real, c: real, d: real, w0: Weight, w1: Weight, lo: int, n: nat,
                      m0: real, m1: real, z: int)
    requires Mean(w0, lo, n, m0) && Mean(w1, lo, n, m1) && IsLinear3(f, k, b, c, d)
    ensures Nested2(Slice(f, z), w0, w1, lo, n) == k + b * m0 + c * m1 + d * z as real
  {
    var at := k + d * z as real;
    forall x, y ensures Slice(f, z)(x, y) == at + b * x as real + c * y as real {
      assert f(x, y, z) == k + b * x as real + c * y as real + d * z as real;
    }
    SeesLinear2(Slice(f, z), at, b, c, w0, w1, lo, n, m0, m1);
  }

  lemma SeesLinear3(f: Field3, k: real, b: real, c: real, d: real, w0: Weight, w1: Weight, w2: Weight, lo: int, n: nat,
                    m0: real, m1: real, m2: real)
    requires Mean(w0, lo, n, m0) && Mean(w1, lo, n, m1) && Mean(w2, lo, n, m2) && IsLinear3(f, k, b, c, d)
    ensures Nested3(f, w0, w1, w2, lo, n) == k + b * m0 + c * m1 + d * m2
  {
    var g, at := BoxTerm(f, w0, w1, w2, lo, n), k + b * m0 + c * m1;
    forall z | lo <= z < lo + n ensures AffineAt(g, w2, at, d, z) {
      PlaneOfLinear(f, k, b, c, d, w0, w1, lo, n, m0, m1, z);
      AffineTerm(at, d, z as real, w2(z), Nested2(Slice(f, z), w0, w1, lo, n));
    }
    SumAffine(w2, g, at, d, lo, n, m2);
  }

  function MomentFrom(w: Weight, s: int): Weight {
    j => (j as real + s as real) * w(j)
  }

  /** Weights that are centred at the shifted position are, on the margin, centred at the distance. */
  lemma MeanWidens(w: Weight, v: Weight, p: Span, s: int, q: real, x: real)
    requires Widens(w, v, p, s) && q + s as real == x && Mean(w, p.begin, p.n, q)
    ensures Mean(v, p.lo, p.width, x)
  {
    SumWidens(w, v, p, s);
    var h := MomentFrom(w, s);
    forall j | p.OnStencil(j) ensures h(j) == Moment(v)(j + s) { assert (j + s) as real == j as real + s as real; }
    assert Widens(h, Moment(v), p, s);
    SumWidens(h, Moment(v), p, s);
    var far, one := s as real, 1.0;
    forall j | p.begin <= j < p.begin + p.n ensures AffineAt(h, w, far, one, j) {
      AffineTerm(far, one, j as real, w(j), j as real + far);
    }
    SumAffine(w, h, far, one, p.begin, p.n, q);
  }

  lemma MeanAt(assign: real -> real, support: nat, p: Span, pos: real, fieldPos: real, x: real)
    requires support >= 1 && Vanishes(assign, support) && Partitions(assign, support) && Centred(assign, support)
    requires p == SpanOf(support) && 0.0 <= pos < 1.0 && 0.0 <= fieldPos <= 0.5 && x == pos - fieldPos
    ensures Mean(Shape(assign, x), p.lo, p.width, x)
  {
    var s := IntShift(support, x);
    var q := x - s as real;
    Lands(support, pos, fieldPos, s, q);
    AxisWidens(assign, support, p, pos, fieldPos, s, q, x);
    assert Convex(Shape(assign, q), Begin(support), support);
    MeanWidens(Shape(assign, q), Shape(assign, x), p, s, q, x);
  }

  lemma FlatLinear3(f: Field3, k: real, b: real, c: real, d: real, w0: Weight, w1: Weight, w2: Weight, lo: int, n: nat,
                    m0: real, m1: real, m2: real)
    requires Mean(w0, lo, n, m0) && Mean(w1, lo, n, m1) && Mean(w2, lo, n, m2) && IsLinear3(f, k, b, c, d)
    ensures Flat3(f, w0, w1, w2, lo, n) == k + b * m0 + c * m1 + d * m2
  {
    SeesLinear3(f, k, b, c, d, w0, w1, w2, lo, n, m0, m1, m2);
    NestedIsFlat3(f, w0, w1, w2, lo, n);
  }

  /** What a particle sees of a linear field is its value at the particle. */
  lemma AtParticleLinear3(f: Field3, assign: real -> real, support: nat, p: Span, k: real, b: real, c: real, d: real,
                          pos: seq<real>, fieldPos: seq<real>, x: real, y: real, z: real)
    requires support >= 1 && Vanishes(assign, support) && Partitions(assign, support) && Centred(assign, support)
    requires p == SpanOf(support) && |pos| == |fieldPos| == 3 && InCell(pos) && IsFieldPosition(fieldPos)
    requires x == pos[0] - fieldPos[0] && y == pos[1] - fieldPos[1] && z == pos[2] - fieldPos[2]
    requires IsLinear3(f, k, b, c, d)
    ensures AtParticle3(f, assign, p, pos, fieldPos) == k + b * x + c * y + d * z
  {
    MeanAt(assign, support, p, pos[0], fieldPos[0], x);
    MeanAt(assign, support, p, pos[1], fieldPos[1], y);
    MeanAt(assign, support, p, pos[2], fieldPos[2], z);
    FlatLinear3(f, k, b, c, d, Shape(assign, x), Shape(assign, y), Shape(assign, z), p.lo, p.width, x, y, z);
  }

  lemma FlatLinear2(f: Field2, k: real, b: real, c: real, w0: Weight, w1: Weight, lo: int, n: nat, m0: real, m1: real)
    requires Mean(w0, lo, n, m0) && Mean(w1, lo, n, m1) && IsLinear2(f, k, b, c)
    ensures Flat2(f, w0, w1, lo, n) == k + b * m0 + c * m1
  {
    SeesLinear2(f, k, b, c, w0, w1, lo, n, m0, m1);
    NestedIsFlat2(f, w0, w1, lo, n);
  }

  lemma AtParticleLinear2(f: Field2, assign: real -> real, support: nat, p: Span, k: real, b: real, c: real,
                          pos: seq<real>, fieldPos: seq<real>, x: real, y: real)
    requires support >= 1 && Vanishes(assign, support) && Partitions(assign, support) && Centred(assign, support)
    requires p == SpanOf(support) && |pos| == |fieldPos| == 2 && InCell(pos) && IsFieldPosition(fieldPos)
    requires x == pos[0] - fieldPos[0] && y == pos[1] - fieldPos[1] && IsLinear2(f, k, b, c)
    ensures AtParticle2(f, assign, p, pos, fieldPos) == k + b * x + c * y
  {
    MeanAt(assign, support, p, pos[0], fieldPos[0], x);
    MeanAt(assign, support, p, pos[1], fieldPos[1], y);
    FlatLinear2(f, k, b, c, Shape(assign, x), Shape(assign, y), p.lo, p.width, x, y);
  }

  /** Every shape but the nearest grid point sees a linear field as it is at the particle. */
  lemma ParticleSeesLinear3(shape: ParticleShape, f: Field3, p: Span, k: real, b: real, c: real, d: real,
                            pos: seq<real>, fieldPos: seq<real>, x: real, y: real, z: real)
    requires shape != NGP && p == SpanOf(shape.Support())
    requires |pos| == |fieldPos| == 3 && InCell(pos) && IsFieldPosition(fieldPos)
    requires x == pos[0] - fieldPos[0] && y == pos[1] - fieldPos[1] && z == pos[2] - fieldPos[2]
    requires forall i, j, l :: f(i, j, l) == k + b * i as real + c * j as real + d * l as real
    ensures AtParticle3(f, shape.Assign(), p, pos, fieldPos) == k + b * x + c * y + d * z
  {
    ShapeIsCentred(shape, shape.Assign(), shape.Support());
    AtParticleLinear3(f, shape.Assign(), shape.Support(), p, k, b, c, d, pos, fieldPos, x, y, z);
  }

  lemma ParticleSeesLinear2(shape: ParticleShape, f: Field2, p: Span, k: real, b: real, c: real,
                            pos: seq<real>, fieldPos: seq<real>, x: real, y: real)
    requires shape != NGP && p == SpanOf(shape.Support())
    requires |pos| == |fieldPos| == 2 && InCell(pos) && IsFieldPosition(fieldPos)
    requires x == pos[0] - fieldPos[0] && y == pos[1] - fieldPos[1]
    requires forall i, j :: f(i, j) == k + b * i as real + c * j as real
    ensures AtParticle2(f, shape.Assign(), p, pos, fieldPos) == k + b * x + c * y
  {
    ShapeIsCentred(shape, shape.Assign(), shape.Support());
    AtParticleLinear2(f, shape.Assign(), shape.Support(), p, k, b, c, pos, fieldPos, x, y);
  }
}
