/** Moments of weighted samples, and why the emittance's radicand is not negative. */
module Moments {

  /** The sums of the weights, and of the weighted squares and products of momentum and position. */
  datatype Moments = Moments(count: real, mom2: real, pos2: real, momPos: real) {
    function Plus(m: Moments): Moments {
      Moments(count + m.count, mom2 + m.mom2, pos2 + m.pos2, momPos + m.momPos)
    }

    /** What is under the emittance's square root. */
    function Radicand(): real { pos2 * mom2 - momPos * momPos }
  }

  const ZERO := Moments(0.0, 0.0, 0.0, 0.0)

  /** A particle's normed weight, momentum and position, and its bin along y. */
  datatype Sample = Sample(weight: real, mom: real, pos: real, y: int)

  function Of(s: Sample): Moments {
    Moments(s.weight, s.mom * s.mom * s.weight, s.pos * s.pos * s.weight, s.mom * s.pos * s.weight)
  }

  /** The moments of the samples with bins from `lo` up to `hi`, `of` being those of a sample. */
  function Total(of: Sample -> Moments, ss: seq<Sample>, lo: int, hi: int): Moments {
    if ss == [] then ZERO
    else
      var s := ss[|ss| - 1];
      Total(of, ss[..|ss| - 1], lo, hi).Plus(if lo <= s.y < hi then of(s) else ZERO)
  }

  lemma PlusLaws(a: Moments, b: Moments, m: Moments)
    ensures a.Plus(m).Plus(b) == a.Plus(b).Plus(m) && a.Plus(b.Plus(m)) == a.Plus(b).Plus(m)
    ensures a.Plus(ZERO) == a
  {
  }

  lemma {:induction false} TotalSplit(of: Sample -> Moments, ss: seq<Sample>, lo: int, mid: int, hi: int)
    requires lo <= mid <= hi
    ensures Total(of, ss, lo, hi) == Total(of, ss, lo, mid).Plus(Total(of, ss, mid, hi))
  {
    if ss != [] {
      var front, s := ss[..|ss| - 1], ss[|ss| - 1];
      TotalSplit(of, front, lo, mid, hi);
      var a, b := Total(of, front, lo, mid), Total(of, front, mid, hi);
      PlusLaws(a, b, of(s));
      PlusLaws(b, a, of(s));
      PlusLaws(a.Plus(b), a, a);
      assert Total(of, ss, lo, hi) == Total(of, front, lo, hi).Plus(if lo <= s.y < hi then of(s) else ZERO);
      assert Total(of, ss, lo, mid) == a.Plus(if lo <= s.y < mid then of(s) else ZERO);
      assert Total(of, ss, mid, hi) == b.Plus(if mid <= s.y < hi then of(s) else ZERO);
    }
  }

  lemma {:induction false} TotalConcat(of: Sample -> Moments, a: seq<Sample>, b: seq<Sample>, lo: int, hi: int)
    ensures Total(of, a + b, lo, hi) == Total(of, a, lo, hi).Plus(Total(of, b, lo, hi))
  {
    if b == [] {
      assert a + b == a;
      PlusLaws(Total(of, a, lo, hi), ZERO, ZERO);
    } else {
      var front, s := b[..|b| - 1], b[|b| - 1];
      var m := if lo <= s.y < hi then of(s) else ZERO;
      TotalConcat(of, a, front, lo, hi);
      assert (a + b)[..|a + b| - 1] == a + front;
      assert Total(of, a + b, lo, hi) == Total(of, a + front, lo, hi).Plus(m);
      assert Total(of, b, lo, hi) == Total(of, front, lo, hi).Plus(m);
      PlusLaws(Total(of, a, lo, hi), Total(of, front, lo, hi), m);
    }
  }

  /** What is left of a list without its `k`-th element. */
  function Without<T>(list: seq<T>, k: nat): seq<T>
    requires k < |list|
  {
    list[..k] + list[k + 1..]
  }

  lemma WithoutOne<T>(list: seq<T>, k: nat)
    requires k < |list|
    ensures multiset(list) == multiset(Without(list, k)) + multiset{list[k]}
  {
    assert list == list[..k] + [list[k]] + list[k + 1..];
  }

  lemma WithoutAt<T>(list: seq<T>, k: nat)
    requires k < |list|
    ensures forall i :: 0 <= i < |list| - 1 ==> Without(list, k)[i] == list[if i < k then i else i + 1]
    ensures k + 1 == |list| ==> Without(list, k) == list[..k]
    ensures k + 1 < |list| ==> Without(list, k) == Without(list[..|list| - 1], k) + [list[|list| - 1]]
  {
  }

  /** Taking `one` out of the first part of a list takes it out of the list. */
  lemma BagWithout<T>(first: seq<T>, rest: seq<T>, one: seq<T>, last: seq<T>)
    requires multiset(first) == multiset(rest) + multiset(one)
    ensures multiset(first + last) == multiset(rest + last) + multiset(one)
  {
  }

  lemma TotalWithout(of: Sample -> Moments, ss: seq<Sample>, k: nat, lo: int, hi: int)
    requires k < |ss|
    ensures Total(of, ss, lo, hi) == Total(of, Without(ss, k) + [ss[k]], lo, hi)
  {
    var a, s, b := ss[..k], [ss[k]], ss[k + 1..];
    var x, y, z := Total(of, a, lo, hi), Total(of, s, lo, hi), Total(of, b, lo, hi);
    assert ss == a + s + b;
    TotalConcat(of, a + s, b, lo, hi);
    TotalConcat(of, a, s, lo, hi);
    TotalConcat(of, a + b, s, lo, hi);
    TotalConcat(of, a, b, lo, hi);
    PlusLaws(x, z, y);
  }

  /** The order of the samples does not matter. */
  lemma {:induction false} TotalOfOrder(of: Sample -> Moments, a: seq<Sample>, b: seq<Sample>, lo: int, hi: int)
    requires multiset(a) == multiset(b)
    ensures Total(of, a, lo, hi) == Total(of, b, lo, hi)
  {
    if a == [] {
      assert b == [] by { assert |multiset(b)| == 0; }
    } else {
      var front, s := a[..|a| - 1], a[|a| - 1];
      assert a == front + [s];
      assert s in multiset(b);
      var k :| 0 <= k < |b| && b[k] == s;
      var rest := Without(b, k);
      WithoutOne(b, k);
      assert multiset(front) == multiset(a) - multiset{s} == multiset(rest);
      TotalWithout(of, b, k, lo, hi);
      TotalOfOrder(of, front, rest, lo, hi);
      TotalConcat(of, front, [s], lo, hi);
      TotalConcat(of, rest, [s], lo, hi);
    }
  }

  lemma {:induction false} TotalNone(of: Sample -> Moments, ss: seq<Sample>, lo: int, hi: int)
    requires hi <= lo
    ensures Total(of, ss, lo, hi) == ZERO
  {
    if ss != [] { TotalNone(of, ss[..|ss| - 1], lo, hi); }
  }

  // ---------------------------------------------------------------- Cauchy-Schwarz

  predicate Weighted(ss: seq<Sample>) {
    forall i :: 0 <= i < |ss| ==> ss[i].weight >= 0.0
  }

  /** The quadratic form of the moments, which is a weighted sum of squares. */
  function Form(m: Moments, a: real, b: real): real {
    m.mom2 * (b * b) - 2.0 * (m.momPos * (a * b)) + m.pos2 * (a * a)
  }

  lemma Rearrange(x: real, y: real, w: real, b: real, a: real)
    ensures x * y * w * (b * a) == (x * b) * (y * a) * w
  {
  }

  lemma SquareOfDifference(p: real, q: real, w: real)
    ensures p * p * w - 2.0 * (p * q * w) + q * q * w == (p - q) * (p - q) * w
  {
  }

  lemma NotNegative(a: real, b: real)
    requires a >= 0.0 && b >= 0.0
    ensures a * b >= 0.0
  {
  }

  lemma FormOfSample(s: Sample, a: real, b: real)
    requires s.weight >= 0.0
    ensures Form(Of(s), a, b) >= 0.0
  {
    var p, q := s.mom * b, s.pos * a;
    Rearrange(s.mom, s.mom, s.weight, b, b);
    Rearrange(s.pos, s.pos, s.weight, a, a);
    assert s.mom * s.pos * s.weight * (a * b) == p * q * s.weight by {
      Rearrange(s.mom, s.pos, s.weight, b, a);
      assert a * b == b * a;
    }
    SquareOfDifference(p, q, s.weight);
    NotNegative((p - q) * (p - q), s.weight);
  }

  lemma FormPlus(m: Moments, n: Moments, a: real, b: real)
    ensures Form(m.Plus(n), a, b) == Form(m, a, b) + Form(n, a, b)
  {
  }

  lemma {:induction false} FormNotNegative(ss: seq<Sample>, lo: int, hi: int, a: real, b: real)
    requires Weighted(ss)
    ensures Form(Total(Of, ss, lo, hi), a, b) >= 0.0
  {
    if ss != [] {
      var front, s := ss[..|ss| - 1], ss[|ss| - 1];
      FormNotNegative(front, lo, hi, a, b);
      FormPlus(Total(Of, front, lo, hi), if lo <= s.y < hi then Of(s) else ZERO, a, b);
      FormOfSample(s, a, b);
    }
  }

  /** One more sample adds a weighted value of the form to the radicand. */
  lemma RadicandGrows(m: Moments, s: Sample)
    ensures m.Plus(Of(s)).Radicand() == m.Radicand() + s.weight * Form(m, s.mom, s.pos)
  {
  }

  /** The radicand of every set of samples, in every range of bins. */
  lemma {:induction false} RadicandNotNegative(ss: seq<Sample>, lo: int, hi: int)
    requires Weighted(ss)
    ensures Total(Of, ss, lo, hi).Radicand() >= 0.0
  {
    if ss != [] {
      var front, s := ss[..|ss| - 1], ss[|ss| - 1];
      RadicandNotNegative(front, lo, hi);
      if lo <= s.y < hi {
        RadicandGrows(Total(Of, front, lo, hi), s);
        FormNotNegative(front, lo, hi, s.mom, s.pos);
        NotNegative(s.weight, Form(Total(Of, front, lo, hi), s.mom, s.pos));
      }
    }
  }
}

/** The emittance plugin: particles are summed into bins along y, and the bins over the moving
    window and over its slices. */
module Emittance {
  import opened Moments
  import opened CellIndex
  import opened Extents

  /** `position` is relative to the cell; only selected particles pass the filter. */
  datatype Particle = Particle(weighting: real, momentum: real, position: real, cellIdx: nat, selected: bool)

  /** A supercell's particles, its first cell along x, and its first bin. */
  datatype SuperCell = SuperCell(particles: seq<Particle>, startX: int, gOffset: nat)

  /** Supercell size in cells, cell width along x, and typical number of particles per macro particle. */
  datatype Setup = Setup(size: seq<nat>, cellWidth: real, typical: real) {
    predicate Ok() { |size| >= 2 && typical > 0.0 }

    predicate Has(p: Particle) { p.weighting > 0.0 && p.cellIdx < Product(size) }

    predicate HasAll(ps: seq<Particle>) { forall i :: 0 <= i < |ps| ==> Has(ps[i]) }
  }

  ghost function SampleOf(x: Setup, cell: SuperCell, p: Particle): Sample
    requires x.Ok() && x.Has(p)
  {
    var idx := CellOf(x.size, p.cellIdx);
    Sample(p.weighting / x.typical, p.momentum / p.weighting,
           ((cell.startX + idx[0]) as real + p.position) * x.cellWidth, cell.gOffset + idx[1])
  }

  /** A particle's sample, if it is selected. */
  ghost function Selected(x: Setup, cell: SuperCell, p: Particle): seq<Sample>
    requires x.Ok() && x.Has(p)
  {
    if p.selected then [SampleOf(x, cell, p)] else []
  }

  ghost function Samples(x: Setup, cell: SuperCell, ps: seq<Particle>): seq<Sample>
    requires x.Ok() && x.HasAll(ps)
  {
    if ps == [] then [] else Samples(x, cell, ps[..|ps| - 1]) + Selected(x, cell, ps[|ps| - 1])
  }

  ghost predicate AllOk(x: Setup, cells: seq<SuperCell>) {
    forall i :: 0 <= i < |cells| ==> x.HasAll(cells[i].particles)
  }

  ghost function AllSamples(x: Setup, cells: seq<SuperCell>): seq<Sample>
    requires x.Ok() && AllOk(x, cells)
  {
    if cells == [] then []
    else
      var c := cells[|cells| - 1];
      AllSamples(x, cells[..|cells| - 1]) + Samples(x, c, c.particles)
  }

  lemma SamplesLast(x: Setup, cell: SuperCell, ps: seq<Particle>, front: seq<Particle>, last: Particle)
    requires x.Ok() && ps == front + [last] && x.HasAll(front) && x.Has(last)
    ensures x.HasAll(ps) && Samples(x, cell, ps) == Samples(x, cell, front) + Selected(x, cell, last)
  {
    assert ps[..|ps| - 1] == front;
  }

  lemma SamplesWithoutLast(x: Setup, cell: SuperCell, front: seq<Particle>, rest: seq<Particle>,
                           p: Particle, last: Particle)
    requires x.Ok() && x.HasAll(front) && x.HasAll(rest) && x.Has(p) && x.Has(last)
    requires multiset(Samples(x, cell, front)) == multiset(Samples(x, cell, rest)) + multiset(Selected(x, cell, p))
    ensures x.HasAll(front + [last]) && x.HasAll(rest + [last])
    ensures multiset(Samples(x, cell, front + [last]))
         == multiset(Samples(x, cell, rest + [last])) + multiset(Selected(x, cell, p))
  {
    SamplesLast(x, cell, front + [last], front, last);
    SamplesLast(x, cell, rest + [last], rest, last);
    BagWithout(Samples(x, cell, front), Samples(x, cell, rest), Selected(x, cell, p), Selected(x, cell, last));
  }

  lemma {:induction false} SamplesWithout(x: Setup, cell: SuperCell, ps: seq<Particle>, k: nat)
    requires x.Ok() && x.HasAll(ps) && k < |ps|
    ensures x.HasAll(Without(ps, k))
    ensures multiset(Samples(x, cell, ps))
         == multiset(Samples(x, cell, Without(ps, k))) + multiset(Selected(x, cell, ps[k]))
  {
    var front, last := ps[..|ps| - 1], ps[|ps| - 1];
    assert ps == front + [last];
    WithoutAt(ps, k);
    if k + 1 == |ps| {
      SamplesLast(x, cell, ps, front, last);
    } else {
      SamplesWithout(x, cell, front, k);
      SamplesWithoutLast(x, cell, front, Without(front, k), ps[k], last);
    }
  }

  lemma AllSamplesLast(x: Setup, cells: seq<SuperCell>, front: seq<SuperCell>, last: SuperCell)
    requires x.Ok() && cells == front + [last] && AllOk(x, front) && x.HasAll(last.particles)
    ensures AllOk(x, cells) && AllSamples(x, cells) == AllSamples(x, front) + Samples(x, last, last.particles)
  {
    assert cells[..|cells| - 1] == front;
  }

  lemma AllSamplesWithoutLast(x: Setup, front: seq<SuperCell>, rest: seq<SuperCell>, part: seq<Sample>, last: SuperCell)
    requires x.Ok() && AllOk(x, front) && AllOk(x, rest) && x.HasAll(last.particles)
    requires multiset(AllSamples(x, front)) == multiset(AllSamples(x, rest)) + multiset(part)
    ensures AllOk(x, front + [last]) && AllOk(x, rest + [last])
    ensures multiset(AllSamples(x, front + [last])) == multiset(AllSamples(x, rest + [last])) + multiset(part)
  {
    AllSamplesLast(x, front + [last], front, last);
    AllSamplesLast(x, rest + [last], rest, last);
    BagWithout(AllSamples(x, front), AllSamples(x, rest), part, Samples(x, last, last.particles));
  }

  lemma {:induction false} AllSamplesWithout(x: Setup, cells: seq<SuperCell>, k: nat, part: seq<Sample>)
    requires x.Ok() && AllOk(x, cells) && k < |cells| && part == Samples(x, cells[k], cells[k].particles)
    ensures AllOk(x, Without(cells, k))
    ensures multiset(AllSamples(x, cells)) == multiset(AllSamples(x, Without(cells, k))) + multiset(part)
  {
    var front, last := cells[..|cells| - 1], cells[|cells| - 1];
    assert cells == front + [last];
    WithoutAt(cells, k);
    if k + 1 == |cells| {
      AllSamplesLast(x, cells, front, last);
    } else {
      AllSamplesWithout(x, front, k, part);
      AllSamplesWithoutLast(x, front, Without(front, k), part, last);
    }
  }

  lemma WeightIsPositive(w: real, typical: real)
    requires w > 0.0 && typical > 0.0
    ensures w / typical >= 0.0
  {
  }

  lemma {:induction false} SamplesInRange(x: Setup, cell: SuperCell, ps: seq<Particle>)
    requires x.Ok() && x.HasAll(ps)
    ensures Weighted(Samples(x, cell, ps))
    ensures forall i :: 0 <= i < |Samples(x, cell, ps)| ==>
                          cell.gOffset <= Samples(x, cell, ps)[i].y < cell.gOffset + x.size[1]
  {
    if ps != [] {
      SamplesInRange(x, cell, ps[..|ps| - 1]);
      WeightIsPositive(ps[|ps| - 1].weighting, x.typical);
    }
  }

  lemma {:induction false} AllWeighted(x: Setup, cells: seq<SuperCell>)
    requires x.Ok() && AllOk(x, cells)
    ensures Weighted(AllSamples(x, cells))
  {
    if cells != [] {
      AllWeighted(x, cells[..|cells| - 1]);
      SamplesInRange(x, cells[|cells| - 1], cells[|cells| - 1].particles);
    }
  }

  // ---------------------------------------------------------------- bins

  /** Four arrays of sums, one entry per bin. */
  class Bins {
    const count: array<real>
    const mom2: array<real>
    const pos2: array<real>
    const momPos: array<real>
    ghost var view: seq<Moments>

    ghost predicate Valid()
      reads this, count, mom2, pos2, momPos
    {
      && count != mom2 && count != pos2 && count != momPos && mom2 != pos2 && mom2 != momPos && pos2 != momPos
      && count.Length == mom2.Length == pos2.Length == momPos.Length == |view|
      && forall i :: 0 <= i < |view| ==> view[i] == Moments(count[i], mom2[i], pos2[i], momPos[i])
    }

    ghost const Repr: set<object> := {this, count, mom2, pos2, momPos}

    constructor (n: nat)
      ensures Valid() && fresh(Repr) && |view| == n && forall i :: 0 <= i < n ==> view[i] == ZERO
    {
      count := new real[n](_ => 0.0);
      mom2 := new real[n](_ => 0.0);
      pos2 := new real[n](_ => 0.0);
      momPos := new real[n](_ => 0.0);
      view := seq(n, _ => ZERO);
    }

    /** The four atomic additions to one bin. */
    method Add(y: nat, m: Moments)
      requires Valid() && y < |view|
      modifies this, count, mom2, pos2, momPos
      ensures Valid() && view == old(view)[y := old(view)[y].Plus(m)]
    {
      count[y] := count[y] + m.count;
      mom2[y] := mom2[y] + m.mom2;
      pos2[y] := pos2[y] + m.pos2;
      momPos[y] := momPos[y] + m.momPos;
      view := view[y := view[y].Plus(m)];
    }
  }

  /** Every bin from `at` on has gained the moments of its samples. */
  ghost predicate Gained(was: seq<Moments>, now: seq<Moments>, ss: seq<Sample>, at: int) {
    |now| == |was| && forall y :: 0 <= y < |was| ==> now[y] == was[y].Plus(Total(Of, ss, at + y, at + y + 1))
  }

  lemma GainNothing(was: seq<Moments>, at: int)
    ensures Gained(was, was, [], at)
  {
    forall y | 0 <= y < |was| ensures was[y] == was[y].Plus(ZERO) { PlusLaws(was[y], was[y], ZERO); }
  }

  lemma GainTwice(was: Moments, mid: Moments, now: Moments, a: seq<Sample>, b: seq<Sample>, y: int)
    requires mid == was.Plus(Total(Of, a, y, y + 1)) && now == mid.Plus(Total(Of, b, y, y + 1))
    ensures now == was.Plus(Total(Of, a + b, y, y + 1))
  {
    var m, n := Total(Of, a, y, y + 1), Total(Of, b, y, y + 1);
    TotalConcat(Of, a, b, y, y + 1);
    PlusLaws(was, m, n);
    assert now == was.Plus(m).Plus(n) == was.Plus(m.Plus(n));
  }

  lemma GainMore(was: seq<Moments>, mid: seq<Moments>, now: seq<Moments>, a: seq<Sample>, b: seq<Sample>, at: int)
    requires Gained(was, mid, a, at) && Gained(mid, now, b, at)
    ensures Gained(was, now, a + b, at)
  {
    forall y | 0 <= y < |was| ensures now[y] == was[y].Plus(Total(Of, a + b, at + y, at + y + 1)) {
      GainTwice(was[y], mid[y], now[y], a, b, at + y);
    }
  }

  lemma TotalOne(s: Sample, y: int)
    ensures Total(Of, [s], y, y + 1) == if s.y == y then Of(s) else ZERO
  {
    var m := if y <= s.y < y + 1 then Of(s) else ZERO;
    assert [s][..0] == [];
    assert Total(Of, [s], y, y + 1) == ZERO.Plus(m);
    PlusLaws(m, ZERO, ZERO);
    assert ZERO.Plus(m) == m.Plus(ZERO);
  }

  lemma GainOne(was: seq<Moments>, s: Sample, at: int)
    requires at <= s.y < at + |was|
    ensures Gained(was, was[s.y - at := was[s.y - at].Plus(Of(s))], [s], at)
  {
    var now := was[s.y - at := was[s.y - at].Plus(Of(s))];
    forall y | 0 <= y < |was| ensures now[y] == was[y].Plus(Total(Of, [s], at + y, at + y + 1)) {
      TotalOne(s, at + y);
      PlusLaws(was[y], was[y], ZERO);
    }
  }

  lemma GainInOrder(was: Moments, now: Moments, a: seq<Sample>, b: seq<Sample>, y: int)
    requires now == was.Plus(Total(Of, a, y, y + 1)) && multiset(a) == multiset(b)
    ensures now == was.Plus(Total(Of, b, y, y + 1))
  {
    TotalOfOrder(Of, a, b, y, y + 1);
  }

  lemma GainReordered(was: seq<Moments>, now: seq<Moments>, a: seq<Sample>, b: seq<Sample>, at: int)
    requires Gained(was, now, a, at) && multiset(a) == multiset(b)
    ensures Gained(was, now, b, at)
  {
    forall y | 0 <= y < |was| ensures now[y] == was[y].Plus(Total(Of, b, at + y, at + y + 1)) {
      GainInOrder(was[y], now[y], a, b, at + y);
    }
  }

  // ---------------------------------------------------------------- kernel

  /** What a particle contributes, and to which bin of its supercell. */
  method Measure(x: Setup, cell: SuperCell, p: Particle) returns (s: Sample, indexY: nat)
    requires x.Ok() && x.Has(p)
    ensures s == SampleOf(x, cell, p) && s.y == cell.gOffset + indexY && indexY < x.size[1]
  {
    var idx := MapToND(x.size, p.cellIdx);
    LinearOfCell(x.size, p.cellIdx);
    LinearInjective(x.size, idx, CellOf(x.size, p.cellIdx));
    var pos := ((cell.startX + idx[0]) as real + p.position) * x.cellWidth;
    indexY := idx[1];
    s := Sample(p.weighting / x.typical, p.momentum / p.weighting, pos, cell.gOffset + indexY);
  }

  /** One particle's four additions to the shared bins of its supercell. */
  method AddParticle(x: Setup, cell: SuperCell, p: Particle, shared: Bins)
    requires x.Ok() && x.Has(p) && shared.Valid() && |shared.view| == x.size[1]
    modifies shared.Repr
    ensures shared.Valid()
    ensures Gained(old(shared.view), shared.view, Selected(x, cell, p), cell.gOffset)
    ensures p.selected ==> Selected(x, cell, p) == [SampleOf(x, cell, p)]
    ensures !p.selected ==> shared.view == old(shared.view)
  {
    GainNothing(shared.view, cell.gOffset);
    if p.selected {
      var s, indexY := Measure(x, cell, p);
      GainOne(shared.view, s, cell.gOffset);
      shared.Add(indexY, Of(s));
    }
  }

  /** All particles of a supercell, in any order, as the threads come to add them. */
  method AddParticles(x: Setup, cell: SuperCell, shared: Bins)
    requires x.Ok() && x.HasAll(cell.particles) && shared.Valid() && |shared.view| == x.size[1]
    modifies shared.Repr
    ensures shared.Valid()
    ensures Gained(old(shared.view), shared.view, Samples(x, cell, cell.particles), cell.gOffset)
  {
    ghost var was, order := shared.view, [];
    ghost var all := Samples(x, cell, cell.particles);
    GainNothing(was, cell.gOffset);
    var rest := cell.particles;
    while rest != []
      invariant shared.Valid() && |shared.view| == x.size[1] && x.HasAll(rest)
      invariant Gained(was, shared.view, order, cell.gOffset)
      invariant multiset(all) == multiset(order) + multiset(Samples(x, cell, rest))
      decreases |rest|
    {
      var k: nat :| k < |rest|;
      ghost var mid, one := shared.view, Selected(x, cell, rest[k]);
      SamplesWithout(x, cell, rest, k);
      AddParticle(x, cell, rest[k], shared);
      GainMore(was, mid, shared.view, order, one, cell.gOffset);
      order := order + one;
      rest := Without(rest, k);
    }
    GainReordered(was, shared.view, order, all, cell.gOffset);
  }

  /** The first `n` shared bins have been added to the global ones. */
  ghost predicate Merged(was: seq<Moments>, now: seq<Moments>, part: seq<Moments>, at: nat, n: nat) {
    |now| == |was| && n <= |part| && forall y :: 0 <= y < |was| ==>
      now[y] == if at <= y < at + n then was[y].Plus(part[y - at]) else was[y]
  }

  method MergeBins(shared: Bins, bins: Bins, at: nat)
    requires shared.Valid() && bins.Valid() && shared.Repr !! bins.Repr && at + |shared.view| <= |bins.view|
    modifies bins.Repr
    ensures bins.Valid() && Merged(old(bins.view), bins.view, shared.view, at, |shared.view|)
  {
    for k := 0 to shared.count.Length
      invariant shared.Valid() && bins.Valid() && Merged(old(bins.view), bins.view, shared.view, at, k)
    {
      bins.Add(at + k, Moments(shared.count[k], shared.mom2[k], shared.pos2[k], shared.momPos[k]));
    }
  }

  lemma {:induction false} TotalOutside(ss: seq<Sample>, lo: int, hi: int, y: int)
    requires (forall i :: 0 <= i < |ss| ==> lo <= ss[i].y < hi) && !(lo <= y < hi)
    ensures Total(Of, ss, y, y + 1) == ZERO
  {
    if ss != [] {
      TotalOutside(ss[..|ss| - 1], lo, hi, y);
      PlusLaws(ZERO, ZERO, ZERO);
    }
  }

  lemma PlusZero(m: Moments)
    ensures ZERO.Plus(m) == m
  {
  }

  lemma MergeGains(was: seq<Moments>, now: seq<Moments>, part: seq<Moments>, zero: seq<Moments>,
                   ss: seq<Sample>, at: nat)
    requires Merged(was, now, part, at, |part|) && Gained(zero, part, ss, at)
    requires forall y :: 0 <= y < |zero| ==> zero[y] == ZERO
    requires forall i :: 0 <= i < |ss| ==> at <= ss[i].y < at + |part|
    ensures Gained(was, now, ss, 0)
  {
    forall y | 0 <= y < |was| ensures now[y] == was[y].Plus(Total(Of, ss, 0 + y, 0 + y + 1)) {
      var m := Total(Of, ss, y, y + 1);
      if at <= y < at + |part| {
        assert part[y - at] == ZERO.Plus(Total(Of, ss, at + (y - at), at + (y - at) + 1));
        PlusZero(m);
      } else {
        TotalOutside(ss, at, at + |part|, y);
        PlusLaws(was[y], was[y], was[y]);
      }
    }
  }

  /** The kernel's work on one supercell. */
  method KernelCalcEmittance(x: Setup, cell: SuperCell, bins: Bins)
    requires x.Ok() && x.HasAll(cell.particles) && bins.Valid() && cell.gOffset + x.size[1] <= |bins.view|
    modifies bins.Repr
    ensures bins.Valid() && Gained(old(bins.view), bins.view, Samples(x, cell, cell.particles), 0)
  {
    if |cell.particles| == 0 {
      GainNothing(bins.view, 0);
      return;
    }
    var shared := new Bins(x.size[1]);
    ghost var zero := shared.view;
    AddParticles(x, cell, shared);
    MergeBins(shared, bins, cell.gOffset);
    SamplesInRange(x, cell, cell.particles);
    MergeGains(old(bins.view), bins.view, shared.view, zero, Samples(x, cell, cell.particles), cell.gOffset);
  }

  /** All supercells of a device, in any order of their blocks. */
  method AddSuperCells(x: Setup, cells: seq<SuperCell>, bins: Bins)
    requires x.Ok() && AllOk(x, cells) && bins.Valid()
    requires forall i :: 0 <= i < |cells| ==> cells[i].gOffset + x.size[1] <= |bins.view|
    modifies bins.Repr
    ensures bins.Valid() && Gained(old(bins.view), bins.view, AllSamples(x, cells), 0)
  {
    ghost var was, order := bins.view, [];
    ghost var all := AllSamples(x, cells);
    GainNothing(was, 0);
    var rest := cells;
    while rest != []
      invariant bins.Valid() && |bins.view| == |was| && AllOk(x, rest) && Gained(was, bins.view, order, 0)
      invariant forall i :: 0 <= i < |rest| ==> rest[i].gOffset + x.size[1] <= |was|
      invariant multiset(all) == multiset(order) + multiset(AllSamples(x, rest))
      decreases |rest|
    {
      var k: nat :| k < |rest|;
      ghost var mid, part := bins.view, Samples(x, rest[k], rest[k].particles);
      AllSamplesWithout(x, rest, k, part);
      WithoutAt(rest, k);
      KernelCalcEmittance(x, rest[k], bins);
      GainMore(was, mid, bins.view, order, part, 0);
      order := order + part;
      rest := Without(rest, k);
    }
    GainReordered(was, bins.view, order, all, 0);
  }

  // ---------------------------------------------------------------- window and slices

  ghost function RangeTotal(view: seq<Moments>, lo: int, hi: int): Moments
    requires 0 <= lo && hi <= |view|
    decreases hi - lo
  {
    if hi <= lo then ZERO else RangeTotal(view, lo, hi - 1).Plus(view[hi - 1])
  }

  lemma {:induction false} RangeSplit(view: seq<Moments>, lo: int, mid: int, hi: int)
    requires 0 <= lo <= mid <= hi <= |view|
    ensures RangeTotal(view, lo, hi) == RangeTotal(view, lo, mid).Plus(RangeTotal(view, mid, hi))
    decreases hi
  {
    if mid == hi {
      PlusLaws(RangeTotal(view, lo, mid), ZERO, ZERO);
    } else {
      RangeSplit(view, lo, mid, hi - 1);
      PlusLaws(RangeTotal(view, lo, mid), RangeTotal(view, mid, hi - 1), view[hi - 1]);
    }
  }

  /** Every bin holds the moments of its samples. */
  ghost predicate Holds(view: seq<Moments>, ss: seq<Sample>) {
    forall y :: 0 <= y < |view| ==> view[y] == Total(Of, ss, y, y + 1)
  }

  lemma ZeroGained(zero: seq<Moments>, view: seq<Moments>, ss: seq<Sample>)
    requires (forall y :: 0 <= y < |zero| ==> zero[y] == ZERO) && Gained(zero, view, ss, 0)
    ensures Holds(view, ss)
  {
    forall y | 0 <= y < |view| ensures view[y] == Total(Of, ss, y, y + 1) {
      assert view[y] == ZERO.Plus(Total(Of, ss, 0 + y, 0 + y + 1));
      PlusZero(Total(Of, ss, y, y + 1));
    }
  }

  /** Over any range, the bins then hold the moments of the samples in the range. */
  lemma {:induction false} RangeOfSamples(view: seq<Moments>, ss: seq<Sample>, lo: int, hi: int)
    requires Holds(view, ss) && 0 <= lo <= hi <= |view|
    ensures RangeTotal(view, lo, hi) == Total(Of, ss, lo, hi)
    decreases hi
  {
    if lo == hi {
      TotalNone(Of, ss, lo, hi);
    } else {
      RangeOfSamples(view, ss, lo, hi - 1);
      TotalSplit(Of, ss, lo, hi - 1, hi);
      assert RangeTotal(view, lo, hi) == RangeTotal(view, lo, hi - 1).Plus(view[hi - 1]);
      assert view[hi - 1] == Total(Of, ss, hi - 1, hi);
    }
  }

  datatype Units = Units(mass: real, length: real, speed: real, electronMass: real) {
    predicate Ok() { speed != 0.0 && electronMass != 0.0 }

    /** Momentum becomes a multiple of the electron mass times the speed of light, position a length. */
    function Ratio(): real
      requires Ok()
    {
      mass / electronMass
    }
  }

  ghost function Scaled(m: Moments, r: real, l: real): Moments {
    Moments(m.count, m.mom2 * (r * r), m.pos2 * (l * l), m.momPos * (r * l))
  }

  lemma Factor(a: real, b: real, c: real)
    ensures (a + b) * c == a * c + b * c
  {
  }

  lemma ScaledPlus(a: Moments, b: Moments, r: real, l: real)
    ensures Scaled(a.Plus(b), r, l) == Scaled(a, r, l).Plus(Scaled(b, r, l))
  {
    Factor(a.mom2, b.mom2, r * r);
    Factor(a.pos2, b.pos2, l * l);
    Factor(a.momPos, b.momPos, r * l);
  }

  /** Conversion of the units multiplies the radicand by a square. */
  lemma ScaledRadicand(m: Moments, r: real, l: real)
    ensures Scaled(m, r, l).Radicand() == m.Radicand() * ((r * l) * (r * l))
  {
    var f := r * l;
    assert m.pos2 * (l * l) * (m.mom2 * (r * r)) == m.pos2 * m.mom2 * (f * f);
    assert m.momPos * f * (m.momPos * f) == m.momPos * m.momPos * (f * f);
    Factor(m.pos2 * m.mom2, -(m.momPos * m.momPos), f * f);
  }

  lemma QuotientIs(x: real, c: real, k: real)
    requires c != 0.0 && x == k * c
    ensures x / c == k
  {
  }

  lemma NotZero(a: real, b: real, c: real)
    requires a != 0.0 && b != 0.0 && c == a * b
    ensures c != 0.0
  {
  }

  lemma Regroup4(m: real, a: real, b: real, c: real, d: real)
    ensures m * (a * b) * (c * d) == m * (a * c) * (b * d)
  {
  }

  /** A value times two factors, over two divisors. */
  lemma SquareUnits(m: real, mass: real, r: real, e: real, ee: real)
    requires mass == r * e && e != 0.0 && ee == e * e
    ensures ee != 0.0 && m * mass * mass / ee == m * (r * r)
  {
    NotZero(e, e, ee);
    assert m * mass * mass == m * (r * r) * ee by { Regroup4(m, r, e, r, e); }
    QuotientIs(m * mass * mass, ee, m * (r * r));
  }

  lemma ProductUnits(m: real, mass: real, length: real, r: real, e: real)
    requires mass == r * e && e != 0.0
    ensures m * mass * length / e == m * (r * length)
  {
    assert m * (r * e) * length == m * (r * length) * e;
    QuotientIs(m * mass * length, e, m * (r * length));
  }

  /** The unit factors as the window's sums apply them, bin by bin, ... */
  lemma WindowUnits(m: Moments, u: Units, mom2: real, momPos: real)
    requires u.Ok() && mom2 == m.mom2 * u.mass * u.mass && momPos == m.momPos * u.mass * u.length
    ensures u.electronMass * u.electronMass != 0.0
    ensures mom2 / (u.electronMass * u.electronMass) == Scaled(m, u.Ratio(), u.length).mom2
    ensures m.pos2 * u.length * u.length == Scaled(m, u.Ratio(), u.length).pos2
    ensures momPos / u.electronMass == Scaled(m, u.Ratio(), u.length).momPos
  {
    SquareUnits(m.mom2, u.mass, u.Ratio(), u.electronMass, u.electronMass * u.electronMass);
    ProductUnits(m.momPos, u.mass, u.length, u.Ratio(), u.electronMass);
  }

  /** ... and as a slice's sums apply them, with the divisors for the whole slice. */
  lemma SliceUnits(m: Moments, u: Units, momentum: real, mom2: real, momPos: real)
    requires u.Ok() && momentum == u.mass * u.speed
    requires mom2 == m.mom2 * momentum * momentum && momPos == m.momPos * momentum * u.length
    ensures u.speed * u.electronMass != 0.0 && u.speed * u.speed * u.electronMass * u.electronMass != 0.0
    ensures mom2 / (u.speed * u.speed * u.electronMass * u.electronMass) == Scaled(m, u.Ratio(), u.length).mom2
    ensures momPos / (u.speed * u.electronMass) == Scaled(m, u.Ratio(), u.length).momPos
  {
    var e, c := u.electronMass, u.speed;
    var ce, cc := c * e, c * c * e * e;
    NotZero(c, e, ce);
    assert cc == ce * ce;
    assert momentum == u.Ratio() * ce by { assert u.mass == u.Ratio() * e; }
    SquareUnits(m.mom2, momentum, u.Ratio(), ce, cc);
    ProductUnits(m.momPos, momentum, u.length, u.Ratio(), ce);
  }

  /** Bins and what each becomes under a scaling. */
  ghost predicate AreScaled(view: seq<Moments>, scaled: seq<Moments>, r: real, l: real) {
    |scaled| == |view| && forall i :: 0 <= i < |view| ==> scaled[i] == Scaled(view[i], r, l)
  }

  ghost function ScaleAll(view: seq<Moments>, r: real, l: real): (scaled: seq<Moments>)
    ensures AreScaled(view, scaled, r, l)
  {
    seq(|view|, i requires 0 <= i < |view| => Scaled(view[i], r, l))
  }

  lemma ScaledZero(r: real, l: real)
    ensures Scaled(ZERO, r, l) == ZERO
  {
  }

  lemma {:induction false} ScaledRange(view: seq<Moments>, scaled: seq<Moments>, r: real, l: real, lo: int, hi: int)
    requires AreScaled(view, scaled, r, l) && 0 <= lo <= hi <= |view|
    ensures RangeTotal(scaled, lo, hi) == Scaled(RangeTotal(view, lo, hi), r, l)
    decreases hi
  {
    if lo == hi {
      ScaledZero(r, l);
    } else {
      ScaledRange(view, scaled, r, l, lo, hi - 1);
      ScaledPlus(RangeTotal(view, lo, hi - 1), view[hi - 1], r, l);
    }
  }

  lemma TimesOver(u: real, w: real)
    requires w != 0.0
    ensures u * w / w == u
  {
    QuotientIs(u * w, w, u);
  }

  lemma ScaledProduct(a: real, b: real, w: real, r: real, l: real)
    ensures a * b * w * (r * l) == (a * r) * (b * l) * w
  {
  }

  lemma ScaledSample(s: Sample, r: real, l: real, mom: real, pos: real)
    requires mom == s.mom * r && pos == s.pos * l
    ensures Scaled(Of(s), r, l) == Moments(s.weight, mom * mom * s.weight, pos * pos * s.weight, mom * pos * s.weight)
  {
    ScaledProduct(s.mom, s.mom, s.weight, r, r);
    ScaledProduct(s.pos, s.pos, s.weight, l, l);
    ScaledProduct(s.mom, s.pos, s.weight, r, l);
  }

  lemma SampleIs(x: Setup, cell: SuperCell, p: Particle, u: real, idx: seq<int>)
    requires x.Ok() && p.weighting > 0.0 && p.momentum == u * p.weighting
    requires InRange(x.size, idx) && p.cellIdx == Linear(x.size, idx)
    ensures x.Has(p) && SampleOf(x, cell, p) == Sample(p.weighting / x.typical, u,
                          ((cell.startX + idx[0]) as real + p.position) * x.cellWidth, cell.gOffset + idx[1])
  {
    LinearBounds(x.size, idx);
    LinearOfCell(x.size, p.cellIdx);
    LinearInjective(x.size, idx, CellOf(x.size, p.cellIdx));
    TimesOver(u, p.weighting);
  }

  /** What a macro particle contributes, in physical units, and to which bin: it stands for
      `weighting` particles of momentum `u` each, in cell `idx` of its supercell.  `mom` is their
      momentum over electron mass, and `pos` their absolute position. */
  lemma ParticleContributes(x: Setup, cell: SuperCell, p: Particle, u: real, idx: seq<int>, r: real, l: real,
                            n: real, mom: real, pos: real)
    requires x.Ok() && p.weighting > 0.0 && p.momentum == u * p.weighting
    requires InRange(x.size, idx) && p.cellIdx == Linear(x.size, idx)
    requires n == p.weighting / x.typical && mom == u * r
    requires pos == ((cell.startX + idx[0]) as real + p.position) * x.cellWidth * l
    ensures x.Has(p) && SampleOf(x, cell, p).y == cell.gOffset + idx[1]
    ensures Scaled(Of(SampleOf(x, cell, p)), r, l) == Moments(n, mom * mom * n, pos * pos * n, mom * pos * n)
  {
    SampleIs(x, cell, p, u, idx);
    ScaledSample(SampleOf(x, cell, p), r, l, mom, pos);
  }

  /** What bin `i` adds to the window's sums. */
  method WindowBin(bins: Bins, i: nat, u: Units) returns (m: Moments)
    requires bins.Valid() && i < |bins.view| && u.Ok()
    ensures m == Scaled(bins.view[i], u.Ratio(), u.length)
  {
    var mom2 := bins.mom2[i] * u.mass * u.mass;
    var momPos := bins.momPos[i] * u.mass * u.length;
    WindowUnits(bins.view[i], u, mom2, momPos);
    m := Moments(bins.count[i], mom2 / (u.electronMass * u.electronMass), bins.pos2[i] * u.length * u.length,
                 momPos / u.electronMass);
  }

  /** The sums over the whole window, in physical units. */
  method WindowSums(bins: Bins, start: nat, end: nat, u: Units) returns (all: Moments)
    requires bins.Valid() && start <= end <= |bins.view| && u.Ok()
    ensures all == Scaled(RangeTotal(bins.view, start, end), u.Ratio(), u.length)
  {
    ghost var r := u.Ratio();
    ghost var scaled := ScaleAll(bins.view, r, u.length);
    all := ZERO;
    for i := start to end
      invariant all == RangeTotal(scaled, start, i)
    {
      var m := WindowBin(bins, i, u);
      assert m == scaled[i];
      all := all.Plus(m);
    }
    ScaledRange(bins.view, scaled, r, u.length, start, end);
  }

  // The sums of a slice before the division, in units of momentum and length.

  ghost function Raw(m: Moments, momentum: real, l: real): Moments {
    Moments(m.count, m.mom2 * momentum * momentum, m.pos2 * l * l, m.momPos * momentum * l)
  }

  lemma RawIsScaled(m: Moments, momentum: real, l: real)
    ensures Raw(m, momentum, l) == Scaled(m, momentum, l)
  {
  }

  lemma SpeedUnits(m: real, mass: real, speed: real, momentum: real)
    requires momentum == mass * speed
    ensures m * mass * speed == m * momentum
  {
  }

  /** What bin `i` adds to its slice's sums. */
  method SliceBin(bins: Bins, i: nat, u: Units, ghost momentum: real) returns (m: Moments)
    requires bins.Valid() && i < |bins.view| && momentum == u.mass * u.speed
    ensures m == Scaled(bins.view[i], momentum, u.length)
  {
    ghost var b := bins.view[i];
    SpeedUnits(b.mom2, u.mass, u.speed, momentum);
    SpeedUnits(b.mom2 * momentum, u.mass, u.speed, momentum);
    SpeedUnits(b.momPos, u.mass, u.speed, momentum);
    RawIsScaled(b, momentum, u.length);
    m := Moments(bins.count[i],
                 bins.mom2[i] * u.mass * u.speed * u.mass * u.speed,
                 bins.pos2[i] * u.length * u.length,
                 bins.momPos[i] * u.mass * u.speed * u.length);
  }

  function SliceEnd(i: int, end: int): int { if i + 10 < end then i + 10 else end }

  lemma RangeOne(view: seq<Moments>, i: int)
    requires 0 <= i < |view|
    ensures RangeTotal(view, i, i + 1) == view[i]
  {
    assert RangeTotal(view, i, i + 1) == RangeTotal(view, i, i).Plus(view[i]);
    PlusZero(view[i]);
  }

  method InPhysicalUnits(raw: Moments, u: Units, ghost m: Moments, ghost momentum: real) returns (slice: Moments)
    requires u.Ok() && momentum == u.mass * u.speed && raw == Scaled(m, momentum, u.length)
    ensures slice == Scaled(m, u.Ratio(), u.length)
  {
    RawIsScaled(m, momentum, u.length);
    SliceUnits(m, u, momentum, raw.mom2, raw.momPos);
    var ux2 := raw.mom2 / (u.speed * u.speed * u.electronMass * u.electronMass);
    var xux := raw.momPos / (u.speed * u.electronMass);
    slice := Moments(raw.count, ux2, raw.pos2, xux);
  }

  /** The sums over the slice that starts at bin `i`. */
  method SliceSums(bins: Bins, i: nat, end: nat, u: Units) returns (slice: Moments)
    requires bins.Valid() && i < end <= |bins.view| && u.Ok()
    ensures slice == Scaled(RangeTotal(bins.view, i, SliceEnd(i, end)), u.Ratio(), u.length)
  {
    ghost var momentum := u.mass * u.speed;
    ghost var raw := ScaleAll(bins.view, momentum, u.length);
    slice := SliceBin(bins, i, u, momentum);
    RangeOne(raw, i);
    var j := i + 1;
    while j < i + 10 && j < end
      invariant i < j <= SliceEnd(i, end) && slice == RangeTotal(raw, i, j)
    {
      var m := SliceBin(bins, j, u, momentum);
      assert m == raw[j];
      slice := slice.Plus(m);
      j := j + 1;
    }
    ScaledRange(bins.view, raw, momentum, u.length, i, j);
    slice := InPhysicalUnits(slice, u, RangeTotal(bins.view, i, j), momentum);
  }

  function SliceCount(start: nat, end: nat): nat
    requires start <= end
  {
    (end - start + 9) / 10
  }

  /** The scaled moments of the bins from `lo` to `hi`. */
  ghost predicate Sums(m: Moments, view: seq<Moments>, lo: int, hi: int, r: real, l: real) {
    0 <= lo <= hi <= |view| && m == Scaled(RangeTotal(view, lo, hi), r, l)
  }

  /** The slices of the window, ten bins each but for the last. */
  method AllSlices(bins: Bins, start: nat, end: nat, u: Units) returns (slices: seq<Moments>)
    requires bins.Valid() && start <= end <= |bins.view| && u.Ok()
    ensures |slices| == SliceCount(start, end)
    ensures forall k :: 0 <= k < |slices| ==>
              Sums(slices[k], bins.view, start + 10 * k, SliceEnd(start + 10 * k, end), u.Ratio(), u.length)
  {
    slices := [];
    var i := start;
    while i < end
      invariant i == start + 10 * |slices| < end + 10
      invariant forall k :: 0 <= k < |slices| ==>
                  Sums(slices[k], bins.view, start + 10 * k, SliceEnd(start + 10 * k, end), u.Ratio(), u.length)
      decreases end + 10 - i
    {
      var slice := SliceSums(bins, i, end, u);
      slices := slices + [slice];
      i := i + 10;
    }
  }

  // ---------------------------------------------------------------- the results

  ghost function SlicesTotal(view: seq<Moments>, start: nat, end: nat, k: nat): Moments
    requires start <= end <= |view| && k <= SliceCount(start, end)
  {
    if k == 0 then ZERO
    else
      var lo := start + 10 * (k - 1);
      SlicesTotal(view, start, end, k - 1).Plus(RangeTotal(view, lo, SliceEnd(lo, end)))
  }

  lemma {:induction false} SlicesAddUp(view: seq<Moments>, start: nat, end: nat, k: nat)
    requires start <= end <= |view| && k <= SliceCount(start, end)
    ensures SlicesTotal(view, start, end, k)
         == RangeTotal(view, start, if start + 10 * k < end then start + 10 * k else end)
  {
    if k > 0 {
      SlicesAddUp(view, start, end, k - 1);
      var lo := start + 10 * (k - 1);
      assert lo < end;
      RangeSplit(view, start, lo, SliceEnd(lo, end));
    }
  }

  predicate InSlice(start: nat, end: nat, k: int, y: int) {
    start <= end && 0 <= k < SliceCount(start, end) && start + 10 * k <= y < SliceEnd(start + 10 * k, end)
  }

  /** The slices partition the window: together they have the window's moments, and every bin
      of the window, and no other, is in exactly one of them. */
  lemma SlicesPartition(view: seq<Moments>, start: nat, end: nat, y: int)
    requires start <= end <= |view|
    ensures SlicesTotal(view, start, end, SliceCount(start, end)) == RangeTotal(view, start, end)
    ensures start <= y < end <==> exists k :: InSlice(start, end, k, y)
    ensures forall k, n :: InSlice(start, end, k, y) && InSlice(start, end, n, y) ==> k == n
  {
    SlicesAddUp(view, start, end, SliceCount(start, end));
    if start <= y < end {
      assert InSlice(start, end, (y - start) / 10, y);
    }
  }

  lemma ScaledNotNegative(m: Moments, r: real, l: real)
    requires m.Radicand() >= 0.0
    ensures Scaled(m, r, l).Radicand() >= 0.0
  {
    ScaledRadicand(m, r, l);
    NotNegative(m.Radicand(), (r * l) * (r * l));
  }

  /** Sums over bins are those of the samples in them, and no radicand is negative. */
  lemma SumsOfSamples(m: Moments, view: seq<Moments>, ss: seq<Sample>, lo: int, hi: int, r: real, l: real)
    requires Weighted(ss) && Holds(view, ss) && Sums(m, view, lo, hi, r, l)
    ensures m == Scaled(Total(Of, ss, lo, hi), r, l) && m.Radicand() >= 0.0
  {
    RangeOfSamples(view, ss, lo, hi);
    RadicandNotNegative(ss, lo, hi);
    ScaledNotNegative(Total(Of, ss, lo, hi), r, l);
  }

  /** The moments of the samples in a range of bins, in physical units. */
  ghost predicate Measures(m: Moments, ss: seq<Sample>, lo: int, hi: int, u: Units) {
    u.Ok() && m == Scaled(Total(Of, ss, lo, hi), u.Ratio(), u.length) && m.Radicand() >= 0.0
  }

  /** The bins of all particles. */
  method Collect(x: Setup, cells: seq<SuperCell>, height: nat) returns (bins: Bins)
    requires x.Ok() && AllOk(x, cells)
    requires forall i :: 0 <= i < |cells| ==> cells[i].gOffset + x.size[1] <= height
    ensures fresh(bins.Repr) && bins.Valid() && |bins.view| == height && Holds(bins.view, AllSamples(x, cells))
    ensures Weighted(AllSamples(x, cells))
  {
    bins := new Bins(height);
    ghost var zero := bins.view;
    AddSuperCells(x, cells, bins);
    ZeroGained(zero, bins.view, AllSamples(x, cells));
    AllWeighted(x, cells);
  }

  lemma SlicesMeasure(slices: seq<Moments>, view: seq<Moments>, ss: seq<Sample>, start: nat, end: nat, u: Units)
    requires Weighted(ss) && Holds(view, ss) && u.Ok()
    requires forall k :: 0 <= k < |slices| ==>
               Sums(slices[k], view, start + 10 * k, SliceEnd(start + 10 * k, end), u.Ratio(), u.length)
    ensures forall k :: 0 <= k < |slices| ==> Measures(slices[k], ss, start + 10 * k, SliceEnd(start + 10 * k, end), u)
  {
    forall k | 0 <= k < |slices| ensures Measures(slices[k], ss, start + 10 * k, SliceEnd(start + 10 * k, end), u) {
      var lo := start + 10 * k;
      SumsOfSamples(slices[k], view, ss, lo, SliceEnd(lo, end), u.Ratio(), u.length);
    }
  }

  /** From the particles to the sums under the square roots: the window's and every slice's are
      those of the particles in them, with the same unit factor, and are not negative. */
  method CalculateSums(x: Setup, cells: seq<SuperCell>, height: nat, start: nat, end: nat, u: Units)
    returns (all: Moments, slices: seq<Moments>)
    requires x.Ok() && AllOk(x, cells) && start <= end <= height && u.Ok()
    requires forall i :: 0 <= i < |cells| ==> cells[i].gOffset + x.size[1] <= height
    ensures Measures(all, AllSamples(x, cells), start, end, u) && |slices| == SliceCount(start, end)
    ensures all == Scaled(Total(Of, AllSamples(x, cells), start, end), u.mass / u.electronMass, u.length)
    ensures forall k :: 0 <= k < |slices| ==>
              Measures(slices[k], AllSamples(x, cells), start + 10 * k, SliceEnd(start + 10 * k, end), u)
  {
    ghost var ss := AllSamples(x, cells);
    var bins := Collect(x, cells, height);
    all := WindowSums(bins, start, end, u);
    SumsOfSamples(all, bins.view, ss, start, end, u.Ratio(), u.length);
    slices := AllSlices(bins, start, end, u);
    SlicesMeasure(slices, bins.view, ss, start, end, u);
  }
}
