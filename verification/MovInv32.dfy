/** The 32-bit moving-inversions memory test: every word of a block is written with a pattern
    that moves on by one bit per word, checked and inverted, and checked again. */
module MovInv32 {
  import opened Arithmetic
  import opened Bits

  /** Words in a memory block of 1024 * 1024 bytes, and blocks per kernel launch. */
  const BLOCK: nat := 0x4_0000
  const GRIDSIZE: nat := 128

  datatype Args = Args(pattern: nat, lb: nat, sval: nat, offset: nat) {
    predicate Ok() {
      pattern < WORD && lb < WORD && sval < WORD && offset < WORD
    }
  }

  function Invert(word: nat): nat
    requires word < WORD
  {
    WORD - 1 - word
  }

  // ---------------------------------------------------------------- the pattern

  datatype Cursor = Cursor(k: nat, pat: nat)

  lemma WordIsPow2()
    ensures Pow2(32) == WORD
  {
    assert Pow2(4) == 16 by { assert Pow2(2) == 4; }
    assert Pow2(8) == 256 by { assert Pow2(6) == 64; }
    assert Pow2(12) == 4096 by { assert Pow2(10) == 1024; }
    assert Pow2(16) == 65536 by { assert Pow2(14) == 16384; }
    assert Pow2(20) == 1048576 by { assert Pow2(18) == 262144; }
    assert Pow2(24) == 16777216 by { assert Pow2(22) == 4194304; }
    assert Pow2(28) == 268435456 by { assert Pow2(26) == 67108864; }
    assert Pow2(30) == 1073741824;
  }

  /** The pattern and the bit counter after one word. */
  function Advance(a: Args, c: Cursor): (r: Cursor)
    requires a.Ok() && c.pat < WORD
    ensures r.pat < WORD && r.k < WORD
  {
    var k := (c.k + 1) % WORD;
    if k >= 32 then Cursor(0, a.lb)
    else
      WordIsPow2();
      OrBelow((2 * c.pat) % WORD, a.sval, 32);
      Cursor(k, Or((2 * c.pat) % WORD, a.sval))
  }

  /** The cursor of a kernel after `n` words. */
  function At(a: Args, n: nat): (r: Cursor)
    requires a.Ok()
    ensures r.pat < WORD
  {
    if n == 0 then Cursor(a.offset, a.pattern) else Advance(a, At(a, n - 1))
  }

  /** What word `x` of the memory holds after the write: each block starts afresh. */
  function Expect(a: Args, x: nat): (r: nat)
    requires a.Ok()
    ensures r < WORD
  {
    At(a, x % BLOCK).pat
  }

  /** The arguments of the two passes with a given start bit. */
  function Walking(inverted: bool, offset: nat): (a: Args)
    requires offset < 32
    ensures a.Ok()
  {
    WordIsPow2();
    Pow2Monotone(offset, 31);
    if inverted then Args(Invert(Pow2(offset)), 0xffff_fffe, 1, offset) else Args(Pow2(offset), 1, 0, offset)
  }

  /** All bits clear but bit `n`, or all set but bit `n`. */
  function OneHot(inverted: bool, n: nat): (r: nat)
    requires n < 32
    ensures r < WORD
  {
    WordIsPow2();
    Pow2Monotone(n, 31);
    if inverted then Invert(Pow2(n)) else Pow2(n)
  }

  lemma NextBit(n: nat)
    ensures (n + 1) % 32 == (n % 32 + 1) % 32
    ensures n % 32 == 31 ==> (n + 1) % 32 == 0
    ensures n % 32 < 31 ==> (n + 1) % 32 == n % 32 + 1
  {
  }

  lemma AddTurns(n: nat, turns: nat)
    ensures (n + 32 * turns) % 32 == n % 32
  {
  }

  lemma BlockBit(offset: nat, x: nat, q: nat, r: nat)
    requires x == BLOCK * q + r
    ensures (offset + r) % 32 == (offset + x) % 32
  {
    var turns := 8192 * q;
    assert offset + x == offset + r + 32 * turns;
    AddTurns(offset + r, turns);
  }

  lemma StartAgain(inverted: bool, offset: nat)
    requires offset < 32
    ensures Advance(Walking(inverted, offset), Cursor(31, OneHot(inverted, 31))) == Cursor(0, OneHot(inverted, 0))
  {
  }

  lemma Doubled(p: nat)
    requires 2 * p < WORD
    ensures (2 * (WORD - 1 - p)) % WORD == WORD - 2 - 2 * p
  {
    assert 2 * (WORD - 1 - p) == WORD + (WORD - 2 - 2 * p);
  }

  lemma SetLowBit(x: nat)
    requires x % 2 == 0
    ensures Or(x, 1) == x + 1
  {
    assert Or(x / 2, 0) == x / 2;
  }

  lemma MoveOn(inverted: bool, offset: nat, k: nat)
    requires offset < 32 && k < 31
    ensures Advance(Walking(inverted, offset), Cursor(k, OneHot(inverted, k))) == Cursor(k + 1, OneHot(inverted, k + 1))
  {
    var p := Pow2(k);
    assert Pow2(k + 1) == 2 * p;
    assert 2 * p < WORD by { WordIsPow2(); Pow2Monotone(k + 1, 31); }
    if inverted {
      Doubled(p);
      SetLowBit(WORD - 2 - 2 * p);
    } else {
      assert (2 * p) % WORD == 2 * p;
    }
  }

  /** The pattern of the test's arguments has a single bit set, or a single bit clear, and the
      bit moves on with every word. */
  lemma {:induction false} WalkingPattern(inverted: bool, offset: nat, n: nat, k: nat)
    requires offset < 32 && k == (offset + n) % 32
    ensures At(Walking(inverted, offset), n) == Cursor(k, OneHot(inverted, k))
  {
    if n > 0 {
      var last := (offset + n - 1) % 32;
      NextBit(offset + n - 1);
      WalkingPattern(inverted, offset, n - 1, last);
      if last == 31 {
        StartAgain(inverted, offset);
      } else {
        MoveOn(inverted, offset, last);
      }
    }
  }

  /** A block holds a multiple of 32 words, so the bit depends on the word alone. */
  lemma WalkingWord(inverted: bool, offset: nat, x: nat, k: nat)
    requires offset < 32 && k == (offset + x) % 32
    ensures Expect(Walking(inverted, offset), x) == OneHot(inverted, k)
  {
    BlockBit(offset, x, x / BLOCK, x % BLOCK);
    WalkingPattern(inverted, offset, x % BLOCK, k);
  }

  lemma {:induction false} BitOfInverse(x: nat, width: nat, k: nat)
    requires x < Pow2(width) && k < width
    ensures Bit(Pow2(width) - 1 - x, k) <==> !Bit(x, k)
  {
    var y := Pow2(width) - 1 - x;
    assert y % 2 == 1 - x % 2 && y / 2 == Pow2(width - 1) - 1 - x / 2;
    if k > 0 { BitOfInverse(x / 2, width - 1, k - 1); }
  }

  /** Exactly one bit of the word is set, or exactly one is clear. */
  lemma OneHotBits(inverted: bool, n: nat, k: nat)
    requires n < 32 && k < 32
    ensures Bit(OneHot(inverted, n), k) <==> (k == n) != inverted
  {
    WordIsPow2();
    Pow2Monotone(n, 31);
    BitOfPow2(n, k);
    if inverted { BitOfInverse(Pow2(n), 32, k); }
  }

  lemma TurnBack(x: nat, n: nat)
    requires n < 32
    ensures ((n + 32 - x % 32) % 32 + x) % 32 == n
  {
  }

  /** Over the 32 start bits every word takes every pattern. */
  lemma EveryPattern(inverted: bool, x: nat, n: nat) returns (offset: nat)
    requires n < 32
    ensures offset < 32 && Expect(Walking(inverted, offset), x) == OneHot(inverted, n)
  {
    offset := (n + 32 - x % 32) % 32;
    TurnBack(x, n);
    WalkingWord(inverted, offset, x, n);
  }

  // ---------------------------------------------------------------- kernels

  /** Memory, by what word `x` keeps of a value that is written to it.  Without faults it is the
      value. */
  type Cells = (nat, nat) -> nat

  datatype Phase = Write | ReadWrite | Read

  /** What a phase leaves in a word `x` whose pattern is `pat`, ... */
  ghost function Left(keep: Cells, phase: Phase, x: nat, pat: nat, was: nat): nat
    requires pat < WORD
  {
    match phase
    case Write => keep(x, pat)
    case ReadWrite => keep(x, Invert(pat))
    case Read => was
  }

  /** ... and whether what it finds there is an error. */
  ghost predicate Wrong(phase: Phase, pat: nat, was: nat)
    requires pat < WORD
  {
    match phase
    case Write => false
    case ReadWrite => was != pat
    case Read => was != Invert(pat)
  }

  /** The words of some blocks that a phase should report. */
  ghost function Errors(phase: Phase, a: Args, s: seq<nat>, blocks: set<nat>): set<nat>
    requires a.Ok()
  {
    set x | 0 <= x < |s| && x / BLOCK in blocks && Wrong(phase, Expect(a, x), s[x])
  }

  /** Those among the first `n` words from `lo` on. */
  ghost function ErrorsFrom(phase: Phase, a: Args, s: seq<nat>, lo: nat, n: nat): set<nat>
    requires a.Ok() && lo + n <= |s|
  {
    set x | lo <= x < lo + n && Wrong(phase, At(a, x - lo).pat, s[x])
  }

  lemma Grow(less: set<nat>, more: set<nat>, x: nat, bad: bool)
    requires x !in less && forall y: nat :: y in more <==> y in less || (bad && y == x)
    ensures |more| == |less| + if bad then 1 else 0
  {
    assert more == if bad then less + {x} else less;
  }

  lemma OneMore(phase: Phase, a: Args, s: seq<nat>, lo: nat, n: nat, bad: bool)
    requires a.Ok() && lo + n < |s| && bad == Wrong(phase, At(a, n).pat, s[lo + n])
    ensures |ErrorsFrom(phase, a, s, lo, n + 1)| == |ErrorsFrom(phase, a, s, lo, n)| + if bad then 1 else 0
  {
    Grow(ErrorsFrom(phase, a, s, lo, n), ErrorsFrom(phase, a, s, lo, n + 1), lo + n, bad);
  }

  lemma BlockOf(x: nat, block: nat)
    ensures x / BLOCK == block <==> block * BLOCK <= x < block * BLOCK + BLOCK
    ensures x / BLOCK == block ==> x % BLOCK == x - block * BLOCK
  {
  }

  lemma ErrorsOfBlock(phase: Phase, a: Args, s: seq<nat>, block: nat)
    requires a.Ok() && block * BLOCK + BLOCK <= |s|
    ensures Errors(phase, a, s, {block}) == ErrorsFrom(phase, a, s, block * BLOCK, BLOCK)
  {
    forall x: nat ensures x in Errors(phase, a, s, {block}) <==> x in ErrorsFrom(phase, a, s, block * BLOCK, BLOCK) {
      BlockOf(x, block);
    }
  }

  /** Memory after a phase has run on some of the blocks. */
  ghost predicate Ran(keep: Cells, phase: Phase, a: Args, was: seq<nat>, now: seq<nat>, blocks: set<nat>)
    requires a.Ok()
  {
    |now| == |was| && forall x :: 0 <= x < |was| ==>
      now[x] == if x / BLOCK in blocks then Left(keep, phase, x, Expect(a, x), was[x]) else was[x]
  }

  /** Memory after it has run within one block up to word `i`. */
  ghost predicate RanUpTo(keep: Cells, phase: Phase, a: Args, was: seq<nat>, now: seq<nat>, lo: nat, i: nat)
    requires a.Ok()
  {
    |now| == |was| && forall x :: 0 <= x < |was| ==>
      now[x] == if lo <= x < lo + i then Left(keep, phase, x, At(a, x - lo).pat, was[x]) else was[x]
  }

  lemma BlockRan(keep: Cells, phase: Phase, a: Args, was: seq<nat>, now: seq<nat>, block: nat)
    requires a.Ok() && block * BLOCK + BLOCK <= |was|
    requires RanUpTo(keep, phase, a, was, now, block * BLOCK, BLOCK)
    ensures Ran(keep, phase, a, was, now, {block})
  {
    forall x: nat | x < |was|
      ensures now[x] == if x / BLOCK == block then Left(keep, phase, x, Expect(a, x), was[x]) else was[x]
    {
      BlockOf(x, block);
    }
  }

  lemma NothingFound(phase: Phase, a: Args, s: seq<nat>, total: nat, block: nat)
    requires a.Ok() && |s| == total * BLOCK && block >= total
    ensures Errors(phase, a, s, {block}) == {} && forall x: nat :: x < |s| ==> x / BLOCK != block
  {
    forall x: nat | x < |s| ensures x / BLOCK != block {
      BlockOf(x, block);
    }
  }

  lemma NothingRan(keep: Cells, phase: Phase, a: Args, s: seq<nat>, total: nat, block: nat)
    requires a.Ok() && |s| == total * BLOCK && block >= total
    ensures Ran(keep, phase, a, s, s, {block}) && Errors(phase, a, s, {block}) == {}
  {
    NothingFound(phase, a, s, total, block);
  }

  /** The pattern for the next word. */
  method NextWord(a: Args, k: nat, pat: nat) returns (kNext: nat, patNext: nat)
    requires a.Ok() && pat < WORD
    ensures Cursor(kNext, patNext) == Advance(a, Cursor(k, pat))
  {
    kNext := (k + 1) % WORD;
    if kNext >= 32 {
      kNext := 0;
      patNext := a.lb;
    } else {
      patNext := (2 * pat) % WORD;
      patNext := Or(patNext, a.sval);
    }
  }

  method KernelWrite(keep: Cells, mem: array<nat>, a: Args, block: nat, total: nat)
    requires a.Ok() && mem.Length == total * BLOCK
    modifies mem
    ensures Ran(keep, Write, a, old(mem[..]), mem[..], {block})
  {
    ghost var was := mem[..];
    if block >= total {
      NothingRan(keep, Write, a, was, total, block);
      return;
    }
    var lo := block * BLOCK;
    var k, pat := a.offset, a.pattern;
    for i := 0 to BLOCK
      invariant Cursor(k, pat) == At(a, i)
      invariant RanUpTo(keep, Write, a, was, mem[..], lo, i)
    {
      mem[lo + i] := keep(lo + i, pat);
      k, pat := NextWord(a, k, pat);
    }
    BlockRan(keep, Write, a, was, mem[..], block);
  }

  method KernelReadWrite(keep: Cells, mem: array<nat>, a: Args, block: nat, total: nat) returns (err: nat)
    requires a.Ok() && mem.Length == total * BLOCK
    modifies mem
    ensures Ran(keep, ReadWrite, a, old(mem[..]), mem[..], {block})
    ensures err == |Errors(ReadWrite, a, old(mem[..]), {block})|
  {
    ghost var was := mem[..];
    err := 0;
    if block >= total {
      NothingRan(keep, ReadWrite, a, was, total, block);
      return;
    }
    var lo := block * BLOCK;
    var k, pat := a.offset, a.pattern;
    for i := 0 to BLOCK
      invariant Cursor(k, pat) == At(a, i)
      invariant RanUpTo(keep, ReadWrite, a, was, mem[..], lo, i)
      invariant err == |ErrorsFrom(ReadWrite, a, was, lo, i)|
    {
      OneMore(ReadWrite, a, was, lo, i, mem[lo + i] != pat);
      if mem[lo + i] != pat { err := err + 1; }
      mem[lo + i] := keep(lo + i, Invert(pat));
      k, pat := NextWord(a, k, pat);
    }
    BlockRan(keep, ReadWrite, a, was, mem[..], block);
    ErrorsOfBlock(ReadWrite, a, was, block);
  }

  method KernelRead(mem: array<nat>, a: Args, block: nat, total: nat) returns (err: nat)
    requires a.Ok() && mem.Length == total * BLOCK
    ensures err == |Errors(Read, a, mem[..], {block})|
  {
    err := 0;
    if block >= total {
      NothingFound(Read, a, mem[..], total, block);
      return;
    }
    var lo := block * BLOCK;
    var k, pat := a.offset, a.pattern;
    for i := 0 to BLOCK
      invariant Cursor(k, pat) == At(a, i)
      invariant err == |ErrorsFrom(Read, a, mem[..], lo, i)|
    {
      OneMore(Read, a, mem[..], lo, i, mem[lo + i] != Invert(pat));
      if mem[lo + i] != Invert(pat) { err := err + 1; }
      k, pat := NextWord(a, k, pat);
    }
    ErrorsOfBlock(Read, a, mem[..], block);
  }

  // ---------------------------------------------------------------- launches and phases

  lemma SameErrors(keep: Cells, phase: Phase, a: Args, was: seq<nat>, mid: seq<nat>, d: set<nat>, e: set<nat>)
    requires a.Ok() && d !! e && Ran(keep, phase, a, was, mid, d)
    ensures Errors(phase, a, mid, e) == Errors(phase, a, was, e)
  {
    forall x: nat ensures x in Errors(phase, a, mid, e) <==> x in Errors(phase, a, was, e) {
      if x < |was| && x / BLOCK in e { assert mid[x] == was[x]; }
    }
  }

  /** Running on some blocks and then on others is running on all of them. */
  lemma RanThen(keep: Cells, phase: Phase, a: Args, was: seq<nat>, mid: seq<nat>, now: seq<nat>,
                d: set<nat>, e: set<nat>)
    requires a.Ok() && d !! e && Ran(keep, phase, a, was, mid, d) && Ran(keep, phase, a, mid, now, e)
    ensures Ran(keep, phase, a, was, now, d + e)
    ensures |Errors(phase, a, was, d + e)| == |Errors(phase, a, was, d)| + |Errors(phase, a, mid, e)|
  {
    SameErrors(keep, phase, a, was, mid, d, e);
    var left, right := Errors(phase, a, was, d), Errors(phase, a, was, e);
    assert Errors(phase, a, was, d + e) == left + right && left !! right;
  }

  /** What a phase has done once it has run on some of `total` blocks: memory, the errors
      reported, and how often each block was visited. */
  ghost predicate Progress(keep: Cells, phase: Phase, a: Args, was: seq<nat>, now: seq<nat>, blocks: set<nat>,
                           total: nat, err: nat, visited: multiset<nat>)
    requires a.Ok()
  {
    && Ran(keep, phase, a, was, now, blocks) && err == |Errors(phase, a, was, blocks)|
    && forall b: nat :: visited[b] == if b in blocks && b < total then 1 else 0
  }

  lemma NoProgress(keep: Cells, phase: Phase, a: Args, was: seq<nat>, total: nat)
    requires a.Ok()
    ensures Progress(keep, phase, a, was, was, {}, total, 0, multiset{})
  {
    assert Errors(phase, a, was, {}) == {};
  }

  lemma ProgressThen(keep: Cells, phase: Phase, a: Args, was: seq<nat>, mid: seq<nat>, now: seq<nat>,
                     d: set<nat>, e: set<nat>, total: nat, err: nat, found: nat,
                     visited: multiset<nat>, seen: multiset<nat>)
    requires a.Ok() && d !! e && Progress(keep, phase, a, was, mid, d, total, err, visited)
    requires Progress(keep, phase, a, mid, now, e, total, found, seen)
    ensures Progress(keep, phase, a, was, now, d + e, total, err + found, visited + seen)
  {
    RanThen(keep, phase, a, was, mid, now, d, e);
  }

  /** One block, which is skipped if it lies beyond the memory. */
  method RunBlock(keep: Cells, phase: Phase, mem: array<nat>, a: Args, block: nat, total: nat)
    returns (err: nat, ghost visited: multiset<nat>)
    requires a.Ok() && mem.Length == total * BLOCK
    modifies mem
    ensures Progress(keep, phase, a, old(mem[..]), mem[..], {block}, total, err, visited)
  {
    match phase {
      case Write => err := 0; KernelWrite(keep, mem, a, block, total);
      case ReadWrite => err := KernelReadWrite(keep, mem, a, block, total);
      case Read => err := KernelRead(mem, a, block, total);
    }
    visited := if block < total then multiset{block} else multiset{};
    assert phase.Write? ==> Errors(phase, a, old(mem[..]), {block}) == {};
  }

  function Between(lo: nat, hi: nat): (r: set<nat>)
    requires lo <= hi
    ensures forall b: nat :: b in r <==> lo <= b < hi
    decreases hi
  {
    if lo == hi then {} else Between(lo, hi - 1) + {hi - 1}
  }

  /** The block numbers of the launch that starts at block `i`, and the next one's. */
  method BlocksFrom(i: nat) returns (blocks: set<nat>)
    ensures forall b: nat :: b in blocks <==> i <= b < i + GRIDSIZE
  {
    blocks := Between(i, i + GRIDSIZE);
  }

  method NextLaunch(i: nat) returns (next: nat)
    ensures i + GRIDSIZE < WORD ==> next == i + GRIDSIZE
    ensures i + GRIDSIZE == WORD ==> next == 0
  {
    next := (i + GRIDSIZE) % WORD;
  }

  /** The blocks of one kernel launch, in any order. */
  method RunBlocks(keep: Cells, phase: Phase, mem: array<nat>, a: Args, blocks: set<nat>, total: nat)
    returns (err: nat, ghost visited: multiset<nat>)
    requires a.Ok() && mem.Length == total * BLOCK
    modifies mem
    ensures Progress(keep, phase, a, old(mem[..]), mem[..], blocks, total, err, visited)
  {
    ghost var was := mem[..];
    var open := blocks;
    err, visited := 0, multiset{};
    NoProgress(keep, phase, a, was, total);
    assert blocks - open == {};
    while open != {}
      invariant open <= blocks && Progress(keep, phase, a, was, mem[..], blocks - open, total, err, visited)
      decreases open
    {
      var b :| b in open;
      ghost var mid := mem[..];
      ghost var seen;
      var found;
      found, seen := RunBlock(keep, phase, mem, a, b, total);
      ProgressThen(keep, phase, a, was, mid, mem[..], blocks - open, {b}, total, err, found, visited, seen);
      assert blocks - open + {b} == blocks - (open - {b});
      err, open, visited := err + found, open - {b}, visited + seen;
    }
    assert blocks - open == blocks;
  }

  /** The block at which the `k`-th launch starts: the loop's counter is 32 bits wide. */
  ghost function LaunchAt(k: nat): nat {
    if k == 0 then 0 else (LaunchAt(k - 1) + GRIDSIZE) % WORD
  }

  lemma {:induction false} LaunchIsMultiple(k: nat)
    ensures LaunchAt(k) % GRIDSIZE == 0 && LaunchAt(k) <= WORD - GRIDSIZE
  {
    if k > 0 {
      LaunchIsMultiple(k - 1);
      if LaunchAt(k - 1) == WORD - GRIDSIZE { assert LaunchAt(k) == 0; }
    }
  }

  lemma {:induction false} LaunchReaches(k: nat)
    requires GRIDSIZE * k < WORD
    ensures LaunchAt(k) == GRIDSIZE * k
  {
    if k > 0 { LaunchReaches(k - 1); }
  }

  /** The loop over the launches ends if and only if the counter does not wrap around first. */
  lemma LaunchesEndIff(total: nat)
    ensures (exists k: nat :: LaunchAt(k) >= total) <==> total <= 0x1_0000_0000 - 128
  {
    if total <= WORD - GRIDSIZE {
      var k := (total + GRIDSIZE - 1) / GRIDSIZE;
      LaunchReaches(k);
    }
    if k: nat :| LaunchAt(k) >= total { LaunchIsMultiple(k); }
  }

  /** Blocks beyond the memory make no difference. */
  lemma AllBlocks(keep: Cells, phase: Phase, a: Args, was: seq<nat>, now: seq<nat>, done: set<nat>,
                  total: nat, err: nat, visited: multiset<nat>)
    requires a.Ok() && |was| == total * BLOCK && Progress(keep, phase, a, was, now, done, total, err, visited)
    requires forall b: nat :: b < total ==> b in done
    ensures Progress(keep, phase, a, was, now, Between(0, total), total, err, visited)
  {
    forall x: nat | x < |was| ensures x / BLOCK < total {
      BlockOf(x, x / BLOCK);
    }
    assert Errors(phase, a, was, done) == Errors(phase, a, was, Between(0, total));
  }

  /** All blocks, one launch after the other.  Beyond the bound on `total` the 32-bit loop
      counter would wrap around and the loop not end. */
  method RunPhase(keep: Cells, phase: Phase, mem: array<nat>, a: Args, total: nat)
    returns (err: nat, ghost visited: multiset<nat>)
    requires a.Ok() && mem.Length == total * BLOCK && total <= WORD - GRIDSIZE
    modifies mem
    ensures Progress(keep, phase, a, old(mem[..]), mem[..], Between(0, total), total, err, visited)
  {
    ghost var was := mem[..];
    ghost var done: set<nat> := {};
    var i := 0;
    err, visited := 0, multiset{};
    NoProgress(keep, phase, a, was, total);
    while i < total
      invariant i <= total + GRIDSIZE - 1 && forall b: nat :: b in done <==> b < i
      invariant Progress(keep, phase, a, was, mem[..], done, total, err, visited)
      decreases total - i
    {
      ghost var mid := mem[..];
      ghost var seen;
      var found;
      var blocks := BlocksFrom(i);
      found, seen := RunBlocks(keep, phase, mem, a, blocks, total);
      ProgressThen(keep, phase, a, was, mid, mem[..], done, blocks, total, err, found, visited, seen);
      err, done, visited := err + found, done + blocks, visited + seen;
      i := NextLaunch(i);
    }
    AllBlocks(keep, phase, a, was, mem[..], done, total, err, visited);
  }

  // ---------------------------------------------------------------- the test

  /** What word `x` is written with, in the first phase or in the second. */
  ghost function Written(a: Args, inverse: bool, x: nat): (r: nat)
    requires a.Ok()
    ensures r < WORD
  {
    if inverse then Invert(Expect(a, x)) else Expect(a, x)
  }

  /** Memory after all its words have been written. */
  ghost predicate Holds(keep: Cells, s: seq<nat>, a: Args, inverse: bool)
    requires a.Ok()
  {
    forall x :: 0 <= x < |s| ==> s[x] == keep(x, Written(a, inverse, x))
  }

  /** The words that do not keep what they are written with. */
  ghost function Lost(keep: Cells, a: Args, inverse: bool, size: nat): set<nat>
    requires a.Ok()
  {
    set x | 0 <= x < size && keep(x, Written(a, inverse, x)) != Written(a, inverse, x)
  }

  lemma PhaseHolds(keep: Cells, phase: Phase, a: Args, was: seq<nat>, now: seq<nat>, total: nat)
    requires a.Ok() && |was| == total * BLOCK && Ran(keep, phase, a, was, now, Between(0, total))
    ensures phase.Write? ==> Holds(keep, now, a, false)
    ensures phase.ReadWrite? ==> Holds(keep, now, a, true)
    ensures phase.Read? ==> now == was
  {
    forall x: nat | x < |was| ensures x / BLOCK < total {
      BlockOf(x, x / BLOCK);
    }
  }

  lemma PhaseFinds(keep: Cells, phase: Phase, a: Args, was: seq<nat>, total: nat)
    requires a.Ok() && |was| == total * BLOCK
    ensures phase.Write? ==> Errors(phase, a, was, Between(0, total)) == {}
    ensures phase.ReadWrite? && Holds(keep, was, a, false) ==>
              Errors(phase, a, was, Between(0, total)) == Lost(keep, a, false, |was|)
    ensures phase.Read? && Holds(keep, was, a, true) ==>
              Errors(phase, a, was, Between(0, total)) == Lost(keep, a, true, |was|)
  {
    forall x: nat | x < |was| ensures x / BLOCK < total {
      BlockOf(x, x / BLOCK);
    }
  }

  /** Whatever memory held before, the errors are the words that do not keep their pattern and
      those that do not keep its inverse; memory is written with both. */
  method MovInv32(keep: Cells, mem: array<nat>, total: nat, a: Args) returns (err: nat, ghost history: seq<seq<nat>>)
    requires a.Ok() && mem.Length == total * BLOCK && total <= WORD - GRIDSIZE
    modifies mem
    ensures err == |Lost(keep, a, false, mem.Length)| + |Lost(keep, a, true, mem.Length)|
    ensures |history| == 2 && |history[0]| == |history[1]| == mem.Length
    ensures Holds(keep, history[0], a, false) && Holds(keep, history[1], a, true) && mem[..] == history[1]
  {
    ghost var was := mem[..];
    ghost var visited;
    var found;
    err, visited := RunPhase(keep, Write, mem, a, total);
    PhaseHolds(keep, Write, a, was, mem[..], total);
    PhaseFinds(keep, Write, a, was, total);
    history := [mem[..]];
    found, visited := RunPhase(keep, ReadWrite, mem, a, total);
    PhaseHolds(keep, ReadWrite, a, history[0], mem[..], total);
    PhaseFinds(keep, ReadWrite, a, history[0], total);
    err, history := err + found, history + [mem[..]];
    found, visited := RunPhase(keep, Read, mem, a, total);
    PhaseHolds(keep, Read, a, history[1], mem[..], total);
    PhaseFinds(keep, Read, a, history[1], total);
    err := err + found;
  }

  /** The memory keeps the patterns of both runs with a start bit, and their inverses. */
  ghost predicate KeepsAll(keep: Cells, size: nat, offset: nat)
    requires offset < 32
  {
    forall x, inverted, inverse :: 0 <= x < size ==>
      var word := Written(Walking(inverted, offset), inverse, x); keep(x, word) == word
  }

  ghost predicate IsPattern(keep: Cells, s: seq<nat>, size: nat, offset: nat, inverted: bool)
    requires offset < 32
  {
    |s| == size && Holds(keep, s, Walking(inverted, offset), false)
  }

  /** The snapshots of start bit `offset`, of either polarity. */
  ghost predicate Took(keep: Cells, history: seq<seq<nat>>, size: nat, offset: nat)
    requires offset < 32
  {
    && 4 * offset + 2 < |history|
    && IsPattern(keep, history[4 * offset], size, offset, false)
    && IsPattern(keep, history[4 * offset + 2], size, offset, true)
  }

  lemma TookMore(keep: Cells, before: seq<seq<nat>>, more: seq<seq<nat>>, size: nat, i: nat)
    requires i < 32 && |before| == 4 * i && forall o :: 0 <= o < i ==> Took(keep, before, size, o)
    requires |more| == 4 && IsPattern(keep, more[0], size, i, false) && IsPattern(keep, more[2], size, i, true)
    ensures forall o :: 0 <= o <= i ==> Took(keep, before + more, size, o)
  {
    var history := before + more;
    forall o | 0 <= o <= i ensures Took(keep, history, size, o) {
      if o < i {
        assert Took(keep, before, size, o);
        assert history[4 * o] == before[4 * o] && history[4 * o + 2] == before[4 * o + 2];
      } else {
        assert history[4 * i] == more[0] && history[4 * i + 2] == more[2];
      }
    }
  }

  lemma NothingLost(keep: Cells, a: Args, inverse: bool, size: nat)
    requires a.Ok()
    ensures |Lost(keep, a, inverse, size)| == 0 <==>
            forall x :: 0 <= x < size ==> keep(x, Written(a, inverse, x)) == Written(a, inverse, x)
  {
    var lost := Lost(keep, a, inverse, size);
    if x :| 0 <= x < size && keep(x, Written(a, inverse, x)) != Written(a, inverse, x) { assert x in lost; }
    assert |lost| == 0 ==> lost == {};
  }

  lemma NoErrorsIff(keep: Cells, size: nat, i: nat, err: nat)
    requires i < 32
    requires err == |Lost(keep, Walking(false, i), false, size)| + |Lost(keep, Walking(false, i), true, size)|
                    + |Lost(keep, Walking(true, i), false, size)| + |Lost(keep, Walking(true, i), true, size)|
    ensures err == 0 <==> KeepsAll(keep, size, i)
  {
    NothingLost(keep, Walking(false, i), false, size);
    NothingLost(keep, Walking(false, i), true, size);
    NothingLost(keep, Walking(true, i), false, size);
    NothingLost(keep, Walking(true, i), true, size);
  }

  /** The two runs with one start bit. */
  method OneStartBit(keep: Cells, mem: array<nat>, total: nat, i: nat, pattern: nat)
    returns (err: nat, ghost history: seq<seq<nat>>)
    requires mem.Length == total * BLOCK && total <= WORD - GRIDSIZE && i < 32 && pattern == Pow2(i)
    modifies mem
    ensures |history| == 4 && (err == 0 <==> KeepsAll(keep, mem.Length, i))
    ensures IsPattern(keep, history[0], mem.Length, i, false) && IsPattern(keep, history[2], mem.Length, i, true)
  {
    WordIsPow2();
    Pow2Monotone(i, 31);
    ghost var plain, inverse;
    var found;
    err, plain := MovInv32(keep, mem, total, Args(pattern, 1, 0, i));
    found, inverse := MovInv32(keep, mem, total, Args(Invert(pattern), 0xffff_fffe, 1, i));
    err, history := err + found, plain + inverse;
    NoErrorsIff(keep, mem.Length, i, err);
  }

  method NextPattern(pattern: nat, i: nat) returns (next: nat)
    requires i < 32 && pattern == Pow2(i)
    ensures i < 31 ==> next == Pow2(i + 1)
  {
    WordIsPow2();
    if i < 31 { Pow2Monotone(i + 1, 31); }
    next := (2 * pattern) % WORD;
  }

  /** Word `x` held `word` at some time. */
  ghost predicate Takes(history: seq<seq<nat>>, x: nat, word: nat) {
    exists h :: 0 <= h < |history| && x < |history[h]| && history[h][x] == word
  }

  lemma TakesPattern(keep: Cells, history: seq<seq<nat>>, size: nat, x: nat, n: nat, inverted: bool)
    requires x < size && n < 32
    requires forall o :: 0 <= o < 32 ==> Took(keep, history, size, o)
    ensures Takes(history, x, keep(x, OneHot(inverted, n)))
  {
    var offset := EveryPattern(inverted, x, n);
    var h := 4 * offset + if inverted then 2 else 0;
    assert Took(keep, history, size, offset);
    assert history[h][x] == keep(x, Expect(Walking(inverted, offset), x));
  }

  /** Every word keeps every word with one bit set and every one with one bit clear. */
  ghost predicate Faultless(keep: Cells, size: nat) {
    forall x, n, inverted :: 0 <= x < size && 0 <= n < 32 ==> keep(x, OneHot(inverted, n)) == OneHot(inverted, n)
  }

  lemma InverseIsOneHot(inverted: bool, n: nat)
    requires n < 32
    ensures Invert(OneHot(inverted, n)) == OneHot(!inverted, n)
  {
  }

  /** The words written over all start bits are all patterns. */
  lemma KeepsAllIff(keep: Cells, size: nat)
    ensures (forall o :: 0 <= o < 32 ==> KeepsAll(keep, size, o)) <==> Faultless(keep, size)
  {
    if forall o :: 0 <= o < 32 ==> KeepsAll(keep, size, o) {
      forall x, n, inverted | 0 <= x < size && 0 <= n < 32
        ensures keep(x, OneHot(inverted, n)) == OneHot(inverted, n)
      {
        var offset := EveryPattern(inverted, x, n);
        assert KeepsAll(keep, size, offset);
        assert Written(Walking(inverted, offset), false, x) == OneHot(inverted, n);
      }
    }
    if Faultless(keep, size) {
      forall o | 0 <= o < 32 ensures KeepsAll(keep, size, o) {
        forall x, inverted, inverse | 0 <= x < size
          ensures var word := Written(Walking(inverted, o), inverse, x); keep(x, word) == word
        {
          var k := (o + x) % 32;
          WalkingWord(inverted, o, x, k);
          InverseIsOneHot(inverted, k);
        }
      }
    }
  }

  /** A bit that is stuck is a fault that the test shows. */
  lemma StuckBitIsFault(keep: Cells, size: nat, x: nat, k: nat, stuck: bool)
    requires x < size && k < 32 && forall word :: Bit(keep(x, word), k) == stuck
    ensures !Faultless(keep, size)
  {
    OneHotBits(stuck, k, k);
    assert Bit(keep(x, OneHot(stuck, k)), k) == stuck;
  }

  /** The whole test shows no error if and only if every word, whatever was in it, keeps every
      pattern with one bit set and every one with one bit clear; it is written with all of them. */
  method Test6(keep: Cells, mem: array<nat>, total: nat) returns (err: nat, ghost history: seq<seq<nat>>)
    requires mem.Length == total * (1024 * 1024 / 4) && total <= 0x1_0000_0000 - 128
    modifies mem
    ensures err == 0 <==> Faultless(keep, mem.Length)
    ensures forall x, n, inverted :: 0 <= x < mem.Length && 0 <= n < 32 ==>
              Takes(history, x, keep(x, OneHot(inverted, n)))
  {
    err, history := 0, [];
    var pattern := 1;
    for i := 0 to 32
      invariant |history| == 4 * i && (i < 32 ==> pattern == Pow2(i))
      invariant err == 0 <==> forall o :: 0 <= o < i ==> KeepsAll(keep, mem.Length, o)
      invariant forall o :: 0 <= o < i ==> Took(keep, history, mem.Length, o)
    {
      ghost var more;
      var found;
      found, more := OneStartBit(keep, mem, total, i, pattern);
      TookMore(keep, history, more, mem.Length, i);
      err, history := err + found, history + more;
      pattern := NextPattern(pattern, i);
    }
    KeepsAllIff(keep, mem.Length);
    forall x, n, inverted | 0 <= x < mem.Length && 0 <= n < 32
      ensures Takes(history, x, keep(x, OneHot(inverted, n)))
    {
      TakesPattern(keep, history, mem.Length, x, n, inverted);
    }
  }
}
