/** Folding with an associative and commutative operation. */
module Folding {
  import opened Arithmetic

  ghost predicate AssociativeAt<T>(op: (T, T) -> T, x: T, y: T, z: T) {
    op(op(x, y), z) == op(x, op(y, z))
  }

  ghost predicate Associative<T(!new)>(op: (T, T) -> T) {
    forall x, y, z :: AssociativeAt(op, x, y, z)
  }

  ghost predicate CommutativeAt<T>(op: (T, T) -> T, x: T, y: T) {
    op(x, y) == op(y, x)
  }

  ghost predicate Commutative<T(!new)>(op: (T, T) -> T) {
    forall x, y :: CommutativeAt(op, x, y)
  }

  /** The numbers below `n`. */
  function Below(n: nat): (r: set<nat>)
    ensures forall i: nat :: i in r <==> i < n
  {
    if n == 0 then {} else Below(n - 1) + {n - 1}
  }

  /** The simple left fold of a nonempty sequence. */
  ghost function Fold<T>(op: (T, T) -> T, s: seq<T>): T
    requires s != []
  {
    if |s| == 1 then s[0] else op(Fold(op, s[..|s| - 1]), s[|s| - 1])
  }

  lemma FoldSnoc<T>(op: (T, T) -> T, s: seq<T>, x: T)
    requires s != []
    ensures Fold(op, s + [x]) == op(Fold(op, s), x)
  {
    assert (s + [x])[..|s|] == s;
  }

  lemma {:induction false} FoldConcat<T(!new)>(op: (T, T) -> T, a: seq<T>, b: seq<T>)
    requires Associative(op) && a != [] && b != []
    ensures Fold(op, a + b) == op(Fold(op, a), Fold(op, b))
  {
    var front, x := b[..|b| - 1], b[|b| - 1];
    assert a + b == (a + front) + [x];
    FoldSnoc(op, a + front, x);
    if front == [] {
      assert a + front == a;
    } else {
      FoldConcat(op, a, front);
      assert AssociativeAt(op, Fold(op, a), Fold(op, front), x);
    }
  }

  /** Combining one more value into any one element combines it into the fold. */
  lemma {:induction false} FoldUpdate<T(!new)>(op: (T, T) -> T, s: seq<T>, k: nat, x: T)
    requires Associative(op) && Commutative(op) && k < |s|
    ensures Fold(op, s[k := op(s[k], x)]) == op(Fold(op, s), x)
  {
    var last := |s| - 1;
    var front := s[..last];
    if |s| > 1 {
      if k == last {
        assert s[k := op(s[k], x)][..last] == front;
        assert AssociativeAt(op, Fold(op, front), s[k], x);
      } else {
        FoldUpdate(op, front, k, x);
        assert AssociativeAt(op, Fold(op, front), x, s[last]) && AssociativeAt(op, Fold(op, front), s[last], x);
        assert CommutativeAt(op, x, s[last]);
        assert s[k := op(s[k], x)][..last] == front[k := op(front[k], x)];
      }
    }
  }

  /** The first `k` elements of `b` combined into the first `k` of `a`, one by one. */
  ghost function Absorb<T>(op: (T, T) -> T, a: seq<T>, b: seq<T>): seq<T>
    requires |b| <= |a|
  {
    seq(|a|, i requires 0 <= i < |a| => if i < |b| then op(a[i], b[i]) else a[i])
  }

  lemma {:induction false} FoldAbsorb<T(!new)>(op: (T, T) -> T, a: seq<T>, b: seq<T>)
    requires Associative(op) && Commutative(op) && |b| <= |a| && a != []
    ensures Fold(op, Absorb(op, a, b)) == Fold(op, a + b)
  {
    if b == [] {
      assert Absorb(op, a, b) == a && a + b == a;
    } else {
      var k, front, x := |b| - 1, b[..|b| - 1], b[|b| - 1];
      FoldAbsorb(op, a, front);
      var u := Absorb(op, a, front);
      assert Absorb(op, a, b) == u[k := op(u[k], x)];
      FoldUpdate(op, u, k, x);
      assert a + b == (a + front) + [x];
      FoldSnoc(op, a + front, x);
    }
  }

  // ---------------------------------------------------------------- grid-stride classes

  /** The elements at `j`, `j + g`, `j + 2g`, ... */
  ghost function Strided<T>(s: seq<T>, j: nat, g: nat): seq<T>
    requires 1 <= g
    decreases |s| - j
  {
    if j >= |s| then [] else [s[j]] + Strided(s, j + g, g)
  }

  lemma StridedNext<T>(s: seq<T>, seen: seq<T>, j: nat, g: nat)
    requires 1 <= g && j < |s|
    ensures seen + Strided(s, j, g) == (seen + [s[j]]) + Strided(s, j + g, g)
  {
    assert seen + ([s[j]] + Strided(s, j + g, g)) == (seen + [s[j]]) + Strided(s, j + g, g);
  }

  /** What each of `g` threads gets from folding its class. */
  ghost function ClassFolds<T>(op: (T, T) -> T, s: seq<T>, g: nat): seq<T>
    requires 1 <= g <= |s|
  {
    seq(g, j requires 0 <= j < g => Fold(op, Strided(s, j, g)))
  }

  /** The index `len` is one of `j`, `j + g`, `j + 2g`, ... */
  ghost predicate Hits(len: nat, j: nat, g: nat)
    requires 1 <= g
    decreases len - j
  {
    j == len || (j < len && Hits(len, j + g, g))
  }

  lemma {:induction false} HitsShifted(len: nat, j: nat, g: nat)
    requires 1 <= g <= len
    ensures Hits(len, j + g, g) <==> Hits(len - g, j, g)
    decreases len - j
  {
    if j < len - g { HitsShifted(len, j + g, g); }
  }

  /** Every index is in exactly one class. */
  lemma {:induction false} OneClassHits(len: nat, g: nat) returns (r: nat)
    requires 1 <= g
    ensures r < g && Hits(len, r, g)
    ensures forall j: nat :: j < g && j != r ==> !Hits(len, j, g)
    decreases len
  {
    if len < g {
      r := len;
    } else {
      r := OneClassHits(len - g, g);
      forall j: nat | j < g ensures Hits(len, j, g) <==> Hits(len - g, j, g) {
        HitsShifted(len, j, g);
      }
    }
  }

  lemma {:induction false} StridedSnoc<T>(s: seq<T>, x: T, j: nat, g: nat)
    requires 1 <= g
    ensures Strided(s + [x], j, g) == Strided(s, j, g) + if Hits(|s|, j, g) then [x] else []
    decreases |s| - j
  {
    if j < |s| {
      StridedSnoc(s, x, j + g, g);
    } else if j == |s| {
      assert Strided(s + [x], j + g, g) == [];
    }
  }

  lemma ClassFoldsSnoc<T(!new)>(op: (T, T) -> T, s: seq<T>, x: T, g: nat, r: nat)
    requires 1 <= g <= |s| && r < g && Hits(|s|, r, g)
    requires forall j: nat :: j < g && j != r ==> !Hits(|s|, j, g)
    ensures var f := ClassFolds(op, s, g);
            ClassFolds(op, s + [x], g) == f[r := op(f[r], x)]
  {
    var f := ClassFolds(op, s, g);
    var f' := ClassFolds(op, s + [x], g);
    forall j: nat | j < g ensures f'[j] == f[r := op(f[r], x)][j] {
      StridedSnoc(s, x, j, g);
      if j == r {
        FoldSnoc(op, Strided(s, r, g), x);
      } else {
        assert Strided(s, j, g) + [] == Strided(s, j, g);
      }
    }
  }

  /** Folding the folds of all classes is folding everything: each element is in one class. */
  lemma {:induction false} FoldByClasses<T(!new)>(op: (T, T) -> T, s: seq<T>, g: nat)
    requires Associative(op) && Commutative(op) && 1 <= g <= |s|
    ensures Fold(op, ClassFolds(op, s, g)) == Fold(op, s)
    decreases |s|
  {
    if |s| == g {
      forall j | 0 <= j < g ensures Strided(s, j, g) == [s[j]] {
        assert Strided(s, j + g, g) == [];
      }
      assert ClassFolds(op, s, g) == s;
    } else {
      var front, x := s[..|s| - 1], s[|s| - 1];
      assert s == front + [x];
      FoldByClasses(op, front, g);
      var r := OneClassHits(|front|, g);
      ClassFoldsSnoc(op, front, x, g, r);
      FoldUpdate(op, ClassFolds(op, front, g), r, x);
      FoldSnoc(op, front, x);
    }
  }

  lemma ChunkStep(size: nat, count: nat)
    requires 1 <= count
    ensures count * size == size + (count - 1) * size && size <= count * size
  {
    TimesMonotone(1, count, size);
  }

  /** The folds of `count` consecutive chunks of `size` elements. */
  ghost function ChunkFolds<T>(op: (T, T) -> T, s: seq<T>, size: nat, count: nat): (r: seq<T>)
    requires 1 <= size && |s| == count * size
    ensures |r| == count
    decreases count
  {
    if count == 0 then []
    else
      ChunkStep(size, count);
      [Fold(op, s[..size])] + ChunkFolds(op, s[size..], size, count - 1)
  }

  lemma {:induction false} FoldByChunks<T(!new)>(op: (T, T) -> T, s: seq<T>, size: nat, count: nat)
    requires Associative(op) && 1 <= size && 1 <= count && |s| == count * size
    ensures s != [] && Fold(op, ChunkFolds(op, s, size, count)) == Fold(op, s)
    decreases count
  {
    ChunkStep(size, count);
    if count == 1 {
      assert s[..size] == s;
    } else {
      var head, tail := s[..size], s[size..];
      ChunkStep(size, count - 1);
      FoldByChunks(op, tail, size, count - 1);
      FoldConcat(op, [Fold(op, head)], ChunkFolds(op, tail, size, count - 1));
      FoldConcat(op, head, tail);
      assert s == head + tail;
    }
  }

  /** Chunk `b` starts `b` chunk sizes in. */
  lemma {:induction false} ChunkAt<T>(op: (T, T) -> T, s: seq<T>, size: nat, count: nat, b: nat)
    requires 1 <= size && |s| == count * size && b < count
    ensures 0 <= b * size && b * size + size <= |s|
    ensures ChunkFolds(op, s, size, count)[b] == Fold(op, s[b * size..b * size + size])
    decreases b
  {
    ChunkStep(size, count);
    if b > 0 {
      ChunkAt(op, s[size..], size, count - 1, b - 1);
      ChunkStep(size, b);
      assert s[size..][(b - 1) * size..(b - 1) * size + size] == s[b * size..b * size + size];
    }
  }
}

/** PMacc's device reduction: the kernel that one launch runs, and the host code that launches
    it until one value is left. */
module Reduction {
  import opened Arithmetic
  import opened Folding

  // ---------------------------------------------------------------- kernel

  /** The indices of a class: `first`, `first + g`, ... below `n`. */
  ghost function Indices(n: nat, first: nat, g: nat): seq<nat>
    requires 1 <= g
    decreases n - first
  {
    if first >= n then [] else [first] + Indices(n, first + g, g)
  }

  /** The loop's index, 32 bits wide, after `k` turns, ... */
  ghost function IndexAt(first: nat, g: nat, k: nat): nat {
    if k == 0 then first else Wrap(IndexAt(first, g, k - 1) + g)
  }

  /** ... and its values before that. */
  ghost function IndicesUpTo(first: nat, g: nat, k: nat): (r: seq<nat>)
    ensures |r| == k
  {
    if k == 0 then [] else IndicesUpTo(first, g, k - 1) + [IndexAt(first, g, k - 1)]
  }

  /** The loop from `first` on reads the elements at `read`, in that order, and ends. */
  ghost predicate LoopReads(n: nat, first: nat, g: nat, read: seq<nat>) {
    && read == IndicesUpTo(first, g, |read|) && IndexAt(first, g, |read|) >= n
    && forall k :: 0 <= k < |read| ==> read[k] < n
  }

  lemma {:induction false} IndicesSnoc(n: nat, first: nat, g: nat, read: seq<nat>, i: nat)
    requires 1 <= g && i < n && Indices(n, first, g) == read + Indices(n, i, g)
    ensures Indices(n, first, g) == (read + [i]) + Indices(n, i + g, g)
  {
    assert read + ([i] + Indices(n, i + g, g)) == (read + [i]) + Indices(n, i + g, g);
  }

  /** The loop stands at `i` and has read `read`. */
  ghost predicate ReadSoFar(n: nat, first: nat, g: nat, read: seq<nat>, i: nat)
    requires 1 <= g
  {
    && read == IndicesUpTo(first, g, |read|) && IndexAt(first, g, |read|) == i
    && Indices(n, first, g) == read + Indices(n, i, g)
    && forall k :: 0 <= k < |read| ==> read[k] < n
  }

  lemma ReadNothing(n: nat, first: nat, g: nat)
    requires 1 <= g
    ensures ReadSoFar(n, first, g, [], first)
  {
  }

  lemma ReadNext(n: nat, first: nat, g: nat, read: seq<nat>, i: nat)
    requires 1 <= g && i < n && i + g < WORD && ReadSoFar(n, first, g, read, i)
    ensures ReadSoFar(n, first, g, read + [i], Wrap(i + g)) && Wrap(i + g) == i + g
  {
    WrapSmall(i + g);
    IndicesSnoc(n, first, g, read, i);
  }

  lemma ReadAll(n: nat, first: nat, g: nat, read: seq<nat>, i: nat)
    requires 1 <= g && i >= n && ReadSoFar(n, first, g, read, i)
    ensures LoopReads(n, first, g, read) && read == Indices(n, first, g)
  {
  }

  /** `value` is the fold of the elements before `i` of a class. */
  ghost predicate FoldSoFar<T>(op: (T, T) -> T, s: seq<T>, first: nat, g: nat, seen: seq<T>, value: T, i: nat)
    requires 1 <= g
  {
    seen != [] && value == Fold(op, seen) && Strided(s, first, g) == seen + Strided(s, i, g)
  }

  lemma FoldFirst<T>(op: (T, T) -> T, s: seq<T>, first: nat, g: nat)
    requires 1 <= g && first < |s|
    ensures FoldSoFar(op, s, first, g, [s[first]], s[first], first + g)
  {
  }

  lemma FoldNext<T>(op: (T, T) -> T, s: seq<T>, first: nat, g: nat, seen: seq<T>, value: T, i: nat)
    requires 1 <= g && i < |s| && FoldSoFar(op, s, first, g, seen, value, i)
    ensures FoldSoFar(op, s, first, g, seen + [s[i]], op(value, s[i]), i + g)
  {
    FoldSnoc(op, seen, s[i]);
    StridedNext(s, seen, i, g);
  }

  lemma FoldAll<T>(op: (T, T) -> T, s: seq<T>, first: nat, g: nat, seen: seq<T>, value: T, i: nat)
    requires 1 <= g && i >= |s| && FoldSoFar(op, s, first, g, seen, value, i)
    ensures first < |s| && value == Fold(op, Strided(s, first, g))
  {
    assert Strided(s, first, g) == seen;
  }

  /** The index leaves 32 bits before the loop from `i` on has passed `n`. */
  ghost predicate WrapsFrom(n: nat, i: nat, g: nat)
    requires 1 <= g
    decreases n - i
  {
    i < n && (i + g >= WORD || WrapsFrom(n, i + g, g))
  }

  lemma {:induction false} NeverWraps(n: nat, i: nat, g: nat)
    requires 1 <= g && n + g <= WORD
    ensures !WrapsFrom(n, i, g)
    decreases n - i
  {
    if i < n { NeverWraps(n, i + g, g); }
  }

  /** One thread's share: the grid-stride loop from `first` on, as long as its 32-bit index does
      not wrap around. */
  method ThreadFold<T>(op: (T, T) -> T, src: array<T>, offset: nat, n: nat, first: nat, stride: nat)
    returns (value: T, ghost read: seq<nat>)
    requires offset + n <= src.Length && first < n && 1 <= stride && !WrapsFrom(n, first, stride)
    ensures value == Fold(op, Strided(src[offset..offset + n], first, stride))
    ensures LoopReads(n, first, stride, read) && read == Indices(n, first, stride)
  {
    ghost var s := src[offset..offset + n];
    value := src[offset + first];
    ghost var seen := [value];
    FoldFirst(op, s, first, stride);
    ReadNothing(n, first, stride);
    ReadNext(n, first, stride, [], first);
    read := [] + [first];
    var i := Wrap(first + stride);
    while i < n
      invariant i < n + stride && !WrapsFrom(n, i, stride)
      invariant FoldSoFar(op, s, first, stride, seen, value, i)
      invariant ReadSoFar(n, first, stride, read, i)
      decreases n + stride - i
    {
      FoldNext(op, s, first, stride, seen, value, i);
      ReadNext(n, first, stride, read, i);
      value := op(value, src[offset + i]);
      seen, read := seen + [s[i]], read + [i];
      i := Wrap(i + stride);
    }
    FoldAll(op, s, first, stride, seen, value, i);
    ReadAll(n, first, stride, read, i);
  }

  /** One turn of the tree's loop combines the values from `|now|` on into the first ones. */
  lemma HalvedAbsorbs<T(!new)>(op: (T, T) -> T, before: seq<T>, now: seq<T>, half: nat)
    requires half <= |now| && |before| == |now| + half
    requires forall i {:trigger now[i]} :: 0 <= i < |now| ==>
               now[i] == if i < half then op(before[i], before[i + |now|]) else before[i]
    ensures now == Absorb(op, before[..|now|], before[|now|..])
  {
    var a, b := before[..|now|], before[|now|..];
    forall i | 0 <= i < |now| ensures now[i] == Absorb(op, a, b)[i] {
      assert a[i] == before[i];
      if i < half { assert b[i] == before[i + |now|]; }
    }
  }

  lemma TreeStep<T(!new)>(op: (T, T) -> T, before: seq<T>, now: seq<T>, half: nat)
    requires Associative(op) && Commutative(op) && now != [] && half <= |now| && |before| == |now| + half
    requires now == Absorb(op, before[..|now|], before[|now|..])
    ensures Fold(op, now) == Fold(op, before)
  {
    FoldAbsorb(op, before[..|now|], before[|now|..]);
    assert before == before[..|now|] + before[|now|..];
  }

  /** The tree over shared memory: halve the number of values, rounded up, until one is left. */
  method TreeFold<T(!new)>(op: (T, T) -> T, shared: array<T>)
    requires Associative(op) && Commutative(op) && shared.Length >= 1
    modifies shared
    ensures shared[0] == Fold(op, old(shared[..]))
  {
    var chunks := shared.Length;
    assert shared[..chunks] == shared[..];
    while chunks != 1
      invariant 1 <= chunks <= shared.Length
      invariant Fold(op, shared[..chunks]) == Fold(op, old(shared[..]))
      decreases chunks
    {
      var active := chunks / 2;
      ghost var before := shared[..chunks];
      chunks := (chunks + 1) / 2;
      forall i | 0 <= i < active {
        shared[i] := op(shared[i], shared[i + chunks]);
      }
      HalvedAbsorbs(op, before, shared[..chunks], active);
      TreeStep(op, before, shared[..chunks], active);
    }
    assert shared[..1] == [shared[0]];
  }

  /** What the blocks of a launch compute from its source `s`. */
  ghost function BlockFolds<T>(op: (T, T) -> T, s: seq<T>, blocks: nat, threads: nat): (r: seq<T>)
    requires 1 <= threads && 1 <= blocks && blocks * threads <= |s|
    ensures |r| == blocks
  {
    TimesMonotone(1, blocks, threads);
    ChunkFolds(op, ClassFolds(op, s, blocks * threads), threads, blocks)
  }

  /** The threads from `first` on fold their classes, one slot of shared memory each. */
  method FillShared<T>(op: (T, T) -> T, src: array<T>, offset: nat, n: nat, first: nat, stride: nat, shared: array<T>)
    requires offset + n <= src.Length && shared != src
    requires 1 <= stride <= n && n + stride <= WORD && first + shared.Length <= stride
    modifies shared
    ensures shared[..] == ClassFolds(op, src[offset..offset + n], stride)[first..first + shared.Length]
  {
    ghost var s := src[offset..offset + n];
    for t := 0 to shared.Length
      invariant forall k :: 0 <= k < t ==> shared[k] == ClassFolds(op, s, stride)[first + k]
      invariant src[offset..offset + n] == s
    {
      ghost var read;
      NeverWraps(n, first + t, stride);
      shared[t], read := ThreadFold(op, src, offset, n, first + t, stride);
    }
  }

  /** A block's share of the classes: `threads` of them, from `first` on. */
  lemma BlockShare<T>(op: (T, T) -> T, s: seq<T>, blocks: nat, threads: nat, b: nat, first: nat, all: nat)
    requires 1 <= threads && b < blocks && first == b * threads && all == blocks * threads && all <= |s|
    ensures 1 <= all && first + threads <= all
    ensures BlockFolds(op, s, blocks, threads)[b] == Fold(op, ClassFolds(op, s, all)[first..first + threads])
  {
    TimesMonotone(1, blocks, threads);
    TimesMonotone(b + 1, blocks, threads);
    assert (b + 1) * threads == first + threads;
    ChunkAt(op, ClassFolds(op, s, all), threads, blocks, b);
  }

  /** One block: every thread folds its class into shared memory, then the tree folds that.
      All threads of a launched block have an element, so no unset slot is read. */
  method RunBlock<T(!new, 0)>(op: (T, T) -> T, src: array<T>, offset: nat, n: nat, blocks: nat, threads: nat, b: nat)
    returns (value: T)
    requires Associative(op) && Commutative(op)
    requires offset + n <= src.Length && 1 <= threads && b < blocks && blocks * threads <= n
    requires n + blocks * threads <= WORD
    ensures value == BlockFolds(op, src[offset..offset + n], blocks, threads)[b]
  {
    var first, all := b * threads, blocks * threads;
    BlockShare(op, src[offset..offset + n], blocks, threads, b, first, all);
    var shared := new T[threads];
    FillShared(op, src, offset, n, first, all, shared);
    TreeFold(op, shared);
    value := shared[0];
  }

  /** A launch: every block writes one value, or combines it into what is there.  The blocks
      run in any order, in place if the source is the destination buffer itself. */
  method Launch<T(!new, 0)>(op: (T, T) -> T, src: array<T>, offset: nat, n: nat,
                            dest: array<T>, blocks: nat, threads: nat, accumulate: bool)
    requires Associative(op) && Commutative(op)
    requires offset + n <= src.Length && 1 <= blocks <= dest.Length && 1 <= threads && blocks * threads <= n
    requires n + blocks * threads <= WORD
    requires src == dest ==> blocks == 1 || blocks <= offset
    modifies dest
    ensures forall b :: 0 <= b < blocks ==>
                          dest[b] == (var v := BlockFolds(op, old(src[offset..offset + n]), blocks, threads)[b];
                                      if accumulate then op(old(dest[b]), v) else v)
    ensures forall i :: blocks <= i < dest.Length ==> dest[i] == old(dest[i])
  {
    ghost var s := src[offset..offset + n];
    var open := Below(blocks);
    while open != {}
      invariant open <= Below(blocks)
      invariant src[offset..offset + n] == s || open == {}
      invariant forall b :: b in open ==> dest[b] == old(dest[b])
      invariant forall b :: 0 <= b < blocks && b !in open ==>
                              dest[b] == (var v := BlockFolds(op, s, blocks, threads)[b];
                                          if accumulate then op(old(dest[b]), v) else v)
      invariant forall i :: blocks <= i < dest.Length ==> dest[i] == old(dest[i])
      decreases open
    {
      var b :| b in open;
      var value := RunBlock(op, src, offset, n, blocks, threads, b);
      dest[b] := if accumulate then op(dest[b], value) else value;
      open := open - {b};
    }
  }

  // ---------------------------------------------------------------- what one pass keeps

  /** The values of all blocks of a launch fold to what its source folds to. */
  lemma LaunchKeepsFold<T(!new)>(op: (T, T) -> T, s: seq<T>, blocks: nat, threads: nat)
    requires Associative(op) && Commutative(op)
    requires 1 <= threads && 1 <= blocks && blocks * threads <= |s|
    ensures Fold(op, BlockFolds(op, s, blocks, threads)) == Fold(op, s)
  {
    TimesMonotone(1, blocks, threads);
    var folds := ClassFolds(op, s, blocks * threads);
    FoldByClasses(op, s, blocks * threads);
    FoldByChunks(op, folds, threads, blocks);
  }

  /** Combining values that fold like the tail into the head keeps the fold of the whole. */
  lemma AccumulateKeepsFold<T(!new)>(op: (T, T) -> T, head: seq<T>, tail: seq<T>, folds: seq<T>)
    requires Associative(op) && Commutative(op)
    requires tail != [] && 1 <= |folds| <= |head| && Fold(op, folds) == Fold(op, tail)
    ensures Fold(op, Absorb(op, head, folds)) == Fold(op, head + tail)
  {
    FoldAbsorb(op, head, folds);
    FoldConcat(op, head, folds);
    FoldConcat(op, head, tail);
  }

  // ---------------------------------------------------------------- launch sizes

  function ThreadsPerBlock(threads: nat): (r: nat)
    ensures 1 <= r <= 512 && (1 <= threads ==> r <= threads)
    ensures 2 <= threads ==> 2 <= r
    ensures WORD % (2 * r) == 0
    ensures threads < 2 * r || r == 512
  {
    if threads >= 512 then 512
    else if threads >= 256 then 256
    else if threads >= 128 then 128
    else if threads >= 64 then 64
    else if threads >= 32 then 32
    else if threads >= 16 then 16
    else if threads >= 8 then 8
    else if threads >= 4 then 4
    else if threads >= 2 then 2
    else 1
  }

  function Min(a: nat, b: nat): nat {
    if a < b then a else b
  }

  /** A reduction object's limits and the size of an element, in bytes. */
  datatype Limits = Limits(byte: nat, sharedMemByte: nat, size: nat) {
    ghost predicate Ok() {
      1 <= size <= byte < WORD && sharedMemByte < WORD
    }

    /** How many elements the buffer in global memory holds. */
    function Buffer(): nat
      requires size >= 1
    {
      byte / size
    }

    /** How many elements fit into a block's shared memory. */
    function SharedBorder(): nat
      requires size >= 1
    {
      sharedMemByte / size
    }

    function OptimalThreads(n: nat): nat
      requires size >= 1
    {
      ThreadsPerBlock(Min(SharedBorder(), n))
    }

    /** Blocks of the first launch over `n` elements; the product is a 32-bit one. */
    function FirstBlocks(n: nat): nat
      requires size >= 1
    {
      var threads := OptimalThreads(n);
      var blocks := Min(Wrap(Buffer() * threads * 2), n) / 2 / threads;
      if blocks == 0 then 1 else blocks
    }

    /** Blocks of a later launch over `n` elements of the buffer. */
    function NextBlocks(n: nat): (blocks: nat)
      requires size >= 1
      ensures blocks == 0 <==> n <= 1
    {
      var blocks := n / 2 / OptimalThreads(n);
      if blocks == 0 && n > 1 then 1 else blocks
    }

    /** The index of the first launch's kernel stays a 32-bit number. */
    predicate IndexFits(n: nat)
      requires size >= 1
    {
      n + FirstBlocks(n) * OptimalThreads(n) <= WORD
    }

    /** Every launch has a block to run. */
    predicate CanReduce(n: nat)
      requires size >= 1
    {
      SharedBorder() >= 2 || Min(Wrap(Buffer() * 2), n) < 8
    }
  }

  /** Halving twice: all launched blocks together cover at most half of the elements. */
  lemma HalfCovered(n: nat, threads: nat)
    requires 1 <= threads
    ensures n / 2 / threads * threads * 2 <= n
  {
  }

  lemma QuotientSmaller(x: nat, y: nat)
    requires 1 <= y
    ensures x / y <= x
  {
  }

  lemma BlocksWithinBuffer(buffer: nat, threads: nat, m: nat)
    requires 1 <= threads && m <= buffer * threads * 2
    ensures m / 2 / threads <= buffer
  {
    assert (buffer + 1) * threads == buffer * threads + threads;
    HalfCovered(m, threads);
    if m / 2 / threads > buffer {
      TimesMonotone(buffer + 1, m / 2 / threads, threads);
    }
  }

  /** Wrapping around never costs more than blocks: a wrapped product is still a multiple of
      the block size, and no block lacks room in the buffer. */
  lemma FirstLaunchFits(l: Limits, n: nat)
    requires l.Ok() && 1 <= n < WORD
    ensures 1 <= l.FirstBlocks(n) <= l.Buffer()
    ensures l.FirstBlocks(n) * l.OptimalThreads(n) <= n
    ensures l.FirstBlocks(n) == 1 || l.FirstBlocks(n) <= n / 2
    ensures l.CanReduce(n) <==> l.SharedBorder() >= 2 || l.FirstBlocks(n) < 4
  {
    var threads := l.OptimalThreads(n);
    var product := l.Buffer() * threads * 2;
    var m := Min(Wrap(product), n);
    HalfCovered(m, threads);
    QuotientSmaller(m / 2, threads);
    if m / 2 / threads > 0 {
      assert Wrap(product) <= product;
      BlocksWithinBuffer(l.Buffer(), threads, m);
    }
  }

  lemma MostPairs(m: nat, threads: nat)
    requires 1 <= threads
    ensures var blocks := m / 2 / threads; 2 * (blocks * threads) <= m < 2 * ((blocks + 1) * threads)
  {
    HalfCovered(m, threads);
    var half := m / 2;
    assert half == half / threads * threads + half % threads;
    assert (half / threads + 1) * threads == half / threads * threads + threads;
  }

  lemma Quotient(x: nat, y: nat)
    requires 1 <= y
    ensures x / y * y <= x < (x / y + 1) * y
  {
    assert x == x / y * y + x % y;
    assert (x / y + 1) * y == x / y * y + y;
  }

  /** What the limits mean: buffer and shared memory hold as many elements as fit into them, and
      a block has as many threads as a power of two up to 512 allows. */
  lemma LimitsMean(l: Limits, n: nat)
    requires l.Ok() && 1 <= n
    ensures l.Buffer() * l.size <= l.byte < (l.Buffer() + 1) * l.size
    ensures l.SharedBorder() * l.size <= l.sharedMemByte < (l.SharedBorder() + 1) * l.size
    ensures l.OptimalThreads(n) in {1, 2, 4, 8, 16, 32, 64, 128, 256, 512}
    ensures l.OptimalThreads(n) <= n && (l.OptimalThreads(n) <= l.SharedBorder() || l.OptimalThreads(n) == 1)
    ensures n < 2 * l.OptimalThreads(n) || l.SharedBorder() < 2 * l.OptimalThreads(n) || l.OptimalThreads(n) == 512
  {
    Quotient(l.byte, l.size);
    Quotient(l.sharedMemByte, l.size);
  }

  /** A launch has as many blocks as leave two elements for each thread, and at least one; the
      first one, in addition, no more than the buffer has room for. */
  lemma MostBlocks(l: Limits, n: nat)
    requires l.Ok() && 1 <= n
    ensures var threads, blocks := l.OptimalThreads(n), l.FirstBlocks(n);
            var m := Min(Wrap(2 * l.Buffer() * threads), n);
            && m < 2 * ((blocks + 1) * threads) && (2 * (blocks * threads) <= m || blocks == 1)
    ensures var threads, blocks := l.OptimalThreads(n), l.NextBlocks(n);
            n >= 2 ==> n < 2 * ((blocks + 1) * threads) && (2 * (blocks * threads) <= n || blocks == 1)
  {
    var threads := l.OptimalThreads(n);
    assert l.Buffer() * threads * 2 == 2 * l.Buffer() * threads;
    var m := Min(Wrap(l.Buffer() * threads * 2), n);
    MostPairs(m, threads);
    MostPairs(n, threads);
    assert (0 + 1) * threads <= (1 + 1) * threads;
  }

  function CeilDiv(a: nat, b: nat): nat
    requires b >= 1
  {
    (a + b - 1) / b
  }

  lemma CeilDivBounds(a: nat, b: nat)
    requires b >= 1
    ensures a <= CeilDiv(a, b) * b < a + b
  {
  }

  /** A multi-block pass over `n` elements in place: the blocks leave the head alone that they
      are combined into, all of them are full, and the head is what remains. */
  lemma PassFits(n: nat, threads: nat, blocks: nat)
    requires 1 <= threads && blocks == n / 2 / threads && blocks > 1 && n <= WORD / 2
    ensures var offset := CeilDiv(blocks, threads) * threads;
            var use := blocks - CeilDiv(blocks, threads);
            && (threads == 1 <==> use == 0)
            && 0 <= use <= offset && 1 <= offset < n
            && offset + use * threads <= n
            && n - offset + use * threads <= WORD
  {
    var up := CeilDiv(blocks, threads);
    CeilDivBounds(blocks, threads);
    HalfCovered(n, threads);
    if threads == 1 {
      assert up == blocks;
      assert blocks < n;
    } else {
      assert blocks * (threads - 1) == blocks * threads - blocks;
      TimesMonotone(2, blocks, threads - 1);
      if up >= blocks {
        TimesMonotone(blocks, up, threads);
      }
      assert (blocks - up) * threads == blocks * threads - up * threads;
      TimesMonotone(2, threads, blocks);
      TimesMonotone(2, blocks, threads);
    }
  }

  /** One kernel launch, for the record. */
  datatype LaunchSize = LaunchSize(blocks: nat, threads: nat, offset: nat, n: nat, inPlace: bool)

  /** How many elements were left when the launch started. */
  function Remaining(x: LaunchSize): nat {
    x.offset + x.n
  }

  /** How many values a launch leaves. */
  function Left(x: LaunchSize): nat {
    if !x.inPlace then x.blocks else if x.offset > 0 then x.offset else 1
  }

  /** The launch that the host's loop makes for `n` values.  The values that several blocks are
      combined into are the fewest that fill whole blocks and have room for one value for each
      block that two elements per thread allow; as many blocks less are launched. */
  ghost predicate LaunchFor(l: Limits, n: nat, x: LaunchSize) {
    && l.Ok() && x.inPlace && x.threads == l.OptimalThreads(n) && Remaining(x) == n
    && if l.NextBlocks(n) <= 1 then x.offset == 0 && x.blocks == 1
       else exists up :: x.offset == up * x.threads && l.NextBlocks(n) <= x.offset < l.NextBlocks(n) + x.threads
                         && x.blocks == l.NextBlocks(n) - up
  }

  /** Every launched block is full, a multi-block pass in place writes below what it reads,
      partial results stay inside the buffer, and shared memory within its limit. */
  ghost predicate LaunchOk(l: Limits, x: LaunchSize) {
    && l.Ok()
    && 1 <= x.blocks <= l.Buffer() && 1 <= x.threads && x.blocks * x.threads <= x.n
    && (x.inPlace ==> x.offset + x.n <= l.Buffer())
    && (x.inPlace && x.blocks > 1 ==> x.blocks <= x.offset)
    && (l.SharedBorder() >= 1 ==> x.threads * l.size <= l.sharedMemByte)
  }

  /** The launches of a reduction of `n` elements so far: the first one, and each later one for
      what the one before has left, which is less and less. */
  ghost predicate LaunchesOk(l: Limits, n: nat, launches: seq<LaunchSize>) {
    && l.Ok() && |launches| >= 1 && launches[0] == LaunchSize(l.FirstBlocks(n), l.OptimalThreads(n), 0, n, false)
    && (forall k :: 0 <= k < |launches| ==> LaunchOk(l, launches[k]))
    && (forall k :: 0 < k < |launches| ==> LaunchFor(l, Left(launches[k - 1]), launches[k]))
    && (forall k :: 0 < k < |launches| ==> Remaining(launches[k]) < Remaining(launches[k - 1]))
  }

  lemma LaunchesGoOn(l: Limits, n: nat, launches: seq<LaunchSize>, x: LaunchSize)
    requires LaunchesOk(l, n, launches) && LaunchOk(l, x) && LaunchFor(l, Left(launches[|launches| - 1]), x)
    requires Remaining(x) < Remaining(launches[|launches| - 1])
    ensures LaunchesOk(l, n, launches + [x])
  {
  }

  lemma QuotientTimes(x: nat, y: nat)
    requires 1 <= y
    ensures x / y * y <= x
  {
  }

  lemma SharedMemoryFits(l: Limits, n: nat)
    requires l.Ok() && n >= 1 && l.SharedBorder() >= 1
    ensures l.OptimalThreads(n) * l.size <= l.sharedMemByte
  {
    TimesMonotone(l.OptimalThreads(n), l.SharedBorder(), l.size);
    QuotientTimes(l.sharedMemByte, l.size);
  }

  lemma FirstLaunchOk(l: Limits, n: nat)
    requires l.Ok() && 1 <= n < WORD
    ensures LaunchOk(l, LaunchSize(l.FirstBlocks(n), l.OptimalThreads(n), 0, n, false))
    ensures l.FirstBlocks(n) <= WORD / 2 && (l.FirstBlocks(n) == 1 || l.FirstBlocks(n) < n)
    ensures l.CanReduce(n) <==> l.SharedBorder() >= 2 || l.FirstBlocks(n) < 4
  {
    FirstLaunchFits(l, n);
    if l.SharedBorder() >= 1 { SharedMemoryFits(l, n); }
  }

  // ---------------------------------------------------------------- the kernel's index

  /** A thread that starts at `first` reads exactly the elements of its class. */
  ghost predicate ReadsItsClass(n: nat, first: nat, g: nat)
    requires 1 <= g
  {
    LoopReads(n, first, g, Indices(n, first, g))
  }

  ghost predicate ThreadsReadTheirClasses(n: nat, g: nat)
    requires 1 <= g
  {
    forall first :: 0 <= first < g ==> ReadsItsClass(n, first, g)
  }

  lemma {:induction false} ShiftedLoop(first: nat, g: nat, k: nat)
    requires first + g < WORD
    ensures IndexAt(first, g, k + 1) == IndexAt(first + g, g, k)
    ensures IndicesUpTo(first, g, k + 1) == [first] + IndicesUpTo(first + g, g, k)
  {
    if k == 0 {
      WrapSmall(first + g);
      assert IndicesUpTo(first, g, 1) == IndicesUpTo(first, g, 0) + [IndexAt(first, g, 0)];
    } else {
      ShiftedLoop(first, g, k - 1);
    }
  }

  lemma AfterFirst(n: nat, i: nat, g: nat, own: seq<nat>, rest: seq<nat>)
    requires 1 <= g && i < n && own == [i] + rest
    requires IndexAt(i, g, |rest| + 1) == IndexAt(i + g, g, |rest|)
    requires IndicesUpTo(i, g, |rest| + 1) == [i] + IndicesUpTo(i + g, g, |rest|)
    ensures LoopReads(n, i, g, own) <==> LoopReads(n, i + g, g, rest)
  {
    assert own[1..] == rest && ([i] + IndicesUpTo(i + g, g, |rest|))[1..] == IndicesUpTo(i + g, g, |rest|);
    if LoopReads(n, i, g, own) {
      forall k | 0 <= k < |rest| ensures rest[k] < n { assert rest[k] == own[k + 1]; }
    }
  }

  lemma WrapDown(x: nat)
    requires WORD <= x < 2 * WORD
    ensures Wrap(x) == x - WORD
  {
  }

  /** Where it does, the loop starts again below and reads elements that are not its own: a
      thread reads exactly its class if and only if its index never wraps around. */
  lemma {:induction false} ReadsIff(n: nat, i: nat, g: nat)
    requires 1 <= g <= n < WORD
    ensures ReadsItsClass(n, i, g) <==> !WrapsFrom(n, i, g)
    decreases n - i
  {
    var own := Indices(n, i, g);
    if i < n && i + g < WORD {
      ReadsIff(n, i + g, g);
      var rest := Indices(n, i + g, g);
      assert own == [i] + rest;
      ShiftedLoop(i, g, |rest|);
      AfterFirst(n, i, g, own, rest);
    } else if i < n {
      assert own == [i];
      WrapDown(i + g);
      assert IndexAt(i, g, 1) == Wrap(IndexAt(i, g, 0) + g) < n;
    }
  }

  lemma {:induction false} SomeThreadWraps(n: nat, i: nat, g: nat) returns (first: nat)
    requires 1 <= g && WrapsFrom(n, i, g)
    ensures first < g && WrapsFrom(n, first, g)
  {
    if i < g {
      first := i;
    } else {
      first := SomeThreadWraps(n, i - g, g);
    }
  }

  /** All `g` threads of a launch read exactly their classes if and only if the source's length
      and the number of threads together fit 32 bits. */
  lemma ClassesReadIff(n: nat, g: nat)
    requires 1 <= g <= n < WORD
    ensures ThreadsReadTheirClasses(n, g) <==> n + g <= WORD
  {
    if n + g <= WORD {
      forall first | 0 <= first < g ensures ReadsItsClass(n, first, g) {
        NeverWraps(n, first, g);
        ReadsIff(n, first, g);
      }
    } else {
      var first := SomeThreadWraps(n, n - 1, g);
      ReadsIff(n, first, g);
    }
  }

  /** The same for the first launch of a reduction. */
  lemma IndexFitsIff(l: Limits, n: nat)
    requires l.Ok() && 1 <= n < WORD
    ensures 1 <= l.FirstBlocks(n) * l.OptimalThreads(n)
    ensures l.IndexFits(n) <==> ThreadsReadTheirClasses(n, l.FirstBlocks(n) * l.OptimalThreads(n))
  {
    FirstLaunchFits(l, n);
    TimesMonotone(1, l.FirstBlocks(n), l.OptimalThreads(n));
    ClassesReadIff(n, l.FirstBlocks(n) * l.OptimalThreads(n));
  }

  /** The longest source, on a device with large buffers, is too long. */
  lemma LongSourceWraps()
    ensures var l, n := Limits(0xffff_ffff, 4096, 4), 0xffff_ffff; l.Ok() && l.CanReduce(n) && !l.IndexFits(n)
  {
  }

  /** What becomes of a reduction: a value, a launch without blocks, or a kernel some thread of
      which leaves its class because its index wraps around. */
  datatype Outcome<T> = Value(value: T) | EmptyLaunch | IndexWraps

  /** A launch from the source into the buffer. */
  method SourcePass<T(!new, 0)>(op: (T, T) -> T, src: array<T>, dest: array<T>, blocks: nat, threads: nat)
    requires Associative(op) && Commutative(op) && src != dest
    requires 1 <= blocks <= dest.Length && 1 <= threads && blocks * threads <= src.Length
    requires src.Length + blocks * threads <= WORD
    modifies dest
    ensures Fold(op, dest[..blocks]) == Fold(op, src[..])
  {
    assert src[0..src.Length] == src[..];
    Launch(op, src, 0, src.Length, dest, blocks, threads, false);
    assert dest[..blocks] == BlockFolds(op, src[..], blocks, threads);
    LaunchKeepsFold(op, src[..], blocks, threads);
  }

  /** The first launch: `next` values are left. */
  method FirstPass<T(!new, 0)>(op: (T, T) -> T, src: array<T>, dest: array<T>, l: Limits)
    returns (next: nat, launch: LaunchSize)
    requires Associative(op) && Commutative(op) && src != dest
    requires l.Ok() && dest.Length == l.Buffer() && 1 <= src.Length < WORD && l.IndexFits(src.Length)
    modifies dest
    ensures 1 <= next <= dest.Length && next <= WORD / 2 && (next == 1 || next < src.Length)
    ensures Fold(op, dest[..next]) == Fold(op, src[..])
    ensures LaunchOk(l, launch) && next == Left(launch)
    ensures launch == LaunchSize(l.FirstBlocks(src.Length), l.OptimalThreads(src.Length), 0, src.Length, false)
    ensures l.CanReduce(src.Length) <==> l.SharedBorder() >= 2 || next < 4
  {
    var n := src.Length;
    next := l.FirstBlocks(n);
    launch := LaunchSize(next, l.OptimalThreads(n), 0, n, false);
    FirstLaunchOk(l, n);
    SourcePass(op, src, dest, next, l.OptimalThreads(n));
  }

  /** A multi-block launch in place, combined into the first `offset` values. */
  method AccumulatePass<T(!new, 0)>(op: (T, T) -> T, dest: array<T>, n: nat, offset: nat, blocks: nat, threads: nat)
    requires Associative(op) && Commutative(op)
    requires 1 <= blocks <= offset && 1 <= threads && offset + blocks * threads <= n <= dest.Length
    requires n - offset + blocks * threads <= WORD
    modifies dest
    ensures Fold(op, dest[..offset]) == Fold(op, old(dest[..n]))
  {
    ghost var before := dest[..n];
    assert dest[offset..offset + (n - offset)] == before[offset..];
    Launch(op, dest, offset, n - offset, dest, blocks, threads, true);
    ghost var folds := BlockFolds(op, before[offset..], blocks, threads);
    assert dest[..offset] == Absorb(op, before[..offset], folds);
    LaunchKeepsFold(op, before[offset..], blocks, threads);
    AccumulateKeepsFold(op, before[..offset], before[offset..], folds);
    assert before == before[..offset] + before[offset..];
  }

  /** The single-block launch in place. */
  method LastPass<T(!new, 0)>(op: (T, T) -> T, dest: array<T>, n: nat, threads: nat)
    requires Associative(op) && Commutative(op)
    requires 1 <= threads <= n <= dest.Length && n + threads <= WORD
    modifies dest
    ensures Fold(op, dest[..1]) == Fold(op, old(dest[..n]))
  {
    ghost var before := dest[..n];
    assert dest[0..n] == before;
    Launch(op, dest, 0, n, dest, 1, threads, false);
    assert dest[..1] == BlockFolds(op, before, 1, threads);
    LaunchKeepsFold(op, before, 1, threads);
  }

  /** One turn of the host's loop: `next` values are left, or none if the launch was empty. */
  method NextPass<T(!new, 0)>(op: (T, T) -> T, dest: array<T>, n: nat, l: Limits)
    returns (next: nat, launch: LaunchSize)
    requires Associative(op) && Commutative(op)
    requires l.Ok() && dest.Length == l.Buffer() && 2 <= n <= dest.Length && n <= WORD / 2
    modifies dest
    ensures next == 0 <==> l.OptimalThreads(n) == 1 && n >= 4
    ensures next != 0 ==> next < n && Fold(op, dest[..next]) == Fold(op, old(dest[..n]))
    ensures next != 0 ==> LaunchOk(l, launch) && LaunchFor(l, n, launch) && next == Left(launch)
    ensures next != 0 && l.OptimalThreads(n) == 1 ==> next == 1
  {
    var threads := l.OptimalThreads(n);
    var blocks := l.NextBlocks(n);
    if l.SharedBorder() >= 1 { SharedMemoryFits(l, n); }
    if blocks > 1 {
      PassFits(n, threads, blocks);
      var blockOffset := CeilDiv(blocks, threads);
      var useBlocks := blocks - blockOffset;
      next := blockOffset * threads;
      CeilDivBounds(blocks, threads);
      launch := LaunchSize(useBlocks, threads, next, n - next, true);
      if useBlocks == 0 {
        next := 0;
      } else {
        AccumulatePass(op, dest, n, next, useBlocks, threads);
      }
    } else {
      LastPass(op, dest, n, threads);
      next := 1;
      launch := LaunchSize(1, threads, 0, n, true);
    }
  }

  /** `Reduce::operator()`: its value is the fold of the whole source, and it reports a value
      exactly when no launch is empty and every thread of the first one reads its class. */
  method Reduce<T(!new, 0)>(op: (T, T) -> T, src: array<T>, l: Limits)
    returns (result: Outcome<T>, launches: seq<LaunchSize>)
    requires Associative(op) && Commutative(op)
    requires l.Ok() && 1 <= src.Length < WORD
    ensures result.IndexWraps? <==>
            !ThreadsReadTheirClasses(src.Length, l.FirstBlocks(src.Length) * l.OptimalThreads(src.Length))
    ensures result.Value? <==> l.IndexFits(src.Length) && l.CanReduce(src.Length)
    ensures result.Value? ==> result.value == Fold(op, src[..])
    ensures !result.IndexWraps? ==> LaunchesOk(l, src.Length, launches)
    ensures result.Value? ==> Left(launches[|launches| - 1]) == 1
  {
    IndexFitsIff(l, src.Length);
    if !l.IndexFits(src.Length) {
      return IndexWraps, [];
    }
    var dest := new T[l.Buffer()];
    var n, launch := FirstPass(op, src, dest, l);
    launches := [launch];
    while l.NextBlocks(n) != 0
      invariant 1 <= n <= dest.Length && n <= WORD / 2
      invariant Fold(op, dest[..n]) == Fold(op, src[..])
      invariant l.CanReduce(src.Length) <==> l.SharedBorder() >= 2 || n < 4
      invariant LaunchesOk(l, src.Length, launches)
      invariant n == Left(launches[|launches| - 1]) && (n == 1 || n < Remaining(launches[|launches| - 1]))
      decreases n
    {
      var next;
      next, launch := NextPass(op, dest, n, l);
      if next == 0 {
        return EmptyLaunch, launches;
      }
      LaunchesGoOn(l, src.Length, launches, launch);
      launches := launches + [launch];
      n := next;
    }
    assert dest[..1] == [dest[0]];
    result := Value(dest[0]);
  }

  /** Shared memory for one element only: eight elements and room for four values are too many. */
  lemma OneThreadPerBlockFails()
    ensures Limits(32, 8, 8).Ok() && !Limits(32, 8, 8).CanReduce(8)
  {
  }

  function Union(a: multiset<int>, b: multiset<int>): multiset<int> {
    a + b
  }

  lemma UnionIsAC()
    ensures Associative(Union) && Commutative(Union)
  {
    forall x, y, z ensures AssociativeAt(Union, x, y, z) {
      assert (x + y) + z == x + (y + z);
    }
    forall x, y ensures CommutativeAt(Union, x, y) {
      assert x + y == y + x;
    }
  }

  lemma {:induction false} UnionCounts(s: seq<multiset<int>>, x: int)
    requires s != [] && forall i :: 0 <= i < |s| ==> s[i] == multiset{i}
    ensures Fold(Union, s)[x] == if 0 <= x < |s| then 1 else 0
  {
    if |s| > 1 { UnionCounts(s[..|s| - 1], x); }
  }

  /** Reducing the singletons of all indices yields every index exactly once: no pass drops an
      element or uses one twice. */
  method UsesEachElementOnce(n: nat, l: Limits) returns (used: multiset<int>)
    requires l.Ok() && 1 <= n < WORD && l.IndexFits(n) && l.CanReduce(n)
    ensures forall i :: used[i] == if 0 <= i < n then 1 else 0
  {
    var src := new multiset<int>[n](i => multiset{i});
    UnionIsAC();
    var result, launches := Reduce(Union, src, l);
    used := result.value;
    forall i ensures used[i] == if 0 <= i < n then 1 else 0 { UnionCounts(src[..], i); }
  }
}
