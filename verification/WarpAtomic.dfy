/** Active masks of a warp as bit patterns. */
module LaneMasks {

  import opened Bits

  function Popcount(mask: nat): nat {
    if mask == 0 then 0 else mask % 2 + Popcount(mask / 2)
  }

  /** Find first set: one more than the number of the lowest active lane, 0 for an empty mask. */
  function Ffs(mask: nat): nat {
    if mask == 0 then 0 else if mask % 2 == 1 then 1 else 1 + Ffs(mask / 2)
  }

  /** How many active lanes come before `lane`. */
  function Offset(mask: nat, lane: nat): nat {
    Popcount(And(mask, Pow2(lane) - 1))
  }

  /** The active lanes in ascending order, numbered from `first` on. */
  function Lanes(mask: nat, first: nat): seq<nat> {
    if mask == 0 then [] else (if mask % 2 == 1 then [first] else []) + Lanes(mask / 2, first + 1)
  }

  lemma {:induction false} OffsetStep(mask: nat, lane: nat)
    requires lane >= 1
    ensures Offset(mask, lane) == mask % 2 + Offset(mask / 2, lane - 1)
  {
    var b := Pow2(lane) - 1;
    assert b == 2 * (Pow2(lane - 1) - 1) + 1;
    assert b % 2 == 1 && b / 2 == Pow2(lane - 1) - 1;
    if mask != 0 {
      var low := And(mask, b);
      assert low == mask % 2 + 2 * And(mask / 2, b / 2);
      assert low % 2 == mask % 2 && low / 2 == And(mask / 2, b / 2);
    }
  }

  lemma {:induction false} LanesCount(mask: nat, first: nat)
    ensures |Lanes(mask, first)| == Popcount(mask)
  {
    if mask != 0 { LanesCount(mask / 2, first + 1); }
  }

  /** The prefix count of an active lane is its position among the active lanes ... */
  lemma {:induction false} OffsetIsPosition(mask: nat, lane: nat, first: nat)
    requires Bit(mask, lane)
    ensures Offset(mask, lane) < |Lanes(mask, first)| == Popcount(mask)
    ensures Lanes(mask, first)[Offset(mask, lane)] == first + lane
    decreases lane
  {
    LanesCount(mask, first);
    if lane == 0 {
      assert And(mask, 0) == 0;
    } else {
      assert mask != 0 by { if mask == 0 { NoBits(lane); } }
      OffsetStep(mask, lane);
      OffsetIsPosition(mask / 2, lane - 1, first + 1);
    }
  }

  /** ... and every position is that of one active lane: the prefix counts are a bijection from
      the active lanes onto the numbers below the population count. */
  lemma {:induction false} PositionIsOffset(mask: nat, k: nat, first: nat)
    requires k < Popcount(mask)
    ensures |Lanes(mask, first)| == Popcount(mask)
    ensures first <= Lanes(mask, first)[k]
    ensures Bit(mask, Lanes(mask, first)[k] - first)
    ensures Offset(mask, Lanes(mask, first)[k] - first) == k
    decreases mask
  {
    LanesCount(mask, first);
    if k < mask % 2 {
      assert And(mask, 0) == 0;
    } else {
      PositionIsOffset(mask / 2, k - mask % 2, first + 1);
      OffsetStep(mask, Lanes(mask, first)[k] - first);
    }
  }

  /** The leader is the active lane with prefix count 0. */
  lemma {:induction false} LeaderIsFirst(mask: nat)
    requires mask > 0
    ensures Ffs(mask) >= 1 && Bit(mask, Ffs(mask) - 1) && Offset(mask, Ffs(mask) - 1) == 0
    decreases mask
  {
    if mask % 2 == 1 {
      assert And(mask, 0) == 0;
    } else {
      LeaderIsFirst(mask / 2);
      OffsetStep(mask, Ffs(mask) - 1);
    }
  }
}

/** The warp-aggregated atomic increment: one atomic addition per warp, by its leader, from
    which every active lane works out its own value.  Any number of calls with any masks
    interleave; a value type has `modulus` values and wraps around. */
module WarpAtomic {
  import opened Arithmetic
  import opened Bits
  import opened LaneMasks

  /** An active lane of a call. */
  type Thread = (nat, nat)

  /** The calls' active masks, the counter's initial value and the number of its values. */
  datatype Setting = Setting(masks: seq<nat>, initial: nat, modulus: nat) {
    predicate Ok() {
      modulus >= 1 && initial < modulus && forall w :: 0 <= w < |masks| ==> masks[w] > 0
    }

    predicate Active(th: Thread) {
      th.0 < |masks| && Bit(masks[th.0], th.1)
    }
  }

  /** `base` is what each leader got back, `results` what each thread returned.  `order` is
      history: the threads in the order in which the additions accounted for them. */
  datatype State = State(counter: nat, base: map<nat, nat>, results: map<Thread, nat>, order: seq<Thread>)

  datatype Event = LeaderAdds(w: nat, lane: nat) | LaneReturns(w: nat, lane: nat)

  /** Addition in a type with `modulus` values. */
  function Add(modulus: nat, a: nat, b: nat): nat
    requires modulus >= 1
  {
    (a + b) % modulus
  }

  ghost predicate Enabled(x: Setting, s: State, e: Event)
    requires x.Ok()
  {
    && x.Active((e.w, e.lane))
    && match e
       case LeaderAdds(w, lane) => lane == Ffs(x.masks[w]) - 1 && w !in s.base
       case LaneReturns(w, lane) => w in s.base && (w, lane) !in s.results
  }

  ghost function Threads(w: nat, lanes: seq<nat>): seq<Thread> {
    seq(|lanes|, k requires 0 <= k < |lanes| => (w, lanes[k]))
  }

  ghost function Apply(x: Setting, s: State, e: Event): State
    requires x.Ok() && Enabled(x, s, e)
  {
    match e
    case LeaderAdds(w, _) =>
      s.(counter := Add(x.modulus, s.counter, Popcount(x.masks[w])),
         base := s.base[w := s.counter],
         order := s.order + Threads(w, Lanes(x.masks[w], 0)))
    case LaneReturns(w, lane) =>
      s.(results := s.results[(w, lane) := Add(x.modulus, s.base[w], Offset(x.masks[w], lane))])
  }

  datatype Outcome = Stuck | Reached(state: State)

  ghost function Replay(x: Setting, es: seq<Event>): Outcome
    requires x.Ok()
  {
    if es == [] then Reached(State(x.initial, map[], map[], []))
    else
      match Replay(x, es[..|es| - 1])
      case Stuck => Stuck
      case Reached(s) =>
        if Enabled(x, s, es[|es| - 1]) then Reached(Apply(x, s, es[|es| - 1])) else Stuck
  }

  // ---------------------------------------------------------------- the plain increment

  /** The counter after `n` plain atomic increments, which is also what the next one returns. */
  function Plain(modulus: nat, counter: nat, n: nat): (r: nat)
    requires counter < modulus
    ensures r < modulus
    decreases n
  {
    if n == 0 then counter
    else
      var c := Plain(modulus, counter, n - 1);
      if c + 1 == modulus then 0 else c + 1
  }

  lemma {:induction false} PlainPlain(modulus: nat, counter: nat, a: nat, b: nat)
    requires counter < modulus
    ensures Plain(modulus, Plain(modulus, counter, a), b) == Plain(modulus, counter, a + b)
    decreases b
  {
    if b > 0 { PlainPlain(modulus, counter, a, b - 1); }
  }

  /** Adding `n` at once is adding one `n` times, and both count modulo the number of values. */
  lemma {:induction false} AddIsPlain(modulus: nat, counter: nat, n: nat)
    requires counter < modulus
    ensures Add(modulus, counter, n) == Plain(modulus, counter, n) == (counter + n) % modulus
  {
    if n == 0 {
      ModSmall(counter, modulus);
    } else {
      AddIsPlain(modulus, counter, n - 1);
      var c := Plain(modulus, counter, n - 1);
      ModAdd(counter + n - 1, 1, modulus);
      if c + 1 == modulus { DivModUnique(modulus, modulus, 1, 0); } else { ModSmall(c + 1, modulus); }
    }
  }

  // ---------------------------------------------------------------- refinement

  /** Where the threads of call `w` start in the order. */
  ghost predicate StartsAt(x: Setting, s: State, w: nat, start: nat)
    requires x.Ok() && w < |x.masks|
  {
    var lanes := Lanes(x.masks[w], 0);
    start + |lanes| <= |s.order| && s.order[start..start + |lanes|] == Threads(w, lanes)
  }

  ghost predicate BaseOk(x: Setting, s: State, w: nat)
    requires x.Ok() && w < |x.masks| && w in s.base
  {
    exists start: nat :: StartsAt(x, s, w, start) && s.base[w] == Plain(x.modulus, x.initial, start)
  }

  /** The counter and every leader's value are what single increments in that order give. */
  ghost predicate BasesOk(x: Setting, s: State)
    requires x.Ok()
  {
    && s.counter == Plain(x.modulus, x.initial, |s.order|)
    && forall w :: w in s.base ==> w < |x.masks| && BaseOk(x, s, w)
  }

  /** The order holds active threads of the calls that have added, and none twice. */
  ghost predicate OrderOk(x: Setting, s: State)
    requires x.Ok()
  {
    && (forall i :: 0 <= i < |s.order| ==> x.Active(s.order[i]) && s.order[i].0 in s.base)
    && (forall i, j :: 0 <= i < j < |s.order| ==> s.order[i] != s.order[j])
  }

  /** A thread's result is the one that its single increment, at its place, would return. */
  ghost predicate ResultOk(x: Setting, s: State, th: Thread)
    requires x.Ok() && th in s.results
  {
    exists i :: 0 <= i < |s.order| && s.order[i] == th
                && s.results[th] == Plain(x.modulus, x.initial, i)
  }

  ghost predicate ResultsOk(x: Setting, s: State)
    requires x.Ok()
  {
    forall th :: th in s.results ==> ResultOk(x, s, th)
  }

  lemma LeaderAddsKeepsOrder(x: Setting, s: State, w: nat, lane: nat)
    requires x.Ok() && OrderOk(x, s) && Enabled(x, s, LeaderAdds(w, lane))
    ensures OrderOk(x, Apply(x, s, LeaderAdds(w, lane)))
  {
    var t := Apply(x, s, LeaderAdds(w, lane));
    var lanes := Lanes(x.masks[w], 0);
    LanesCount(x.masks[w], 0);
    forall i | |s.order| <= i < |t.order|
      ensures t.order[i] == (w, lanes[i - |s.order|]) && x.Active(t.order[i])
      ensures Offset(x.masks[w], t.order[i].1) == i - |s.order|
    {
      PositionIsOffset(x.masks[w], i - |s.order|, 0);
    }
  }

  lemma LeaderAddsKeepsBases(x: Setting, s: State, w: nat, lane: nat)
    requires x.Ok() && BasesOk(x, s) && Enabled(x, s, LeaderAdds(w, lane))
    ensures BasesOk(x, Apply(x, s, LeaderAdds(w, lane)))
  {
    var t := Apply(x, s, LeaderAdds(w, lane));
    LanesCount(x.masks[w], 0);
    AddIsPlain(x.modulus, s.counter, Popcount(x.masks[w]));
    PlainPlain(x.modulus, x.initial, |s.order|, Popcount(x.masks[w]));
    forall v | v in t.base ensures v < |x.masks| && BaseOk(x, t, v) {
      if v == w {
        assert StartsAt(x, t, w, |s.order|);
      } else {
        assert BaseOk(x, s, v);
        var start: nat :| StartsAt(x, s, v, start) && s.base[v] == Plain(x.modulus, x.initial, start);
        var lanes := Lanes(x.masks[v], 0);
        assert t.order[start..start + |lanes|] == s.order[start..start + |lanes|];
        assert StartsAt(x, t, v, start);
      }
    }
  }

  lemma LeaderAddsKeepsResults(x: Setting, s: State, w: nat, lane: nat)
    requires x.Ok() && ResultsOk(x, s) && Enabled(x, s, LeaderAdds(w, lane))
    ensures ResultsOk(x, Apply(x, s, LeaderAdds(w, lane)))
  {
    var t := Apply(x, s, LeaderAdds(w, lane));
    forall th | th in t.results ensures ResultOk(x, t, th) {
      assert ResultOk(x, s, th);
      var i :| 0 <= i < |s.order| && s.order[i] == th && s.results[th] == Plain(x.modulus, x.initial, i);
      assert t.order[i] == th;
    }
  }

  lemma InSlice(x: Setting, s: State, th: Thread, start: nat)
    requires x.Ok() && x.Active(th) && StartsAt(x, s, th.0, start)
    ensures var i := start + Offset(x.masks[th.0], th.1); i < |s.order| && s.order[i] == th
  {
    var mask, k := x.masks[th.0], Offset(x.masks[th.0], th.1);
    var lanes := Lanes(mask, 0);
    OffsetIsPosition(mask, th.1, 0);
    assert k < |lanes| && lanes[k] == th.1;
    assert Threads(th.0, lanes)[k] == th;
    assert s.order[start..start + |lanes|][k] == s.order[start + k];
  }

  lemma ValueAt(modulus: nat, initial: nat, start: nat, k: nat)
    requires initial < modulus
    ensures Add(modulus, Plain(modulus, initial, start), k) == Plain(modulus, initial, start + k)
  {
    AddIsPlain(modulus, Plain(modulus, initial, start), k);
    PlainPlain(modulus, initial, start, k);
  }

  /** A thread's place in the order, and the value it works out from its leader's. */
  lemma PlaceOf(x: Setting, s: State, th: Thread) returns (i: nat)
    requires x.Ok() && BasesOk(x, s) && x.Active(th) && th.0 in s.base
    ensures i < |s.order| && s.order[i] == th
    ensures Add(x.modulus, s.base[th.0], Offset(x.masks[th.0], th.1)) == Plain(x.modulus, x.initial, i)
  {
    assert BaseOk(x, s, th.0);
    var start: nat :| StartsAt(x, s, th.0, start) && s.base[th.0] == Plain(x.modulus, x.initial, start);
    i := start + Offset(x.masks[th.0], th.1);
    InSlice(x, s, th, start);
    ValueAt(x.modulus, x.initial, start, Offset(x.masks[th.0], th.1));
  }

  lemma LaneReturnsItsPlace(x: Setting, s: State, w: nat, lane: nat)
    requires x.Ok() && BasesOk(x, s) && ResultsOk(x, s) && Enabled(x, s, LaneReturns(w, lane))
    ensures ResultsOk(x, Apply(x, s, LaneReturns(w, lane)))
  {
    var t := Apply(x, s, LaneReturns(w, lane));
    var place := PlaceOf(x, s, (w, lane));
    forall th | th in t.results ensures ResultOk(x, t, th) {
      if th == (w, lane) {
        assert t.order[place] == th && t.results[th] == Plain(x.modulus, x.initial, place);
      } else {
        assert ResultOk(x, s, th);
      }
    }
  }

  ghost predicate Inv(x: Setting, s: State)
    requires x.Ok()
  {
    BasesOk(x, s) && OrderOk(x, s) && ResultsOk(x, s)
  }

  lemma StepKeepsInvariant(x: Setting, s: State, e: Event)
    requires x.Ok() && Inv(x, s) && Enabled(x, s, e)
    ensures Inv(x, Apply(x, s, e))
  {
    match e
    case LeaderAdds(w, lane) =>
      LeaderAddsKeepsOrder(x, s, w, lane);
      LeaderAddsKeepsBases(x, s, w, lane);
      LeaderAddsKeepsResults(x, s, w, lane);
    case LaneReturns(w, lane) =>
      LaneReturnsItsPlace(x, s, w, lane);
      var t := Apply(x, s, e);
      forall v | v in t.base ensures v < |x.masks| && BaseOk(x, t, v) {
        assert BaseOk(x, s, v);
        var start: nat :| StartsAt(x, s, v, start) && s.base[v] == Plain(x.modulus, x.initial, start);
        assert StartsAt(x, t, v, start);
      }
  }

  lemma {:induction false} RunKeepsInvariant(x: Setting, es: seq<Event>)
    requires x.Ok() && Replay(x, es).Reached?
    ensures Inv(x, Replay(x, es).state)
  {
    if es != [] {
      var front := es[..|es| - 1];
      RunKeepsInvariant(x, front);
      StepKeepsInvariant(x, Replay(x, front).state, es[|es| - 1]);
    }
  }

  /** No active thread is held up: its leader can add, or has added and the thread can return its
      value. */
  lemma NobodyBlocked(x: Setting, es: seq<Event>, th: Thread)
    requires x.Ok() && Replay(x, es).Reached? && x.Active(th)
    ensures var s := Replay(x, es).state;
            || th in s.results
            || Enabled(x, s, LaneReturns(th.0, th.1))
            || (th.0 !in s.base && Enabled(x, s, LeaderAdds(th.0, Ffs(x.masks[th.0]) - 1)))
  {
    LeaderIsFirst(x.masks[th.0]);
  }

  /** In every interleaving the aggregated increments are some order of plain ones.  `order`
      holds every active thread of the calls that have added, once; the counter is where one
      plain increment per thread leaves it; and each result is what the thread's own plain
      increment returns at its place. */
  lemma AggregatedRefinesPlain(x: Setting, es: seq<Event>)
    requires x.Ok() && Replay(x, es).Reached?
    ensures var s := Replay(x, es).state;
            && s.counter == Plain(x.modulus, x.initial, |s.order|)
            && (forall i, j :: 0 <= i < j < |s.order| ==> s.order[i] != s.order[j])
            && (forall th :: th in s.order <==> x.Active(th) && th.0 in s.base)
            && (forall th :: th in s.results ==> ResultOk(x, s, th))
  {
    RunKeepsInvariant(x, es);
    var s := Replay(x, es).state;
    forall th | x.Active(th) && th.0 in s.base ensures th in s.order {
      var i := PlaceOf(x, s, th);
    }
  }

  lemma {:induction false} PlainIsDistinct(modulus: nat, counter: nat, a: nat, b: nat)
    requires counter < modulus && a < b < a + modulus
    ensures Plain(modulus, counter, a) != Plain(modulus, counter, b)
  {
    var c := Plain(modulus, counter, a);
    PlainPlain(modulus, counter, a, b - a);
    AddIsPlain(modulus, c, b - a);
    if c + b - a < modulus {
      ModSmall(c + b - a, modulus);
    } else {
      DivModUnique(c + b - a, modulus, 1, c + b - a - modulus);
    }
  }

  /** Once returned, the thread at place `i` of the order holds the value after `i` increments. */
  lemma ResultAtPlace(x: Setting, s: State, i: nat)
    requires x.Ok() && i < |s.order| && s.order[i] in s.results && ResultOk(x, s, s.order[i])
    requires forall a, b :: 0 <= a < b < |s.order| ==> s.order[a] != s.order[b]
    ensures s.results[s.order[i]] == Plain(x.modulus, x.initial, i)
  {
    var j :| 0 <= j < |s.order| && s.order[j] == s.order[i]
             && s.results[s.order[i]] == Plain(x.modulus, x.initial, j);
    assert j == i;
  }

  /** When all threads have returned, their values are the next ones of the counter, in the
      order of the places: together they fill the range that the counter moved over. */
  lemma ResultsFillTheRange(x: Setting, es: seq<Event>)
    requires x.Ok() && Replay(x, es).Reached?
    requires var s := Replay(x, es).state; forall th :: th in s.order ==> th in s.results
    ensures var s := Replay(x, es).state;
            forall i :: 0 <= i < |s.order| ==> s.results[s.order[i]] == Plain(x.modulus, x.initial, i)
  {
    RunKeepsInvariant(x, es);
    var s := Replay(x, es).state;
    forall i | 0 <= i < |s.order| ensures s.results[s.order[i]] == Plain(x.modulus, x.initial, i) {
      ResultAtPlace(x, s, i);
    }
  }

  lemma DistinctResults(x: Setting, s: State, t: Thread, u: Thread)
    requires x.Ok() && |s.order| <= x.modulus && t != u
    requires t in s.results && u in s.results && ResultOk(x, s, t) && ResultOk(x, s, u)
    ensures s.results[t] != s.results[u]
  {
    var i :| 0 <= i < |s.order| && s.order[i] == t && s.results[t] == Plain(x.modulus, x.initial, i);
    var j :| 0 <= j < |s.order| && s.order[j] == u && s.results[u] == Plain(x.modulus, x.initial, j);
    if i < j { PlainIsDistinct(x.modulus, x.initial, i, j); } else { PlainIsDistinct(x.modulus, x.initial, j, i); }
  }

  /** As long as the type has enough values, no two threads get the same one. */
  lemma ResultsAreDistinct(x: Setting, es: seq<Event>, t: Thread, u: Thread)
    requires x.Ok() && Replay(x, es).Reached? && |Replay(x, es).state.order| <= x.modulus
    requires t != u && t in Replay(x, es).state.results && u in Replay(x, es).state.results
    ensures Replay(x, es).state.results[t] != Replay(x, es).state.results[u]
  {
    RunKeepsInvariant(x, es);
    DistinctResults(x, Replay(x, es).state, t, u);
  }
}
