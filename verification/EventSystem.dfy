/** PMacc's event-system manager as a step relation.

    `Manager::execute` is re-entrant: a task that it polls may call it again, and the
    destructor of a finished task may run task code too.  All activations share three task
    maps and two function-static map cursors.  A state holds the maps, the cursors and the
    stack of activations; an event is one atomic stretch of manager code or one thing that
    task code does.  Nothing bounds the nesting, the number of tasks or the length of a run.
 */
module EventSystem {

  /** Task ids; 0 is reserved for "no task". */
  type Id = nat

  /** A map cursor: past the last entry, or at the entry of a task. */
  datatype Cursor = End | At(id: Id)

  /** One activation of `execute(wait)` and how far it has come.  While a finished task is
      destroyed, `owing` holds it and every logical-and task finished by that, as long as they
      still have observers to notify. */
  datatype Frame =
    | CoopLoop(wait: Id)
    | CoopTask(wait: Id, id: Id)
    | CoopDelete(wait: Id, id: Id)
    | ActiveLoop(wait: Id)
    | ActiveTask(wait: Id, id: Id)
    | ActiveDelete(wait: Id, id: Id, owing: set<Id>)
  {
    /** Task code (a poll or a destructor) is running on top of this activation. */
    predicate RunsTaskCode() {
      CoopTask? || CoopDelete? || ActiveTask? || ActiveDelete?
    }
  }

  /** `passive` maps each unfinished logical-and task to the operands it still waits for.
      The last three fields are history: every id ever registered, every id ever deleted, and
      for each logical-and task the ordinary tasks it was combined from. */
  datatype State = State(
    tasks: set<Id>,
    passive: map<Id, set<Id>>,
    coop: set<Id>,
    cursor: Cursor,
    coopCursor: Cursor,
    stack: seq<Frame>,
    used: set<Id>,
    deleted: multiset<Id>,
    leaves: map<Id, set<Id>>)
  {
    predicate TaskCodeRuns() {
      stack == [] || stack[|stack| - 1].RunsTaskCode()
    }

    /** Code path of `getITaskIfNotFinished`: the id names a task that is still registered. */
    predicate Unfinished(id: Id) {
      id != 0 && (id in passive || id in tasks)
    }
  }

  datatype Event =
    | Call(wait: Id)
    | FetchCoop
    | ReturnCoop(done: bool)
    | EnterActive
    | FetchActive
    | ReturnActive(done: bool)
    | Notify(task: Id, observer: Id)
    | EndNotify(task: Id)
    | EndDelete
    | Exit
    | AddTask(id: Id)
    | AddCoop(id: Id)
    | Combine(a: Id, b: Id, id: Id)
  {
    /** Task code does this; the other events are stretches of manager code. */
    predicate ByTaskCode() {
      Call? || AddTask? || AddCoop? || Combine?
    }
  }

  // ---------------------------------------------------------------- ordered maps

  lemma {:induction false} MinimumExists(s: set<Id>)
    requires s != {}
    ensures exists m :: m in s && forall y :: y in s ==> m <= y
  {
    var x :| x in s;
    var rest := s - {x};
    if rest == {} {
      assert s == {x};
    } else {
      MinimumExists(rest);
      var k :| k in rest && forall y :: y in rest ==> k <= y;
      assert forall y :: y in s ==> y == x || y in rest;
      var m := if k < x then k else x;
      assert m in s && forall y :: y in s ==> m <= y;
    }
  }

  /** `begin()` of an ordered map with these keys. */
  function First(s: set<Id>): (c: Cursor)
    ensures c.End? <==> s == {}
    ensures c.At? ==> c.id in s && forall y :: y in s ==> c.id <= y
  {
    if s == {} then End
    else
      MinimumExists(s);
      var x :| x in s && forall y :: y in s ==> x <= y;
      At(x)
  }

  /** The cursor after `++`: the entry with the smallest key above `id`. */
  function Next(s: set<Id>, id: Id): (c: Cursor)
    ensures c.At? ==> c.id in s && id < c.id
    ensures forall y :: y in s && id < y ==> c.At? && c.id <= y
  {
    var above := set y | y in s && id < y;
    assert forall y :: y in s && id < y ==> y in above;
    First(above)
  }

  // ---------------------------------------------------------------- logical-and tasks

  /** The ordinary tasks an event handle stands for. */
  ghost function LeavesOf(leaves: map<Id, set<Id>>, id: Id): set<Id> {
    if id in leaves then leaves[id] else {id}
  }

  // ---------------------------------------------------------------- steps

  ghost predicate Enabled(s: State, e: Event) {
    if e.Call? then s.TaskCodeRuns()
    else if e.AddTask? || e.AddCoop? then s.TaskCodeRuns() && e.id != 0 && e.id !in s.used
    else if e.Combine? then
      && s.TaskCodeRuns() && e.a != e.b && s.Unfinished(e.a) && s.Unfinished(e.b)
      && e.id != 0 && forall u :: u in s.used ==> u < e.id
    else
      && s.stack != []
      && var top := s.stack[|s.stack| - 1];
         match e
         case FetchCoop => top.CoopLoop? && s.coopCursor.At?
         case ReturnCoop(_) => top.CoopTask?
         case EnterActive => top.CoopLoop? && s.coopCursor.End?
         case FetchActive => top.ActiveLoop? && s.cursor.At?
         case ReturnActive(_) => top.ActiveTask?
         case Notify(x, p) => top.ActiveDelete? && x in top.owing && p in s.passive && x in s.passive[p]
         case EndNotify(x) => top.ActiveDelete? && x in top.owing && forall p :: p in s.passive ==> x !in s.passive[p]
         case EndDelete => top.CoopDelete? || (top.ActiveDelete? && top.owing == {})
         case Exit => top.ActiveLoop? && s.cursor.End?
         case _ => false
  }

  /** Replaces the topmost activation. */
  ghost function WithTop(s: State, f: Frame): State
    requires s.stack != []
  {
    s.(stack := s.stack[..|s.stack| - 1] + [f])
  }

  /** An activation that polled the awaited task to completion jumps out at once; any other
      goes on with its loop. */
  ghost function AfterFinished(s: State, wait: Id, id: Id): State
    requires s.stack != []
  {
    if wait == id then s.(cursor := End, stack := s.stack[..|s.stack| - 1])
    else WithTop(s, ActiveLoop(wait))
  }

  /** The logical-and task `p` drops its operand `x`.  With no operand left it deletes itself
      and has observers of its own to notify. */
  ghost function Notified(s: State, top: Frame, x: Id, p: Id): State
    requires s.stack != [] && top.ActiveDelete? && p in s.passive
  {
    if s.passive[p] == {x} then
      WithTop(s.(passive := s.passive - {p}, deleted := s.deleted + multiset{p}),
              ActiveDelete(top.wait, top.id, top.owing + {p}))
    else s.(passive := s.passive[p := s.passive[p] - {x}])
  }

  /** A stretch of manager code, run by the topmost activation. */
  ghost function ApplyManager(s: State, e: Event, top: Frame): State
    requires Enabled(s, e) && s.stack != [] && top == s.stack[|s.stack| - 1]
    requires !e.ByTaskCode()
  {
    match e
    case FetchCoop =>
      WithTop(s.(coopCursor := Next(s.coop, s.coopCursor.id)), CoopTask(top.wait, s.coopCursor.id))
    case ReturnCoop(done) =>
      if done && top.id in s.coop then
        WithTop(s.(coop := s.coop - {top.id}, deleted := s.deleted + multiset{top.id}),
                CoopDelete(top.wait, top.id))
      else WithTop(s, CoopLoop(top.wait))
    case EnterActive =>
      WithTop(s.(cursor := if s.cursor.End? then First(s.tasks) else s.cursor), ActiveLoop(top.wait))
    case FetchActive =>
      WithTop(s.(cursor := Next(s.tasks, s.cursor.id)), ActiveTask(top.wait, s.cursor.id))
    case ReturnActive(done) =>
      if !done then WithTop(s, ActiveLoop(top.wait))
      else if top.id in s.tasks then
        WithTop(s.(tasks := s.tasks - {top.id}, deleted := s.deleted + multiset{top.id}),
                ActiveDelete(top.wait, top.id, {top.id}))
      else AfterFinished(s, top.wait, top.id)
    case Notify(x, p) => Notified(s, top, x, p)
    case EndNotify(x) => WithTop(s, ActiveDelete(top.wait, top.id, top.owing - {x}))
    case EndDelete =>
      if top.CoopDelete? then WithTop(s, CoopLoop(top.wait)) else AfterFinished(s, top.wait, top.id)
    case Exit => s.(stack := s.stack[..|s.stack| - 1])
  }

  ghost function Apply(s: State, e: Event): State
    requires Enabled(s, e)
  {
    if e.Call? then
      s.(stack := s.stack + [CoopLoop(e.wait)],
         coopCursor := if s.coopCursor.End? then First(s.coop) else s.coopCursor)
    else if e.AddTask? then s.(tasks := s.tasks + {e.id}, used := s.used + {e.id})
    else if e.AddCoop? then s.(coop := s.coop + {e.id}, used := s.used + {e.id})
    else if e.Combine? then
      s.(passive := s.passive[e.id := {e.a, e.b}], used := s.used + {e.id},
         leaves := s.leaves[e.id := LeavesOf(s.leaves, e.a) + LeavesOf(s.leaves, e.b)])
    else ApplyManager(s, e, s.stack[|s.stack| - 1])
  }

  const INITIAL: State := State({}, map[], {}, End, End, [], {}, multiset{}, map[])

  /** What a sequence of events leads to from the initial state. */
  datatype Outcome = Stuck | Reached(state: State)

  ghost function Replay(es: seq<Event>): Outcome {
    if es == [] then Reached(INITIAL)
    else
      match Replay(es[..|es| - 1])
      case Stuck => Stuck
      case Reached(s) =>
        if Enabled(s, es[|es| - 1]) then Reached(Apply(s, es[|es| - 1])) else Stuck
  }

  ghost predicate Reachable(s: State) {
    exists es :: Replay(es) == Reached(s)
  }

  // ---------------------------------------------------------------- invariant

  /** Each cursor is past the end or names a task that is still in its map. */
  ghost predicate CursorsValid(s: State) {
    && (s.cursor.At? ==> s.cursor.id in s.tasks)
    && (s.coopCursor.At? ==> s.coopCursor.id in s.coop)
  }

  /** No cursor names an entry that the topmost activation may erase, and outside of the
      manager's loops both are past the end. */
  ghost predicate CursorsClearOfTop(s: State) {
    if s.stack == [] then s.cursor.End? && s.coopCursor.End?
    else
      match s.stack[|s.stack| - 1]
      case CoopTask(_, id) => s.coopCursor != At(id)
      case ActiveLoop(_) => s.coopCursor.End?
      case ActiveTask(_, id) => s.coopCursor.End? && s.cursor != At(id)
      case ActiveDelete(_, _, _) => s.coopCursor.End?
      case _ => true
  }

  /** How often `x` is in one of the three maps or among the deleted tasks. */
  ghost function Places(s: State, x: Id): nat {
    (if x in s.tasks then 1 else 0) + (if x in s.coop then 1 else 0) + (if x in s.passive then 1 else 0) + s.deleted[x]
  }

  /** Every task ever registered is in exactly one of the three maps or has been deleted, and
      that exactly once. */
  ghost predicate RegistryOk(s: State) {
    0 !in s.used && forall x :: Places(s, x) == if x in s.used then 1 else 0
  }

  /** The destructor of `c` runs and has not notified all its observers yet. */
  ghost predicate Dying(s: State, c: Id) {
    exists i :: 0 <= i < |s.stack| && s.stack[i].ActiveDelete? && c in s.stack[i].owing
  }

  /** A passive task waits for something, and only for older tasks that are still to notify it. */
  ghost predicate PassiveOk(s: State) {
    forall p, c {:trigger c in s.passive[p]} ::
      p in s.passive && c in s.passive[p] ==> c < p && (s.Unfinished(c) || Dying(s, c))
  }

  ghost predicate PassiveWaits(s: State) {
    forall p :: p in s.passive ==> s.passive[p] != {}
  }

  /** What an activation destroys is not registered any more. */
  ghost predicate FrameOk(s: State, f: Frame)
    requires f.ActiveDelete?
  {
    f.id in s.used && f.id !in s.tasks && forall x :: x in f.owing ==> x in s.used && x !in s.tasks && x !in s.passive
  }

  ghost predicate LeafKeysOk(s: State) {
    && s.passive.Keys <= s.leaves.Keys && s.leaves.Keys <= s.used && s.leaves.Keys !! s.tasks
    && (forall p :: p in s.leaves ==> s.leaves[p] <= s.used)
    && (forall f :: f in s.stack && f.ActiveDelete? ==> FrameOk(s, f))
  }

  /** The leaves of an open operand are leaves of the whole. */
  ghost predicate OperandsOk(passive: map<Id, set<Id>>, leaves: map<Id, set<Id>>) {
    forall p, c :: p in passive && p in leaves && c in passive[p] ==> LeavesOf(leaves, c) <= leaves[p]
  }

  /** Some open operand of `p` has `x` among its leaves. */
  ghost predicate OpenVia(passive: map<Id, set<Id>>, leaves: map<Id, set<Id>>, p: Id, x: Id)
    requires p in passive
  {
    exists c :: c in passive[p] && x in LeavesOf(leaves, c)
  }

  /** A finished logical-and task has no unfinished leaf, and the open operands of the others
      account for all unfinished leaves. */
  ghost predicate LeavesOpen(passive: map<Id, set<Id>>, leaves: map<Id, set<Id>>, tasks: set<Id>) {
    && (forall p :: p in leaves && p !in passive ==> leaves[p] !! tasks)
    && (forall p, x :: p in passive && p in leaves && x in leaves[p] && x in tasks ==> OpenVia(passive, leaves, p, x))
  }

  ghost predicate LeavesOk(s: State) {
    LeafKeysOk(s) && OperandsOk(s.passive, s.leaves) && LeavesOpen(s.passive, s.leaves, s.tasks)
  }

  /** No two destructors on the stack owe the same notification. */
  ghost predicate OwedOnce(stack: seq<Frame>) {
    forall i, j :: 0 <= i < j < |stack| && stack[i].ActiveDelete? && stack[j].ActiveDelete? ==>
      stack[i].owing !! stack[j].owing
  }

  ghost predicate Inv(s: State) {
    && CursorsValid(s) && CursorsClearOfTop(s) && RegistryOk(s) && PassiveOk(s) && PassiveWaits(s)
    && LeavesOk(s) && OwedOnce(s.stack)
  }

  // ---------------------------------------------------------------- preservation

  lemma CursorsStayValid(s: State, e: Event)
    requires Enabled(s, e) && CursorsValid(s) && CursorsClearOfTop(s)
    ensures CursorsValid(Apply(s, e))
  {
  }

  lemma CursorsStayClear(s: State, e: Event)
    requires Enabled(s, e) && CursorsValid(s) && CursorsClearOfTop(s)
    ensures CursorsClearOfTop(Apply(s, e))
  {
  }

  lemma CursorsPreserved(s: State, e: Event)
    requires Enabled(s, e) && CursorsValid(s) && CursorsClearOfTop(s)
    ensures CursorsValid(Apply(s, e)) && CursorsClearOfTop(Apply(s, e))
  {
    CursorsStayValid(s, e);
    CursorsStayClear(s, e);
  }

  lemma OnePlace(s: State, x: Id)
    requires RegistryOk(s)
    ensures s.deleted[x] <= 1
    ensures x in s.used <==> x in s.tasks || x in s.coop || x in s.passive || x in s.deleted
    ensures x in s.tasks ==> x !in s.coop && x !in s.passive && x !in s.deleted
    ensures x in s.passive ==> x !in s.coop && x !in s.deleted
    ensures x in s.coop ==> x !in s.deleted
  {
    assert Places(s, x) == if x in s.used then 1 else 0;
  }

  lemma RegisteredAreUsed(s: State)
    requires RegistryOk(s)
    ensures s.tasks <= s.used && s.coop <= s.used && s.passive.Keys <= s.used
  {
    forall x ensures x in s.tasks || x in s.coop || x in s.passive ==> x in s.used { OnePlace(s, x); }
  }

  lemma RegistryPreserved(s: State, e: Event)
    requires Enabled(s, e) && RegistryOk(s)
    ensures RegistryOk(Apply(s, e))
  {
    var t := Apply(s, e);
    forall x ensures Places(t, x) == if x in t.used then 1 else 0 {
      assert Places(s, x) == if x in s.used then 1 else 0;
    }
  }

  /** A task stays on its way to notify its observers until it has none left. */
  lemma DyingPreserved(s: State, e: Event, c: Id)
    requires Enabled(s, e) && Dying(s, c) && e != EndNotify(c)
    ensures Dying(Apply(s, e), c)
  {
    var i :| 0 <= i < |s.stack| && s.stack[i].ActiveDelete? && c in s.stack[i].owing;
    var t := Apply(s, e);
    if i < |s.stack| - 1 {
      assert t.stack[i] == s.stack[i];
    } else {
      assert |t.stack| > i && t.stack[i].ActiveDelete? && c in t.stack[i].owing;
    }
  }

  /** A task that leaves the active or the passive map is on its way to notify its observers. */
  lemma StartsDying(s: State, e: Event, c: Id)
    requires Enabled(s, e) && s.Unfinished(c) && !Apply(s, e).Unfinished(c)
    ensures Dying(Apply(s, e), c)
  {
    var t := Apply(s, e);
    assert t.stack[|t.stack| - 1].ActiveDelete? && c in t.stack[|t.stack| - 1].owing;
  }

  lemma PassivePreserved(s: State, e: Event)
    requires Enabled(s, e) && RegistryOk(s) && PassiveOk(s)
    ensures PassiveOk(Apply(s, e))
  {
    RegisteredAreUsed(s);
    var t := Apply(s, e);
    forall p, c | p in t.passive && c in t.passive[p]
      ensures c < p && (t.Unfinished(c) || Dying(t, c))
    {
      if p in s.passive && c in s.passive[p] {
        if Dying(s, c) {
          DyingPreserved(s, e, c);
        } else if !t.Unfinished(c) {
          StartsDying(s, e, c);
        }
      }
    }
    assert PassiveOk(t);
  }

  lemma PassiveWaitsPreserved(s: State, e: Event)
    requires Enabled(s, e) && PassiveWaits(s)
    ensures PassiveWaits(Apply(s, e))
  {
    if e.Notify? && s.passive[e.observer] != {e.task} {
      assert s.passive[e.observer] - {e.task} != {};
    }
  }

  /** A task that is not registered any more has no unfinished leaf. */
  lemma FinishedHasNoLeaf(s: State, x: Id)
    requires LeavesOk(s) && x !in s.tasks && x !in s.passive
    ensures LeavesOf(s.leaves, x) !! s.tasks
  {
  }

  lemma LeavesOpenAfterNotify(s: State, x: Id, p: Id, passive: map<Id, set<Id>>)
    requires LeavesOk(s) && x !in s.tasks && x !in s.passive && p in s.passive && x in s.passive[p]
    requires passive == if s.passive[p] == {x} then s.passive - {p} else s.passive[p := s.passive[p] - {x}]
    ensures LeavesOpen(passive, s.leaves, s.tasks) && OperandsOk(passive, s.leaves)
  {
    FinishedHasNoLeaf(s, x);
    forall q, y | q in s.passive && q in s.leaves && y in s.leaves[q] && y in s.tasks
      ensures q in passive && OpenVia(passive, s.leaves, q, y)
    {
      assert OpenVia(s.passive, s.leaves, q, y);
      var c :| c in s.passive[q] && y in LeavesOf(s.leaves, c);
      assert c != x;
      assert q in passive && c in passive[q];
    }
    assert s.passive.Keys <= s.leaves.Keys;
  }

  /** Adding the logical-and task `id` over the older tasks `a` and `b`. */
  lemma LeavesOpenAfterCombine(s: State, a: Id, b: Id, id: Id,
                               passive: map<Id, set<Id>>, leaves: map<Id, set<Id>>)
    requires PassiveOk(s) && LeavesOk(s)
    requires a < id && b < id && id !in s.passive && id !in s.leaves
    requires forall p :: p in s.passive ==> p < id
    requires passive == s.passive[id := {a, b}]
    requires leaves == s.leaves[id := LeavesOf(s.leaves, a) + LeavesOf(s.leaves, b)]
    ensures OperandsOk(passive, leaves)
    ensures LeavesOpen(passive, leaves, s.tasks)
  {
    forall p, c | p in passive && p in leaves && c in passive[p] ensures LeavesOf(leaves, c) <= leaves[p] {
      if p != id { assert c in s.passive[p]; }
      assert LeavesOf(leaves, c) == LeavesOf(s.leaves, c);
    }
    forall p, x | p in passive && p in leaves && x in leaves[p] && x in s.tasks ensures OpenVia(passive, leaves, p, x) {
      if p == id {
        var c := if x in LeavesOf(leaves, a) then a else b;
        assert c in passive[p] && x in LeavesOf(leaves, c);
      } else {
        assert OpenVia(s.passive, s.leaves, p, x);
        var c :| c in s.passive[p] && x in LeavesOf(s.leaves, c);
        assert c in passive[p] && x in LeavesOf(leaves, c);
      }
    }
  }

  /** Where a frame of a running destructor comes from. */
  lemma FramesKept(s: State, e: Event, f: Frame)
    requires Enabled(s, e) && f in Apply(s, e).stack && f.ActiveDelete? && f !in s.stack
    ensures s.stack != []
    ensures var top := s.stack[|s.stack| - 1];
            || (e == ReturnActive(true) && top.ActiveTask? && top.id in s.tasks
                && f == ActiveDelete(top.wait, top.id, {top.id}))
            || (e.Notify? && top.ActiveDelete? && f == ActiveDelete(top.wait, top.id, top.owing + {e.observer})
                && e.observer in s.passive && e.observer !in Apply(s, e).passive)
            || (e.EndNotify? && top.ActiveDelete? && f == ActiveDelete(top.wait, top.id, top.owing - {e.task}))
  {
  }

  lemma OldFrameOk(s: State, e: Event, f: Frame)
    requires Enabled(s, e) && RegistryOk(s) && f.ActiveDelete? && FrameOk(s, f)
    ensures FrameOk(Apply(s, e), f)
  {
  }

  lemma DeletedFrameKept(s: State, e: Event, f: Frame)
    requires Enabled(s, e) && RegistryOk(s) && LeafKeysOk(s) && f in Apply(s, e).stack && f.ActiveDelete?
    ensures FrameOk(Apply(s, e), f)
  {
    if f in s.stack {
      OldFrameOk(s, e, f);
    } else {
      FramesKept(s, e, f);
      var top := s.stack[|s.stack| - 1];
      assert top in s.stack;
      OnePlace(s, f.id);
      if e.Notify? { OnePlace(s, e.observer); }
    }
  }

  lemma LeafKeysPreserved(s: State, e: Event)
    requires Enabled(s, e) && RegistryOk(s) && LeafKeysOk(s)
    ensures LeafKeysOk(Apply(s, e))
  {
    var t := Apply(s, e);
    forall f | f in t.stack && f.ActiveDelete? ensures FrameOk(t, f) {
      DeletedFrameKept(s, e, f);
    }
  }

  lemma LeavesPreserved(s: State, e: Event)
    requires Enabled(s, e) && RegistryOk(s) && PassiveOk(s) && LeavesOk(s)
    ensures LeavesOk(Apply(s, e))
  {
    LeafKeysPreserved(s, e);
    if e.Notify? {
      assert s.stack[|s.stack| - 1] in s.stack;
      LeavesOpenAfterNotify(s, e.task, e.observer, Apply(s, e).passive);
    } else if e.Combine? {
      RegisteredAreUsed(s);
      LeavesOpenAfterCombine(s, e.a, e.b, e.id, Apply(s, e).passive, Apply(s, e).leaves);
    }
  }

  /** Only the topmost activation changes, ... */
  lemma BelowTopKept(s: State, e: Event, j: nat)
    requires Enabled(s, e) && j + 1 < |Apply(s, e).stack|
    ensures j < |s.stack| && Apply(s, e).stack[j] == s.stack[j]
  {
  }

  /** ... and it only comes to owe what was registered. */
  lemma TopOwes(s: State, e: Event, j: nat, x: Id)
    requires Enabled(s, e) && j + 1 == |Apply(s, e).stack|
    requires Apply(s, e).stack[j].ActiveDelete? && x in Apply(s, e).stack[j].owing
    ensures j < |s.stack|
    ensures (s.stack[j].ActiveDelete? && x in s.stack[j].owing) || x in s.tasks || x in s.passive
  {
  }

  lemma OwedOncePreserved(s: State, e: Event)
    requires Enabled(s, e) && LeafKeysOk(s) && RegistryOk(s) && OwedOnce(s.stack)
    ensures OwedOnce(Apply(s, e).stack)
  {
    var t := Apply(s, e).stack;
    forall i, j, x | 0 <= i < j < |t| && t[i].ActiveDelete? && t[j].ActiveDelete? && x in t[i].owing
      ensures x !in t[j].owing
    {
      BelowTopKept(s, e, i);
      assert s.stack[i] in s.stack && FrameOk(s, s.stack[i]);
      if j + 1 < |t| {
        BelowTopKept(s, e, j);
      } else if x in t[j].owing {
        TopOwes(s, e, j, x);
      }
    }
  }

  /** Every step of every activation, and everything task code does, keeps the invariant. */
  lemma StepKeepsInvariant(s: State, e: Event)
    requires Enabled(s, e) && Inv(s)
    ensures Inv(Apply(s, e))
  {
    CursorsPreserved(s, e);
    RegistryPreserved(s, e);
    PassivePreserved(s, e);
    PassiveWaitsPreserved(s, e);
    LeavesPreserved(s, e);
    OwedOncePreserved(s, e);
  }

  lemma {:induction false} RunKeepsInvariant(es: seq<Event>)
    requires Replay(es).Reached?
    ensures Inv(Replay(es).state)
  {
    if es != [] {
      var front := es[..|es| - 1];
      RunKeepsInvariant(front);
      StepKeepsInvariant(Replay(front).state, es[|es| - 1]);
    }
  }

  // ---------------------------------------------------------------- what every run guarantees

  /** What an event takes out of a map. */
  ghost predicate Erases(s: State, e: Event, id: Id)
    requires Enabled(s, e)
  {
    || (id in s.tasks && id !in Apply(s, e).tasks)
    || (id in s.coop && id !in Apply(s, e).coop)
  }

  lemma EraseMissesCursors(s: State, e: Event, id: Id)
    requires Enabled(s, e) && CursorsValid(s) && CursorsClearOfTop(s) && RegistryOk(s) && Erases(s, e, id)
    ensures s.cursor != At(id) && s.coopCursor != At(id)
  {
    OnePlace(s, id);
  }

  lemma ReturnEndsCursors(s: State, e: Event)
    requires Enabled(s, e) && CursorsClearOfTop(s) && |Apply(s, e).stack| < |s.stack|
    ensures Apply(s, e).cursor.End? && Apply(s, e).coopCursor.End?
  {
  }

  lemma ReachableHasInvariant(s: State)
    requires Reachable(s)
    ensures Inv(s)
  {
    var es :| Replay(es) == Reached(s);
    RunKeepsInvariant(es);
  }

  /** In every reachable state each cursor is past the end or names a registered task, no
      erase hits an entry that a cursor names, and an activation that returns leaves both
      cursors past the end. */
  lemma CursorsNeverDangle(s: State, e: Event)
    requires Reachable(s) && Enabled(s, e)
    ensures CursorsValid(s) && CursorsValid(Apply(s, e))
    ensures forall id :: Erases(s, e, id) ==> s.cursor != At(id) && s.coopCursor != At(id)
    ensures |Apply(s, e).stack| < |s.stack| ==> Apply(s, e).cursor.End? && Apply(s, e).coopCursor.End?
    ensures s.stack == [] ==> s.cursor.End? && s.coopCursor.End?
  {
    ReachableHasInvariant(s);
    CursorsStayValid(s, e);
    if |Apply(s, e).stack| < |s.stack| { ReturnEndsCursors(s, e); }
    forall id | Erases(s, e, id) ensures s.cursor != At(id) && s.coopCursor != At(id) {
      EraseMissesCursors(s, e, id);
    }
  }

  /** No task is deleted twice, and none is deleted that was not registered. */
  lemma DeletedAtMostOnce(s: State, x: Id)
    requires Reachable(s)
    ensures s.deleted[x] <= 1
    ensures x in s.used <==> x in s.tasks || x in s.coop || x in s.passive || x in s.deleted
    ensures x in s.deleted ==> x !in s.tasks && x !in s.coop && x !in s.passive
  {
    ReachableHasInvariant(s);
    OnePlace(s, x);
  }

  /** An id that has left its map never comes back. */
  lemma FinishedStaysFinished(s: State, e: Event, x: Id)
    requires Inv(s) && Enabled(s, e) && x in s.used
    ensures x !in s.tasks ==> x !in Apply(s, e).tasks
    ensures x !in s.passive ==> x !in Apply(s, e).passive
    ensures x in Apply(s, e).used
  {
  }

  /** The same over any stretch of a run, together with the leaves of combined handles. */
  lemma {:induction false} FinishedForGood(es: seq<Event>, later: seq<Event>, x: Id)
    requires es <= later && Replay(later).Reached?
    ensures Replay(es).Reached?
    ensures x in Replay(es).state.used ==>
              && x in Replay(later).state.used
              && (x !in Replay(es).state.tasks ==> x !in Replay(later).state.tasks)
              && (x !in Replay(es).state.passive ==> x !in Replay(later).state.passive)
    decreases |later|
  {
    if |es| < |later| {
      var front := later[..|later| - 1];
      FinishedForGood(es, front, x);
      RunKeepsInvariant(front);
      if x in Replay(front).state.used {
        FinishedStaysFinished(Replay(front).state, later[|later| - 1], x);
      }
    } else {
      assert es == later;
    }
  }

  /** What the destructors on the stack still have to notify the observers of. */
  function Owed(stack: seq<Frame>): set<Id> {
    if stack == [] then {}
    else
      var top := stack[|stack| - 1];
      Owed(stack[..|stack| - 1]) + if top.ActiveDelete? then top.owing else {}
  }

  lemma {:induction false} OwedIsDying(stack: seq<Frame>, x: Id)
    ensures x in Owed(stack) <==> exists i :: 0 <= i < |stack| && stack[i].ActiveDelete? && x in stack[i].owing
  {
    if stack != [] {
      var front := stack[..|stack| - 1];
      OwedIsDying(front, x);
      if i :| 0 <= i < |front| && front[i].ActiveDelete? && x in front[i].owing { assert stack[i] == front[i]; }
      if i :| 0 <= i < |stack| && stack[i].ActiveDelete? && x in stack[i].owing {
        if i < |front| { assert front[i] == stack[i]; }
      }
    }
  }

  /** The passive task `p` waits, directly or not, for a notification that is pending. */
  predicate Depends(passive: map<Id, set<Id>>, owed: set<Id>, p: Id)
    decreases p
  {
    p in passive && exists c :: c in passive[p] && (c in owed || (c < p && Depends(passive, owed, c)))
  }

  /** A waiting logical-and task that depends on no pending notification has an unfinished leaf
      among the active tasks. */
  lemma {:induction false} WaitingHasOpenLeaf(s: State, p: Id) returns (x: Id)
    requires Inv(s) && p in s.passive && !Depends(s.passive, Owed(s.stack), p)
    ensures x in s.leaves[p] && x in s.tasks
    decreases p
  {
    var c :| c in s.passive[p];
    assert LeavesOf(s.leaves, c) <= s.leaves[p];
    OwedIsDying(s.stack, c);
    if c in s.passive {
      x := WaitingHasOpenLeaf(s, c);
    } else {
      x := c;
    }
  }

  /** Combining event handles means what it says: the combined task is waiting exactly as long
      as one of the tasks it was combined from is unfinished, or a notification on the way. */
  lemma CombinedFinishesWithItsLeaves(s: State, p: Id)
    requires Reachable(s) && p in s.leaves
    ensures p in s.passive <==> !(s.leaves[p] !! s.tasks) || Depends(s.passive, Owed(s.stack), p)
  {
    ReachableHasInvariant(s);
    if p in s.passive && !Depends(s.passive, Owed(s.stack), p) {
      var x := WaitingHasOpenLeaf(s, p);
    }
  }

  /** No passive task that depends on no pending notification outlives the active ones, so that
      nothing waits for it forever. */
  lemma NoOrphanedPassiveTask(s: State, p: Id)
    requires Inv(s) && p in s.passive && !Depends(s.passive, Owed(s.stack), p)
    ensures s.tasks != {}
  {
    var x := WaitingHasOpenLeaf(s, p);
  }

  // ---------------------------------------------------------------- who is polled

  /** The event starts to poll the cooperative task `x`. */
  ghost predicate FetchesCoop(s: State, e: Event, x: Id) {
    e.FetchCoop? && s.coopCursor == At(x)
  }

  /** The event starts to poll the active task `x`. */
  ghost predicate Fetches(s: State, e: Event, x: Id) {
    e.FetchActive? && s.cursor == At(x)
  }

  /** The event ends an activation that has polled the awaited task to completion. */
  ghost predicate JumpsOut(s: State, e: Event) {
    s.stack != [] && var top := s.stack[|s.stack| - 1];
      || (e == ReturnActive(true) && top.ActiveTask? && top.wait == top.id && top.id !in s.tasks)
      || (e == EndDelete && top.ActiveDelete? && top.wait == top.id)
  }

  /** Between `es` and `later`, some activation started to poll the cooperative task `x`, ... */
  ghost predicate PolledCoop(es: seq<Event>, later: seq<Event>, x: Id)
    decreases |later|
  {
    && |es| < |later|
    && var front, e := later[..|later| - 1], later[|later| - 1];
       PolledCoop(es, front, x) || (Replay(front).Reached? && FetchesCoop(Replay(front).state, e, x))
  }

  /** ... or the active task `x`, ... */
  ghost predicate Polled(es: seq<Event>, later: seq<Event>, x: Id)
    decreases |later|
  {
    && |es| < |later|
    && var front, e := later[..|later| - 1], later[|later| - 1];
       Polled(es, front, x) || (Replay(front).Reached? && Fetches(Replay(front).state, e, x))
  }

  /** ... or some activation jumped out. */
  ghost predicate Jumped(es: seq<Event>, later: seq<Event>)
    decreases |later|
  {
    && |es| < |later|
    && var front, e := later[..|later| - 1], later[|later| - 1];
       Jumped(es, front) || (Replay(front).Reached? && JumpsOut(Replay(front).state, e))
  }

  /** A longer stretch of events has seen as much. */
  lemma {:induction false} PolledBefore(es: seq<Event>, mid: seq<Event>, later: seq<Event>, x: Id)
    requires es <= mid <= later
    ensures PolledCoop(es, mid, x) || PolledCoop(mid, later, x) ==> PolledCoop(es, later, x)
    ensures Polled(es, mid, x) || Polled(mid, later, x) ==> Polled(es, later, x)
    ensures Jumped(es, mid) || Jumped(mid, later) ==> Jumped(es, later)
    decreases |later|
  {
    if |mid| < |later| {
      PolledBefore(es, mid, later[..|later| - 1], x);
    } else {
      assert mid == later;
    }
  }

  /** The cursor has not passed `x` yet. */
  ghost predicate IsAhead(c: Cursor, x: Id) {
    c.At? && c.id <= x
  }

  lemma CoopStep(s: State, e: Event, x: Id)
    requires Enabled(s, e) && x in s.used
    ensures x in Apply(s, e).used && (x !in s.coop ==> x !in Apply(s, e).coop)
    ensures x in s.coop && IsAhead(s.coopCursor, x) ==>
              FetchesCoop(s, e, x) || x !in Apply(s, e).coop || IsAhead(Apply(s, e).coopCursor, x)
  {
  }

  lemma ActiveStep(s: State, e: Event, x: Id)
    requires Enabled(s, e) && x in s.used
    ensures x in Apply(s, e).used && (x !in s.tasks ==> x !in Apply(s, e).tasks)
    ensures x in s.tasks && IsAhead(s.cursor, x) ==>
              Fetches(s, e, x) || x !in Apply(s, e).tasks || JumpsOut(s, e) || IsAhead(Apply(s, e).cursor, x)
  {
  }

  /** A cooperative task that the cursor has not passed is polled, or leaves the map, before the
      cursor passes it. */
  lemma {:induction false} CoopNotSkipped(es: seq<Event>, later: seq<Event>, x: Id)
    requires es <= later && Replay(es).Reached? && Replay(later).Reached?
    requires x in Replay(es).state.coop && IsAhead(Replay(es).state.coopCursor, x)
    ensures x in Replay(later).state.used
    ensures PolledCoop(es, later, x) || x !in Replay(later).state.coop || IsAhead(Replay(later).state.coopCursor, x)
    decreases |later|
  {
    if |es| < |later| {
      var front := later[..|later| - 1];
      CoopNotSkipped(es, front, x);
      CoopStep(Replay(front).state, later[|later| - 1], x);
    } else {
      assert es == later;
      RunKeepsInvariant(es);
      OnePlace(Replay(es).state, x);
    }
  }

  /** So is an active one, unless an activation jumps out. */
  lemma {:induction false} ActiveNotSkipped(es: seq<Event>, later: seq<Event>, x: Id)
    requires es <= later && Replay(es).Reached? && Replay(later).Reached?
    requires x in Replay(es).state.tasks && IsAhead(Replay(es).state.cursor, x)
    ensures x in Replay(later).state.used
    ensures Polled(es, later, x) || x !in Replay(later).state.tasks || Jumped(es, later)
            || IsAhead(Replay(later).state.cursor, x)
    decreases |later|
  {
    if |es| < |later| {
      var front := later[..|later| - 1];
      ActiveNotSkipped(es, front, x);
      ActiveStep(Replay(front).state, later[|later| - 1], x);
    } else {
      assert es == later;
      RunKeepsInvariant(es);
      OnePlace(Replay(es).state, x);
    }
  }

  // ---------------------------------------------------------------- what waiting can rely on

  lemma OneStepShrinks(s: State, e: Event, q: Id)
    requires Enabled(s, e) && q in s.used
    ensures q in Apply(s, e).used
    ensures q in Apply(s, e).passive ==> q in s.passive && Apply(s, e).passive[q] <= s.passive[q]
  {
  }

  /** Passive tasks only ever wait for less. */
  lemma {:induction false} OperandsShrink(es: seq<Event>, later: seq<Event>, q: Id)
    requires es <= later && Replay(later).Reached?
    ensures Replay(es).Reached?
    ensures q in Replay(es).state.used ==> q in Replay(later).state.used
    ensures q in Replay(es).state.used && q in Replay(later).state.passive ==>
              q in Replay(es).state.passive && Replay(later).state.passive[q] <= Replay(es).state.passive[q]
    decreases |later|
  {
    if |es| < |later| {
      var front := later[..|later| - 1];
      OperandsShrink(es, front, q);
      RunKeepsInvariant(front);
      if q in Replay(front).state.used { OneStepShrinks(Replay(front).state, later[|later| - 1], q); }
    } else {
      assert es == later;
    }
  }

  lemma OperandIsUsed(s: State, p: Id, c: Id)
    requires Inv(s) && p in s.passive && c in s.passive[p]
    ensures c in s.used && c < p
  {
    if s.Unfinished(c) {
      OnePlace(s, c);
    } else {
      var i :| 0 <= i < |s.stack| && s.stack[i].ActiveDelete? && c in s.stack[i].owing;
      assert s.stack[i] in s.stack && FrameOk(s, s.stack[i]);
    }
  }

  /** A task that does not depend on what is pending does not come to do so. */
  lemma {:induction false} StaysIndependent(es: seq<Event>, later: seq<Event>, owed: set<Id>, p: Id)
    requires es <= later && Replay(later).Reached? && Replay(es).Reached?
    requires p in Replay(es).state.used && !Depends(Replay(es).state.passive, owed, p)
    ensures !Depends(Replay(later).state.passive, owed, p)
    decreases p
  {
    var s, t := Replay(es).state, Replay(later).state;
    RunKeepsInvariant(es);
    OperandsShrink(es, later, p);
    if p in t.passive {
      forall c | c in t.passive[p] && c < p ensures c !in owed && !Depends(t.passive, owed, c) {
        OperandIsUsed(s, p, c);
        StaysIndependent(es, later, owed, c);
      }
    }
  }

  /** Nobody waits for any of them. */
  predicate NobodyWaits(passive: map<Id, set<Id>>, owed: set<Id>) {
    forall q :: q in passive ==> passive[q] !! owed
  }

  lemma NobodyDepends(passive: map<Id, set<Id>>, owed: set<Id>, p: Id)
    requires NobodyWaits(passive, owed)
    ensures !Depends(passive, owed, p)
    decreases p
  {
    if p in passive {
      forall c | c in passive[p] && c < p ensures !Depends(passive, owed, c) { NobodyDepends(passive, owed, c); }
    }
  }

  lemma NobodyStartsToWait(s: State, e: Event, owed: set<Id>)
    requires Enabled(s, e) && NobodyWaits(s.passive, owed) && forall x :: x in owed ==> !s.Unfinished(x)
    ensures NobodyWaits(Apply(s, e).passive, owed)
  {
  }

  /** Nobody starts to wait for what has finished. */
  lemma {:induction false} NobodyWaitsLater(es: seq<Event>, later: seq<Event>, owed: set<Id>)
    requires es <= later && Replay(later).Reached? && Replay(es).Reached?
    requires forall x :: x in owed ==> x in Replay(es).state.used && !Replay(es).state.Unfinished(x)
    requires NobodyWaits(Replay(es).state.passive, owed)
    ensures NobodyWaits(Replay(later).state.passive, owed)
    decreases |later|
  {
    if |es| < |later| {
      var front := later[..|later| - 1];
      NobodyWaitsLater(es, front, owed);
      forall x | x in owed ensures !Replay(front).state.Unfinished(x) { FinishedForGood(es, front, x); }
      NobodyStartsToWait(Replay(front).state, later[|later| - 1], owed);
    } else {
      assert es == later;
    }
  }

  // ---------------------------------------------------------------- waiting in vain

  /** From `es` on, `later` leaves the activations `base` alone: only task code, and what it
      calls, runs on top of them. */
  ghost predicate Untouched(base: seq<Frame>, es: seq<Event>, later: seq<Event>)
    decreases |later|
  {
    && es <= later && Replay(later).Reached?
    && (|es| < |later| ==>
          var front, e := later[..|later| - 1], later[|later| - 1];
          var stack := Replay(front).state.stack;
          Untouched(base, es, front) && base <= stack && (stack == base ==> e.ByTaskCode()))
  }

  lemma {:induction false} UntouchedTrans(base: seq<Frame>, a: seq<Event>, b: seq<Event>, c: seq<Event>)
    requires Untouched(base, a, b) && Untouched(base, b, c)
    ensures Untouched(base, a, c)
    decreases |c|
  {
    if |b| == |c| {
      assert b == c;
    } else {
      UntouchedTrans(base, a, b, c[..|c| - 1]);
    }
  }

  lemma {:induction false} UntouchedBelow(base: seq<Frame>, above: seq<Frame>, es: seq<Event>, later: seq<Event>)
    requires base < above && Untouched(above, es, later)
    ensures Untouched(base, es, later)
    decreases |later|
  {
    if |es| < |later| { UntouchedBelow(base, above, es, later[..|later| - 1]); }
  }

  lemma OwedAbove(stack: seq<Frame>, base: seq<Frame>, i: nat, x: Id)
    requires base <= stack && OwedOnce(stack) && |base| <= i < |stack| && stack[i].ActiveDelete? && x in stack[i].owing
    ensures x !in Owed(base)
  {
    OwedIsDying(base, x);
    assert forall j :: 0 <= j < |base| ==> stack[j] == base[j];
  }

  lemma DropsOnlyNotified(s: State, e: Event, p: Id, c: Id)
    requires Enabled(s, e) && p in s.used && p in s.passive && c in s.passive[p] && (e.Notify? ==> e.task != c)
    ensures p in Apply(s, e).passive && c in Apply(s, e).passive[p]
  {
  }

  /** An operand stays that is pending in `base`, or waits itself. */
  lemma OperandStays(s: State, e: Event, base: seq<Frame>, p: Id, c: Id)
    requires Inv(s) && Enabled(s, e) && base <= s.stack && (s.stack == base ==> e.ByTaskCode())
    requires p in s.passive && c in s.passive[p] && (c in Owed(base) || c in s.passive)
    ensures p in Apply(s, e).passive && c in Apply(s, e).passive[p]
  {
    RegisteredAreUsed(s);
    if e.Notify? {
      var n := |s.stack| - 1;
      assert s.stack[n] in s.stack && FrameOk(s, s.stack[n]);
      OwedAbove(s.stack, base, n, e.task);
    }
    DropsOnlyNotified(s, e, p, c);
  }

  lemma {:induction false} StepStaysDependent(s: State, e: Event, base: seq<Frame>, p: Id)
    requires Inv(s) && Enabled(s, e) && base <= s.stack && (s.stack == base ==> e.ByTaskCode())
    requires Depends(s.passive, Owed(base), p)
    ensures Depends(Apply(s, e).passive, Owed(base), p)
    decreases p
  {
    var c :| c in s.passive[p] && (c in Owed(base) || (c < p && Depends(s.passive, Owed(base), c)));
    OperandStays(s, e, base, p, c);
    if c !in Owed(base) { StepStaysDependent(s, e, base, c); }
  }

  /** A task that depends on what is pending in `base` does so as long as code runs on top of
      `base`, whatever that code does: it waits for the task in vain. */
  lemma {:induction false} StaysDependent(es: seq<Event>, later: seq<Event>, base: seq<Frame>, p: Id)
    requires Untouched(base, es, later) && Replay(es).Reached? && Depends(Replay(es).state.passive, Owed(base), p)
    ensures Depends(Replay(later).state.passive, Owed(base), p)
    decreases |later|
  {
    if |es| < |later| {
      var front := later[..|later| - 1];
      StaysDependent(es, front, base, p);
      RunKeepsInvariant(front);
      StepStaysDependent(Replay(front).state, later[|later| - 1], base, p);
    } else {
      assert es == later;
    }
  }

  lemma ReachesNext(s: State, e: Event, t: State)
    requires Reachable(s) && Enabled(s, e) && Apply(s, e) == t
    ensures Reachable(t)
  {
    var es :| Replay(es) == Reached(s);
    assert (es + [e])[..|es|] == es;
    assert Replay(es + [e]) == Reached(t);
  }

  /** Two tasks and a logical-and task over them. */
  lemma TwoCombined(s: State)
    requires s == INITIAL.(tasks := {1, 2}, used := {1, 2, 3}, passive := map[3 := {1, 2}], leaves := map[3 := {1, 2}])
    ensures Reachable(s)
  {
    var s1 := INITIAL.(tasks := {1}, used := {1});
    var s2 := INITIAL.(tasks := {1, 2}, used := {1, 2});
    assert Replay([]) == Reached(INITIAL);
    ReachesNext(INITIAL, AddTask(1), s1);
    ReachesNext(s1, AddTask(2), s2);
    ReachesNext(s2, Combine(1, 2, 3), s);
  }

  lemma Polls(s: State, base: seq<Frame>, c: Cursor)
    requires Reachable(s) && s.stack == base && s.TaskCodeRuns() && s.coop == {} && s.coopCursor == End
    requires c == if s.cursor.End? then First(s.tasks) else s.cursor
    ensures Reachable(s.(stack := base + [ActiveLoop(0)], cursor := c))
  {
    var t := s.(stack := base + [CoopLoop(0)]);
    ReachesNext(s, Call(0), t);
    assert t.stack[..|t.stack| - 1] == base;
    ReachesNext(t, EnterActive, s.(stack := base + [ActiveLoop(0)], cursor := c));
  }

  lemma FetchReaches(s: State, base: seq<Frame>, x: Id, c: Cursor)
    requires Reachable(s) && s.stack == base + [ActiveLoop(0)] && s.cursor == At(x) && c == Next(s.tasks, x)
    ensures Reachable(s.(stack := base + [ActiveTask(0, x)], cursor := c))
  {
    assert s.stack[..|s.stack| - 1] == base;
    ReachesNext(s, FetchActive, s.(stack := base + [ActiveTask(0, x)], cursor := c));
  }

  lemma EndsPoll(s: State, base: seq<Frame>, x: Id)
    requires Reachable(s) && s.stack == base + [ActiveTask(0, x)] && x in s.tasks
    ensures Reachable(s.(tasks := s.tasks - {x}, deleted := s.deleted + multiset{x},
                         stack := base + [ActiveDelete(0, x, {x})]))
  {
    assert s.stack[..|s.stack| - 1] == base;
    ReachesNext(s, ReturnActive(true), s.(tasks := s.tasks - {x}, deleted := s.deleted + multiset{x},
                                          stack := base + [ActiveDelete(0, x, {x})]));
  }

  /** An activation polls `x` to its end: the destructor runs and has notified nobody yet. */
  lemma Destroys(s: State, base: seq<Frame>, x: Id, c: Cursor)
    requires Reachable(s) && s.stack == base && s.TaskCodeRuns() && s.coop == {} && s.coopCursor == End
    requires x in s.tasks && c == Next(s.tasks, x)
    requires At(x) == if s.cursor.End? then First(s.tasks) else s.cursor
    ensures Reachable(s.(tasks := s.tasks - {x}, deleted := s.deleted + multiset{x}, cursor := c,
                         stack := base + [ActiveDelete(0, x, {x})]))
  {
    Polls(s, base, At(x));
    var a := s.(stack := base + [ActiveLoop(0)], cursor := At(x));
    FetchReaches(a, base, x, c);
    EndsPoll(s.(stack := base + [ActiveTask(0, x)], cursor := c), base, x);
  }

  /** The condition is needed: code that runs while a notification is pending can find passive
      tasks and no active ones, and waits for them in vain. */
  lemma PendingNotificationOrphans() returns (s: State, p: Id)
    ensures Reachable(s) && s.TaskCodeRuns() && p in s.passive && Depends(s.passive, Owed(s.stack), p) && s.tasks == {}
    ensures forall es, later :: Replay(es) == Reached(s) && Untouched(s.stack, es, later) ==>
              p in Replay(later).state.passive
  {
    var a := INITIAL.(tasks := {1, 2}, used := {1, 2, 3}, passive := map[3 := {1, 2}], leaves := map[3 := {1, 2}]);
    TwoCombined(a);
    Destroys(a, [], 1, At(2));
    var d1, d2 := ActiveDelete(0, 1, {1}), ActiveDelete(0, 2, {2});
    assert a.tasks - {1} == {2} && [] + [d1] == [d1] && [d1] + [d2] == [d1, d2];
    var b := a.(tasks := {2}, deleted := a.deleted + multiset{1}, cursor := At(2), stack := [d1]);
    Destroys(b, [d1], 2, End);
    assert b.tasks - {2} == {};
    s := b.(tasks := {}, deleted := b.deleted + multiset{2}, cursor := End, stack := [d1, d2]);
    p := 3;
    OwedIsDying(s.stack, 2);
    assert s.stack[1] == d2 && 2 in s.passive[3];
    forall es, later | Replay(es) == Reached(s) && Untouched(s.stack, es, later)
      ensures p in Replay(later).state.passive
    {
      StaysDependent(es, later, s.stack, p);
    }
  }
}
