/** The manager itself, as an object whose methods update its maps and cursors.

    An active task is given by the finite list of polls it still needs, a cooperative one by
    the polls in which it does anything; it may stay without ever completing.  A poll or a
    destructor may register and combine tasks, re-enter the manager and wait.  Every method
    call extends a log of events, and `Valid` says that the log is a run of the step relation
    that ends in the object's current state.  The methods are proved to terminate at any
    nesting depth.  Code that starts to wait for what it holds up itself is stuck: the methods
    then end there and report that they hang.  Rules for task code make sure that none does. */
module EventManager {
  import opened EventSystem

  /** What task code does through the manager. */
  datatype Action =
    | Create(id: Id, task: Task)
    | CreateCooperative(id: Id, task: Task)
    | CombineHandles(a: Id, b: Id, id: Id)
    | Execute(wait: Id)
    | WaitFor(id: Id)
    | WaitForAll

  /** One call of a task's `execute()`: what it does and whether it reports completion. */
  datatype Poll = Poll(actions: seq<Action>, done: bool)

  /** An active task that runs out of polls reports completion; a cooperative one does so only
      if it `completes` at all.  `onDelete` is what its destructor and its observers do. */
  datatype Task = Task(polls: seq<Poll>, onDelete: seq<Action>, completes: bool)

  /** What a task does when it is polled next, ... */
  function NextPoll(task: Task): Poll {
    if task.polls == [] then Poll([], true) else task.polls[0]
  }

  function NextCooperativePoll(task: Task): Poll {
    if task.polls == [] then Poll([], task.completes) else task.polls[0]
  }

  /** ... and what is left of it then. */
  function AfterPoll(task: Task): Task {
    if task.polls == [] then task else task.(polls := task.polls[1..])
  }

  /** Registering and combining tasks. */
  predicate Registers(a: Action) {
    a.Create? || a.CreateCooperative? || a.CombineHandles?
  }

  // ---------------------------------------------------------------- code that never waits in vain

  predicate OnlyRegisters(actions: seq<Action>) {
    forall i :: 0 <= i < |actions| ==> Registers(actions[i])
  }

  /** Rules for task code that make sure that no wait is in vain.  With `waits`, polls and the
      destructors of cooperative tasks may do anything, and what runs in the destructor of an
      active task only registers and combines.  Without, no code waits at all. */
  predicate TameAction(a: Action, waits: bool)
    decreases a
  {
    match a
    case Create(_, task) => TameTask(task, waits)
    case CreateCooperative(_, task) => TameCooperative(task, waits)
    case WaitFor(_) => waits
    case WaitForAll => waits
    case _ => true
  }

  predicate TameActions(actions: seq<Action>, waits: bool)
    decreases actions
  {
    forall i :: 0 <= i < |actions| ==> TameAction(actions[i], waits)
  }

  predicate TameCooperative(task: Task, waits: bool)
    decreases task, 0
  {
    && (forall i :: 0 <= i < |task.polls| ==> TameActions(task.polls[i].actions, waits))
    && TameActions(task.onDelete, waits)
  }

  predicate TameTask(task: Task, waits: bool)
    decreases task, 1
  {
    TameCooperative(task, waits) && (waits ==> OnlyRegisters(task.onDelete))
  }

  /** What may run while notifications are pending. */
  predicate TameDestructor(actions: seq<Action>, waits: bool) {
    TameActions(actions, waits) && (waits ==> OnlyRegisters(actions))
  }

  /** Poll, onDelete and the rest of code that follows the rules do so too. */
  lemma TameParts(task: Task, actions: seq<Action>, waits: bool)
    ensures TameCooperative(task, waits) && task.polls != [] ==>
              TameCooperative(task.(polls := task.polls[1..]), waits) && TameActions(task.polls[0].actions, waits)
    ensures TameTask(task, waits) && task.polls != [] ==> TameTask(task.(polls := task.polls[1..]), waits)
    ensures TameActions(actions, waits) && actions != [] ==>
              TameAction(actions[0], waits) && TameActions([actions[0]], waits) && TameActions(actions[1..], waits)
    ensures OnlyRegisters(actions) && actions != [] ==> OnlyRegisters([actions[0]]) && OnlyRegisters(actions[1..])
  {
  }

  lemma TameEnd(task: Task, waits: bool)
    requires TameTask(task, waits)
    ensures TameDestructor(task.onDelete, waits)
  {
    assert TameCooperative(task, waits);
  }

  predicate AllTame(tasks: map<Id, Task>, waits: bool) {
    forall k :: k in tasks ==> TameTask(tasks[k], waits)
  }

  predicate AllTameCooperative(tasks: map<Id, Task>, waits: bool) {
    forall k :: k in tasks ==> TameCooperative(tasks[k], waits)
  }

  lemma TameAdded(tasks: map<Id, Task>, id: Id, task: Task, waits: bool)
    ensures AllTame(tasks, waits) && TameTask(task, waits) ==> AllTame(tasks[id := task], waits)
    ensures AllTameCooperative(tasks, waits) && TameCooperative(task, waits) ==>
              AllTameCooperative(tasks[id := task], waits)
  {
  }

  lemma TameErased(tasks: map<Id, Task>, id: Id, waits: bool)
    requires id in tasks && AllTame(tasks, waits)
    ensures AllTame(tasks - {id}, waits) && TameDestructor(tasks[id].onDelete, waits)
  {
    TameEnd(tasks[id], waits);
  }

  // ---------------------------------------------------------------- remaining work

  ghost function ActionSize(a: Action): nat
    decreases a
  {
    match a
    case Create(_, task) => 1 + TaskSize(task)
    case CreateCooperative(_, task) => 1 + TaskSize(task)
    case _ => 1
  }

  ghost function ActionsSize(actions: seq<Action>): nat
    decreases actions
  {
    if actions == [] then 0 else ActionSize(actions[0]) + ActionsSize(actions[1..])
  }

  ghost function PollsSize(polls: seq<Poll>): nat
    decreases polls
  {
    if polls == [] then 0 else 1 + ActionsSize(polls[0].actions) + PollsSize(polls[1..])
  }

  ghost function TaskSize(task: Task): nat
    decreases task
  {
    1 + PollsSize(task.polls) + ActionsSize(task.onDelete)
  }

  ghost function Total(m: map<Id, Task>): nat
    decreases m.Keys
  {
    if m == map[] then 0
    else
      var k := First(m.Keys).id;
      TaskSize(m[k]) + Total(m - {k})
  }

  lemma {:induction false} TotalWithout(m: map<Id, Task>, k: Id)
    requires k in m
    ensures Total(m) == TaskSize(m[k]) + Total(m - {k})
    decreases m.Keys
  {
    var f := First(m.Keys).id;
    if k != f {
      TotalWithout(m - {f}, k);
      assert (m - {k}) - {f} == (m - {f}) - {k};
      assert f in (m - {k}).Keys && forall y :: y in (m - {k}).Keys ==> y in m.Keys;
    }
  }

  lemma TotalWith(m: map<Id, Task>, k: Id, task: Task)
    ensures Total(m[k := task]) == TaskSize(task) + if k in m then Total(m) - TaskSize(m[k]) else Total(m)
  {
    TotalWithout(m[k := task], k);
    assert m[k := task] - {k} == m - {k};
    if k in m { TotalWithout(m, k); } else { assert m - {k} == m; }
  }

  /** Passive tasks wait for what they waited for, and new ones only for what is unfinished. */
  ghost predicate WaitsKept(before: State, now: map<Id, set<Id>>) {
    forall q :: q in now ==>
      || (q in before.passive && now[q] == before.passive[q])
      || (forall c :: c in now[q] ==> before.Unfinished(c))
  }

  /** Passive tasks may have gone, and those left wait for less. */
  ghost predicate Shrunk(before: map<Id, set<Id>>, now: map<Id, set<Id>>) {
    now.Keys <= before.Keys && forall q :: q in now ==> now[q] <= before[q]
  }

  /** `e` ends an activation's work on a task: it is the return of the poll, if another
      activation has erased its task, or else the end of its destructor. */
  ghost predicate Finishes(e: Event, stack: seq<Frame>, base: seq<Frame>, wait: Id, id: Id) {
    || (e == ReturnActive(true) && stack == base + [ActiveTask(wait, id)])
    || (e == EndDelete && stack == base + [ActiveDelete(wait, id, {})])
  }

  /** The last event ends an activation on top of `base` that has polled the awaited task, and
      that completed. */
  ghost predicate EndsWithJump(base: seq<Frame>, wait: Id, es: seq<Event>) {
    && es != [] && Replay(es[..|es| - 1]).Reached?
    && Finishes(es[|es| - 1], Replay(es[..|es| - 1]).state.stack, base, wait, wait)
  }

  lemma FinishStep(s: State, wait: Id, id: Id, e: Event, base: seq<Frame>)
    requires id !in s.tasks && Finishes(e, s.stack, base, wait, id)
    ensures Enabled(s, e)
    ensures Apply(s, e) == if wait == id then s.(cursor := End, stack := base)
                           else s.(stack := base + [ActiveLoop(wait)])
  {
    assert s.stack[..|s.stack| - 1] == base;
  }

  /** A cursor that was past the end and is set to the beginning has passed nobody. */
  lemma FirstIsAhead(keys: set<Id>, was: Cursor, c: Cursor, x: Id)
    requires c == (if was.End? then First(keys) else was) && x in keys && (was.At? ==> was.id <= x)
    ensures IsAhead(c, x)
  {
  }

  /** The step that registers a logical-and task. */
  ghost function CombineStep(s: State, a: Id, b: Id, id: Id): State {
    s.(passive := s.passive[id := {a, b}], used := s.used + {id},
       leaves := s.leaves[id := LeavesOf(s.leaves, a) + LeavesOf(s.leaves, b)])
  }

  lemma OwedTop(base: seq<Frame>, top: Frame)
    ensures Owed(base + [top]) == Owed(base) + if top.ActiveDelete? then top.owing else {}
  {
    assert (base + [top])[..|base|] == base;
  }

  lemma OwedIsFinished(s: State, x: Id)
    requires Inv(s) && x in Owed(s.stack)
    ensures x in s.used && !s.Unfinished(x)
  {
    OwedIsDying(s.stack, x);
    var i :| 0 <= i < |s.stack| && s.stack[i].ActiveDelete? && x in s.stack[i].owing;
    assert s.stack[i] in s.stack && FrameOk(s, s.stack[i]);
  }

  /** Registering and combining makes nobody wait for what is owed. */
  lemma StillNobodyWaits(s: State, now: map<Id, set<Id>>, owed: set<Id>)
    requires Inv(s) && WaitsKept(s, now) && owed <= Owed(s.stack) && NobodyWaits(s.passive, owed)
    ensures NobodyWaits(now, owed)
  {
    forall x | x in owed ensures !s.Unfinished(x) { OwedIsFinished(s, x); }
  }

  // ---------------------------------------------------------------- what task code leaves in the log

  /** Only notifications in between. */
  ghost predicate Quiet(es: seq<Event>, later: seq<Event>)
    decreases |later|
  {
    && es <= later
    && (|es| < |later| ==>
          && (later[|later| - 1].Notify? || later[|later| - 1].EndNotify?)
          && Quiet(es, later[..|later| - 1]))
  }

  lemma {:induction false} QuietTrans(a: seq<Event>, b: seq<Event>, c: seq<Event>)
    requires Quiet(a, b) && Quiet(b, c)
    ensures Quiet(a, c)
    decreases |c|
  {
    if |b| < |c| {
      QuietTrans(a, b, c[..|c| - 1]);
    } else {
      assert b == c;
    }
  }

  lemma QuietOne(es: seq<Event>, e: Event)
    requires e.Notify? || e.EndNotify?
    ensures Quiet(es, es + [e])
  {
    assert (es + [e])[..|es|] == es && Quiet(es, es);
  }

  /** The stretch of events from `es` to `later` is what an action of task code leads to. */
  ghost predicate PerformsOne(action: Action, es: seq<Event>, later: seq<Event>) {
    && es <= later && Replay(es).Reached? && Replay(later).Reached?
    && var s, t := Replay(es).state, Replay(later).state;
       match action
       case Create(id, _) => later == if id != 0 && id !in s.used then es + [Event.AddTask(id)] else es
       case CreateCooperative(id, _) => later == if id != 0 && id !in s.used then es + [AddCoop(id)] else es
       case CombineHandles(a, b, id) =>
         var isNew := id != 0 && forall u :: u in s.used ==> u < id;
         later == if isNew && a != b && s.Unfinished(a) && s.Unfinished(b) then es + [Event.Combine(a, b, id)] else es
       case Execute(wait) => |es| < |later| && later[|es|] == Call(wait)
       case WaitFor(id) =>
         && !t.Unfinished(id)
         && (s.Unfinished(id) ==> |es| < |later| && later[|es|] == Call(if id in s.passive then 0 else id))
       case WaitForAll =>
         && t.tasks == {} && t.passive == map[]
         && (s.tasks != {} || s.passive != map[] ==> |es| < |later| && later[|es|] == Call(0))
  }

  type Stretch = (Action, seq<Event>, seq<Event>) -> bool

  /** Actions one after the other, with notifications before, between and after them; `one` says
      what a single action may lead to. */
  ghost predicate Chain(one: Stretch, actions: seq<Action>, es: seq<Event>, later: seq<Event>)
    decreases |actions|
  {
    if actions == [] then Quiet(es, later)
    else exists from, mid :: Quiet(es, from) && one(actions[0], from, mid) && Chain(one, actions[1..], mid, later)
  }

  lemma ChainCons(one: Stretch, action: Action, rest: seq<Action>, es: seq<Event>, from: seq<Event>, mid: seq<Event>,
                  later: seq<Event>)
    requires Quiet(es, from) && one(action, from, mid) && Chain(one, rest, mid, later)
    ensures Chain(one, [action] + rest, es, later)
  {
    var actions := [action] + rest;
    assert actions[0] == action && actions[1..] == rest;
  }

  lemma ChainLater(one: Stretch, actions: seq<Action>, es: seq<Event>, mid: seq<Event>, later: seq<Event>)
    requires Quiet(es, mid) && Chain(one, actions, mid, later)
    ensures Chain(one, actions, es, later)
  {
    if actions == [] {
      QuietTrans(es, mid, later);
    } else {
      var from, next :| Quiet(mid, from) && one(actions[0], from, next) && Chain(one, actions[1..], next, later);
      QuietTrans(es, mid, from);
    }
  }

  lemma {:induction false} ChainThen(one: Stretch, a: seq<Action>, b: seq<Action>, es: seq<Event>, mid: seq<Event>,
                                     later: seq<Event>)
    requires Chain(one, a, es, mid) && Chain(one, b, mid, later)
    ensures Chain(one, a + b, es, later)
    decreases |a|
  {
    if a == [] {
      assert a + b == b;
      ChainLater(one, b, es, mid, later);
    } else {
      var first, rest := a[0], a[1..];
      var from, next :| Quiet(es, from) && one(first, from, next) && Chain(one, rest, next, mid);
      ChainThen(one, rest, b, next, mid, later);
      ChainCons(one, first, rest + b, es, from, next, later);
      assert [first] + (rest + b) == a + b;
    }
  }

  ghost predicate Performs(actions: seq<Action>, es: seq<Event>, later: seq<Event>) {
    Chain(PerformsOne, actions, es, later)
  }

  lemma PerformsFirst(actions: seq<Action>, es: seq<Event>, mid: seq<Event>, later: seq<Event>)
    requires actions != [] && PerformsOne(actions[0], es, mid) && Performs(actions[1..], mid, later)
    ensures Performs(actions, es, later)
  {
    assert Quiet(es, es);
    ChainCons(PerformsOne, actions[0], actions[1..], es, es, mid, later);
    assert [actions[0]] + actions[1..] == actions;
  }

  /** `done` and `rest` are the code of a destructor, and `done` has run. */
  ghost predicate PartDone(actions: seq<Action>, done: seq<Action>, rest: seq<Action>,
                           es: seq<Event>, later: seq<Event>) {
    actions == done + rest && Performs(done, es, later)
  }

  lemma PartNext(actions: seq<Action>, done: seq<Action>, rest: seq<Action>, more: seq<Action>, left: seq<Action>,
                 es: seq<Event>, mid: seq<Event>, later: seq<Event>)
    requires PartDone(actions, done, rest, es, mid) && PartDone(rest, more, left, mid, later)
    ensures PartDone(actions, done + more, left, es, later)
  {
    ChainThen(PerformsOne, done, more, es, mid, later);
    assert done + (more + left) == (done + more) + left;
  }

  lemma AllDone(actions: seq<Action>, done: seq<Action>, rest: seq<Action>,
                es: seq<Event>, mid: seq<Event>, later: seq<Event>)
    requires PartDone(actions, done, rest, es, mid) && Performs(rest, mid, later)
    ensures Performs(actions, es, later)
  {
    ChainThen(PerformsOne, done, rest, es, mid, later);
  }

  class Manager {
    var tasks: map<Id, Task>
    var passive: map<Id, set<Id>>
    var coop: map<Id, Task>
    var cursor: Cursor
    var coopCursor: Cursor
    var used: set<Id>
    var stack: seq<Frame>
    ghost const waits: bool
    ghost var deleted: multiset<Id>
    ghost var leaves: map<Id, set<Id>>
    ghost var events: seq<Event>

    ghost function Abs(): State
      reads this
    {
      State(tasks.Keys, passive, coop.Keys, cursor, coopCursor, stack, used, deleted, leaves)
    }

    /** The log is a run of the step relation that ends in the current state. */
    ghost predicate Valid()
      reads this
    {
      Replay(events) == Reached(Abs())
    }

    /** Task code is running. */
    ghost predicate Running()
      reads this
    {
      Valid() && Abs().TaskCodeRuns()
    }

    /** `id` does not wait for a notification that is pending further down the stack. */
    predicate Independent(id: Id)
      reads this
    {
      !Depends(passive, Owed(stack), id)
    }

    /** Nothing waits for such a notification. */
    predicate NothingPending()
      reads this
    {
      NobodyWaits(passive, Owed(stack))
    }

    /** All registered tasks follow the rules. */
    ghost predicate Tame()
      reads this`tasks, this`coop
    {
      AllTame(tasks, waits) && AllTameCooperative(coop, waits)
    }

    /** Where code may wait at all, nothing waits for the notifications `owed`. */
    ghost predicate Safe(owed: set<Id>)
      reads this`tasks, this`coop, this`passive
    {
      Tame() && (waits ==> NobodyWaits(passive, owed))
    }

    /** Task code runs on top of `base` while something waits for a notification it holds up:
        the state in which a wait can be in vain. */
    ghost predicate Hangs(base: seq<Frame>)
      reads this
    {
      Running() && base <= stack && !NothingPending()
    }

    /** The polls and actions that registered tasks still have to perform. */
    ghost function Work(): nat
      reads this
    {
      Total(tasks) + Total(coop)
    }

    /** `waits` says which rules for task code the manager's contracts speak of. */
    constructor (ghost waits: bool)
      ensures this.waits == waits && Tame()
      ensures Running() && Abs() == INITIAL && tasks == map[] && coop == map[] && events == []
    {
      this.waits := waits;
      tasks, passive, coop := map[], map[], map[];
      cursor, coopCursor := End, End;
      used, stack, deleted, leaves, events := {}, [], multiset{}, map[], [];
    }

    /** Appends to the log the event that led from `before` to the current state. */
    ghost method Record(e: Event, before: State)
      requires Replay(events) == Reached(before) && Enabled(before, e) && Apply(before, e) == Abs()
      modifies this`events
      ensures Valid() && events == old(events) + [e]
      ensures forall base :: base <= before.stack && (before.stack == base ==> e.ByTaskCode()) ==>
                Untouched(base, old(events), events)
    {
      var es := events + [e];
      assert es[..|es| - 1] == events;
      events := es;
    }

    // ---------------------------------------------------------------- registration

    lemma InvariantHolds()
      requires Valid()
      ensures Inv(Abs())
    {
      RunKeepsInvariant(events);
    }

    lemma FreshIsNowhere(id: Id)
      requires Valid() && id !in used
      ensures id !in tasks && id !in coop
    {
      InvariantHolds();
      OnePlace(Abs(), id);
    }

    method AddTask(id: Id, task: Task)
      requires Running() && id != 0 && id !in used
      modifies this`tasks, this`used, this`events
      ensures Running() && Abs() == Apply(old(Abs()), Event.AddTask(id)) && events == old(events) + [Event.AddTask(id)]
      ensures Untouched(stack, old(events), events)
      ensures tasks == old(tasks)[id := task] && Work() == old(Work()) + TaskSize(task)
    {
      ghost var before := Abs();
      ghost var after := Apply(before, Event.AddTask(id));
      FreshIsNowhere(id);
      TotalWith(tasks, id, task);
      tasks, used := tasks[id := task], used + {id};
      assert tasks.Keys == before.tasks + {id};
      assert Abs() == after;
      Record(Event.AddTask(id), before);
    }

    method AddCooperativeTask(id: Id, task: Task)
      requires Running() && id != 0 && id !in used
      modifies this`coop, this`used, this`events
      ensures Running() && Abs() == Apply(old(Abs()), AddCoop(id)) && events == old(events) + [AddCoop(id)]
      ensures Untouched(stack, old(events), events)
      ensures coop == old(coop)[id := task] && Work() == old(Work()) + TaskSize(task)
    {
      ghost var before := Abs();
      ghost var after := Apply(before, AddCoop(id));
      FreshIsNowhere(id);
      TotalWith(coop, id, task);
      coop, used := coop[id := task], used + {id};
      assert coop.Keys == before.coop + {id};
      assert Abs() == after;
      Record(AddCoop(id), before);
    }

    lemma CursorsHold()
      requires Valid()
      ensures cursor.At? ==> cursor.id in tasks
      ensures coopCursor.At? ==> coopCursor.id in coop
      ensures stack != [] ==>
                var top := stack[|stack| - 1];
                top.ActiveLoop? || top.ActiveTask? || top.ActiveDelete? ==> coopCursor == End
    {
      InvariantHolds();
    }

    lemma FinishedHasNoOpenLeaf(id: Id)
      requires Valid() && !Abs().Unfinished(id)
      ensures LeavesOf(leaves, id) * tasks.Keys == {}
    {
      InvariantHolds();
      OnePlace(Abs(), 0);
    }

    /** The constructor of a logical-and task over two unfinished tasks, and its registration. */
    method AddPassiveTask(a: Id, b: Id, id: Id)
      requires Running() && id != 0 && (forall u :: u in used ==> u < id)
      requires a != b && Abs().Unfinished(a) && Abs().Unfinished(b)
      modifies this`passive, this`used, this`leaves, this`events
      ensures Running() && events == old(events) + [Event.Combine(a, b, id)] && Untouched(stack, old(events), events)
      ensures passive == old(passive)[id := {a, b}] && used == old(used) + {id}
      ensures leaves == old(leaves)[id := LeavesOf(old(leaves), a) + LeavesOf(old(leaves), b)]
    {
      ghost var before := Abs();
      leaves := leaves[id := LeavesOf(leaves, a) + LeavesOf(leaves, b)];
      passive := passive[id := {a, b}];
      used := used + {id};
      assert Abs() == CombineStep(before, a, b, id);
      Record(Event.Combine(a, b, id), before);
    }

    /** `EventTask::operator+=`: the handle that stands for both `a` and `b`.  `id` is the id
        a new logical-and task would get; ids grow with every task constructed. */
    method Combine(a: Id, b: Id, id: Id) returns (handle: Id)
      requires Running() && id != 0 && forall u :: u in used ==> u < id
      modifies this`passive, this`used, this`leaves, this`events
      ensures Running() && Untouched(stack, old(events), events)
      ensures LeavesOf(leaves, handle) * tasks.Keys
              == (LeavesOf(old(leaves), a) + LeavesOf(old(leaves), b)) * tasks.Keys
      ensures old(Abs()).Unfinished(a) || old(Abs()).Unfinished(b) ==> Abs().Unfinished(handle)
      ensures WaitsKept(old(Abs()), passive)
      ensures handle == if a == b then a
                        else if !old(Abs()).Unfinished(a) then b
                        else if !old(Abs()).Unfinished(b) then a
                        else id
      ensures events == if a != b && old(Abs()).Unfinished(a) && old(Abs()).Unfinished(b)
                        then old(events) + [Event.Combine(a, b, id)] else old(events)
    {
      if a == b { return a; }
      if a == 0 || (a !in tasks && a !in passive) {
        FinishedHasNoOpenLeaf(a);
        return b;
      }
      if b == 0 || (b !in tasks && b !in passive) {
        FinishedHasNoOpenLeaf(b);
        return a;
      }
      AddPassiveTask(a, b, id);
      handle := id;
    }

    /** Registers a task.  An id that would be reused does not occur and is skipped. */
    method Create(action: Action, ghost owed: set<Id>)
      requires Running() && (action.Create? || action.CreateCooperative?)
      modifies this`tasks, this`coop, this`used, this`events
      ensures Running() && Untouched(stack, old(events), events) && Work() < old(Work()) + ActionSize(action)
      ensures old(Safe(owed)) && TameAction(action, waits) ==> Safe(owed)
      ensures PerformsOne(action, old(events), events)
      ensures tasks == if action.Create? && action.id != 0 && action.id !in old(used)
                       then old(tasks)[action.id := action.task] else old(tasks)
      ensures coop == if action.CreateCooperative? && action.id != 0 && action.id !in old(used)
                      then old(coop)[action.id := action.task] else old(coop)
    {
      TameAdded(if action.Create? then tasks else coop, action.id, action.task, waits);
      if action.id != 0 && action.id !in used {
        if action.Create? {
          AddTask(action.id, action.task);
        } else {
          AddCooperativeTask(action.id, action.task);
        }
      }
    }

    method CombineHandles(a: Id, b: Id, id: Id, ghost owed: set<Id>)
      requires Running() && owed <= Owed(stack)
      modifies this`passive, this`used, this`leaves, this`events
      ensures Running() && Untouched(stack, old(events), events) && WaitsKept(old(Abs()), passive)
      ensures old(Safe(owed)) ==> Safe(owed)
      ensures PerformsOne(Action.CombineHandles(a, b, id), old(events), events)
    {
      InvariantHolds();
      if id != 0 && forall u :: u in used ==> u < id { var handle := Combine(a, b, id); }
      if old(NobodyWaits(passive, owed)) { StillNobodyWaits(old(Abs()), passive, owed); }
    }

    /** What task code registers or combines. */
    method Register(action: Action, ghost owed: set<Id>)
      requires Running() && Registers(action) && owed <= Owed(stack)
      modifies this`tasks, this`coop, this`passive, this`used, this`leaves, this`events
      ensures Running() && Untouched(stack, old(events), events) && Work() < old(Work()) + ActionSize(action)
      ensures WaitsKept(old(Abs()), passive)
      ensures old(Safe(owed)) && TameAction(action, waits) ==> Safe(owed)
      ensures PerformsOne(action, old(events), events)
      ensures tasks == if action.Create? && action.id != 0 && action.id !in old(used)
                       then old(tasks)[action.id := action.task] else old(tasks)
      ensures coop == if action.CreateCooperative? && action.id != 0 && action.id !in old(used)
                      then old(coop)[action.id := action.task] else old(coop)
    {
      if action.CombineHandles? {
        CombineHandles(action.a, action.b, action.id, owed);
      } else {
        Create(action, owed);
      }
    }

    // ---------------------------------------------------------------- notification

    /** What waits for `x`. */
    function Observers(x: Id): (r: set<Id>)
      reads this`passive
      ensures forall p :: p in r <==> p in passive && x in passive[p]
    {
      set p | p in passive && x in passive[p]
    }

    /** `TaskLogicalAnd::event` of the observer `p`: it drops `x`, and finishes with no operand left. */
    method NotifyOne(wait: Id, id: Id, owing: set<Id>, x: Id, p: Id, base: seq<Frame>) returns (finished: bool)
      requires Valid() && stack == base + [ActiveDelete(wait, id, owing)]
      requires x in owing && p in passive && x in passive[p]
      modifies this`passive, this`stack, this`deleted, this`events
      ensures Valid() && events == old(events) + [Notify(x, p)] && (finished <==> old(passive)[p] == {x})
      ensures Untouched(base, old(events), events)
      ensures finished ==> passive == old(passive) - {p} && stack == base + [ActiveDelete(wait, id, owing + {p})]
      ensures !finished ==> passive == old(passive)[p := old(passive)[p] - {x}] && stack == old(stack)
      ensures Quiet(old(events), events)
    {
      ghost var before := Abs();
      finished := passive[p] == {x};
      if finished {
        passive := passive - {p};
        deleted := deleted + multiset{p};
        stack := base + [ActiveDelete(wait, id, owing + {p})];
      } else {
        passive := passive[p := passive[p] - {x}];
      }
      Record(Notify(x, p), before);
      QuietOne(old(events), Notify(x, p));
    }

    method EndNotification(wait: Id, id: Id, owing: set<Id>, x: Id, base: seq<Frame>)
      requires Valid() && stack == base + [ActiveDelete(wait, id, owing)] && x in owing && Observers(x) == {}
      modifies this`stack, this`events
      ensures Valid() && events == old(events) + [EndNotify(x)] && stack == base + [ActiveDelete(wait, id, owing - {x})]
      ensures Untouched(base, old(events), events)
      ensures Quiet(old(events), events)
    {
      ghost var before := Abs();
      assert forall p :: p in passive && x in passive[p] ==> p in Observers(x);
      stack := base + [ActiveDelete(wait, id, owing - {x})];
      Record(EndNotify(x), before);
      QuietOne(old(events), EndNotify(x));
    }

    lemma OwingIsGone(wait: Id, id: Id, owing: set<Id>, base: seq<Frame>)
      requires Valid() && stack == base + [ActiveDelete(wait, id, owing)]
      ensures forall x :: x in owing ==> x !in tasks && x !in passive
    {
      InvariantHolds();
      assert stack[|stack| - 1] in stack;
      assert FrameOk(Abs(), stack[|stack| - 1]);
    }

    /** `EventNotify::notify` from the destructor of the logical-and task `x`.  Its observers are
        logical-and tasks too; those that finish notify theirs in turn.  The order of the
        observers is left open. */
    method NotifyObservers(wait: Id, id: Id, owing: set<Id>, x: Id, base: seq<Frame>)
      requires Valid() && stack == base + [ActiveDelete(wait, id, owing)] && x in owing
      modifies this`passive, this`stack, this`deleted, this`events
      ensures Valid() && stack == base + [ActiveDelete(wait, id, owing - {x})] && Untouched(base, old(events), events)
      ensures Observers(x) == {} && Shrunk(old(passive), passive)
      ensures Quiet(old(events), events)
      decreases passive.Keys
    {
      ghost var before, es := passive, events;
      while Observers(x) != {}
        invariant Valid() && stack == base + [ActiveDelete(wait, id, owing)] && Untouched(base, es, events)
        invariant Shrunk(before, passive) && Quiet(es, events)
        decreases Observers(x)
      {
        ghost var mid := events;
        var p :| p in Observers(x);
        NotifyAnd(wait, id, owing, x, p, base);
        UntouchedTrans(base, es, mid, events);
        QuietTrans(es, mid, events);
      }
      ghost var mid := events;
      EndNotification(wait, id, owing, x, base);
      UntouchedTrans(base, es, mid, events);
      QuietTrans(es, mid, events);
    }

    /** Notifies one observer, and whatever that finishes. */
    method NotifyAnd(wait: Id, id: Id, owing: set<Id>, x: Id, p: Id, base: seq<Frame>)
      requires Valid() && stack == base + [ActiveDelete(wait, id, owing)]
      requires x in owing && p in passive && x in passive[p]
      modifies this`passive, this`stack, this`deleted, this`events
      ensures Valid() && stack == base + [ActiveDelete(wait, id, owing)] && Untouched(base, old(events), events)
      ensures Observers(x) < old(Observers(x)) && Shrunk(old(passive), passive)
      ensures Quiet(old(events), events)
      decreases passive.Keys, 0
    {
      OwingIsGone(wait, id, owing, base);
      ghost var before := passive;
      var finished := NotifyOne(wait, id, owing, x, p, base);
      assert Shrunk(before, passive);
      if finished {
        ghost var mid := events;
        NotifyObservers(wait, id, owing + {p}, p, base);
        UntouchedTrans(base, old(events), mid, events);
        QuietTrans(old(events), mid, events);
        assert owing + {p} - {p} == owing;
      }
      assert p in old(Observers(x)) && p !in Observers(x);
    }

    // ---------------------------------------------------------------- the cooperative loop

    method BeginExecute(wait: Id)
      requires Running()
      modifies this`coopCursor, this`stack, this`events
      ensures Valid() && stack == old(stack) + [CoopLoop(wait)] && events == old(events) + [Call(wait)]
      ensures Untouched(old(stack), old(events), events)
      ensures coopCursor == if old(coopCursor).End? then First(coop.Keys) else old(coopCursor)
    {
      ghost var before := Abs();
      if coopCursor == End { coopCursor := First(coop.Keys); }
      stack := stack + [CoopLoop(wait)];
      Record(Call(wait), before);
    }

    /** The cooperative tasks that the cursor has not passed yet. */
    ghost function Ahead(): set<Id>
      reads this
    {
      if coopCursor.End? then {} else set x | x in coop && coopCursor.id <= x
    }

    /** A cooperative task's next poll.  One that has run out of polls does nothing, and may do
        so forever. */
    method UseCooperativePoll(id: Id) returns (poll: Poll)
      requires id in coop
      modifies this`coop
      ensures poll == NextCooperativePoll(old(coop)[id]) && coop == old(coop)[id := AfterPoll(old(coop)[id])]
      ensures coop.Keys == old(coop).Keys
      ensures || Work() + ActionsSize(poll.actions) < old(Work())
              || (poll.actions == [] && coop == old(coop))
      ensures old(Tame()) ==> Tame() && TameActions(poll.actions, waits)
    {
      var task := coop[id];
      if task.polls == [] {
        poll := Poll([], task.completes);
      } else {
        TameParts(task, [], waits);
        poll := task.polls[0];
        TotalWith(coop, id, task.(polls := task.polls[1..]));
        coop := coop[id := task.(polls := task.polls[1..])];
      }
    }

    /** Advances the cursor past a cooperative task and starts to poll it. */
    method FetchCooperative(wait: Id, base: seq<Frame>) returns (id: Id, poll: Poll)
      requires Valid() && stack == base + [CoopLoop(wait)] && coopCursor.At?
      modifies this`coop, this`coopCursor, this`stack, this`events
      ensures Running() && stack == base + [CoopTask(wait, id)] && events == old(events) + [FetchCoop]
      ensures Untouched(base, old(events), events)
      ensures id == old(coopCursor).id && id in old(coop) && coopCursor == Next(old(coop).Keys, id)
      ensures poll == NextCooperativePoll(old(coop)[id]) && coop == old(coop)[id := AfterPoll(old(coop)[id])]
      ensures || Work() + ActionsSize(poll.actions) < old(Work())
              || (poll.actions == [] && coop == old(coop) && Ahead() < old(Ahead()))
      ensures old(Tame()) ==> Tame() && TameActions(poll.actions, waits)
    {
      ghost var before := Abs();
      CursorsHold();
      id := coopCursor.id;
      assert id in Ahead();
      poll := UseCooperativePoll(id);
      coopCursor := Next(coop.Keys, id);
      stack := base + [CoopTask(wait, id)];
      Record(FetchCoop, before);
    }

    /** The end of a poll: a task that reported completion and is still there is erased. */
    method ReturnCooperative(wait: Id, id: Id, done: bool, base: seq<Frame>)
      returns (erased: bool, onDelete: seq<Action>)
      requires Valid() && stack == base + [CoopTask(wait, id)]
      modifies this`coop, this`stack, this`deleted, this`events
      ensures Valid() && events == old(events) + [ReturnCoop(done)]
      ensures Untouched(base, old(events), events)
      ensures erased <==> done && id in old(coop)
      ensures erased ==> coop == old(coop) - {id} && onDelete == old(coop)[id].onDelete
      ensures erased ==> Running() && stack == base + [CoopDelete(wait, id)]
                         && Work() + ActionsSize(onDelete) < old(Work())
      ensures !erased ==> stack == base + [CoopLoop(wait)] && coop == old(coop)
      ensures old(Tame()) ==> Tame() && TameActions(onDelete, waits)
    {
      ghost var before := Abs();
      erased, onDelete := done && id in coop, [];
      if erased {
        onDelete := coop[id].onDelete;
        TotalWithout(coop, id);
        coop := coop - {id};
        deleted := deleted + multiset{id};
        stack := base + [CoopDelete(wait, id)];
      } else {
        stack := base + [CoopLoop(wait)];
      }
      Record(ReturnCoop(done), before);
    }

    method EndCooperativeDelete(wait: Id, id: Id, base: seq<Frame>)
      requires Valid() && stack == base + [CoopDelete(wait, id)]
      modifies this`stack, this`events
      ensures Valid() && stack == base + [CoopLoop(wait)] && events == old(events) + [EndDelete]
      ensures Untouched(base, old(events), events)
    {
      ghost var before := Abs();
      stack := base + [CoopLoop(wait)];
      Record(EndDelete, before);
    }

    // ---------------------------------------------------------------- the active loop

    method EnterActiveLoop(wait: Id, base: seq<Frame>)
      requires Valid() && stack == base + [CoopLoop(wait)] && coopCursor.End?
      modifies this`cursor, this`stack, this`events
      ensures Valid() && stack == base + [ActiveLoop(wait)] && events == old(events) + [EnterActive]
      ensures Untouched(base, old(events), events)
      ensures cursor == if old(cursor).End? then First(tasks.Keys) else old(cursor)
    {
      ghost var before := Abs();
      if cursor == End { cursor := First(tasks.Keys); }
      stack := base + [ActiveLoop(wait)];
      Record(EnterActive, before);
    }

    /** An active task's next poll; one that has run out of polls reports completion. */
    method UsePoll(id: Id) returns (poll: Poll)
      requires id in tasks
      modifies this`tasks
      ensures poll == NextPoll(old(tasks)[id]) && tasks == old(tasks)[id := AfterPoll(old(tasks)[id])]
      ensures tasks.Keys == old(tasks).Keys
      ensures (poll == Poll([], true) && tasks == old(tasks)) || Work() + ActionsSize(poll.actions) < old(Work())
      ensures old(Tame()) ==> Tame() && TameActions(poll.actions, waits)
    {
      var task := tasks[id];
      if task.polls == [] {
        poll := Poll([], true);
      } else {
        TameParts(task, [], waits);
        poll := task.polls[0];
        TotalWith(tasks, id, task.(polls := task.polls[1..]));
        tasks := tasks[id := task.(polls := task.polls[1..])];
      }
    }

    method FetchActiveTask(wait: Id, base: seq<Frame>) returns (id: Id, poll: Poll)
      requires Valid() && stack == base + [ActiveLoop(wait)] && cursor.At?
      modifies this`tasks, this`cursor, this`stack, this`events
      ensures Running() && stack == base + [ActiveTask(wait, id)] && events == old(events) + [FetchActive]
      ensures Untouched(base, old(events), events)
      ensures id == old(cursor).id && id in old(tasks) && cursor == Next(old(tasks).Keys, id)
      ensures poll == NextPoll(old(tasks)[id]) && tasks == old(tasks)[id := AfterPoll(old(tasks)[id])]
      ensures (poll == Poll([], true) && tasks == old(tasks)) || Work() + ActionsSize(poll.actions) < old(Work())
      ensures old(Tame()) ==> Tame() && TameActions(poll.actions, waits)
    {
      ghost var before := Abs();
      CursorsHold();
      id := cursor.id;
      poll := UsePoll(id);
      cursor := Next(tasks.Keys, id);
      stack := base + [ActiveTask(wait, id)];
      Record(FetchActive, before);
    }

    /** Erases a task that reported completion; its destructor starts. */
    method EraseActive(wait: Id, id: Id, base: seq<Frame>) returns (onDelete: seq<Action>)
      requires Valid() && stack == base + [ActiveTask(wait, id)] && id in tasks
      modifies this`tasks, this`stack, this`deleted, this`events
      ensures Valid() && stack == base + [ActiveDelete(wait, id, {id})]
      ensures events == old(events) + [ReturnActive(true)]
      ensures Untouched(base, old(events), events)
      ensures Work() + ActionsSize(onDelete) < old(Work())
      ensures tasks == old(tasks) - {id} && onDelete == old(tasks)[id].onDelete
    {
      ghost var before := Abs();
      onDelete := tasks[id].onDelete;
      TotalWithout(tasks, id);
      tasks := tasks - {id};
      deleted := deleted + multiset{id};
      stack := base + [ActiveDelete(wait, id, {id})];
      Record(ReturnActive(true), before);
    }

    /** A poll that did not report completion. */
    method ReturnUnfinished(wait: Id, id: Id, base: seq<Frame>)
      requires Valid() && stack == base + [ActiveTask(wait, id)]
      modifies this`stack, this`events
      ensures Valid() && stack == base + [ActiveLoop(wait)] && events == old(events) + [ReturnActive(false)]
      ensures Untouched(base, old(events), events)
    {
      ghost var before := Abs();
      stack := base + [ActiveLoop(wait)];
      Record(ReturnActive(false), before);
    }

    lemma CoopCursorAtEnd(e: Event, base: seq<Frame>, wait: Id, id: Id)
      requires Valid() && Finishes(e, stack, base, wait, id)
      ensures coopCursor == End
    {
      var top := stack[|stack| - 1];
      assert top.ActiveTask? || top.ActiveDelete?;
      CursorsHold();
    }

    /** The activation that waited for the finished task leaves the manager. */
    method JumpOut(id: Id, ghost e: Event, base: seq<Frame>)
      requires Valid() && Finishes(e, stack, base, id, id) && id !in tasks
      modifies this`cursor, this`stack, this`events
      ensures Valid() && events == old(events) + [e] && Untouched(base, old(events), events)
      ensures stack == base && cursor == End && coopCursor == End
    {
      ghost var before := Abs();
      CoopCursorAtEnd(e, base, id, id);
      FinishStep(before, id, id, e, base);
      cursor := End;
      stack := base;
      Record(e, before);
    }

    /** Any other one goes on with its loop. */
    method GoOn(wait: Id, id: Id, ghost e: Event, base: seq<Frame>)
      requires Valid() && wait != id && id !in tasks && Finishes(e, stack, base, wait, id)
      modifies this`stack, this`events
      ensures Valid() && events == old(events) + [e] && Untouched(base, old(events), events)
      ensures stack == base + [ActiveLoop(wait)]
    {
      ghost var before := Abs();
      FinishStep(before, wait, id, e, base);
      stack := base + [ActiveLoop(wait)];
      Record(e, before);
    }

    /** After a task completed, this activation jumps out if it is the awaited one. */
    method FinishActive(wait: Id, id: Id, ghost e: Event, base: seq<Frame>) returns (jump: bool)
      requires Valid() && (base == [] || base[|base| - 1].RunsTaskCode()) && id !in tasks
      requires Finishes(e, stack, base, wait, id)
      modifies this`cursor, this`stack, this`events
      ensures Valid() && events == old(events) + [e] && Untouched(base, old(events), events)
      ensures jump <==> wait == id
      ensures jump ==> EndsWithJump(base, wait, events)
      ensures jump ==> stack == base && cursor == End && coopCursor == End && Running()
      ensures !jump ==> stack == base + [ActiveLoop(wait)]
    {
      jump := wait == id;
      ghost var es := events;
      if jump {
        JumpOut(id, e, base);
      } else {
        GoOn(wait, id, e, base);
      }
      assert events[..|events| - 1] == es;
    }

    method ExitActiveLoop(wait: Id, base: seq<Frame>)
      requires Valid() && (base == [] || base[|base| - 1].RunsTaskCode())
      requires stack == base + [ActiveLoop(wait)] && cursor == End
      modifies this`stack, this`events
      ensures Running() && stack == base && events == old(events) + [Exit]
      ensures Untouched(base, old(events), events)
      ensures coopCursor == End
    {
      ghost var before := Abs();
      CursorsHold();
      stack := base;
      Record(Exit, before);
    }

    // ---------------------------------------------------------------- waiting

    /** With no notification pending, as outside of all tasks, there is nothing to look out for. */
    lemma QuietIsIndependent(id: Id)
      requires NothingPending() || Owed(stack) == {}
      ensures NothingPending() && Independent(id) && (Tame() ==> Safe(Owed(stack)))
    {
      NobodyDepends(passive, Owed(stack), id);
    }

    lemma PassiveNeedsActive(id: Id)
      requires Valid() && id in passive && Independent(id)
      ensures tasks != map[]
    {
      InvariantHolds();
      NoOrphanedPassiveTask(Abs(), id);
    }

    /** A handle goes on to be independent while the same code waits. */
    lemma KeepsIndependent(es: seq<Event>, s: State, id: Id)
      requires Valid() && es <= events && Replay(es) == Reached(s) && stack == s.stack
      requires id in s.passive && !Depends(s.passive, Owed(s.stack), id)
      ensures Independent(id)
    {
      RunKeepsInvariant(es);
      OnePlace(s, id);
      StaysIndependent(es, events, Owed(stack), id);
    }

    lemma KeepsNothingPending(es: seq<Event>, s: State)
      requires Valid() && es <= events && Replay(es) == Reached(s) && stack == s.stack
      requires NobodyWaits(s.passive, Owed(s.stack))
      ensures NothingPending()
    {
      RunKeepsInvariant(es);
      forall x | x in Owed(s.stack) ensures x in s.used && !s.Unfinished(x) { OwedIsFinished(s, x); }
      NobodyWaitsLater(es, events, Owed(s.stack));
    }

    /** What was only in one map before is in no other now. */
    lemma FinishedForever(es: seq<Event>, s: State, id: Id)
      requires Valid() && es <= events && Replay(es) == Reached(s)
      ensures id in s.passive ==> id !in tasks
      ensures id in s.tasks ==> id !in passive
    {
      FinishedForGood(es, events, id);
      RunKeepsInvariant(es);
      OnePlace(s, id);
    }

    /** A task whose destructor runs is not registered any more. */
    lemma StillFinished(id: Id)
      requires Valid() && stack != [] && stack[|stack| - 1].ActiveDelete? && stack[|stack| - 1].id == id
      ensures id !in tasks
    {
      InvariantHolds();
      assert stack[|stack| - 1] in stack;
    }

    // ---------------------------------------------------------------- who is polled

    /** With the cursor past the end, nobody ahead of it has been skipped. */
    lemma NobodySkipped(es: seq<Event>, s: State)
      requires Valid() && es <= events && Replay(es) == Reached(s) && cursor == End
      ensures forall x :: x in s.tasks && IsAhead(s.cursor, x) ==>
                x !in tasks || Polled(es, events, x) || Jumped(es, events)
    {
      forall x | x in s.tasks && IsAhead(s.cursor, x)
        ensures x !in tasks || Polled(es, events, x) || Jumped(es, events)
      {
        ActiveNotSkipped(es, events, x);
      }
    }

    /** Over both loops: from entry `es` to the end `mid` of the cooperative one, and from the entry
        `entered` of the active one on. */
    lemma PolledInLoops(es: seq<Event>, s: State, mid: seq<Event>, before: State,
                        entered: seq<Event>, inside: State, x: Id)
      requires Valid() && cursor == End && es <= mid <= entered <= events
      requires Replay(es) == Reached(s) && Replay(mid) == Reached(before) && Replay(entered) == Reached(inside)
      requires inside.tasks == before.tasks && (before.cursor == s.cursor || before.cursor == End)
      requires inside.cursor == if before.cursor.End? then First(before.tasks) else before.cursor
      requires x in s.tasks && (s.cursor.At? ==> s.cursor.id <= x)
      ensures x !in tasks || Polled(es, events, x) || Jumped(es, events)
    {
      RunKeepsInvariant(es);
      OnePlace(s, x);
      FinishedForGood(es, mid, x);
      FinishedForGood(mid, events, x);
      if x in before.tasks {
        FirstIsAhead(before.tasks, before.cursor, inside.cursor, x);
        ActiveNotSkipped(entered, events, x);
        PolledBefore(es, entered, events, x);
      }
    }

    /** Over a whole activation that entered the manager between `es` and `begun`. */
    lemma AllPolled(es: seq<Event>, s: State, begun: seq<Event>, begin: State)
      requires Valid() && coopCursor == End && es <= begun <= events
      requires Replay(es) == Reached(s) && Replay(begun) == Reached(begin)
      requires begin.coop == s.coop && begin.tasks == s.tasks && begin.cursor == s.cursor
      requires begin.coopCursor == if s.coopCursor.End? then First(s.coop) else s.coopCursor
      requires forall x :: x in begin.tasks && (begin.cursor.At? ==> begin.cursor.id <= x) ==>
                 x !in tasks || Polled(begun, events, x) || Jumped(begun, events)
      ensures forall x :: x in s.tasks && (s.cursor.At? ==> s.cursor.id <= x) ==>
                x !in tasks || Polled(es, events, x) || Jumped(es, events)
      ensures forall x :: x in s.coop && (s.coopCursor.At? ==> s.coopCursor.id <= x) ==>
                x !in coop || PolledCoop(es, events, x)
    {
      forall x | x in s.tasks && (s.cursor.At? ==> s.cursor.id <= x)
        ensures x !in tasks || Polled(es, events, x) || Jumped(es, events)
      {
        PolledBefore(es, begun, events, x);
      }
      forall x | x in s.coop && (s.coopCursor.At? ==> s.coopCursor.id <= x)
        ensures x !in coop || PolledCoop(es, events, x)
      {
        FirstIsAhead(s.coop, s.coopCursor, begin.coopCursor, x);
        CoopNotSkipped(begun, events, x);
        PolledBefore(es, begun, events, x);
      }
    }

    // ---------------------------------------------------------------- execute

    /** `Manager::execute`, with tasks that re-enter it. */
    method Execute(wait: Id) returns (finished: bool, hung: bool)
      requires Running()
      modifies this
      ensures Untouched(old(stack), old(events), events)
      ensures hung ==> Hangs(old(stack)) && stack != old(stack)
      ensures !hung ==> Running() && stack == old(stack) && cursor == End && coopCursor == End
      ensures !hung && finished ==> wait !in tasks
      ensures !hung ==> Work() <= old(Work()) && (old(tasks) != map[] ==> Work() < old(Work()))
      ensures old(Safe(Owed(stack))) ==> !hung && Safe(Owed(old(stack)))
      ensures !hung ==> (finished <==> EndsWithJump(old(stack), wait, events))
      ensures !hung ==> forall x :: x in old(tasks) && (old(cursor).At? ==> old(cursor).id <= x) ==>
                x !in tasks || Polled(old(events), events, x) || Jumped(old(events), events)
      ensures !hung ==> forall x :: x in old(coop) && (old(coopCursor).At? ==> old(coopCursor).id <= x) ==>
                x !in coop || PolledCoop(old(events), events, x)
      ensures |old(events)| < |events| && events[|old(events)|] == Call(wait)
      decreases Work(), 7
    {
      var base := stack;
      BeginExecute(wait);
      ghost var begun, begin := events, Abs();
      finished, hung := RunLoops(wait, base);
      UntouchedTrans(base, old(events), begun, events);
      if !hung { AllPolled(old(events), old(Abs()), begun, begin); }
    }

    /** Both loops of an activation. */
    method RunLoops(wait: Id, base: seq<Frame>) returns (finished: bool, hung: bool)
      requires Valid() && (base == [] || base[|base| - 1].RunsTaskCode())
      requires stack == base + [CoopLoop(wait)]
      modifies this
      ensures Untouched(base, old(events), events)
      ensures hung ==> Hangs(base) && stack != base
      ensures !hung ==> Running() && stack == base && cursor == End && coopCursor == End
      ensures !hung && finished ==> wait !in tasks
      ensures !hung ==> Work() <= old(Work()) && (old(tasks) != map[] ==> Work() < old(Work()))
      ensures old(Safe(Owed(base))) ==> !hung && Safe(Owed(base))
      ensures !hung ==> (finished <==> EndsWithJump(base, wait, events))
      ensures !hung ==> forall x :: x in old(tasks) && (old(cursor).At? ==> old(cursor).id <= x) ==>
                x !in tasks || Polled(old(events), events, x) || Jumped(old(events), events)
      decreases Work(), 6
    {
      hung := CooperativeLoop(wait, base);
      if hung { return false, true; }
      ghost var mid, before := events, Abs();
      EnterActiveLoop(wait, base);
      UntouchedTrans(base, old(events), mid, events);
      ghost var entered, inside := events, Abs();
      finished, hung := RunActiveLoop(wait, base);
      UntouchedTrans(base, old(events), entered, events);
      if !hung {
        forall x | x in old(tasks) && (old(cursor).At? ==> old(cursor).id <= x)
          ensures x !in tasks || Polled(old(events), events, x) || Jumped(old(events), events)
        {
          PolledInLoops(old(events), old(Abs()), mid, before, entered, inside, x);
        }
      }
    }

    /** One round over the cooperative tasks, which ends whether they complete or not. */
    method CooperativeLoop(wait: Id, base: seq<Frame>) returns (hung: bool)
      requires Valid() && stack == base + [CoopLoop(wait)]
      modifies this
      ensures Untouched(base, old(events), events)
      ensures hung ==> Hangs(base) && stack != base
      ensures !hung ==> Valid() && stack == base + [CoopLoop(wait)] && coopCursor == End
      ensures !hung ==> Work() < old(Work()) || (Work() == old(Work()) && tasks == old(tasks))
      ensures old(Safe(Owed(base))) ==> !hung && Safe(Owed(base))
      ensures !hung ==> cursor == old(cursor) || cursor == End
      decreases Work(), 3
    {
      while coopCursor != End
        invariant Valid() && stack == base + [CoopLoop(wait)] && Untouched(base, old(events), events)
        invariant Work() < old(Work()) || (Work() == old(Work()) && tasks == old(tasks))
        invariant old(Safe(Owed(base))) ==> Safe(Owed(base))
        invariant cursor == old(cursor) || cursor == End
        decreases Work(), Ahead()
      {
        ghost var mid := events;
        ghost var ran;
        hung, ran := PollCooperative(wait, base);
        UntouchedTrans(base, old(events), mid, events);
        if hung { return; }
      }
      hung := false;
    }

    method PollCooperative(wait: Id, base: seq<Frame>) returns (hung: bool, ghost ran: seq<Event>)
      requires Valid() && stack == base + [CoopLoop(wait)] && coopCursor.At?
      modifies this
      ensures Untouched(base, old(events), events)
      ensures hung ==> Hangs(base) && stack != base
      ensures !hung ==> Valid() && stack == base + [CoopLoop(wait)]
      ensures !hung ==> Work() < old(Work()) || (Work() == old(Work()) && tasks == old(tasks) && Ahead() < old(Ahead()))
      ensures old(Safe(Owed(base))) ==> !hung && Safe(Owed(base))
      ensures !hung ==> cursor == old(cursor) || cursor == End
      ensures !hung ==> old(coopCursor).id in old(coop)
      ensures !hung ==>
                var poll := NextCooperativePoll(old(coop)[old(coopCursor).id]);
                Performs(poll.actions, old(events) + [FetchCoop], ran) && ran + [ReturnCoop(poll.done)] <= events
      decreases Work(), 2
    {
      var id, poll := FetchCooperative(wait, base);
      if poll.actions != [] {
        ghost var mid := events;
        hung := RunOnTop(poll.actions, base, CoopTask(wait, id));
        UntouchedTrans(base, old(events), mid, events);
        if hung { return true, events; }
      }
      ghost var mid := events;
      ran := events;
      ghost var end;
      hung, end := EndPoll(wait, id, poll.done, base);
      UntouchedTrans(base, old(events), mid, events);
    }

    /** The destructor of a cooperative task. */
    method DestroyCooperative(wait: Id, id: Id, onDelete: seq<Action>, base: seq<Frame>)
      returns (hung: bool, ghost ran: seq<Event>)
      requires Running() && stack == base + [CoopDelete(wait, id)]
      modifies this
      ensures Untouched(base, old(events), events)
      ensures hung ==> Hangs(base) && stack != base
      ensures !hung ==> Valid() && stack == base + [CoopLoop(wait)] && Work() <= old(Work()) + ActionsSize(onDelete)
      ensures !hung ==> cursor == old(cursor) || cursor == End
      ensures old(Safe(Owed(base))) && TameActions(onDelete, waits) ==> !hung && Safe(Owed(base))
      ensures !hung ==> events == ran + [EndDelete] && Performs(onDelete, old(events), ran)
      decreases Work() + ActionsSize(onDelete), 2
    {
      hung := RunOnTop(onDelete, base, CoopDelete(wait, id));
      ran := events;
      if hung { return; }
      EndCooperativeDelete(wait, id, base);
      UntouchedTrans(base, old(events), ran, events);
    }

    /** The end of a poll of a cooperative task, with its destructor if it is done. */
    method EndPoll(wait: Id, id: Id, done: bool, base: seq<Frame>) returns (hung: bool, ghost ran: seq<Event>)
      requires Valid() && stack == base + [CoopTask(wait, id)]
      modifies this
      ensures Untouched(base, old(events), events)
      ensures hung ==> Hangs(base) && stack != base
      ensures !hung ==> Valid() && stack == base + [CoopLoop(wait)]
      ensures !hung ==> || Work() < old(Work())
                        || (tasks == old(tasks) && coop == old(coop) && coopCursor == old(coopCursor))
      ensures old(Safe(Owed(base))) ==> !hung && Safe(Owed(base))
      ensures !hung ==> cursor == old(cursor) || cursor == End
      ensures old(events) + [ReturnCoop(done)] <= events
      ensures !hung && done && id in old(coop) ==>
                events == ran + [EndDelete] && Performs(old(coop)[id].onDelete, old(events) + [ReturnCoop(done)], ran)
      decreases Work(), 1
    {
      var erased, onDelete := ReturnCooperative(wait, id, done, base);
      hung, ran := false, events;
      if erased {
        ghost var mid := events;
        hung, ran := DestroyCooperative(wait, id, onDelete, base);
        UntouchedTrans(base, old(events), mid, events);
      }
    }

    method RunActiveLoop(wait: Id, base: seq<Frame>) returns (finished: bool, hung: bool)
      requires Valid() && (base == [] || base[|base| - 1].RunsTaskCode())
      requires stack == base + [ActiveLoop(wait)]
      modifies this
      ensures Untouched(base, old(events), events)
      ensures hung ==> Hangs(base) && stack != base
      ensures !hung ==> Running() && stack == base && cursor == End && coopCursor == End
      ensures !hung && finished ==> wait !in tasks
      ensures !hung ==> Work() <= old(Work()) && (old(cursor).At? ==> Work() < old(Work()))
      ensures old(Safe(Owed(base))) ==> !hung && Safe(Owed(base))
      ensures !hung ==> (finished <==> EndsWithJump(base, wait, events))
      ensures !hung ==> forall x :: x in old(tasks) && IsAhead(old(cursor), x) ==>
                x !in tasks || Polled(old(events), events, x) || Jumped(old(events), events)
      decreases Work(), 5
    {
      while cursor != End
        invariant Valid() && stack == base + [ActiveLoop(wait)] && Untouched(base, old(events), events)
        invariant Work() <= old(Work()) && (old(cursor).At? ==> cursor == old(cursor) || Work() < old(Work()))
        invariant old(Safe(Owed(base))) ==> Safe(Owed(base))
        decreases Work()
      {
        ghost var mid := events;
        ghost var ran;
        finished, hung, ran := PollActive(wait, base);
        UntouchedTrans(base, old(events), mid, events);
        if hung { return; }
        if finished {
          NobodySkipped(old(events), old(Abs()));
          return;
        }
      }
      ghost var mid := events;
      ExitActiveLoop(wait, base);
      UntouchedTrans(base, old(events), mid, events);
      finished, hung := false, false;
      NobodySkipped(old(events), old(Abs()));
    }

    method PollActive(wait: Id, base: seq<Frame>) returns (jump: bool, hung: bool, ghost ran: seq<Event>)
      requires Valid() && (base == [] || base[|base| - 1].RunsTaskCode())
      requires stack == base + [ActiveLoop(wait)] && cursor.At?
      modifies this
      ensures Untouched(base, old(events), events)
      ensures hung ==> Hangs(base) && stack != base
      ensures !hung ==> Valid() && Work() < old(Work())
      ensures !hung && jump ==> Running() && stack == base && cursor == End && coopCursor == End && wait !in tasks
      ensures !hung && !jump ==> stack == base + [ActiveLoop(wait)]
      ensures old(Safe(Owed(base))) ==> !hung && Safe(Owed(base))
      ensures !hung && jump ==> EndsWithJump(base, wait, events)
      ensures !hung ==> old(cursor).id in old(tasks)
      ensures !hung ==>
                var poll := NextPoll(old(tasks)[old(cursor).id]);
                Performs(poll.actions, old(events) + [FetchActive], ran) && ran + [ReturnActive(poll.done)] <= events
      decreases Work(), 4
    {
      var id, poll := FetchActiveTask(wait, base);
      if poll.actions != [] {
        ghost var mid := events;
        hung := RunOnTop(poll.actions, base, ActiveTask(wait, id));
        UntouchedTrans(base, old(events), mid, events);
        if hung { return false, true, events; }
      }
      ghost var mid := events;
      ran := events;
      ghost var end;
      jump, hung, end := EndActivePoll(wait, id, poll.done, base);
      UntouchedTrans(base, old(events), mid, events);
    }

    /** The end of a poll: a task that reported completion is deleted, unless another
        activation has done so already. */
    method EndActivePoll(wait: Id, id: Id, done: bool, base: seq<Frame>)
      returns (jump: bool, hung: bool, ghost ran: seq<Event>)
      requires Valid() && (base == [] || base[|base| - 1].RunsTaskCode())
      requires stack == base + [ActiveTask(wait, id)]
      modifies this
      ensures Untouched(base, old(events), events)
      ensures hung ==> Hangs(base) && stack != base
      ensures !hung ==> Valid() && Work() <= old(Work())
      ensures !hung && done && id in old(tasks) ==> Work() < old(Work())
      ensures !hung && jump ==> Running() && stack == base && cursor == End && coopCursor == End && wait !in tasks
      ensures !hung && !jump ==> stack == base + [ActiveLoop(wait)]
      ensures old(Safe(Owed(base))) ==> !hung && Safe(Owed(base))
      ensures !hung && jump ==> EndsWithJump(base, wait, events)
      ensures old(events) + [ReturnActive(done)] <= events
      ensures !hung && done && id in old(tasks) ==>
                && events == ran + [EndDelete]
                && Performs(old(tasks)[id].onDelete, old(events) + [ReturnActive(true)], ran)
      decreases Work(), 3
    {
      jump, hung, ran := false, false, events;
      if !done {
        ReturnUnfinished(wait, id, base);
      } else if id in tasks {
        jump, hung, ran := DeleteActive(wait, id, base);
      } else {
        jump := FinishActive(wait, id, ReturnActive(true), base);
      }
    }

    /** Between the notifications of logical-and tasks: the first of the other observers' actions,
        or the notification of some logical-and task. */
    method NotifyNext(wait: Id, id: Id, actions: seq<Action>, base: seq<Frame>)
      returns (rest: seq<Action>, hung: bool, ghost done: seq<Action>)
      requires Valid() && stack == base + [ActiveDelete(wait, id, {id})] && Observers(id) != {}
      modifies this
      ensures Untouched(base, old(events), events)
      ensures hung ==> Hangs(base) && stack != base
      ensures !hung ==> Valid() && stack == base + [ActiveDelete(wait, id, {id})]
      ensures !hung ==> Work() + ActionsSize(rest) <= old(Work()) + ActionsSize(actions)
      ensures !hung ==> |rest| < |actions| || (rest == actions && Observers(id) < old(Observers(id)))
      ensures old(Safe(Owed(base))) && TameDestructor(actions, waits) ==>
                !hung && Safe(Owed(base)) && TameDestructor(rest, waits)
      ensures !hung ==> PartDone(actions, done, rest, old(events), events)
      decreases Work() + ActionsSize(actions), 2
    {
      rest, hung, done := actions, false, [];
      var between: bool := *;
      if between && actions != [] {
        assert ActionsSize(actions) == ActionSize(actions[0]) + ActionsSize(actions[1..]);
        assert ActionsSize([actions[0]]) == ActionSize(actions[0]) + ActionsSize([actions[0]][1..]);
        TameParts(Task([], [], false), actions, waits);
        rest, done := actions[1..], [actions[0]];
        assert actions == done + rest;
        hung := RunOnTop([actions[0]], base, ActiveDelete(wait, id, {id}));
      } else {
        var p :| p in Observers(id);
        NotifyAnd(wait, id, {id}, id, p, base);
        assert actions == done + rest;
      }
    }

    /** The notification of the observers of the erased task `id`.  Some of them are logical-and
        tasks; before, between and after these the others run any task code. */
    method NotifyErased(wait: Id, id: Id, actions: seq<Action>, base: seq<Frame>)
      returns (rest: seq<Action>, hung: bool, ghost done: seq<Action>)
      requires Valid() && stack == base + [ActiveDelete(wait, id, {id})]
      modifies this
      ensures Untouched(base, old(events), events)
      ensures hung ==> Hangs(base) && stack != base
      ensures !hung ==> Running() && stack == base + [ActiveDelete(wait, id, {})]
      ensures !hung ==> Work() + ActionsSize(rest) <= old(Work()) + ActionsSize(actions)
      ensures old(Safe(Owed(base))) && TameDestructor(actions, waits) ==>
                !hung && Safe(Owed(base)) && TameDestructor(rest, waits)
      ensures !hung ==> PartDone(actions, done, rest, old(events), events)
      decreases Work() + ActionsSize(actions), 3
    {
      rest, done := actions, [];
      assert Quiet(events, events);
      while Observers(id) != {}
        invariant Valid() && stack == base + [ActiveDelete(wait, id, {id})] && Untouched(base, old(events), events)
        invariant Work() + ActionsSize(rest) <= old(Work()) + ActionsSize(actions)
        invariant old(Safe(Owed(base))) && TameDestructor(actions, waits) ==>
                    Safe(Owed(base)) && TameDestructor(rest, waits)
        invariant PartDone(actions, done, rest, old(events), events)
        decreases |rest|, Observers(id)
      {
        ghost var mid := events;
        ghost var left, more := rest, [];
        rest, hung, more := NotifyNext(wait, id, rest, base);
        UntouchedTrans(base, old(events), mid, events);
        if hung { return; }
        PartNext(actions, done, left, more, rest, old(events), mid, events);
        done := done + more;
      }
      ghost var mid := events;
      EndNotification(wait, id, {id}, id, base);
      UntouchedTrans(base, old(events), mid, events);
      assert [] + rest == rest;
      PartNext(actions, done, rest, [], rest, old(events), mid, events);
      assert done + [] == done;
      assert {id} - {id} == {};
      hung := false;
    }

    /** Takes a finished task out of the map and notifies its observers. */
    method EraseAndNotify(wait: Id, id: Id, base: seq<Frame>)
      returns (onDelete: seq<Action>, hung: bool, ghost done: seq<Action>)
      requires Valid() && stack == base + [ActiveTask(wait, id)] && id in tasks
      modifies this
      ensures Untouched(base, old(events), events)
      ensures hung ==> Hangs(base) && stack != base
      ensures !hung ==> Running() && stack == base + [ActiveDelete(wait, id, {})]
      ensures !hung ==> Work() + ActionsSize(onDelete) < old(Work())
      ensures old(Safe(Owed(base))) ==>
                !hung && Safe(Owed(base)) && TameDestructor(onDelete, waits)
      ensures old(events) + [ReturnActive(true)] <= events
      ensures !hung ==> PartDone(old(tasks)[id].onDelete, done, onDelete, old(events) + [ReturnActive(true)], events)
      decreases Work(), 0
    {
      if AllTame(tasks, waits) { TameErased(tasks, id, waits); }
      var actions := EraseActive(wait, id, base);
      ghost var mid := events;
      onDelete, hung, done := NotifyErased(wait, id, actions, base);
      UntouchedTrans(base, old(events), mid, events);
    }

    /** Erases a finished task, notifies its observers and runs its destructor. */
    method Destroy(wait: Id, id: Id, base: seq<Frame>) returns (hung: bool)
      requires Valid() && stack == base + [ActiveTask(wait, id)] && id in tasks
      modifies this
      ensures Untouched(base, old(events), events)
      ensures hung ==> Hangs(base) && stack != base
      ensures !hung ==> Running() && stack == base + [ActiveDelete(wait, id, {})] && Work() < old(Work())
      ensures old(Safe(Owed(base))) ==> !hung && Safe(Owed(base))
      ensures old(events) + [ReturnActive(true)] <= events
      ensures !hung ==> Performs(old(tasks)[id].onDelete, old(events) + [ReturnActive(true)], events)
      decreases Work(), 1
    {
      var onDelete;
      ghost var done;
      onDelete, hung, done := EraseAndNotify(wait, id, base);
      if hung { return; }
      ghost var mid := events;
      hung := RunOnTop(onDelete, base, ActiveDelete(wait, id, {}));
      UntouchedTrans(base, old(events), mid, events);
      if hung { return; }
      AllDone(old(tasks)[id].onDelete, done, onDelete, old(events) + [ReturnActive(true)], mid, events);
    }

    /** The end of a task: its destructor, and the jump if it was awaited. */
    method DeleteActive(wait: Id, id: Id, base: seq<Frame>) returns (jump: bool, hung: bool, ghost ran: seq<Event>)
      requires Valid() && (base == [] || base[|base| - 1].RunsTaskCode())
      requires stack == base + [ActiveTask(wait, id)] && id in tasks
      modifies this
      ensures Untouched(base, old(events), events)
      ensures hung ==> Hangs(base) && stack != base
      ensures !hung ==> Valid() && Work() < old(Work())
      ensures !hung && jump ==> Running() && stack == base && cursor == End && coopCursor == End && wait !in tasks
      ensures !hung && !jump ==> stack == base + [ActiveLoop(wait)]
      ensures old(Safe(Owed(base))) ==> !hung && Safe(Owed(base))
      ensures !hung && jump ==> EndsWithJump(base, wait, events)
      ensures old(events) + [ReturnActive(true)] <= events
      ensures !hung ==>
                && events == ran + [EndDelete]
                && Performs(old(tasks)[id].onDelete, old(events) + [ReturnActive(true)], ran)
      decreases Work(), 2
    {
      hung := Destroy(wait, id, base);
      ran := events;
      if hung { return false, true, ran; }
      StillFinished(id);
      jump := FinishActive(wait, id, EndDelete, base);
      UntouchedTrans(base, old(events), ran, events);
    }

    /** Task code on top of an activation, which it leaves alone. */
    method RunOnTop(actions: seq<Action>, ghost base: seq<Frame>, ghost top: Frame) returns (hung: bool)
      requires Running() && stack == base + [top]
      modifies this
      ensures Untouched(base, old(events), events)
      ensures hung ==> Hangs(base) && stack != base
      ensures !hung ==> Running() && stack == old(stack) && Work() <= old(Work()) + ActionsSize(actions)
      ensures old(Safe(Owed(base))) && TameActions(actions, waits)
                              && (top.ActiveDelete? ==> TameDestructor(actions, waits)) ==>
                !hung && Safe(Owed(base))
      ensures !hung ==> cursor == old(cursor) || cursor == End
      ensures !hung ==> Performs(actions, old(events), events)
      decreases Work() + ActionsSize(actions), 1
    {
      OwedTop(base, top);
      hung := RunActions(actions, Owed(base));
      UntouchedBelow(base, old(stack), old(events), events);
    }

    /** Task code: the actions of a poll, of a destructor or of an observer, one after the other.
        Code that follows the rules does not hang, as long as it does not wait above what owes a
        notification that something waits for. */
    method RunActions(actions: seq<Action>, ghost owed: set<Id>) returns (hung: bool)
      requires Running() && owed <= Owed(stack)
      modifies this
      ensures Untouched(old(stack), old(events), events)
      ensures hung ==> Hangs(old(stack))
      ensures !hung ==> Running() && stack == old(stack) && Work() <= old(Work()) + ActionsSize(actions)
      ensures old(Safe(owed)) && TameActions(actions, waits)
                              && (owed == Owed(old(stack)) || TameDestructor(actions, waits)) ==>
                !hung && Safe(owed)
      ensures !hung ==> cursor == old(cursor) || cursor == End
      ensures !hung ==> Performs(actions, old(events), events)
      decreases Work() + ActionsSize(actions), 0
    {
      if actions == [] { return false; }
      var action := actions[0];
      assert ActionsSize(actions) == ActionSize(action) + ActionsSize(actions[1..]);
      TameParts(Task([], [], false), actions, waits);
      hung := RunAction(action, owed);
      if hung { return; }
      ghost var mid := events;
      hung := RunActions(actions[1..], owed);
      UntouchedTrans(old(stack), old(events), mid, events);
      if !hung { PerformsFirst(actions, old(events), mid, events); }
    }

    method RunAction(action: Action, ghost owed: set<Id>) returns (hung: bool)
      requires Running() && owed <= Owed(stack)
      modifies this
      ensures Untouched(old(stack), old(events), events)
      ensures hung ==> Hangs(old(stack))
      ensures !hung ==> Running() && stack == old(stack) && Work() < old(Work()) + ActionSize(action)
      ensures old(Safe(owed)) && TameAction(action, waits)
                              && (owed == Owed(old(stack)) || (waits ==> Registers(action))) ==>
                !hung && Safe(owed)
      ensures !hung ==> cursor == old(cursor) || cursor == End
      ensures !hung ==> PerformsOne(action, old(events), events)
      decreases Work(), 10
    {
      hung := false;
      if Registers(action) {
        Register(action, owed);
      } else {
        match action {
          case Execute(wait) =>
            var finished;
            finished, hung := Execute(wait);
          case WaitFor(id) =>
            if NothingPending() { QuietIsIndependent(id); }
            hung := WaitForFinished(id);
          case WaitForAll => hung := WaitForAllTasks();
        }
      }
    }

    /** The loop of `waitForFinished` for a passive task. */
    method WaitForPassive(id: Id) returns (hung: bool)
      requires Running() && id in passive && Independent(id)
      modifies this
      ensures Untouched(old(stack), old(events), events)
      ensures hung ==> Hangs(old(stack)) && stack != old(stack)
      ensures !hung ==> Running() && stack == old(stack) && id !in passive && Work() <= old(Work())
      ensures old(Safe(Owed(stack))) ==> !hung && Safe(Owed(old(stack)))
      ensures !hung ==> cursor == old(cursor) || cursor == End
      ensures |old(events)| < |events| && events[|old(events)|] == Call(0)
      decreases Work(), 8
    {
      var finished;
      finished, hung := Execute(0);
      while !hung && id in passive
        invariant Untouched(old(stack), old(events), events)
        invariant hung ==> Hangs(old(stack)) && stack != old(stack)
        invariant !hung ==> Running() && stack == old(stack) && Work() <= old(Work())
        invariant old(Safe(Owed(stack))) ==> !hung && Safe(Owed(old(stack)))
        invariant !hung ==> cursor == old(cursor) || cursor == End
        invariant |old(events)| < |events| && events[|old(events)|] == Call(0)
        decreases !hung, Work()
      {
        KeepsIndependent(old(events), old(Abs()), id);
        PassiveNeedsActive(id);
        ghost var mid := events;
        finished, hung := Execute(0);
        UntouchedTrans(old(stack), old(events), mid, events);
      }
    }

    /** The loop of `waitForFinished` for an active task. */
    method WaitForActive(id: Id) returns (hung: bool)
      requires Running() && id in tasks
      modifies this
      ensures Untouched(old(stack), old(events), events)
      ensures hung ==> Hangs(old(stack)) && stack != old(stack)
      ensures !hung ==> Running() && stack == old(stack) && id !in tasks && Work() <= old(Work())
      ensures old(Safe(Owed(stack))) ==> !hung && Safe(Owed(old(stack)))
      ensures !hung ==> cursor == old(cursor) || cursor == End
      ensures |old(events)| < |events| && events[|old(events)|] == Call(id)
      decreases Work(), 8
    {
      var finished;
      finished, hung := Execute(id);
      while !hung && !finished && id in tasks
        invariant Untouched(old(stack), old(events), events)
        invariant hung ==> Hangs(old(stack)) && stack != old(stack)
        invariant !hung ==> Running() && stack == old(stack) && Work() <= old(Work()) && (finished ==> id !in tasks)
        invariant old(Safe(Owed(stack))) ==> !hung && Safe(Owed(old(stack)))
        invariant !hung ==> cursor == old(cursor) || cursor == End
        invariant |old(events)| < |events| && events[|old(events)|] == Call(id)
        decreases !hung, Work()
      {
        ghost var mid := events;
        finished, hung := Execute(id);
        UntouchedTrans(old(stack), old(events), mid, events);
      }
    }

    /** `Manager::waitForFinished` returns only when its task and everything a combined handle
        stands for has finished.  This wait is in vain exactly if the task depends on a
        notification that the waiting code itself holds up.  From a safe state, such as outside of
        all tasks that follow the rules, it returns in all other cases. */
    method WaitForFinished(id: Id) returns (hung: bool)
      requires Running()
      modifies this
      ensures Untouched(old(stack), old(events), events)
      ensures hung ==> Hangs(old(stack))
      ensures hung && stack == old(stack) <==> !old(Independent(id))
      ensures !hung ==> Running() && stack == old(stack) && Work() <= old(Work())
      ensures old(Safe(Owed(stack))) ==>
                (hung <==> !old(Independent(id))) && (!hung ==> Safe(Owed(old(stack))))
      ensures !hung ==> !Abs().Unfinished(id) && LeavesOf(leaves, id) * tasks.Keys == {}
      ensures !hung ==> cursor == old(cursor) || cursor == End
      ensures !hung ==> PerformsOne(WaitFor(id), old(events), events)
      decreases Work(), 9
    {
      // A handle that is not independent is waited for in vain: see WaitInVain.
      hung := !Independent(id);
      if hung {
        if NothingPending() { QuietIsIndependent(id); }
        return;
      }
      if id != 0 && id in passive {
        hung := WaitForPassive(id);
      } else if id != 0 && id in tasks {
        hung := WaitForActive(id);
      }
      if !hung {
        FinishedForever(old(events), old(Abs()), id);
        FinishedHasNoOpenLeaf(id);
      }
    }

    /** `Manager::waitForAllTasks` returns only with no active or passive task left.  If tasks
        follow the rules, it returns exactly if nothing waits for a notification that the waiting
        code itself holds up; outside of all tasks it always does. */
    method WaitForAllTasks() returns (hung: bool)
      requires Running()
      modifies this
      ensures Untouched(old(stack), old(events), events)
      ensures hung ==> Hangs(old(stack))
      ensures hung && stack == old(stack) <==> !old(NothingPending())
      ensures !hung ==> Running() && stack == old(stack) && Work() <= old(Work())
      ensures old(Tame()) ==>
                (hung <==> !old(NothingPending())) && (!hung ==> Safe(Owed(old(stack))))
      ensures !hung ==> tasks == map[] && passive == map[]
      ensures !hung ==> cursor == old(cursor) || cursor == End
      ensures !hung ==> PerformsOne(WaitForAll, old(events), events)
      decreases Work(), 9
    {
      hung := !NothingPending();
      if hung { return; }
      while !hung && (|tasks| != 0 || |passive| != 0)
        invariant Untouched(old(stack), old(events), events)
        invariant hung ==> Hangs(old(stack)) && stack != old(stack)
        invariant !hung ==> Running() && stack == old(stack) && Work() <= old(Work())
        invariant old(Tame()) ==> !hung && Safe(Owed(old(stack)))
        invariant !hung ==> cursor == old(cursor) || cursor == End
        invariant || (!hung && events == old(events) && tasks == old(tasks) && passive == old(passive))
                  || (|old(events)| < |events| && events[|old(events)|] == Call(0))
        decreases !hung, Work()
      {
        if tasks == map[] {
          var p :| p in passive;
          KeepsNothingPending(old(events), old(Abs()));
          QuietIsIndependent(p);
          PassiveNeedsActive(p);
        }
        ghost var mid := events;
        var finished;
        finished, hung := Execute(0);
        UntouchedTrans(old(stack), old(events), mid, events);
      }
    }

    /** The loops of both waits are what code that hangs never leaves: after any number of rounds
        whatever depends on a notification that the code holds up is still there. */
    method WaitInVain(rounds: nat) returns (hung: bool)
      requires Running()
      modifies this
      ensures Untouched(old(stack), old(events), events)
      ensures hung ==> Hangs(old(stack)) && stack != old(stack)
      ensures !hung ==> Running() && stack == old(stack)
      ensures forall q :: !old(Independent(q)) ==> q in passive
      ensures !old(NothingPending()) ==> passive != map[]
    {
      hung := false;
      var k := 0;
      while !hung && k < rounds
        invariant Untouched(old(stack), old(events), events)
        invariant hung ==> Hangs(old(stack)) && stack != old(stack)
        invariant !hung ==> Running() && stack == old(stack)
      {
        ghost var mid := events;
        var finished;
        finished, hung := Execute(0);
        UntouchedTrans(old(stack), old(events), mid, events);
        k := k + 1;
      }
      forall q | !old(Independent(q)) ensures q in passive {
        StaysDependent(old(events), events, old(stack), q);
      }
      if !old(NothingPending()) {
        var q :| q in old(passive) && !(old(passive)[q] !! Owed(old(stack)));
        assert !old(Independent(q));
      }
    }
  }
}
