/** The semaphore-bounded task runner (desktop/workspace_service.go), as a state
    machine over the steps of its goroutines, for every schedule. */
module TaskRunner {

  /** Where the goroutine of one task is. The deferred calls run in reverse order:
      the slot is given back before the wait group is told. */
  datatype Phase =
    | Unspawned
    | Waiting      // in the select
    | Running      // holds a slot, inside the task
    | Returned     // holds a slot, the task has returned
    | Released     // slot given back, task has run
    | Skipped      // the select took the cancelled branch
    | Done(ran: bool)

  datatype State = State(
    limit: nat,              // capacity of the semaphore channel
    phases: seq<Phase>,
    spawned: nat,            // loop counter of the caller
    slots: nat,              // occupied slots of the semaphore
    pending: nat,            // wait group counter
    starts: seq<nat>,        // how often each task was entered
    cancelled: bool,
    finished: bool)          // the call has returned

  datatype Action =
    | Spawn
    | Acquire(i: nat)
    | Skip(i: nat)
    | TaskReturns(i: nat)
    | Release(i: nat)
    | Tell(i: nat)
    | Cancel
    | Return

  function Start(limit: int, tasks: nat, cancelled: bool): State {
    State(if limit < 1 then 1 else limit, seq(tasks, _ => Unspawned), 0, 0, 0, seq(tasks, _ => 0), cancelled, tasks == 0)
  }

  predicate At(s: State, i: nat, p: Phase) {
    i < |s.phases| && s.phases[i] == p
  }

  predicate Enabled(s: State, a: Action) {
    match a
    case Spawn => !s.finished && s.spawned < |s.phases|
    case Acquire(i) => At(s, i, Waiting) && s.slots < s.limit
    case Skip(i) => At(s, i, Waiting) && s.cancelled
    case TaskReturns(i) => At(s, i, Running)
    case Release(i) => At(s, i, Returned)
    case Tell(i) => (At(s, i, Released) || At(s, i, Skipped)) && s.pending > 0
    case Cancel => !s.cancelled
    case Return => !s.finished && s.spawned == |s.phases| && s.pending == 0
  }

  function Next(s: State, a: Action): State
    requires Enabled(s, a) && |s.starts| == |s.phases|
  {
    match a
    case Spawn => s.(phases := s.phases[s.spawned := Waiting], spawned := s.spawned + 1, pending := s.pending + 1)
    case Acquire(i) => s.(phases := s.phases[i := Running], slots := s.slots + 1, starts := s.starts[i := s.starts[i] + 1])
    case Skip(i) => s.(phases := s.phases[i := Skipped])
    case TaskReturns(i) => s.(phases := s.phases[i := Returned])
    case Release(i) => s.(phases := s.phases[i := Released], slots := if s.slots > 0 then s.slots - 1 else 0)
    case Tell(i) => s.(phases := s.phases[i := Done(s.phases[i] == Released)], pending := s.pending - 1)
    case Cancel => s.(cancelled := true)
    case Return => s.(finished := true)
  }

  /** A run: every action is enabled when it happens. */
  ghost predicate Schedule(states: seq<State>, actions: seq<Action>) {
    && |states| == |actions| + 1
    && forall k :: 0 <= k < |actions| ==>
         && |states[k].starts| == |states[k].phases| && Enabled(states[k], actions[k])
         && states[k + 1] == Next(states[k], actions[k])
  }

  // ---------------------------------------------------------------- counting

  function Weight(ps: seq<Phase>, w: Phase -> nat): nat {
    if ps == [] then 0 else Weight(ps[..|ps| - 1], w) + w(ps[|ps| - 1])
  }

  lemma {:induction false} WeightUpdate(ps: seq<Phase>, w: Phase -> nat, i: nat, p: Phase)
    requires i < |ps|
    ensures Weight(ps[i := p], w) + w(ps[i]) == Weight(ps, w) + w(p)
  {
    var front, last := ps[..|ps| - 1], |ps| - 1;
    if i < last {
      WeightUpdate(front, w, i, p);
      assert ps[i := p][..last] == front[i := p];
    } else {
      assert ps[i := p][..last] == front;
    }
  }

  lemma {:induction false} WeightZero(ps: seq<Phase>, w: Phase -> nat)
    ensures Weight(ps, w) == 0 <==> forall i :: 0 <= i < |ps| ==> w(ps[i]) == 0
  {
    if ps != [] {
      WeightZero(ps[..|ps| - 1], w);
    }
  }

  function Holds(): Phase -> nat { (p: Phase) => if p == Running || p == Returned then 1 else 0 }

  function IsRunning(): Phase -> nat { (p: Phase) => if p == Running then 1 else 0 }

  function IsPending(): Phase -> nat { (p: Phase) => if p == Unspawned || p.Done? then 0 else 1 }

  /** Steps that a goroutine has left. */
  function Left(): Phase -> nat {
    (p: Phase) =>
      match p
      case Unspawned => 5
      case Waiting => 4
      case Running => 3
      case Returned => 2
      case Released => 1
      case Skipped => 1
      case Done(_) => 0
  }

  lemma {:induction false} RunningHold(ps: seq<Phase>)
    ensures Weight(ps, IsRunning()) <= Weight(ps, Holds())
  {
    if ps != [] {
      RunningHold(ps[..|ps| - 1]);
    }
  }

  // --------------------------------------------------------------- invariant

  predicate Ran(p: Phase) {
    p == Running || p == Returned || p == Released || p == Done(true)
  }

  /** The two counters count what they stand for. */
  ghost predicate Counts(s: State) {
    && s.slots == Weight(s.phases, Holds()) <= s.limit
    && s.pending == Weight(s.phases, IsPending())
  }

  ghost predicate Shapes(s: State) {
    && s.limit >= 1 && |s.starts| == |s.phases| && s.spawned <= |s.phases|
    && (forall i :: 0 <= i < |s.phases| ==> (s.phases[i] == Unspawned <==> s.spawned <= i))
    && (forall i :: 0 <= i < |s.phases| ==> s.starts[i] == if Ran(s.phases[i]) then 1 else 0)
    && (forall i :: 0 <= i < |s.phases| && (s.phases[i] == Skipped || s.phases[i] == Done(false)) ==> s.cancelled)
    && (s.finished ==> forall i :: 0 <= i < |s.phases| ==> s.phases[i].Done?)
  }

  ghost predicate Inv(s: State) {
    Shapes(s) && Counts(s)
  }

  lemma StartInv(limit: int, tasks: nat, cancelled: bool)
    ensures Inv(Start(limit, tasks, cancelled))
  {
    var s := Start(limit, tasks, cancelled);
    WeightZero(s.phases, Holds());
    WeightZero(s.phases, IsPending());
  }

  lemma NextCounts(s: State, a: Action)
    requires |s.starts| == |s.phases| && Counts(s) && Enabled(s, a)
    requires a.Spawn? ==> s.phases[s.spawned] == Unspawned
    ensures Counts(Next(s, a))
  {
    var t := Next(s, a);
    if a.Spawn? {
      WeightUpdate(s.phases, Holds(), s.spawned, Waiting);
      WeightUpdate(s.phases, IsPending(), s.spawned, Waiting);
    } else if !a.Cancel? && !a.Return? {
      WeightUpdate(s.phases, Holds(), a.i, t.phases[a.i]);
      WeightUpdate(s.phases, IsPending(), a.i, t.phases[a.i]);
    }
  }

  lemma NextShapes(s: State, a: Action)
    requires Inv(s) && Enabled(s, a)
    ensures Shapes(Next(s, a))
  {
    if a.Return? {
      WeightZero(s.phases, IsPending());
    }
  }

  lemma NextInv(s: State, a: Action)
    requires Inv(s) && Enabled(s, a)
    ensures Inv(Next(s, a))
  {
    NextCounts(s, a);
    NextShapes(s, a);
  }

  lemma {:induction false} ScheduleInv(limit: int, tasks: nat, cancelled: bool, states: seq<State>, actions: seq<Action>, k: nat)
    requires Schedule(states, actions) && states[0] == Start(limit, tasks, cancelled) && k < |states|
    ensures Inv(states[k]) && states[k].limit == states[0].limit && |states[k].phases| == tasks
  {
    if k == 0 {
      StartInv(limit, tasks, cancelled);
    } else {
      ScheduleInv(limit, tasks, cancelled, states, actions, k - 1);
      NextInv(states[k - 1], actions[k - 1]);
    }
  }

  // ---------------------------------------------------------------- theorems

  /** In every schedule, at every moment, at most max(1, limit) tasks are running,
      and no task has been started twice. */
  lemma BoundedConcurrency(limit: int, tasks: nat, cancelled: bool, states: seq<State>, actions: seq<Action>, k: nat)
    requires Schedule(states, actions) && states[0] == Start(limit, tasks, cancelled) && k < |states|
    ensures Weight(states[k].phases, IsRunning()) <= if limit < 1 then 1 else limit
    ensures forall i :: 0 <= i < |states[k].starts| ==> states[k].starts[i] <= 1
  {
    ScheduleInv(limit, tasks, cancelled, states, actions, k);
    RunningHold(states[k].phases);
  }

  /** When the call has returned no task is running and every slot is free; if the
      context was not cancelled, every task has run exactly once. */
  lemma ReturnsWhenAllDone(limit: int, tasks: nat, cancelled: bool, states: seq<State>, actions: seq<Action>, k: nat)
    requires Schedule(states, actions) && states[0] == Start(limit, tasks, cancelled) && k < |states|
    requires states[k].finished
    ensures Weight(states[k].phases, IsRunning()) == 0 && states[k].slots == 0
    ensures !states[k].cancelled ==> forall i :: 0 <= i < tasks ==> |states[k].starts| == tasks && states[k].starts[i] == 1
  {
    ScheduleInv(limit, tasks, cancelled, states, actions, k);
    WeightZero(states[k].phases, Holds());
    WeightZero(states[k].phases, IsRunning());
  }

  /** Every action uses up one of finitely many steps. */
  function Measure(s: State): nat {
    Weight(s.phases, Left()) + (if s.cancelled then 0 else 1) + (if s.finished then 0 else 1)
  }

  lemma NextDecreases(s: State, a: Action)
    requires Inv(s) && Enabled(s, a)
    ensures Measure(Next(s, a)) < Measure(s)
  {
    var t := Next(s, a);
    match a
    case Spawn => WeightUpdate(s.phases, Left(), s.spawned, Waiting);
    case Cancel =>
    case Return =>
    case _ => WeightUpdate(s.phases, Left(), a.i, t.phases[a.i]);
  }

  lemma {:induction false} ScheduleIsShort(limit: int, tasks: nat, cancelled: bool, states: seq<State>, actions: seq<Action>, k: nat)
    requires Schedule(states, actions) && states[0] == Start(limit, tasks, cancelled) && k < |states|
    ensures Measure(states[k]) + k <= Measure(states[0])
  {
    if k > 0 {
      ScheduleIsShort(limit, tasks, cancelled, states, actions, k - 1);
      ScheduleInv(limit, tasks, cancelled, states, actions, k - 1);
      NextDecreases(states[k - 1], actions[k - 1]);
    }
  }

  lemma {:induction false} FullMeasure(ps: seq<Phase>)
    requires forall i :: 0 <= i < |ps| ==> ps[i] == Unspawned
    ensures Weight(ps, Left()) == 5 * |ps|
  {
    if ps != [] {
      FullMeasure(ps[..|ps| - 1]);
    }
  }

  /** A schedule has at most five steps a task and two more. */
  lemma SchedulesTerminate(limit: int, tasks: nat, cancelled: bool, states: seq<State>, actions: seq<Action>)
    requires Schedule(states, actions) && states[0] == Start(limit, tasks, cancelled)
    ensures |actions| <= 5 * tasks + 2
  {
    ScheduleIsShort(limit, tasks, cancelled, states, actions, |actions|);
    FullMeasure(states[0].phases);
  }

  /** Nothing deadlocks: until the call has returned some goroutine or the caller
      can take a step, whether or not the context is ever cancelled. */
  lemma NoDeadlock(limit: int, tasks: nat, cancelled: bool, states: seq<State>, actions: seq<Action>, k: nat)
    requires Schedule(states, actions) && states[0] == Start(limit, tasks, cancelled) && k < |states|
    requires !states[k].finished
    ensures exists a :: Enabled(states[k], a) && a != Cancel
  {
    ScheduleInv(limit, tasks, cancelled, states, actions, k);
    var s := states[k];
    if s.spawned < |s.phases| {
      assert Enabled(s, Spawn);
    } else if s.pending == 0 {
      assert Enabled(s, Return);
    } else {
      WeightZero(s.phases, IsPending());
      var i :| 0 <= i < |s.phases| && IsPending()(s.phases[i]) != 0;
      match s.phases[i]
      case Running => assert Enabled(s, TaskReturns(i));
      case Returned => assert Enabled(s, Release(i));
      case Released => assert Enabled(s, Tell(i));
      case Skipped => assert Enabled(s, Tell(i));
      case Waiting =>
        if s.slots < s.limit {
          assert Enabled(s, Acquire(i));
        } else {
          WeightZero(s.phases, Holds());
          var j :| 0 <= j < |s.phases| && Holds()(s.phases[j]) != 0;
          assert Enabled(s, TaskReturns(j)) || Enabled(s, Release(j));
        }
    }
  }
}
