/**
  The worker pool and the queue of calls deferred to the main thread, as steps of a state machine.

  A step is one critical section, or the part of a worker's or a drain's loop between two of them; any
  interleaving of steps is a run.  Tasks are named by their place in the order of submission.
 */
module ThreadPool {
  import opened Wrappers

  /** What `enqueue` was given: whether a finish callback comes with the task.  An empty task is one that
      returns at once. */
  datatype Job = Job(finish: bool)

  type TaskId = nat

  datatype Deferred = Finish(task: TaskId) | Other(n: nat)

  // ------------------------------------------------------------- critical sections

  datatype Turn = Wait | Exit | Take(front: TaskId, rest: seq<TaskId>)

  /** A worker holding the lock: it leaves only when told to stop and nothing is queued. */
  function WorkerTurn(tasks: seq<TaskId>, stop: bool): Turn {
    if tasks != [] then Take(tasks[0], tasks[1..]) else if stop then Exit else Wait
  }

  /** A worker takes the first task while there is one, leaves when there is none and it was told to stop, and waits
      otherwise. */
  lemma TurnSaid(tasks: seq<TaskId>, stop: bool)
    ensures WorkerTurn(tasks, stop).Take? <==> |tasks| > 0
    ensures |tasks| > 0 ==> [WorkerTurn(tasks, stop).front] + WorkerTurn(tasks, stop).rest == tasks
    ensures WorkerTurn(tasks, stop).Exit? <==> |tasks| == 0 && stop
  {
  }

  class TaskQueue {
    var tasks: seq<TaskId>
    var stop: bool

    constructor ()
      ensures tasks == [] && !stop
    {
      tasks, stop := [], false;
    }

    method Enqueue(task: TaskId)
      modifies this
      ensures tasks == old(tasks) + [task] && stop == old(stop)
    {
      tasks := tasks + [task];
    }

    method Stop()
      modifies this
      ensures stop && tasks == old(tasks)
    {
      stop := true;
    }

    /** One pass of `worker_loop` under the lock. */
    method Next() returns (turn: Turn)
      modifies this
      ensures turn == WorkerTurn(old(tasks), stop) && stop == old(stop)
      ensures tasks == if turn.Take? then turn.rest else old(tasks)
    {
      if !(stop || tasks != []) { return Wait; }
      if stop && tasks == [] { return Exit; }
      var task := tasks[0];
      tasks := tasks[1..];
      return Take(task, tasks);
    }
  }

  class DeferredCalls {
    var queue: seq<Deferred>
    var ran: seq<Deferred>

    constructor ()
      ensures queue == [] && ran == []
    {
      queue, ran := [], [];
    }

    method CallLater(call: Deferred)
      modifies this
      ensures queue == old(queue) + [call] && ran == old(ran)
    {
      queue := queue + [call];
    }

    /** `drain`: the queue is swapped out first, so calls that the callbacks defer wait for the next drain. */
    method Drain(defers: Deferred -> seq<Deferred>)
      modifies this
      ensures ran == old(ran) + old(queue)
      ensures queue == DeferredBy(defers, old(queue))
    {
      var local := queue;
      queue := [];
      assert local[..0] == [];
      for i := 0 to |local|
        invariant ran == old(ran) + local[..i]
        invariant queue == DeferredBy(defers, local[..i])
      {
        assert local[..i + 1][..i] == local[..i] && local[..i + 1] == local[..i] + [local[i]];
        ran := ran + [local[i]];
        var more := defers(local[i]);
        for k := 0 to |more|
          invariant queue == DeferredBy(defers, local[..i]) + more[..k]
          invariant ran == old(ran) + local[..i + 1]
        {
          assert more[..k + 1] == more[..k] + [more[k]];
          CallLater(more[k]);
        }
        assert more[..|more|] == more;
      }
      assert local[..|local|] == local;
    }
  }

  function DeferredBy(defers: Deferred -> seq<Deferred>, calls: seq<Deferred>): seq<Deferred> {
    if calls == [] then [] else DeferredBy(defers, calls[..|calls| - 1]) + defers(calls[|calls| - 1])
  }

  // ------------------------------------------------------------------ the machine

  datatype Worker = Idle | Running(task: TaskId) | Returned(task: TaskId) | Exited

  /** `submitted` is everything ever enqueued, `taken` the tasks dequeued so far in order, `finished` the
      tasks that returned; `queue` is the deferred queue, `drains` what each drain still has to run,
      `deferred` everything ever deferred and `ran` the deferred calls that ran. */
  datatype State = State(submitted: seq<Job>, tasks: seq<TaskId>, stop: bool, workers: seq<Worker>,
                         taken: seq<TaskId>, finished: seq<TaskId>,
                         queue: seq<Deferred>, drains: seq<seq<Deferred>>,
                         deferred: seq<Deferred>, ran: seq<Deferred>)

  datatype Action =
    | Enqueue(job: Job)
    | WorkerLock(w: nat)        // the section under the mutex in `worker_loop`
    | TaskReturns(w: nat)       // the task itself ends
    | DeferFinish(w: nat)       // the wrapper of the second `enqueue` defers the callback
    | CallLater(n: nat)         // any other deferred call
    | DrainSwap
    | DrainRun(d: nat)
    | Stop

  function Start(workers: nat): State {
    State([], [], false, seq(workers, i => Idle), [], [], [], [], [], [])
  }

  predicate Enabled(st: State, action: Action) {
    match action
    case WorkerLock(w) => w < |st.workers| && st.workers[w].Idle? && !WorkerTurn(st.tasks, st.stop).Wait?
    case TaskReturns(w) => w < |st.workers| && st.workers[w].Running? && st.workers[w].task < |st.submitted|
    case DeferFinish(w) => w < |st.workers| && st.workers[w].Returned?
    case DrainRun(d) => d < |st.drains| && st.drains[d] != []
    case _ => true
  }

  function Step(st: State, action: Action): State
    requires Enabled(st, action)
  {
    match action
    case Enqueue(job) => st.(submitted := st.submitted + [job], tasks := st.tasks + [|st.submitted|])
    case WorkerLock(w) =>
      (match WorkerTurn(st.tasks, st.stop)
       case Exit => st.(workers := st.workers[w := Exited])
       case Take(front, rest) => st.(tasks := rest, workers := st.workers[w := Running(front)], taken := st.taken + [front]))
    case TaskReturns(w) =>
      var t := st.workers[w].task;
      st.(workers := st.workers[w := if st.submitted[t].finish then Returned(t) else Idle], finished := st.finished + [t])
    case DeferFinish(w) =>
      var call := Finish(st.workers[w].task);
      st.(workers := st.workers[w := Idle], queue := st.queue + [call], deferred := st.deferred + [call])
    case CallLater(n) => st.(queue := st.queue + [Other(n)], deferred := st.deferred + [Other(n)])
    case DrainSwap => st.(queue := [], drains := st.drains + [st.queue])
    case DrainRun(d) => st.(drains := st.drains[d := st.drains[d][1..]], ran := st.ran + [st.drains[d][0]])
    case Stop => st.(stop := true)
  }

  /** The state after some actions, if every one could happen when it did. */
  function Play(st: State, actions: seq<Action>): Option<State> {
    if actions == [] then Some(st)
    else
      match Play(st, actions[..|actions| - 1])
      case None => None
      case Some(now) =>
        if Enabled(now, actions[|actions| - 1]) then Some(Step(now, actions[|actions| - 1])) else None
  }

  function Run(workers: nat, actions: seq<Action>): Option<State> {
    Play(Start(workers), actions)
  }

  // ----------------------------------------------------------------- the invariant

  predicate InProgress(st: State, t: TaskId) {
    exists w :: 0 <= w < |st.workers| && st.workers[w] == Running(t)
  }

  predicate AboutToDefer(st: State, t: TaskId) {
    exists w :: 0 <= w < |st.workers| && st.workers[w] == Returned(t)
  }

  /** Dequeued and queued tasks together are the submissions in order. */
  ghost predicate InOrder(st: State) {
    && |st.taken| + |st.tasks| == |st.submitted|
    && (forall i :: 0 <= i < |st.taken| ==> st.taken[i] == i)
    && (forall i :: 0 <= i < |st.tasks| ==> st.tasks[i] == |st.taken| + i)
  }

  /** The task a worker is busy with, still inside it or about to defer its callback. */
  function Holds(worker: Worker): Option<TaskId> {
    match worker case Running(t) => Some(t) case Returned(t) => Some(t) case _ => None
  }

  /** Every dequeued task is being run or has returned, not both; it is run by one worker and returns once. */
  ghost predicate RunOnce(st: State) {
    && (forall v, w :: 0 <= v < w < |st.workers| && Holds(st.workers[v]).Some? ==> Holds(st.workers[v]) != Holds(st.workers[w]))
    && (forall w :: 0 <= w < |st.workers| && Holds(st.workers[w]).Some? ==> Holds(st.workers[w]).value < |st.taken|)
    && (forall t: TaskId :: t in st.finished ==> t < |st.taken| && !InProgress(st, t))
    && (forall t: TaskId :: t < |st.taken| ==> t in st.finished || InProgress(st, t))
    && (forall i, j :: 0 <= i < j < |st.finished| ==> st.finished[i] != st.finished[j])
  }

  predicate HasFinish(st: State, t: TaskId) {
    t < |st.submitted| && st.submitted[t].finish
  }

  /** A finish callback is deferred at most once, and only after its task returned; a returned task with a
      callback has deferred it or is about to. */
  ghost predicate FinishOnce(st: State) {
    && (forall i, j :: 0 <= i < j < |st.deferred| && st.deferred[i].Finish? ==> st.deferred[i] != st.deferred[j])
    && (forall t: TaskId :: Finish(t) in st.deferred ==> t in st.finished && HasFinish(st, t) && !AboutToDefer(st, t))
    && (forall t: TaskId :: AboutToDefer(st, t) ==> t in st.finished && HasFinish(st, t))
    && (forall t: TaskId :: t in st.finished && HasFinish(st, t) ==> Finish(t) in st.deferred || AboutToDefer(st, t))
  }

  /** How often a call is still to be run by some drain. */
  function Remaining(drains: seq<seq<Deferred>>, call: Deferred): nat {
    if drains == [] then 0
    else Remaining(drains[..|drains| - 1], call) + multiset(drains[|drains| - 1])[call]
  }

  /** Every deferred call is in the queue, in exactly one drain, or has run. */
  ghost predicate Conserved(st: State) {
    forall call: Deferred :: Placed(st, call)
  }

  ghost predicate Placed(st: State, call: Deferred) {
    multiset(st.deferred)[call] == multiset(st.queue)[call] + Remaining(st.drains, call) + multiset(st.ran)[call]
  }

  ghost predicate Inv(st: State) {
    InOrder(st) && RunOnce(st) && FinishOnce(st) && Conserved(st)
  }

  lemma StartInv(workers: nat)
    ensures Inv(Start(workers))
  {
  }

  lemma {:induction false} RemainingUpdate(drains: seq<seq<Deferred>>, d: nat, local: seq<Deferred>, call: Deferred)
    requires d < |drains|
    ensures Remaining(drains[d := local], call) + multiset(drains[d])[call] == Remaining(drains, call) + multiset(local)[call]
    decreases |drains|
  {
    var n, after := |drains| - 1, drains[d := local];
    if d < n {
      RemainingUpdate(drains[..n], d, local, call);
      assert after[..n] == drains[..n][d := local];
    } else {
      assert after[..n] == drains[..n];
    }
  }

  lemma StepKeepsOrder(st: State, action: Action)
    requires InOrder(st) && Enabled(st, action)
    ensures InOrder(Step(st, action))
  {
  }

  lemma StepConserves(st: State, action: Action)
    requires Conserved(st) && Enabled(st, action)
    ensures Conserved(Step(st, action))
  {
    forall call: Deferred
      ensures Placed(Step(st, action), call)
    {
      assert Placed(st, call);
      StepPlaces(st, action, call);
    }
  }

  lemma RemainingSnoc(drains: seq<seq<Deferred>>, local: seq<Deferred>, call: Deferred)
    ensures Remaining(drains + [local], call) == Remaining(drains, call) + multiset(local)[call]
  {
    assert (drains + [local])[..|drains|] == drains;
  }

  lemma DrainRunPlaces(st: State, d: nat, call: Deferred)
    requires Placed(st, call) && Enabled(st, DrainRun(d))
    ensures Placed(Step(st, DrainRun(d)), call)
  {
    hide Remaining;
    var local := st.drains[d];
    RemainingUpdate(st.drains, d, local[1..], call);
    assert local == [local[0]] + local[1..];
  }

  lemma StepPlaces(st: State, action: Action, call: Deferred)
    requires Placed(st, call) && Enabled(st, action)
    ensures Placed(Step(st, action), call)
  {
    hide Remaining;
    match action
    case DrainSwap => RemainingSnoc(st.drains, st.queue, call);
    case DrainRun(d) => DrainRunPlaces(st, d, call);
    case _ =>
  }

  lemma StepKeepsRunOnce(st: State, action: Action)
    requires InOrder(st) && RunOnce(st) && Enabled(st, action)
    ensures RunOnce(Step(st, action))
  {
    match action
    case WorkerLock(w) =>
      if st.tasks != [] {
        TakeKeepsRunOnce(st, w);
      } else {
        SameRunning(st, Step(st, action));
      }
    case TaskReturns(w) => ReturnKeepsRunOnce(st, w);
    case _ => SameRunning(st, Step(st, action));
  }

  lemma TakeKeepsRunOnce(st: State, w: nat)
    requires InOrder(st) && RunOnce(st) && Enabled(st, WorkerLock(w)) && st.tasks != []
    ensures RunOnce(Step(st, WorkerLock(w)))
  {
    var next := Step(st, WorkerLock(w));
    forall t: TaskId
      ensures InProgress(next, t) <==> InProgress(st, t) || t == |st.taken|
    {
      assert next.workers[w] == Running(|st.taken|);
      if v :| 0 <= v < |st.workers| && st.workers[v] == Running(t) {
        assert next.workers[v] == Running(t);
      }
    }
  }

  lemma ReturnKeepsRunOnce(st: State, w: nat)
    requires InOrder(st) && RunOnce(st) && Enabled(st, TaskReturns(w))
    ensures RunOnce(Step(st, TaskReturns(w)))
  {
    var next, t := Step(st, TaskReturns(w)), st.workers[w].task;
    assert InProgress(st, t) && Holds(st.workers[w]) == Some(t);
    forall u: TaskId
      ensures InProgress(next, u) <==> InProgress(st, u) && u != t
    {
      if v :| 0 <= v < |st.workers| && st.workers[v] == Running(u) {
        assert u != t ==> next.workers[v] == Running(u);
      }
    }
    forall u: TaskId
      ensures u in next.finished <==> u in st.finished || u == t
    {
      assert next.finished[|st.finished|] == t;
    }
  }

  lemma SameRunning(st: State, next: State)
    requires |st.workers| == |next.workers|
    requires forall w :: 0 <= w < |st.workers| ==> st.workers[w] == next.workers[w] || (!st.workers[w].Running? && !next.workers[w].Running?)
    ensures forall t: TaskId :: InProgress(st, t) == InProgress(next, t)
  {
    forall t: TaskId
      ensures InProgress(st, t) == InProgress(next, t)
    {
      if v :| 0 <= v < |st.workers| && st.workers[v] == Running(t) {
        assert next.workers[v] == Running(t);
      }
      if v :| 0 <= v < |next.workers| && next.workers[v] == Running(t) {
        assert st.workers[v] == Running(t);
      }
    }
  }

  lemma SameReturned(st: State, next: State)
    requires |st.workers| == |next.workers|
    requires forall w :: 0 <= w < |st.workers| ==> st.workers[w] == next.workers[w] || (!st.workers[w].Returned? && !next.workers[w].Returned?)
    ensures forall t: TaskId :: AboutToDefer(st, t) == AboutToDefer(next, t)
  {
    forall t: TaskId
      ensures AboutToDefer(st, t) == AboutToDefer(next, t)
    {
      if v :| 0 <= v < |st.workers| && st.workers[v] == Returned(t) {
        assert next.workers[v] == Returned(t);
      }
      if v :| 0 <= v < |next.workers| && next.workers[v] == Returned(t) {
        assert st.workers[v] == Returned(t);
      }
    }
  }

  lemma StepKeepsFinishOnce(st: State, action: Action)
    requires InOrder(st) && RunOnce(st) && FinishOnce(st) && Enabled(st, action)
    ensures FinishOnce(Step(st, action))
  {
    var next := Step(st, action);
    match action
    case TaskReturns(w) => ReturnKeepsFinishOnce(st, w);
    case DeferFinish(w) => DeferKeepsFinishOnce(st, w);
    case CallLater(n) =>
      SameReturned(st, next);
      forall d | d in next.deferred && d.Finish?
        ensures d in st.deferred
      {
      }
      forall d | d in st.deferred
        ensures d in next.deferred
      {
      }
    case _ => SameReturned(st, next);
  }

  lemma ReturnKeepsFinishOnce(st: State, w: nat)
    requires InOrder(st) && RunOnce(st) && FinishOnce(st) && Enabled(st, TaskReturns(w))
    ensures FinishOnce(Step(st, TaskReturns(w)))
  {
    var next, t := Step(st, TaskReturns(w)), st.workers[w].task;
    assert InProgress(st, t);
    forall u: TaskId
      ensures u in next.finished <==> u in st.finished || u == t
    {
      assert next.finished[|st.finished|] == t;
      if u in st.finished {
        var i :| 0 <= i < |st.finished| && st.finished[i] == u;
        assert next.finished[i] == u;
      }
    }
    forall u: TaskId
      ensures AboutToDefer(next, u) <==> AboutToDefer(st, u) || (u == t && HasFinish(st, t))
    {
      if v :| 0 <= v < |st.workers| && st.workers[v] == Returned(u) {
        assert next.workers[v] == Returned(u);
      }
      if u == t && HasFinish(st, t) {
        assert next.workers[w] == Returned(u);
      }
    }
  }

  lemma DeferKeepsFinishOnce(st: State, w: nat)
    requires InOrder(st) && RunOnce(st) && FinishOnce(st) && Enabled(st, DeferFinish(w))
    ensures FinishOnce(Step(st, DeferFinish(w)))
  {
    var next, t := Step(st, DeferFinish(w)), st.workers[w].task;
    assert AboutToDefer(st, t);
    forall d: Deferred
      ensures d in next.deferred <==> d in st.deferred || d == Finish(t)
    {
      assert next.deferred[|st.deferred|] == Finish(t);
      if d in st.deferred {
        var i :| 0 <= i < |st.deferred| && st.deferred[i] == d;
        assert next.deferred[i] == d;
      }
    }
    forall u: TaskId
      ensures AboutToDefer(next, u) <==> AboutToDefer(st, u) && u != t
    {
      if v :| 0 <= v < |st.workers| && st.workers[v] == Returned(u) {
        if u != t {
          assert next.workers[v] == Returned(u);
        }
      }
      if v :| 0 <= v < |next.workers| && next.workers[v] == Returned(u) {
        assert v != w && st.workers[v] == Returned(u);
        assert Holds(st.workers[v]) != Holds(st.workers[w]);
      }
    }
  }

  /** Every interleaving keeps all of it. */
  lemma {:induction false} EveryRunKeepsInv(workers: nat, actions: seq<Action>)
    requires Run(workers, actions).Some?
    ensures Inv(Run(workers, actions).value)
    decreases |actions|
  {
    if actions == [] {
      StartInv(workers);
    } else {
      hide Step, InOrder, RunOnce, FinishOnce, Conserved;
      var front, action := actions[..|actions| - 1], actions[|actions| - 1];
      EveryRunKeepsInv(workers, front);
      var st := Run(workers, front).value;
      StepKeepsOrder(st, action);
      StepKeepsRunOnce(st, action);
      StepKeepsFinishOnce(st, action);
      StepConserves(st, action);
    }
  }

  // -------------------------------------------------------------- a whole drain

  /** Deferring these calls, one after another. */
  function Laters(ns: seq<nat>): seq<Action> {
    if ns == [] then [] else Laters(ns[..|ns| - 1]) + [CallLater(ns[|ns| - 1])]
  }

  function Others(ns: seq<nat>): seq<Deferred> {
    if ns == [] then [] else Others(ns[..|ns| - 1]) + [Other(ns[|ns| - 1])]
  }

  function Calls(defers: Deferred -> seq<nat>): Deferred -> seq<Deferred> {
    call => Others(defers(call))
  }

  /** The loop of drain `d`: each call runs and defers what it defers. */
  function DrainLoop(d: nat, defers: Deferred -> seq<nat>, calls: seq<Deferred>): seq<Action> {
    if calls == [] then []
    else DrainLoop(d, defers, calls[..|calls| - 1]) + [DrainRun(d)] + Laters(defers(calls[|calls| - 1]))
  }

  lemma {:induction false} PlayOn(st: State, a: seq<Action>, b: seq<Action>)
    ensures Play(st, a + b) == if Play(st, a).None? then None else Play(Play(st, a).value, b)
    decreases |b|
  {
    hide Step, Enabled;
    if b == [] {
      assert a + b == a;
    } else {
      assert (a + b)[..|a + b| - 1] == a + b[..|b| - 1];
      PlayOn(st, a, b[..|b| - 1]);
    }
  }

  lemma PlayOne(st: State, action: Action)
    ensures Play(st, [action]) == if Enabled(st, action) then Some(Step(st, action)) else None
  {
    hide Step, Enabled;
    assert [action][..0] == [];
  }

  function WithCalls(st: State, calls: seq<Deferred>): State {
    st.(queue := st.queue + calls, deferred := st.deferred + calls)
  }

  lemma {:induction false} PlayLaters(st: State, ns: seq<nat>)
    ensures Play(st, Laters(ns)) == Some(WithCalls(st, Others(ns)))
    decreases |ns|
  {
    if ns != [] {
      hide Play;
      var front, last := ns[..|ns| - 1], CallLater(ns[|ns| - 1]);
      PlayLaters(st, front);
      PlayOn(st, Laters(front), [last]);
      PlayOne(WithCalls(st, Others(front)), last);
      assert st.queue + Others(front) + [Other(last.n)] == st.queue + Others(ns);
      assert st.deferred + Others(front) + [Other(last.n)] == st.deferred + Others(ns);
    } else {
      assert WithCalls(st, Others(ns)) == st;
    }
  }

  /** The state in the middle of a drain that swapped out `local` and has run `done` of its calls. */
  function Draining(st: State, defers: Deferred -> seq<nat>, done: seq<Deferred>, left: seq<Deferred>): State {
    var more := DeferredBy(Calls(defers), done);
    st.(queue := more, deferred := st.deferred + more, drains := st.drains + [left], ran := st.ran + done)
  }

  lemma DrainRound(st: State, defers: Deferred -> seq<nat>, done: seq<Deferred>, left: seq<Deferred>)
    requires left != []
    ensures Play(Draining(st, defers, done, left), [DrainRun(|st.drains|)] + Laters(defers(left[0])))
            == Some(Draining(st, defers, done + [left[0]], left[1..]))
  {
    hide Play, DeferredBy, Laters, Others;
    var now, d := Draining(st, defers, done, left), |st.drains|;
    var ns, ran := defers(left[0]), Step(now, DrainRun(d));
    PlayOne(now, DrainRun(d));
    PlayOn(now, [DrainRun(d)], Laters(ns));
    PlayLaters(ran, ns);
    DeferredBySnoc(Calls(defers), done, left[0]);
    var next := Draining(st, defers, done + [left[0]], left[1..]);
    assert WithCalls(ran, Others(ns)).drains == next.drains;
    assert WithCalls(ran, Others(ns)).ran == next.ran;
    assert WithCalls(ran, Others(ns)).deferred == next.deferred;
  }

  lemma DeferredBySnoc(defers: Deferred -> seq<Deferred>, calls: seq<Deferred>, call: Deferred)
    ensures DeferredBy(defers, calls + [call]) == DeferredBy(defers, calls) + defers(call)
  {
    assert (calls + [call])[..|calls|] == calls;
  }

  lemma {:induction false} DrainRounds(st: State, defers: Deferred -> seq<nat>, k: nat)
    requires k <= |st.queue|
    ensures Play(Draining(st, defers, [], st.queue), DrainLoop(|st.drains|, defers, st.queue[..k]))
            == Some(Draining(st, defers, st.queue[..k], st.queue[k..]))
  {
    hide Play, Draining, DeferredBy, Laters;
    var start, d := Draining(st, defers, [], st.queue), |st.drains|;
    if k == 0 {
      NothingPlayed(start);
      assert st.queue[..0] == [] && st.queue[0..] == st.queue;
    } else {
      var before, call := st.queue[..k - 1], st.queue[k - 1];
      assert st.queue[..k][..k - 1] == before && st.queue[k - 1..][0] == call && st.queue[k - 1..][1..] == st.queue[k..];
      assert before + [call] == st.queue[..k];
      var loop, round := DrainLoop(d, defers, before), [DrainRun(d)] + Laters(defers(call));
      DrainRounds(st, defers, k - 1);
      PlayOn(start, loop, round);
      DrainRound(st, defers, before, st.queue[k - 1..]);
      assert loop + round == DrainLoop(d, defers, st.queue[..k]);
    }
  }

  lemma NothingPlayed(st: State)
    ensures Play(st, []) == Some(st)
  {
  }

  /** `DeferredCalls.Drain` is a run of the machine that no other thread comes between: the swap, and then
      each call of the queue with what it defers. */
  lemma DrainIsARun(st: State, defers: Deferred -> seq<nat>)
    ensures var end := Play(st, [DrainSwap] + DrainLoop(|st.drains|, defers, st.queue));
            && end.Some?
            && end.value.ran == st.ran + st.queue
            && end.value.queue == DeferredBy(Calls(defers), st.queue)
            && end.value.drains == st.drains + [[]]
  {
    hide Play;
    assert st.queue[..|st.queue|] == st.queue && st.queue[|st.queue|..] == [];
    PlayOn(st, [DrainSwap], DrainLoop(|st.drains|, defers, st.queue));
    PlayOne(st, DrainSwap);
    assert st.deferred + [] == st.deferred && st.ran + [] == st.ran;
    assert Step(st, DrainSwap) == Draining(st, defers, [], st.queue);
    DrainRounds(st, defers, |st.queue|);
  }

  // ------------------------------------------------------------- what it means

  /** Tasks are dequeued in the order in which they were submitted. */
  lemma FirstInFirstOut(workers: nat, actions: seq<Action>)
    requires Run(workers, actions).Some?
    ensures var st := Run(workers, actions).value; st.taken + st.tasks == seq(|st.submitted|, i => i)
  {
    EveryRunKeepsInv(workers, actions);
  }

  /** When the last worker leaves, no task enqueued by then is waiting or unfinished. */
  lemma LastWorkerLeavesNothing(workers: nat, actions: seq<Action>, w: nat)
    requires Run(workers, actions).Some?
    requires var st := Run(workers, actions).value;
             && Enabled(st, WorkerLock(w)) && WorkerTurn(st.tasks, st.stop).Exit?
             && forall v :: 0 <= v < |st.workers| && v != w ==> st.workers[v].Exited?
    ensures var st := Run(workers, actions).value;
            && st.tasks == []
            && (forall t: TaskId :: t < |st.submitted| ==> t in st.finished)
            && (forall t: TaskId :: HasFinish(st, t) ==> Finish(t) in st.deferred)
  {
    EveryRunKeepsInv(workers, actions);
    var st := Run(workers, actions).value;
    forall t: TaskId | t < |st.submitted|
      ensures t in st.finished && !AboutToDefer(st, t)
    {
    }
  }

  /** Once the deferred queue is empty and every drain is through, each finish callback whose task has
      returned and been followed up ran exactly once. */
  lemma DrainedCallbacksRanOnce(workers: nat, actions: seq<Action>, t: TaskId)
    requires Run(workers, actions).Some?
    requires var st := Run(workers, actions).value;
             && st.queue == [] && (forall d :: 0 <= d < |st.drains| ==> st.drains[d] == [])
             && t in st.finished && HasFinish(st, t) && !AboutToDefer(st, t)
    ensures multiset(Run(workers, actions).value.ran)[Finish(t)] == 1
  {
    EveryRunKeepsInv(workers, actions);
    var st := Run(workers, actions).value;
    NothingRemains(st.drains, Finish(t));
    OnceInDeferred(st.deferred, Finish(t));
    assert Placed(st, Finish(t));
  }

  /** At any moment a deferred finish callback is in the queue, in one drain, or has run; never two of them. */
  lemma OnePlacePerCallback(workers: nat, actions: seq<Action>, t: TaskId)
    requires Run(workers, actions).Some?
    ensures var st := Run(workers, actions).value;
            multiset(st.queue)[Finish(t)] + Remaining(st.drains, Finish(t)) + multiset(st.ran)[Finish(t)] ==
            (if t in st.finished && HasFinish(st, t) && !AboutToDefer(st, t) then 1 else 0)
  {
    EveryRunKeepsInv(workers, actions);
    var st := Run(workers, actions).value;
    if Finish(t) in st.deferred {
      OnceInDeferred(st.deferred, Finish(t));
    }
    assert Placed(st, Finish(t));
  }

  lemma {:induction false} NothingRemains(drains: seq<seq<Deferred>>, call: Deferred)
    requires forall d :: 0 <= d < |drains| ==> drains[d] == []
    ensures Remaining(drains, call) == 0
    decreases |drains|
  {
    if drains != [] {
      NothingRemains(drains[..|drains| - 1], call);
    }
  }

  lemma {:induction false} OnceInDeferred(deferred: seq<Deferred>, call: Deferred)
    requires forall i, j :: 0 <= i < j < |deferred| && deferred[i].Finish? ==> deferred[i] != deferred[j]
    requires call.Finish? && call in deferred
    ensures multiset(deferred)[call] == 1
    decreases |deferred|
  {
    var n := |deferred| - 1;
    var front := deferred[..n];
    assert deferred == front + [deferred[n]];
    if deferred[n] == call {
      assert forall i :: 0 <= i < n ==> front[i] == deferred[i] != call;
    } else {
      var i :| 0 <= i < |deferred| && deferred[i] == call;
      assert front[i] == call;
      OnceInDeferred(front, call);
    }
  }
}
