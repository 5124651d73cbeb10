// The worker pool as the steps its threads take: WorkPool::Run, Worker, DrainTasks and StopWorkers,
// src/work_pool.cc. Whatever a thread does while it holds the mutex is one step; parking in a condition
// variable and being notified are steps of their own, and a parked thread may also wake for no reason.

module WorkPool {
  import opened Wrappers

  // Where a pool thread is. `seen` is the last generation it started on.
  datatype Worker =
    | Testing(seen: nat)                        // about to ask whether to stop or to start
    | Asleep(seen: nat)                         // parked until it is notified
    | Claiming(seen: nat, call: nat)            // in DrainTasks, about to take a task
    | Working(seen: nat, call: nat, task: nat)  // running the body
    | Finishing(seen: nat)                      // about to count itself out
    | Exited

  // Where a thread that calls Run is.
  datatype Caller =
    | Idle
    | Inline(call: nat, task: nat)   // running the body itself, without the pool
    | Wanting(call: nat)             // waiting for its turn
    | Publishing(call: nat)          // has its turn, about to hand out the body
    | Notifying(call: nat)           // handed it out, about to wake the workers
    | Draining(call: nat)
    | Running(call: nat, task: nat)
    | Asking(call: nat)              // about to ask whether every worker is done
    | AsleepDone(call: nat)          // parked until the last one is
    | Leaving(call: nat, failed: bool)
  {
    // It holds the turn that only one Run has at a time.
    predicate HasTurn() {
      Publishing? || Notifying? || Draining? || Running? || Asking? || AsleepDone? || Leaving?
    }

    // Its body is the one the workers are handed.
    predicate HandedOut() {
      Notifying? || Draining? || Running? || Asking? || AsleepDone?
    }

    predicate HasCall() {
      !Idle?
    }
  }

  datatype Stopping = No | FlagSet | Notified

  datatype Pool = Pool(
    // The pool's own fields.
    body: Option<nat>, tasks: nat, next: nat, running: nat, generation: nat, stopping: Stopping, failed: bool,
    turn: Option<nat>,
    // Its threads, and the threads that use it.
    workers: seq<Worker>, callers: seq<Caller>,
    // What has happened: how many tasks each call has, the thread that took each task of it, the tasks
    // completed, and the calls that have returned or thrown.
    sizes: seq<nat>, claims: map<(nat, nat), Thread>, completed: set<(nat, nat)>, returned: set<nat>, thrown: set<nat>)

  datatype Thread = PoolThread(w: nat) | CallerThread(c: nat)

  function Start(workers: nat, callers: nat): Pool {
    Pool(None, 0, 0, 0, 0, No, false, None, seq(workers, _ => Testing(0)), seq(callers, _ => Idle), [], map[], {}, {},
         {})
  }

  // ---- The steps ----

  datatype Action =
    | WorkerTests(w: nat)
    | WorkerWakes(w: nat)
    | WorkerClaims(w: nat)
    | WorkerReturns(w: nat)
    | WorkerThrows(w: nat)
    | WorkerFinishes(w: nat, woken: Option<nat>)
    | Calls(c: nat, size: nat)
    | InlineReturns(c: nat)
    | InlineThrows(c: nat)
    | TakesTurn(c: nat)
    | Publishes(c: nat)
    | Notifies(c: nat)
    | CallerClaims(c: nat)
    | CallerReturns(c: nat)
    | CallerThrows(c: nat)
    | Asks(c: nat)
    | CallerWakes(c: nat)
    | Leaves(c: nat)
    | SetsStopping
    | NotifiesStop

  predicate Enabled(p: Pool, a: Action) {
    match a
    case WorkerTests(w) => w < |p.workers| && p.workers[w].Testing?
    case WorkerWakes(w) => w < |p.workers| && p.workers[w].Asleep?
    case WorkerClaims(w) => w < |p.workers| && p.workers[w].Claiming?
    case WorkerReturns(w) => w < |p.workers| && p.workers[w].Working?
    case WorkerThrows(w) => w < |p.workers| && p.workers[w].Working?
    case WorkerFinishes(w, woken) =>
      // The last one out notifies one thread parked in _done, if any is.
      && w < |p.workers| && p.workers[w].Finishing? && p.running > 0
      && (woken.Some? ==> p.running == 1 && woken.value < |p.callers| && p.callers[woken.value].AsleepDone?)
      && (woken.None? && p.running == 1 ==> forall c :: 0 <= c < |p.callers| ==> !p.callers[c].AsleepDone?)
    case Calls(c, size) => c < |p.callers| && p.callers[c].Idle? && p.stopping.No?
    case InlineReturns(c) => c < |p.callers| && p.callers[c].Inline? && p.callers[c].call < |p.sizes|
    case InlineThrows(c) => c < |p.callers| && p.callers[c].Inline?
    case TakesTurn(c) => c < |p.callers| && p.callers[c].Wanting? && p.turn.None?
    case Publishes(c) => c < |p.callers| && p.callers[c].Publishing? && p.callers[c].call < |p.sizes|
    case Notifies(c) => c < |p.callers| && p.callers[c].Notifying?
    case CallerClaims(c) => c < |p.callers| && p.callers[c].Draining?
    case CallerReturns(c) => c < |p.callers| && p.callers[c].Running?
    case CallerThrows(c) => c < |p.callers| && p.callers[c].Running?
    case Asks(c) => c < |p.callers| && p.callers[c].Asking?
    case CallerWakes(c) => c < |p.callers| && p.callers[c].AsleepDone?
    case Leaves(c) => c < |p.callers| && p.callers[c].Leaving?
    // A pool is destroyed by whoever owns it, with no call inside it.
    case SetsStopping => p.stopping.No? && forall c :: 0 <= c < |p.callers| ==> p.callers[c].Idle?
    case NotifiesStop => p.stopping.FlagSet?
  }

  function Wake(w: Worker): Worker {
    if w.Asleep? then Testing(w.seen) else w
  }

  function WakeAll(workers: seq<Worker>): (woken: seq<Worker>)
    ensures |woken| == |workers| && forall w :: 0 <= w < |workers| ==> woken[w] == Wake(workers[w])
  {
    seq(|workers|, w requires 0 <= w < |workers| => Wake(workers[w]))
  }

  function Do(p: Pool, a: Action): Pool
    requires Enabled(p, a)
  {
    match a
    case WorkerTests(w) =>
      var seen := p.workers[w].seen;
      p.(workers := p.workers[w :=
        if !p.stopping.No? then Exited
        else if p.generation != seen then Claiming(p.generation, if p.body.Some? then p.body.value else |p.sizes|)
        else Asleep(seen)])
    case WorkerWakes(w) => p.(workers := p.workers[w := Testing(p.workers[w].seen)])
    case WorkerClaims(w) =>
      var me := p.workers[w];
      if p.next >= p.tasks then p.(workers := p.workers[w := Finishing(me.seen)])
      else p.(workers := p.workers[w := Working(me.seen, me.call, p.next)], next := p.next + 1,
              claims := p.claims[(me.call, p.next) := PoolThread(w)])
    case WorkerReturns(w) =>
      var me := p.workers[w];
      p.(workers := p.workers[w := Claiming(me.seen, me.call)], completed := p.completed + {(me.call, me.task)})
    case WorkerThrows(w) =>
      p.(workers := p.workers[w := Finishing(p.workers[w].seen)], failed := true, next := p.tasks)
    case WorkerFinishes(w, woken) =>
      p.(workers := p.workers[w := Testing(p.workers[w].seen)], running := p.running - 1,
         callers := if woken.Some? then p.callers[woken.value := Asking(p.callers[woken.value].call)] else p.callers)
    case Calls(c, size) =>
      var call := |p.sizes|;
      if size == 0 then p.(sizes := p.sizes + [size], returned := p.returned + {call})
      else if p.workers == [] || size == 1
      then p.(callers := p.callers[c := Inline(call, 0)], sizes := p.sizes + [size],
              claims := p.claims[(call, 0) := CallerThread(c)])
      else p.(callers := p.callers[c := Wanting(call)], sizes := p.sizes + [size])
    case InlineReturns(c) =>
      var me := p.callers[c];
      var q := p.(completed := p.completed + {(me.call, me.task)});
      if me.task + 1 < p.sizes[me.call]
      then q.(callers := p.callers[c := Inline(me.call, me.task + 1)],
              claims := p.claims[(me.call, me.task + 1) := CallerThread(c)])
      else q.(callers := p.callers[c := Idle], returned := p.returned + {me.call})
    case InlineThrows(c) => p.(callers := p.callers[c := Idle], thrown := p.thrown + {p.callers[c].call})
    case TakesTurn(c) => p.(callers := p.callers[c := Publishing(p.callers[c].call)], turn := Some(c))
    case Publishes(c) =>
      var call := p.callers[c].call;
      p.(callers := p.callers[c := Notifying(call)], body := Some(call), tasks := p.sizes[call], next := 0,
         running := |p.workers|, generation := p.generation + 1)
    case Notifies(c) => p.(callers := p.callers[c := Draining(p.callers[c].call)], workers := WakeAll(p.workers))
    case CallerClaims(c) =>
      var call := p.callers[c].call;
      if p.next >= p.tasks then p.(callers := p.callers[c := Asking(call)])
      else p.(callers := p.callers[c := Running(call, p.next)], next := p.next + 1,
              claims := p.claims[(call, p.next) := CallerThread(c)])
    case CallerReturns(c) =>
      var me := p.callers[c];
      p.(callers := p.callers[c := Draining(me.call)], completed := p.completed + {(me.call, me.task)})
    case CallerThrows(c) =>
      p.(callers := p.callers[c := Asking(p.callers[c].call)], failed := true, next := p.tasks)
    case Asks(c) =>
      var call := p.callers[c].call;
      if p.running == 0
      then p.(callers := p.callers[c := Leaving(call, p.failed)], body := None, tasks := 0, failed := false)
      else p.(callers := p.callers[c := AsleepDone(call)])
    case CallerWakes(c) => p.(callers := p.callers[c := Asking(p.callers[c].call)])
    case Leaves(c) =>
      var me := p.callers[c];
      var q := p.(callers := p.callers[c := Idle], turn := None);
      if me.failed then q.(thrown := p.thrown + {me.call}) else q.(returned := p.returned + {me.call})
    case SetsStopping => p.(stopping := FlagSet)
    case NotifiesStop => p.(stopping := Notified, workers := WakeAll(p.workers))
  }

  // ---- What every step keeps: whose turn it is ----

  ghost predicate OneTurn(p: Pool) {
    && (p.turn.Some? ==> p.turn.value < |p.callers| && p.callers[p.turn.value].HasTurn())
    && (forall c :: 0 <= c < |p.callers| && p.callers[c].HasTurn() ==> p.turn == Some(c))
    && (!p.stopping.No? ==> forall c :: 0 <= c < |p.callers| ==> p.callers[c].Idle?)
  }

  // The call whose body is handed out, when one is.
  ghost predicate Out(p: Pool) {
    p.turn.Some? && p.turn.value < |p.callers| && p.callers[p.turn.value].HandedOut()
  }

  // Each call is one thread's, and a call that is over is nobody's.
  ghost predicate OwnCalls(p: Pool) {
    && (forall c :: 0 <= c < |p.callers| && p.callers[c].HasCall() ==>
          p.callers[c].call < |p.sizes| && p.callers[c].call !in p.returned && p.callers[c].call !in p.thrown)
    && (forall c, d :: 0 <= c < d < |p.callers| && p.callers[c].HasCall() && p.callers[d].HasCall() ==>
          p.callers[c].call != p.callers[d].call)
    && (forall k :: k in p.returned ==> k < |p.sizes| && k !in p.thrown)
    && (forall k :: k in p.thrown ==> k < |p.sizes|)
  }

  // ---- What every step keeps: the generation ----

  // A worker that has yet to finish the current generation.
  predicate Pending(w: Worker, generation: nat) {
    match w
    case Testing(seen) => seen != generation
    case Asleep(seen) => seen != generation
    case Exited => false
    case _ => true
  }

  ghost function PendingIn(workers: seq<Worker>, generation: nat): set<nat> {
    set w | 0 <= w < |workers| && Pending(workers[w], generation)
  }

  ghost predicate WorkerFits(p: Pool, w: Worker) {
    match w
    case Testing(seen) => seen == p.generation || (seen + 1 == p.generation && Out(p))
    case Asleep(seen) => seen == p.generation || (seen + 1 == p.generation && Out(p))
    case Claiming(seen, call) => seen == p.generation && Out(p) && p.body == Some(call)
    case Working(seen, call, _) => seen == p.generation && Out(p) && p.body == Some(call)
    case Finishing(seen) => seen == p.generation && Out(p)
    case Exited => !p.stopping.No?
  }

  ghost predicate Generations(p: Pool) {
    && (forall w :: 0 <= w < |p.workers| ==> WorkerFits(p, p.workers[w]))
    && p.running == |PendingIn(p.workers, p.generation)|
    && (Out(p) ==>
          var call := p.callers[p.turn.value].call;
          p.body == Some(call) && call < |p.sizes| && p.tasks == p.sizes[call])
    && (!Out(p) ==> p.body == None && p.tasks == 0 && !p.failed)
    && (!p.stopping.No? ==> !Out(p))
  }

  // ---- What every step keeps: no wake-up is lost ----

  ghost predicate NoneLost(p: Pool) {
    // A worker is parked past a generation it has not seen only while the wake-up is still to come.
    && (forall w :: 0 <= w < |p.workers| && p.workers[w].Asleep? && p.workers[w].seen != p.generation ==>
          p.turn.Some? && p.turn.value < |p.callers| && p.callers[p.turn.value].Notifying?)
    && (p.stopping.Notified? ==> forall w :: 0 <= w < |p.workers| ==> !p.workers[w].Asleep?)
    // A caller is parked only while a worker has yet to finish.
    && (forall c :: 0 <= c < |p.callers| && p.callers[c].AsleepDone? ==> p.running > 0)
  }

  // ---- What every step keeps: the tasks ----

  // A thread is running the body of a task.
  predicate Runs(p: Pool, x: Thread, call: nat, task: nat) {
    match x
    case PoolThread(w) => w < |p.workers| && p.workers[w].Working? && p.workers[w].call == call
        && p.workers[w].task == task
    case CallerThread(c) =>
      c < |p.callers| && (p.callers[c].Inline? || p.callers[c].Running?) && p.callers[c].call == call
          && p.callers[c].task == task
  }

  // What a thread with a call has taken of it so far.
  ghost predicate Taken(p: Pool, caller: Caller) {
    match caller
    case Wanting(call) => forall t: nat :: (call, t) !in p.claims
    case Publishing(call) => forall t: nat :: (call, t) !in p.claims
    case Inline(call, task) =>
      call < |p.sizes| && task < p.sizes[call] && forall t: nat :: (call, t) in p.claims <==> t <= task
    case Leaving(call, failed) => !failed ==> AllDone(p, call)
    case _ => true
  }

  ghost predicate AllDone(p: Pool, call: nat) {
    call < |p.sizes| && forall t: nat :: t < p.sizes[call] ==> (call, t) in p.completed
  }

  ghost predicate Tasks(p: Pool) {
    CallersTook(p) && TakenInOrder(p)
  }

  ghost predicate CallersTook(p: Pool) {
    forall c :: 0 <= c < |p.callers| ==> Taken(p, p.callers[c])
  }

  ghost predicate TakenInOrder(p: Pool) {
    && (forall k: nat, t: nat :: (k, t) in p.claims ==> k < |p.sizes| && t < p.sizes[k])
    && (Out(p) ==> p.body.Some? && p.next <= p.tasks && forall t: nat ::
          ((p.body.value, t) in p.claims ==> t < p.next) && (!p.failed && t < p.next ==> (p.body.value, t) in p.claims))
    && (Out(p) && (p.callers[p.turn.value].Asking? || p.callers[p.turn.value].AsleepDone?) ==> p.next == p.tasks)
    && (forall k: nat, t: nat :: (k, t) in p.completed ==> (k, t) in p.claims)
    && (forall k :: k in p.returned ==> AllDone(p, k))
  }

  // A thread runs a task that it took itself and that is not completed.
  ghost predicate Owns(p: Pool, x: Thread, call: nat, task: nat) {
    (call, task) in p.claims && p.claims[(call, task)] == x && (call, task) !in p.completed
  }

  // Who runs what: each task at most one thread's, the one that took it, and until it is completed.
  ghost predicate Bodies(p: Pool) {
    Owned(p) && Accounted(p)
  }

  ghost predicate Owned(p: Pool) {
    && (forall w :: 0 <= w < |p.workers| && p.workers[w].Working? ==>
          Owns(p, PoolThread(w), p.workers[w].call, p.workers[w].task))
    && (forall c :: 0 <= c < |p.callers| && (p.callers[c].Inline? || p.callers[c].Running?) ==>
          Owns(p, CallerThread(c), p.callers[c].call, p.callers[c].task))
  }

  // Every task taken of a call still going well is completed or being run.
  ghost predicate Accounted(p: Pool) {
    forall k: nat, t: nat :: (k, t) in p.claims && (k, t) !in p.completed ==>
      k in p.thrown || Failing(p, k) || Runs(p, p.claims[(k, t)], k, t)
  }

  // The call has failed, and its caller has yet to leave.
  ghost predicate Failing(p: Pool, k: nat) {
    && p.turn.Some? && p.turn.value < |p.callers|
    && (p.callers[p.turn.value] == Leaving(k, true)
        || (p.callers[p.turn.value].HandedOut() && p.failed && p.body == Some(k)))
  }

  ghost predicate Inv(p: Pool) {
    OneTurn(p) && OwnCalls(p) && Generations(p) && NoneLost(p) && Tasks(p) && Bodies(p)
  }

  lemma DoneStays(p: Pool, q: Pool)
    requires |p.sizes| <= |q.sizes| && q.sizes[..|p.sizes|] == p.sizes && p.completed <= q.completed
    ensures forall k: nat :: AllDone(p, k) ==> AllDone(q, k)
  {
    forall k: nat | AllDone(p, k) ensures AllDone(q, k) {
      assert q.sizes[k] == q.sizes[..|p.sizes|][k];
    }
  }

  // ---- Each step keeps them ----

  lemma OneWorkerMoves(workers: seq<Worker>, w: nat, x: Worker, generation: nat)
    requires w < |workers|
    ensures |PendingIn(workers[w := x], generation)|
         == |PendingIn(workers, generation)| - (if Pending(workers[w], generation) then 1 else 0)
            + (if Pending(x, generation) then 1 else 0)
  {
    var rest := PendingIn(workers, generation) - {w};
    assert PendingIn(workers[w := x], generation) == if Pending(x, generation) then rest + {w} else rest;
    assert PendingIn(workers, generation) == if Pending(workers[w], generation) then rest + {w} else rest;
  }

  lemma WakingKeepsPending(workers: seq<Worker>, generation: nat)
    ensures PendingIn(WakeAll(workers), generation) == PendingIn(workers, generation)
  {}

  lemma NonePending(workers: seq<Worker>, generation: nat)
    ensures |PendingIn(workers, generation)| == 0 <==> forall w :: 0 <= w < |workers| ==>
              !Pending(workers[w], generation)
  {
    if w :| 0 <= w < |workers| && Pending(workers[w], generation) {
      assert w in PendingIn(workers, generation);
    } else {
      assert PendingIn(workers, generation) == {};
    }
  }

  lemma {:induction false} AllPending(workers: seq<Worker>, generation: nat)
    requires forall w :: 0 <= w < |workers| ==> Pending(workers[w], generation)
    ensures |PendingIn(workers, generation)| == |workers|
    decreases |workers|
  {
    if workers != [] {
      var l := |workers| - 1;
      AllPending(workers[..l], generation);
      assert PendingIn(workers, generation) == PendingIn(workers[..l], generation) + {l};
    }
  }

  lemma WorkerTestsKeepsTurns(p: Pool, w: nat)
    requires Inv(p) && Enabled(p, WorkerTests(w))
    ensures var q := Do(p, WorkerTests(w)); OneTurn(q) && OwnCalls(q) && Generations(q) && NoneLost(q)
  {
    hide Tasks, Bodies, PendingIn;
    var q := Do(p, WorkerTests(w));
    OneWorkerMoves(p.workers, w, q.workers[w], p.generation);
  }

  lemma WorkerTestsKeepsWork(p: Pool, w: nat)
    requires Inv(p) && Enabled(p, WorkerTests(w))
    ensures var q := Do(p, WorkerTests(w)); Tasks(q) && Bodies(q)
  {
    hide NoneLost, PendingIn;
  }

  lemma WorkerWakesKeeps(p: Pool, w: nat)
    requires Inv(p) && Enabled(p, WorkerWakes(w))
    ensures var q := Do(p, WorkerWakes(w)); Inv(q)
  {
    WorkerWakesKeepsTurns(p, w);
    WorkerWakesKeepsWork(p, w);
    hide Do, Enabled, OneTurn, OwnCalls, Generations, NoneLost, Tasks, Bodies;
  }

  lemma WorkerWakesKeepsTurns(p: Pool, w: nat)
    requires Inv(p) && Enabled(p, WorkerWakes(w))
    ensures var q := Do(p, WorkerWakes(w)); OneTurn(q) && OwnCalls(q) && Generations(q) && NoneLost(q)
  {
    hide Tasks, Bodies, PendingIn;
    var q := Do(p, WorkerWakes(w));
    OneWorkerMoves(p.workers, w, q.workers[w], p.generation);
  }

  lemma WorkerWakesKeepsWork(p: Pool, w: nat)
    requires Inv(p) && Enabled(p, WorkerWakes(w))
    ensures var q := Do(p, WorkerWakes(w)); Tasks(q) && Bodies(q)
  {
    hide NoneLost, PendingIn;
  }

  lemma WorkerClaimsKeepsTurns(p: Pool, w: nat)
    requires Inv(p) && Enabled(p, WorkerClaims(w))
    ensures var q := Do(p, WorkerClaims(w)); OneTurn(q) && OwnCalls(q) && Generations(q) && NoneLost(q)
  {
    hide Tasks, Bodies, PendingIn;
    var q := Do(p, WorkerClaims(w));
    OneWorkerMoves(p.workers, w, q.workers[w], p.generation);
  }

  lemma WorkerClaimsKeepsTasks(p: Pool, w: nat)
    requires Inv(p) && Enabled(p, WorkerClaims(w))
    ensures Tasks(Do(p, WorkerClaims(w)))
  {
    hide NoneLost, PendingIn, AllDone;
    DoneStays(p, Do(p, WorkerClaims(w)));
  }

  lemma WorkerClaimsKeepsBodies(p: Pool, w: nat)
    requires Inv(p) && Enabled(p, WorkerClaims(w))
    ensures Bodies(Do(p, WorkerClaims(w)))
  {
    hide NoneLost, PendingIn, AllDone;
  }

  lemma WorkerReturnsKeepsTurns(p: Pool, w: nat)
    requires Inv(p) && Enabled(p, WorkerReturns(w))
    ensures var q := Do(p, WorkerReturns(w)); OneTurn(q) && OwnCalls(q) && Generations(q) && NoneLost(q)
  {
    hide Tasks, Bodies, PendingIn;
    var q := Do(p, WorkerReturns(w));
    OneWorkerMoves(p.workers, w, q.workers[w], p.generation);
  }

  lemma WorkerReturnsKeepsWork(p: Pool, w: nat)
    requires Inv(p) && Enabled(p, WorkerReturns(w))
    ensures var q := Do(p, WorkerReturns(w)); Tasks(q) && Bodies(q)
  {
    hide NoneLost, PendingIn;
  }

  lemma WorkerThrowsKeeps(p: Pool, w: nat)
    requires Inv(p) && Enabled(p, WorkerThrows(w))
    ensures var q := Do(p, WorkerThrows(w)); Inv(q)
  {
    WorkerThrowsKeepsTurns(p, w);
    WorkerThrowsKeepsWork(p, w);
    hide Do, Enabled, OneTurn, OwnCalls, Generations, NoneLost, Tasks, Bodies;
  }

  lemma WorkerThrowsKeepsTurns(p: Pool, w: nat)
    requires Inv(p) && Enabled(p, WorkerThrows(w))
    ensures var q := Do(p, WorkerThrows(w)); OneTurn(q) && OwnCalls(q) && Generations(q) && NoneLost(q)
  {
    hide Tasks, Bodies, PendingIn;
    var q := Do(p, WorkerThrows(w));
    OneWorkerMoves(p.workers, w, q.workers[w], p.generation);
  }

  lemma WorkerThrowsKeepsWork(p: Pool, w: nat)
    requires Inv(p) && Enabled(p, WorkerThrows(w))
    ensures var q := Do(p, WorkerThrows(w)); Tasks(q) && Bodies(q)
  {
    hide NoneLost, PendingIn;
  }

  lemma WorkerFinishesKeepsTurns(p: Pool, w: nat, woken: Option<nat>)
    requires Inv(p) && Enabled(p, WorkerFinishes(w, woken))
    ensures var q := Do(p, WorkerFinishes(w, woken)); OneTurn(q) && OwnCalls(q) && Generations(q) && NoneLost(q)
  {
    hide Tasks, Bodies, PendingIn;
    var q := Do(p, WorkerFinishes(w, woken));
    OneWorkerMoves(p.workers, w, q.workers[w], p.generation);
  }

  lemma WorkerFinishesKeepsTasks(p: Pool, w: nat, woken: Option<nat>)
    requires Inv(p) && Enabled(p, WorkerFinishes(w, woken))
    ensures Tasks(Do(p, WorkerFinishes(w, woken)))
  {
    hide NoneLost, PendingIn, AllDone;
    DoneStays(p, Do(p, WorkerFinishes(w, woken)));
  }

  lemma WorkerFinishesKeepsBodies(p: Pool, w: nat, woken: Option<nat>)
    requires Inv(p) && Enabled(p, WorkerFinishes(w, woken))
    ensures Bodies(Do(p, WorkerFinishes(w, woken)))
  {
    WorkerFinishesKeepsOwned(p, w, woken);
    WorkerFinishesKeepsAccounted(p, w, woken);
    hide Do, Enabled, OneTurn, OwnCalls, Generations, NoneLost, Tasks, Owned, Accounted;
  }

  lemma WorkerFinishesKeepsOwned(p: Pool, w: nat, woken: Option<nat>)
    requires Inv(p) && Enabled(p, WorkerFinishes(w, woken))
    ensures var q := Do(p, WorkerFinishes(w, woken)); Owned(q)
  {
    hide NoneLost, PendingIn, AllDone, Accounted;
  }

  lemma WorkerFinishesKeepsAccounted(p: Pool, w: nat, woken: Option<nat>)
    requires Inv(p) && Enabled(p, WorkerFinishes(w, woken))
    ensures var q := Do(p, WorkerFinishes(w, woken)); Accounted(q)
  {
    hide NoneLost, PendingIn, AllDone;
  }

  lemma CallsNothingKeepsTurns(p: Pool, c: nat, size: nat)
    requires Inv(p) && Enabled(p, Calls(c, size)) && size == 0
    ensures var q := Do(p, Calls(c, size)); OneTurn(q) && OwnCalls(q) && Generations(q) && NoneLost(q)
  {
    hide Tasks, Bodies, PendingIn;
  }

  lemma CallsNothingKeepsTasks(p: Pool, c: nat, size: nat)
    requires Inv(p) && Enabled(p, Calls(c, size)) && size == 0
    ensures var q := Do(p, Calls(c, size)); Tasks(q)
  {
    hide NoneLost, PendingIn;
  }

  lemma CallsNothingKeepsBodies(p: Pool, c: nat, size: nat)
    requires Inv(p) && Enabled(p, Calls(c, size)) && size == 0
    ensures var q := Do(p, Calls(c, size)); Bodies(q)
  {
    hide NoneLost, PendingIn;
  }

  lemma CallsInlineKeepsTurns(p: Pool, c: nat, size: nat)
    requires Inv(p) && Enabled(p, Calls(c, size)) && size > 0 && (p.workers == [] || size == 1)
    ensures var q := Do(p, Calls(c, size)); OneTurn(q) && OwnCalls(q) && Generations(q) && NoneLost(q)
  {
    hide Tasks, Bodies, PendingIn;
  }

  lemma CallsInlineKeepsTasks(p: Pool, c: nat, size: nat)
    requires Inv(p) && Enabled(p, Calls(c, size)) && size > 0 && (p.workers == [] || size == 1)
    ensures var q := Do(p, Calls(c, size)); Tasks(q)
  {
    CallsInlineTook(p, c, size);
    CallsInlineInOrder(p, c, size);
    hide Do, Enabled, OneTurn, OwnCalls, Generations, NoneLost, CallersTook, TakenInOrder, Bodies;
  }

  lemma CallsInlineTook(p: Pool, c: nat, size: nat)
    requires Inv(p) && Enabled(p, Calls(c, size)) && size > 0 && (p.workers == [] || size == 1)
    ensures var q := Do(p, Calls(c, size)); CallersTook(q)
  {
    hide NoneLost, PendingIn, Bodies, AllDone;
    DoneStays(p, Do(p, Calls(c, size)));
  }

  lemma CallsInlineInOrder(p: Pool, c: nat, size: nat)
    requires Inv(p) && Enabled(p, Calls(c, size)) && size > 0 && (p.workers == [] || size == 1)
    ensures var q := Do(p, Calls(c, size)); TakenInOrder(q)
  {
    hide NoneLost, PendingIn, Bodies, AllDone, CallersTook;
    DoneStays(p, Do(p, Calls(c, size)));
  }

  lemma CallsInlineKeepsBodies(p: Pool, c: nat, size: nat)
    requires Inv(p) && Enabled(p, Calls(c, size)) && size > 0 && (p.workers == [] || size == 1)
    ensures var q := Do(p, Calls(c, size)); Bodies(q)
  {
    hide NoneLost, PendingIn;
  }

  lemma CallsThePoolKeepsTurns(p: Pool, c: nat, size: nat)
    requires Inv(p) && Enabled(p, Calls(c, size)) && p.workers != [] && size > 1
    ensures var q := Do(p, Calls(c, size)); OneTurn(q) && OwnCalls(q) && Generations(q) && NoneLost(q)
  {
    hide Tasks, Bodies, PendingIn;
  }

  lemma CallsThePoolKeepsTasks(p: Pool, c: nat, size: nat)
    requires Inv(p) && Enabled(p, Calls(c, size)) && p.workers != [] && size > 1
    ensures var q := Do(p, Calls(c, size)); Tasks(q)
  {
    hide NoneLost, PendingIn;
  }

  lemma CallsThePoolKeepsBodies(p: Pool, c: nat, size: nat)
    requires Inv(p) && Enabled(p, Calls(c, size)) && p.workers != [] && size > 1
    ensures var q := Do(p, Calls(c, size)); Bodies(q)
  {
    hide NoneLost, PendingIn;
  }

  lemma InlineReturnsGoesOnKeepsTurns(p: Pool, c: nat)
    requires Inv(p) && Enabled(p, InlineReturns(c)) && p.callers[c].task + 1 < p.sizes[p.callers[c].call]
    ensures var q := Do(p, InlineReturns(c)); OneTurn(q) && OwnCalls(q) && Generations(q) && NoneLost(q)
  {
    hide Tasks, Bodies, PendingIn;
  }

  lemma InlineReturnsGoesOnKeepsTasks(p: Pool, c: nat)
    requires Inv(p) && Enabled(p, InlineReturns(c)) && p.callers[c].task + 1 < p.sizes[p.callers[c].call]
    ensures var q := Do(p, InlineReturns(c)); Tasks(q)
  {
    hide NoneLost, PendingIn, Bodies, AllDone;
    DoneStays(p, Do(p, InlineReturns(c)));
  }

  lemma InlineReturnsGoesOnKeepsBodies(p: Pool, c: nat)
    requires Inv(p) && Enabled(p, InlineReturns(c)) && p.callers[c].task + 1 < p.sizes[p.callers[c].call]
    ensures var q := Do(p, InlineReturns(c)); Bodies(q)
  {
    InlineReturnsGoesOnKeepsOwned(p, c);
    InlineReturnsGoesOnKeepsAccounted(p, c);
    hide Do, Enabled, OneTurn, OwnCalls, Generations, NoneLost, Tasks, Owned, Accounted;
  }

  lemma InlineReturnsGoesOnKeepsOwned(p: Pool, c: nat)
    requires Inv(p) && Enabled(p, InlineReturns(c)) && p.callers[c].task + 1 < p.sizes[p.callers[c].call]
    ensures var q := Do(p, InlineReturns(c)); Owned(q)
  {
    hide NoneLost, PendingIn, AllDone, Accounted;
  }

  lemma InlineReturnsGoesOnKeepsAccounted(p: Pool, c: nat)
    requires Inv(p) && Enabled(p, InlineReturns(c)) && p.callers[c].task + 1 < p.sizes[p.callers[c].call]
    ensures var q := Do(p, InlineReturns(c)); Accounted(q)
  {
    hide NoneLost, PendingIn, AllDone;
  }

  lemma InlineReturnsEndsKeepsTurns(p: Pool, c: nat)
    requires Inv(p) && Enabled(p, InlineReturns(c)) && p.callers[c].task + 1 >= p.sizes[p.callers[c].call]
    ensures var q := Do(p, InlineReturns(c)); OneTurn(q) && OwnCalls(q) && Generations(q) && NoneLost(q)
  {
    hide Tasks, Bodies, PendingIn;
  }

  lemma InlineReturnsEndsKeepsTasks(p: Pool, c: nat)
    requires Inv(p) && Enabled(p, InlineReturns(c)) && p.callers[c].task + 1 >= p.sizes[p.callers[c].call]
    ensures var q := Do(p, InlineReturns(c)); Tasks(q)
  {
    hide NoneLost, PendingIn;
  }

  lemma InlineReturnsEndsKeepsBodies(p: Pool, c: nat)
    requires Inv(p) && Enabled(p, InlineReturns(c)) && p.callers[c].task + 1 >= p.sizes[p.callers[c].call]
    ensures var q := Do(p, InlineReturns(c)); Bodies(q)
  {
    hide NoneLost, PendingIn;
  }

  lemma InlineThrowsKeepsTurns(p: Pool, c: nat)
    requires Inv(p) && Enabled(p, InlineThrows(c))
    ensures var q := Do(p, InlineThrows(c)); OneTurn(q) && OwnCalls(q) && Generations(q) && NoneLost(q)
  {
    hide Tasks, Bodies, PendingIn;
  }

  lemma InlineThrowsKeepsTasks(p: Pool, c: nat)
    requires Inv(p) && Enabled(p, InlineThrows(c))
    ensures Tasks(Do(p, InlineThrows(c)))
  {
    hide NoneLost, PendingIn, AllDone;
    DoneStays(p, Do(p, InlineThrows(c)));
  }

  lemma InlineThrowsKeepsBodies(p: Pool, c: nat)
    requires Inv(p) && Enabled(p, InlineThrows(c))
    ensures Bodies(Do(p, InlineThrows(c)))
  {
    hide NoneLost, PendingIn, AllDone;
  }

  lemma TakesTurnKeeps(p: Pool, c: nat)
    requires Inv(p) && Enabled(p, TakesTurn(c))
    ensures Inv(Do(p, TakesTurn(c)))
  {
    TakesTurnKeepsTurns(p, c);
    TakesTurnKeepsWork(p, c);
    hide Do, Enabled, OneTurn, OwnCalls, Generations, NoneLost, Tasks, Bodies;
  }

  lemma TakesTurnKeepsTurns(p: Pool, c: nat)
    requires Inv(p) && Enabled(p, TakesTurn(c))
    ensures var q := Do(p, TakesTurn(c)); OneTurn(q) && OwnCalls(q) && Generations(q) && NoneLost(q)
  {
    hide Tasks, Bodies, PendingIn;
  }

  lemma TakesTurnKeepsWork(p: Pool, c: nat)
    requires Inv(p) && Enabled(p, TakesTurn(c))
    ensures var q := Do(p, TakesTurn(c)); Tasks(q) && Bodies(q)
  {
    hide NoneLost, PendingIn;
  }

  lemma PublishesKeeps(p: Pool, c: nat)
    requires Inv(p) && Enabled(p, Publishes(c))
    ensures var q := Do(p, Publishes(c)); Inv(q)
  {
    PublishesKeepsTurns(p, c);
    PublishesKeepsWork(p, c);
    hide Do, Enabled, OneTurn, OwnCalls, Generations, NoneLost, Tasks, Bodies;
  }

  lemma PublishesKeepsTurns(p: Pool, c: nat)
    requires Inv(p) && Enabled(p, Publishes(c))
    ensures var q := Do(p, Publishes(c)); OneTurn(q) && OwnCalls(q) && Generations(q) && NoneLost(q)
  {
    hide Tasks, Bodies, PendingIn;
    var q := Do(p, Publishes(c));
    AllPending(p.workers, q.generation);
  }

  lemma PublishesKeepsWork(p: Pool, c: nat)
    requires Inv(p) && Enabled(p, Publishes(c))
    ensures var q := Do(p, Publishes(c)); Tasks(q) && Bodies(q)
  {
    hide NoneLost, PendingIn;
  }

  lemma NotifiesKeepsTurns(p: Pool, c: nat)
    requires Inv(p) && Enabled(p, Notifies(c))
    ensures var q := Do(p, Notifies(c)); OneTurn(q) && OwnCalls(q) && Generations(q) && NoneLost(q)
  {
    hide Tasks, Bodies, PendingIn;
    WakingKeepsPending(p.workers, p.generation);
  }

  lemma NotifiesKeepsWork(p: Pool, c: nat)
    requires Inv(p) && Enabled(p, Notifies(c))
    ensures var q := Do(p, Notifies(c)); Tasks(q) && Bodies(q)
  {
    hide NoneLost, PendingIn;
  }

  lemma CallerClaimsKeepsTurns(p: Pool, c: nat)
    requires Inv(p) && Enabled(p, CallerClaims(c))
    ensures var q := Do(p, CallerClaims(c)); OneTurn(q) && OwnCalls(q) && Generations(q) && NoneLost(q)
  {
    hide Tasks, Bodies, PendingIn;
  }

  lemma CallerClaimsKeepsTasks(p: Pool, c: nat)
    requires Inv(p) && Enabled(p, CallerClaims(c))
    ensures Tasks(Do(p, CallerClaims(c)))
  {
    hide NoneLost, PendingIn, AllDone;
    DoneStays(p, Do(p, CallerClaims(c)));
  }

  lemma CallerClaimsKeepsBodies(p: Pool, c: nat)
    requires Inv(p) && Enabled(p, CallerClaims(c))
    ensures Bodies(Do(p, CallerClaims(c)))
  {
    CallerClaimsKeepsOwned(p, c);
    CallerClaimsKeepsAccounted(p, c);
    hide Do, Enabled, OneTurn, OwnCalls, Generations, NoneLost, Tasks, Owned, Accounted;
  }

  lemma CallerClaimsKeepsOwned(p: Pool, c: nat)
    requires Inv(p) && Enabled(p, CallerClaims(c))
    ensures var q := Do(p, CallerClaims(c)); Owned(q)
  {
    hide NoneLost, PendingIn, AllDone, Accounted;
  }

  lemma CallerClaimsKeepsAccounted(p: Pool, c: nat)
    requires Inv(p) && Enabled(p, CallerClaims(c))
    ensures var q := Do(p, CallerClaims(c)); Accounted(q)
  {
    hide NoneLost, PendingIn, AllDone;
  }

  lemma CallerReturnsKeepsTurns(p: Pool, c: nat)
    requires Inv(p) && Enabled(p, CallerReturns(c))
    ensures var q := Do(p, CallerReturns(c)); OneTurn(q) && OwnCalls(q) && Generations(q) && NoneLost(q)
  {
    hide Tasks, Bodies, PendingIn;
  }

  lemma CallerReturnsKeepsWork(p: Pool, c: nat)
    requires Inv(p) && Enabled(p, CallerReturns(c))
    ensures var q := Do(p, CallerReturns(c)); Tasks(q) && Bodies(q)
  {
    hide NoneLost, PendingIn;
  }

  lemma CallerThrowsKeeps(p: Pool, c: nat)
    requires Inv(p) && Enabled(p, CallerThrows(c))
    ensures Inv(Do(p, CallerThrows(c)))
  {
    CallerThrowsKeepsTurns(p, c);
    CallerThrowsKeepsWork(p, c);
    hide Do, Enabled, OneTurn, OwnCalls, Generations, NoneLost, Tasks, Bodies;
  }

  lemma CallerThrowsKeepsTurns(p: Pool, c: nat)
    requires Inv(p) && Enabled(p, CallerThrows(c))
    ensures var q := Do(p, CallerThrows(c)); OneTurn(q) && OwnCalls(q) && Generations(q) && NoneLost(q)
  {
    hide Tasks, Bodies, PendingIn;
  }

  lemma CallerThrowsKeepsWork(p: Pool, c: nat)
    requires Inv(p) && Enabled(p, CallerThrows(c))
    ensures var q := Do(p, CallerThrows(c)); Tasks(q) && Bodies(q)
  {
    hide NoneLost, PendingIn;
  }

  lemma AsksKeepsTurns(p: Pool, c: nat)
    requires Inv(p) && Enabled(p, Asks(c))
    ensures var q := Do(p, Asks(c)); OneTurn(q) && OwnCalls(q) && Generations(q) && NoneLost(q)
  {
    hide Tasks, Bodies, PendingIn;
    NonePending(p.workers, p.generation);
  }

  lemma AsksKeepsTasks(p: Pool, c: nat)
    requires Inv(p) && Enabled(p, Asks(c))
    ensures Tasks(Do(p, Asks(c)))
  {
    AsksTook(p, c);
    AsksInOrder(p, c);
    hide Do, Enabled, OneTurn, OwnCalls, Generations, NoneLost, CallersTook, TakenInOrder, Bodies;
  }

  lemma AsksTook(p: Pool, c: nat)
    requires Inv(p) && Enabled(p, Asks(c))
    ensures CallersTook(Do(p, Asks(c)))
  {
    hide NoneLost, PendingIn;
    NonePending(p.workers, p.generation);
  }

  lemma AsksInOrder(p: Pool, c: nat)
    requires Inv(p) && Enabled(p, Asks(c))
    ensures TakenInOrder(Do(p, Asks(c)))
  {
    hide NoneLost, PendingIn, Bodies, CallersTook;
  }

  lemma AsksKeepsBodies(p: Pool, c: nat)
    requires Inv(p) && Enabled(p, Asks(c))
    ensures Bodies(Do(p, Asks(c)))
  {
    hide NoneLost, PendingIn;
    NonePending(p.workers, p.generation);
  }

  lemma CallerWakesKeepsTurns(p: Pool, c: nat)
    requires Inv(p) && Enabled(p, CallerWakes(c))
    ensures var q := Do(p, CallerWakes(c)); OneTurn(q) && OwnCalls(q) && Generations(q) && NoneLost(q)
  {
    hide Tasks, Bodies, PendingIn;
  }

  lemma CallerWakesKeepsWork(p: Pool, c: nat)
    requires Inv(p) && Enabled(p, CallerWakes(c))
    ensures var q := Do(p, CallerWakes(c)); Tasks(q) && Bodies(q)
  {
    hide NoneLost, PendingIn;
  }

  lemma LeavesKeepsTurns(p: Pool, c: nat)
    requires Inv(p) && Enabled(p, Leaves(c))
    ensures var q := Do(p, Leaves(c)); OneTurn(q) && OwnCalls(q) && Generations(q) && NoneLost(q)
  {
    hide Tasks, Bodies, PendingIn;
  }

  lemma LeavesKeepsTasks(p: Pool, c: nat)
    requires Inv(p) && Enabled(p, Leaves(c))
    ensures Tasks(Do(p, Leaves(c)))
  {
    hide NoneLost, PendingIn;
  }

  lemma LeavesKeepsBodies(p: Pool, c: nat)
    requires Inv(p) && Enabled(p, Leaves(c))
    ensures Bodies(Do(p, Leaves(c)))
  {
    hide NoneLost, PendingIn;
  }

  lemma SetsStoppingKeeps(p: Pool)
    requires Inv(p) && Enabled(p, SetsStopping)
    ensures Inv(Do(p, SetsStopping))
  {
    hide PendingIn;
  }

  lemma NotifiesStopKeeps(p: Pool)
    requires Inv(p) && Enabled(p, NotifiesStop)
    ensures Inv(Do(p, NotifiesStop))
  {
    hide PendingIn;
    WakingKeepsPending(p.workers, p.generation);
  }

  lemma StepKeeps(p: Pool, a: Action)
    requires Inv(p) && Enabled(p, a)
    ensures Inv(Do(p, a))
  {
    hide OneTurn, OwnCalls, Generations, NoneLost, Tasks, Bodies;
    match a
    case WorkerTests(w) => WorkerTestsKeepsTurns(p, w); WorkerTestsKeepsWork(p, w);
    case WorkerWakes(w) => WorkerWakesKeeps(p, w);
    case WorkerClaims(w) => WorkerClaimsKeepsTurns(p, w); WorkerClaimsKeepsTasks(p, w); WorkerClaimsKeepsBodies(p, w);
    case WorkerReturns(w) => WorkerReturnsKeepsTurns(p, w); WorkerReturnsKeepsWork(p, w);
    case WorkerThrows(w) => WorkerThrowsKeeps(p, w);
    case WorkerFinishes(w, woken) =>
      WorkerFinishesKeepsTurns(p, w, woken);
      WorkerFinishesKeepsTasks(p, w, woken);
      WorkerFinishesKeepsBodies(p, w, woken);
    case Calls(c, size) =>
      if size == 0 {
        CallsNothingKeepsTurns(p, c, size);
        CallsNothingKeepsTasks(p, c, size);
        CallsNothingKeepsBodies(p, c, size);
      } else if size > 0 && (p.workers == [] || size == 1) {
        CallsInlineKeepsTurns(p, c, size);
        CallsInlineKeepsTasks(p, c, size);
        CallsInlineKeepsBodies(p, c, size);
      } else {
        CallsThePoolKeepsTurns(p, c, size);
        CallsThePoolKeepsTasks(p, c, size);
        CallsThePoolKeepsBodies(p, c, size);
      }
    case InlineReturns(c) =>
      if p.callers[c].task + 1 < p.sizes[p.callers[c].call] {
        InlineReturnsGoesOnKeepsTurns(p, c);
        InlineReturnsGoesOnKeepsTasks(p, c);
        InlineReturnsGoesOnKeepsBodies(p, c);
      } else {
        InlineReturnsEndsKeepsTurns(p, c);
        InlineReturnsEndsKeepsTasks(p, c);
        InlineReturnsEndsKeepsBodies(p, c);
      }
    case InlineThrows(c) => InlineThrowsKeepsTurns(p, c); InlineThrowsKeepsTasks(p, c); InlineThrowsKeepsBodies(p, c);
    case TakesTurn(c) => TakesTurnKeeps(p, c);
    case Publishes(c) => PublishesKeeps(p, c);
    case Notifies(c) => NotifiesKeepsTurns(p, c); NotifiesKeepsWork(p, c);
    case CallerClaims(c) => CallerClaimsKeepsTurns(p, c); CallerClaimsKeepsTasks(p, c); CallerClaimsKeepsBodies(p, c);
    case CallerReturns(c) => CallerReturnsKeepsTurns(p, c); CallerReturnsKeepsWork(p, c);
    case CallerThrows(c) => CallerThrowsKeeps(p, c);
    case Asks(c) => AsksKeepsTurns(p, c); AsksKeepsTasks(p, c); AsksKeepsBodies(p, c);
    case CallerWakes(c) => CallerWakesKeepsTurns(p, c); CallerWakesKeepsWork(p, c);
    case Leaves(c) => LeavesKeepsTurns(p, c); LeavesKeepsTasks(p, c); LeavesKeepsBodies(p, c);
    case SetsStopping => SetsStoppingKeeps(p);
    case NotifiesStop => NotifiesStopKeeps(p);
  }

  // ---- Every run ----

  ghost predicate Legal(p: Pool, run: seq<Action>) {
    run == [] || (Legal(p, run[..|run| - 1]) && Enabled(AfterRun(p, run[..|run| - 1]), run[|run| - 1]))
  }

  ghost function AfterRun(p: Pool, run: seq<Action>): Pool {
    if run == [] then p
    else
      var before := AfterRun(p, run[..|run| - 1]);
      if Enabled(before, run[|run| - 1]) then Do(before, run[|run| - 1]) else before
  }

  lemma StartKeeps(workers: nat, callers: nat)
    ensures Inv(Start(workers, callers))
  {
    NonePending(Start(workers, callers).workers, 0);
  }

  lemma {:induction false} RunKeeps(workers: nat, callers: nat, run: seq<Action>)
    requires Legal(Start(workers, callers), run)
    ensures Inv(AfterRun(Start(workers, callers), run))
    decreases |run|
  {
    hide Inv, Enabled, Do;
    if run == [] {
      StartKeeps(workers, callers);
    } else {
      RunKeeps(workers, callers, run[..|run| - 1]);
      StepKeeps(AfterRun(Start(workers, callers), run[..|run| - 1]), run[|run| - 1]);
    }
  }

  // A pool some run of `workers` threads and `callers` callers comes to.
  ghost predicate Reachable(p: Pool) {
    exists workers: nat, callers: nat, run: seq<Action> ::
      Legal(Start(workers, callers), run) && p == AfterRun(Start(workers, callers), run)
  }

  lemma ReachableKeeps(p: Pool)
    requires Reachable(p)
    ensures Inv(p)
  {
    hide Inv;
    var workers: nat, callers: nat, run: seq<Action> :|
      Legal(Start(workers, callers), run) && p == AfterRun(Start(workers, callers), run);
    RunKeeps(workers, callers, run);
  }

  // ---- Each task once, and all of them ----

  // The task a step starts, if it starts one.
  function Starts(p: Pool, a: Action): Option<(nat, nat)>
    requires Enabled(p, a)
  {
    match a
    case WorkerClaims(w) => if p.next < p.tasks then Some((p.workers[w].call, p.next)) else None
    case CallerClaims(c) => if p.next < p.tasks then Some((p.callers[c].call, p.next)) else None
    case Calls(c, size) => if size > 0 && (p.workers == [] || size == 1) then Some((|p.sizes|, 0)) else None
    case InlineReturns(c) =>
      var me := p.callers[c];
      if me.task + 1 < p.sizes[me.call] then Some((me.call, me.task + 1)) else None
    case _ => None
  }

  lemma StartsNew(p: Pool, a: Action)
    requires Inv(p) && Enabled(p, a)
    ensures Starts(p, a).Some? ==> Starts(p, a).value !in p.claims && Starts(p, a).value in Do(p, a).claims
    ensures forall started :: started in p.claims ==> started in Do(p, a).claims
  {
    hide NoneLost, Bodies, PendingIn;
  }

  lemma {:induction false} ClaimsGrow(p: Pool, run: seq<Action>, i: nat, j: nat)
    requires i <= j <= |run|
    ensures forall started :: started in AfterRun(p, run[..i]).claims ==> started in AfterRun(p, run[..j]).claims
    decreases j
  {
    if i < j {
      ClaimsGrow(p, run, i, j - 1);
      assert run[..j][..j - 1] == run[..j - 1];
      var before := AfterRun(p, run[..j - 1]);
      if Enabled(before, run[j - 1]) { ClaimsStep(before, run[j - 1]); }
      hide Do, Enabled;
    }
  }

  lemma ClaimsStep(p: Pool, a: Action)
    requires Enabled(p, a)
    ensures forall started :: started in p.claims ==> started in Do(p, a).claims
  {}

  // In no run is a task started twice.
  lemma NoTaskTwice(workers: nat, callers: nat, run: seq<Action>, i: nat, j: nat)
    requires Legal(Start(workers, callers), run) && i < j < |run|
    ensures var p := Start(workers, callers);
      && Enabled(AfterRun(p, run[..i]), run[i]) && Enabled(AfterRun(p, run[..j]), run[j])
      && (Starts(AfterRun(p, run[..i]), run[i]).Some? ==>
            Starts(AfterRun(p, run[..i]), run[i]) != Starts(AfterRun(p, run[..j]), run[j]))
  {
    hide Enabled, Do, Inv, Starts;
    var p := Start(workers, callers);
    LegalUpTo(p, run, i);
    LegalUpTo(p, run, j);
    RunKeeps(workers, callers, run[..i]);
    RunKeeps(workers, callers, run[..j]);
    StartsNew(AfterRun(p, run[..i]), run[i]);
    StartsNew(AfterRun(p, run[..j]), run[j]);
    assert run[..i + 1][..i] == run[..i];
    ClaimsGrow(p, run, i + 1, j);
  }

  lemma {:induction false} LegalUpTo(p: Pool, run: seq<Action>, n: nat)
    requires Legal(p, run) && n <= |run|
    ensures Legal(p, run[..n]) && (n < |run| ==> Enabled(AfterRun(p, run[..n]), run[n]))
    decreases |run|
  {
    hide Enabled, Do;
    if n < |run| {
      var l := |run| - 1;
      if n < l { LegalUpTo(p, run[..l], n); assert run[..l][..n] == run[..n]; }
    } else {
      assert run[..n] == run;
    }
  }

  // A Run that returned ran all its tasks; one that threw, or is still going, may not have.
  lemma ReturnedRanAll(p: Pool, call: nat)
    requires Reachable(p) && call in p.returned
    ensures AllDone(p, call) && call !in p.thrown
  {
    ReachableKeeps(p);
    hide Generations, NoneLost, Bodies;
  }

  // No thread can still call a body once its Run is over: a thread in a body, or about to take a task
  // for it, is of a call that has neither returned nor thrown.
  lemma NoBodyOutlivesItsRun(p: Pool, w: nat, c: nat)
    requires Reachable(p)
    ensures w < |p.workers| && (p.workers[w].Claiming? || p.workers[w].Working?) ==>
              p.workers[w].call !in p.returned && p.workers[w].call !in p.thrown
    ensures c < |p.callers| && p.callers[c].HasCall() ==>
              p.callers[c].call !in p.returned && p.callers[c].call !in p.thrown
  {
    ReachableKeeps(p);
    hide Tasks, NoneLost, Bodies;
    if w < |p.workers| && (p.workers[w].Claiming? || p.workers[w].Working?) {
      assert WorkerFits(p, p.workers[w]);
    }
  }

  // ---- The generation ----

  // `running` is the workers that have yet to finish the current generation.
  lemma RunningIsPending(p: Pool)
    requires Reachable(p)
    ensures p.running == |PendingIn(p.workers, p.generation)|
  {
    ReachableKeeps(p);
  }

  // A worker that starts on a generation starts on the one after the last it saw.
  lemma NoGenerationSkipped(p: Pool, w: nat)
    requires Reachable(p) && Enabled(p, WorkerTests(w))
    ensures var after := Do(p, WorkerTests(w)).workers[w];
            after.Claiming? ==> after.seen == p.workers[w].seen + 1 && p.body == Some(after.call)
  {
    ReachableKeeps(p);
    assert WorkerFits(p, p.workers[w]);
    hide Tasks, NoneLost, Bodies, OwnCalls;
  }

  // ---- Nothing waits for ever ----

  // Some thread inside the pool's own code or a body can take a step.
  ghost predicate CanMove(p: Pool, a: Action) {
    Enabled(p, a) && !a.WorkerWakes? && !a.CallerWakes? && !a.Calls? && !a.SetsStopping?
  }

  // While any caller is inside Run, some step other than a chance wake-up is open: a body returns, or
  // a thread is on its way. No notification was lost.
  lemma SomeThreadMoves(p: Pool, c: nat) returns (a: Action)
    requires Reachable(p) && c < |p.callers| && !p.callers[c].Idle?
    ensures CanMove(p, a)
  {
    ReachableKeeps(p);
    hide Tasks, Bodies;
    if p.turn.None? {
      a := if p.callers[c].Wanting? then TakesTurn(c) else InlineReturns(c);
    } else {
      a := HolderMoves(p);
    }
  }

  lemma HolderMoves(p: Pool) returns (a: Action)
    requires Inv(p) && p.turn.Some?
    ensures CanMove(p, a)
  {
    hide Tasks, Bodies;
    var h := p.turn.value;
    match p.callers[h]
    case Publishing(_) => a := Publishes(h);
    case Notifying(_) => a := Notifies(h);
    case Draining(_) => a := CallerClaims(h);
    case Running(_, _) => a := CallerReturns(h);
    case Asking(_) => a := Asks(h);
    case Leaving(_, _) => a := Leaves(h);
    case AsleepDone(_) => a := WorkerMoves(p, h);
  }

  // With its caller parked, a worker has yet to finish, and none of those is parked.
  lemma WorkerMoves(p: Pool, h: nat) returns (a: Action)
    requires Inv(p) && h < |p.callers| && p.turn == Some(h) && p.callers[h].AsleepDone?
    ensures CanMove(p, a)
  {
    NonePending(p.workers, p.generation);
    hide Tasks, Bodies, PendingIn, OwnCalls;
    var w: nat :| w < |p.workers| && Pending(p.workers[w], p.generation);
    assert WorkerFits(p, p.workers[w]);
    match p.workers[w]
    case Testing(_) => a := WorkerTests(w);
    case Claiming(_, _) => a := WorkerClaims(w);
    case Working(_, _, _) => a := WorkerReturns(w);
    case Finishing(_) =>
      a := WorkerFinishes(w, if p.running == 1 then Some(h) else None);
    case Asleep(_) =>
      assert false;
  }

  // Once stopping is told, no worker stays parked, and each that looks returns.
  lemma EveryWorkerIsTold(p: Pool, w: nat)
    requires Reachable(p) && p.stopping.Notified? && w < |p.workers|
    ensures p.workers[w].Exited? || (p.workers[w].Testing? && Do(p, WorkerTests(w)).workers[w].Exited?)
  {
    ReachableKeeps(p);
    hide Tasks, Bodies, OwnCalls;
    assert WorkerFits(p, p.workers[w]);
  }
}
