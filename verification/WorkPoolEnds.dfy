// That every Run ends: WorkPool::Run, src/work_pool.cc. Once bodies return, each step but a chance wake-up
// brings the pool nearer to having no call inside it.

module WorkPoolEnds {
  import opened WorkPool
  import opened WorkPoolIndices

  // ---- How much there is left to do ----

  // What a thread may still do for the generation it is in or has yet to see.
  function WorkerLeft(w: Worker, generation: nat): nat {
    match w
    case Asleep(seen) => if seen == generation then 0 else 7
    case Testing(seen) => if seen == generation then 1 else 6
    case Claiming(_, _) => 4
    case Working(_, _, _) => 5
    case Finishing(_) => 3
    case Exited => 0
  }

  function WorkersLeft(workers: seq<Worker>, generation: nat): nat {
    if workers == [] then 0
    else WorkersLeft(workers[..|workers| - 1], generation) + WorkerLeft(workers[|workers| - 1], generation)
  }

  // What a caller still has before it, its own tasks included until they are handed out.
  function CallerLeft(c: Caller, sizes: seq<nat>, workers: nat): nat {
    match c
    case Idle => 0
    case Inline(call, task) => if call < |sizes| && task < sizes[call] then sizes[call] - task else 1
    case Wanting(call) => 8 * workers + 8 + if call < |sizes| then 2 * sizes[call] else 0
    case Publishing(call) => 8 * workers + 7 + if call < |sizes| then 2 * sizes[call] else 0
    case Notifying(_) => workers + 5
    case Draining(_) => 4
    case Running(_, _) => 5
    case Asking(_) => 2
    case AsleepDone(_) => 1
    case Leaving(_, _) => 1
  }

  function CallersLeft(callers: seq<Caller>, sizes: seq<nat>, workers: nat): nat {
    if callers == [] then 0
    else CallersLeft(callers[..|callers| - 1], sizes, workers) + CallerLeft(callers[|callers| - 1], sizes, workers)
  }

  function TasksLeft(p: Pool): nat {
    if p.next < p.tasks then 2 * (p.tasks - p.next) else 0
  }

  function StoppingLeft(p: Pool): nat {
    match p.stopping
    case No => |p.workers| + 2
    case FlagSet => |p.workers| + 1
    case Notified => 0
  }

  function Left(p: Pool): nat {
    WorkersLeft(p.workers, p.generation) + CallersLeft(p.callers, p.sizes, |p.workers|) + TasksLeft(p) + StoppingLeft(p)
  }

  // ---- How it changes with one thread ----

  lemma {:induction false} OneWorker(workers: seq<Worker>, w: nat, now: Worker, generation: nat)
    requires w < |workers|
    ensures WorkersLeft(workers[w := now], generation) + WorkerLeft(workers[w], generation)
         == WorkersLeft(workers, generation) + WorkerLeft(now, generation)
    decreases |workers|
  {
    hide WorkerLeft;
    var l := |workers| - 1;
    if w < l {
      OneWorker(workers[..l], w, now, generation);
      assert workers[w := now][..l] == workers[..l][w := now];
    } else {
      assert workers[w := now][..l] == workers[..l];
    }
  }

  lemma {:induction false} OneCaller(callers: seq<Caller>, c: nat, now: Caller, sizes: seq<nat>, workers: nat)
    requires c < |callers|
    ensures CallersLeft(callers[c := now], sizes, workers) + CallerLeft(callers[c], sizes, workers)
         == CallersLeft(callers, sizes, workers) + CallerLeft(now, sizes, workers)
    decreases |callers|
  {
    hide CallerLeft;
    var l := |callers| - 1;
    if c < l {
      OneCaller(callers[..l], c, now, sizes, workers);
      assert callers[c := now][..l] == callers[..l][c := now];
    } else {
      assert callers[c := now][..l] == callers[..l];
    }
  }

  lemma {:induction false} AllWoken(workers: seq<Worker>, generation: nat)
    ensures WorkersLeft(WakeAll(workers), generation) <= WorkersLeft(workers, generation) + |workers|
    decreases |workers|
  {
    if workers != [] {
      var l := |workers| - 1;
      AllWoken(workers[..l], generation);
      assert WakeAll(workers)[..l] == WakeAll(workers[..l]);
      hide WorkersLeft;
      assert WorkerLeft(Wake(workers[l]), generation) <= WorkerLeft(workers[l], generation) + 1;
    }
  }

  lemma {:induction false} NewGeneration(workers: seq<Worker>, generation: nat)
    ensures WorkersLeft(workers, generation + 1) <= WorkersLeft(workers, generation) + 7 * |workers|
    decreases |workers|
  {
    if workers != [] { NewGeneration(workers[..|workers| - 1], generation); }
  }

  // ---- Every step ----

  lemma WorkerStepFalls(p: Pool, a: Action, w: nat)
    requires Inv(p) && CanMove(p, a)
    requires a == WorkerTests(w) || a == WorkerClaims(w) || a == WorkerReturns(w) || a == WorkerThrows(w)
    ensures Left(Do(p, a)) < Left(p)
  {
    hide OneTurn, OwnCalls, NoneLost, Tasks, Bodies, PendingIn, WorkersLeft, CallersLeft;
    OneWorker(p.workers, w, Do(p, a).workers[w], p.generation);
  }

  lemma WorkerFinishFalls(p: Pool, a: Action)
    requires Inv(p) && CanMove(p, a) && a.WorkerFinishes?
    ensures Left(Do(p, a)) < Left(p)
  {
    hide OneTurn, OwnCalls, NoneLost, Tasks, Bodies, PendingIn, WorkersLeft, CallersLeft;
    assert WorkerFits(p, p.workers[a.w]);
    OneWorker(p.workers, a.w, Do(p, a).workers[a.w], p.generation);
    if a.woken.Some? {
      OneCaller(p.callers, a.woken.value, Do(p, a).callers[a.woken.value], p.sizes, |p.workers|);
    }
  }

  lemma InlineStepFalls(p: Pool, a: Action, c: nat)
    requires Enabled(p, a) && (a == InlineReturns(c) || a == InlineThrows(c))
    requires Taken(p, p.callers[c])
    ensures Left(Do(p, a)) < Left(p)
  {
    hide WorkersLeft, CallersLeft, WorkerLeft;
    OneCaller(p.callers, c, Do(p, a).callers[c], p.sizes, |p.workers|);
  }

  lemma PooledStepFalls(p: Pool, a: Action, c: nat)
    requires Enabled(p, a)
    requires a == TakesTurn(c) || a == CallerReturns(c) || a == CallerThrows(c) || a == Asks(c) || a == Leaves(c)
    ensures Left(Do(p, a)) < Left(p)
  {
    hide WorkersLeft, CallersLeft, WorkerLeft;
    OneCaller(p.callers, c, Do(p, a).callers[c], p.sizes, |p.workers|);
  }

  lemma ClaimFalls(p: Pool, c: nat)
    requires Enabled(p, CallerClaims(c))
    ensures Left(Do(p, CallerClaims(c))) < Left(p)
  {
    hide WorkersLeft, CallersLeft, WorkerLeft;
    OneCaller(p.callers, c, Do(p, CallerClaims(c)).callers[c], p.sizes, |p.workers|);
  }

  lemma TookOfIt(p: Pool, c: nat)
    requires Inv(p) && c < |p.callers|
    ensures Taken(p, p.callers[c])
  {
    hide OneTurn, OwnCalls, Generations, NoneLost, TakenInOrder, Bodies, Taken;
  }

  lemma PublishFalls(p: Pool, c: nat)
    requires Enabled(p, Publishes(c))
    ensures Left(Do(p, Publishes(c))) < Left(p)
  {
    hide WorkersLeft, CallersLeft, WorkerLeft;
    OneCaller(p.callers, c, Do(p, Publishes(c)).callers[c], p.sizes, |p.workers|);
    NewGeneration(p.workers, p.generation);
  }

  lemma NotifyFalls(p: Pool, c: nat)
    requires Enabled(p, Notifies(c))
    ensures Left(Do(p, Notifies(c))) < Left(p)
  {
    hide WorkersLeft, CallersLeft, WorkerLeft, WakeAll;
    OneCaller(p.callers, c, Do(p, Notifies(c)).callers[c], p.sizes, |p.workers|);
    AllWoken(p.workers, p.generation);
  }

  lemma StopFalls(p: Pool)
    requires Enabled(p, NotifiesStop)
    ensures Left(Do(p, NotifiesStop)) < Left(p)
  {
    hide WorkersLeft, CallersLeft, WorkerLeft, WakeAll;
    AllWoken(p.workers, p.generation);
  }

  // Every step that is no new call and no chance wake-up leaves less to do.
  lemma StepFalls(p: Pool, a: Action)
    requires Inv(p) && CanMove(p, a)
    ensures Left(Do(p, a)) < Left(p)
  {
    hide Inv, Left;
    match a
    case WorkerTests(w) => WorkerStepFalls(p, a, w);
    case WorkerClaims(w) => WorkerStepFalls(p, a, w);
    case WorkerReturns(w) => WorkerStepFalls(p, a, w);
    case WorkerThrows(w) => WorkerStepFalls(p, a, w);
    case WorkerFinishes(_, _) => WorkerFinishFalls(p, a);
    case InlineReturns(c) => TookOfIt(p, c); InlineStepFalls(p, a, c);
    case InlineThrows(c) => TookOfIt(p, c); InlineStepFalls(p, a, c);
    case TakesTurn(c) => PooledStepFalls(p, a, c);
    case Publishes(c) => PublishFalls(p, c);
    case Notifies(c) => NotifyFalls(p, c);
    case CallerClaims(c) => ClaimFalls(p, c);
    case CallerReturns(c) => PooledStepFalls(p, a, c);
    case CallerThrows(c) => PooledStepFalls(p, a, c);
    case Asks(c) => PooledStepFalls(p, a, c);
    case Leaves(c) => PooledStepFalls(p, a, c);
    case NotifiesStop => StopFalls(p);
  }

  // A chance wake-up adds one step at most.
  lemma ChanceAddsOne(p: Pool, a: Action)
    requires Enabled(p, a) && (a.WorkerWakes? || a.CallerWakes?)
    ensures Left(Do(p, a)) <= Left(p) + 1
  {
    hide WorkersLeft, CallersLeft;
    if a.WorkerWakes? {
      OneWorker(p.workers, a.w, Do(p, a).workers[a.w], p.generation);
    } else {
      OneCaller(p.callers, a.c, Do(p, a).callers[a.c], p.sizes, |p.workers|);
    }
  }

  // ---- Every call ends ----

  // A run in which nobody calls Run anew and the pool is not told to stop.
  ghost predicate GoesOn(run: seq<Action>) {
    NoCalls(run) && forall k :: 0 <= k < |run| ==> !run[k].SetsStopping?
  }

  function Chances(run: seq<Action>): nat {
    if run == [] then 0
    else
      var last := run[|run| - 1];
      Chances(run[..|run| - 1]) + if last.WorkerWakes? || last.CallerWakes? then 1 else 0
  }

  lemma StepIsReachable(p: Pool, a: Action)
    requires Reachable(p) && Enabled(p, a)
    ensures Reachable(Do(p, a))
  {
    hide Legal, AfterRun, Do, Enabled;
    var workers: nat, callers: nat, run: seq<Action> :|
      Legal(Start(workers, callers), run) && p == AfterRun(Start(workers, callers), run);
    OneMoreStep(Start(workers, callers), run, a);
  }

  // However it is scheduled, a pool that nobody calls anew takes no more steps than `Left` and two for each
  // chance wake-up.
  lemma {:induction false} RunsAreBounded(p: Pool, more: seq<Action>)
    requires Reachable(p) && Legal(p, more) && GoesOn(more)
    ensures Reachable(AfterRun(p, more)) && |more| + Left(AfterRun(p, more)) <= Left(p) + 2 * Chances(more)
    decreases |more|
  {
    hide Left, Do, Enabled, Reachable;
    if more != [] {
      var l := |more| - 1;
      RunsAreBounded(p, more[..l]);
      var q := AfterRun(p, more[..l]);
      StepIsReachable(q, more[l]);
      if more[l].WorkerWakes? || more[l].CallerWakes? {
        ChanceAddsOne(q, more[l]);
      } else {
        ReachableKeeps(q);
        StepFalls(q, more[l]);
      }
    }
  }

  // Every call ends: once no step but a chance wake-up is open, which is so after at most that many steps,
  // nobody is inside Run any more.
  lemma EveryCallEnds(p: Pool, more: seq<Action>)
    requires Reachable(p) && Legal(p, more) && GoesOn(more)
    ensures |more| <= Left(p) + 2 * Chances(more)
    ensures var q := AfterRun(p, more);
            (forall a :: !CanMove(q, a)) ==> forall c :: 0 <= c < |q.callers| ==> q.callers[c].Idle?
  {
    hide Left, CanMove, Reachable, Legal, AfterRun;
    RunsAreBounded(p, more);
    var q := AfterRun(p, more);
    forall c | 0 <= c < |q.callers| && (forall a :: !CanMove(q, a)) ensures q.callers[c].Idle? {
      if !q.callers[c].Idle? { var a := SomeThreadMoves(q, c); }
    }
  }
}
