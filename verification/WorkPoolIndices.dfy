// Whether two bodies of a WorkPool ever run at once under one worker index: WorkPool::Run,
// src/work_pool.cc, and what src/work_pool.h promises of it.

module WorkPoolIndices {
  import opened Wrappers
  import opened WorkPool

  // ---- Worker indices ----

  function Index(x: Thread): nat {
    match x
    case PoolThread(w) => w + 1
    case CallerThread(_) => 0
  }

  // Two bodies running at once under one worker index.
  ghost predicate SharesIndex(p: Pool) {
    exists x: Thread, y: Thread, k: nat, t: nat, l: nat, u: nat ::
      x != y && Runs(p, x, k, t) && Runs(p, y, l, u) && Index(x) == Index(y)
  }

  // A Run of one task, or on a pool of no threads, runs its body while another caller's body runs.
  ghost predicate InlineOverlaps(p: Pool) {
    exists c, d :: 0 <= c < |p.callers| && 0 <= d < |p.callers| && c != d && p.callers[c].Inline?
                   && (p.callers[d].Inline? || p.callers[d].Running?)
  }

  // Two bodies share a worker index exactly when an inline Run overlaps another: the bodies of the
  // pool's own Runs never do.
  lemma SharedOnlyInline(p: Pool)
    requires Reachable(p)
    ensures SharesIndex(p) <==> InlineOverlaps(p)
  {
    ReachableKeeps(p);
    hide *;
    TurnIsOne(p);
    if InlineOverlaps(p) { OverlapShares(p); }
    if SharesIndex(p) { SharedOverlaps(p); }
  }

  lemma OverlapShares(p: Pool)
    requires InlineOverlaps(p)
    ensures SharesIndex(p)
  {
    var c: nat, d: nat :| c < |p.callers| && d < |p.callers| && c != d && p.callers[c].Inline?
                          && (p.callers[d].Inline? || p.callers[d].Running?);
    assert Runs(p, CallerThread(c), p.callers[c].call, p.callers[c].task);
    assert Runs(p, CallerThread(d), p.callers[d].call, p.callers[d].task);
    assert Index(CallerThread(c)) == Index(CallerThread(d));
  }

  lemma SharedOverlaps(p: Pool)
    requires SharesIndex(p)
    requires forall c, d ::
      0 <= c < |p.callers| && 0 <= d < |p.callers| && p.callers[c].Running? && p.callers[d].Running? ==> c == d
    ensures InlineOverlaps(p)
  {
    var x: Thread, y: Thread, k: nat, t: nat, l: nat, u: nat :|
      x != y && Runs(p, x, k, t) && Runs(p, y, l, u) && Index(x) == Index(y);
    assert x.CallerThread? && y.CallerThread?;
    if p.callers[x.c].Inline? {
      assert p.callers[y.c].Inline? || p.callers[y.c].Running?;
    } else {
      assert p.callers[y.c].Inline?;
    }
  }

  lemma TurnIsOne(p: Pool)
    requires Inv(p)
    ensures forall c, d ::
      0 <= c < |p.callers| && 0 <= d < |p.callers| && p.callers[c].Running? && p.callers[d].Running? ==> c == d
  {}

  // The promise that no two bodies running at once share an index does not hold of every run: two
  // callers of one task each both run it as worker 0.
  lemma TwoInlineRunsShare()
    ensures var run := [Calls(0, 1), Calls(1, 1)];
            Legal(Start(1, 2), run) && SharesIndex(AfterRun(Start(1, 2), run))
  {
    var run := [Calls(0, 1), Calls(1, 1)];
    var p0 := Start(1, 2);
    assert run[..2][..1] == run[..1] == [Calls(0, 1)] && run[..1][..0] == [];
    var p1 := Do(p0, Calls(0, 1));
    assert AfterRun(p0, run[..1]) == p1;
    var p2 := Do(p1, Calls(1, 1));
    assert AfterRun(p0, run) == p2;
    assert Runs(p2, CallerThread(0), 0, 0) && Runs(p2, CallerThread(1), 1, 0);
    assert Index(CallerThread(0)) == Index(CallerThread(1));
  }

  // ---- When the promise holds ----

  // A Run of so many tasks is run by its caller alone.
  predicate RunsInline(workers: nat, size: nat) {
    size > 0 && (workers == 0 || size == 1)
  }

  // What callers can know of one another: how many tasks each one inside Run asked for, 0 for one outside.
  ghost function Inside(p: Pool): (inside: seq<nat>)
    ensures |inside| == |p.callers|
  {
    seq(|p.callers|, c requires 0 <= c < |p.callers| =>
      if p.callers[c].HasCall() && p.callers[c].call < |p.sizes| then p.sizes[p.callers[c].call] else 0)
  }

  // A Run may begin: no inline Run is under way, and if it is one itself nobody is inside.
  predicate KeepsApart(workers: nat, inside: seq<nat>, size: nat) {
    size == 0
    || ((forall d :: 0 <= d < |inside| ==> !RunsInline(workers, inside[d]))
        && (RunsInline(workers, size) ==> forall d :: 0 <= d < |inside| ==> inside[d] == 0))
  }

  ghost predicate AllKeptApart(p: Pool, run: seq<Action>) {
    forall k :: 0 <= k < |run| && run[k].Calls? ==>
      KeepsApart(|p.workers|, Inside(AfterRun(p, run[..k])), run[k].size)
  }

  ghost predicate NoCalls(run: seq<Action>) {
    forall k :: 0 <= k < |run| ==> !run[k].Calls?
  }

  // An inline Run's caller runs it inline, no other does, and every call asked for something.
  ghost predicate KindsFit(p: Pool) {
    forall c :: 0 <= c < |p.callers| && p.callers[c].HasCall() ==>
      && p.callers[c].call < |p.sizes| && p.sizes[p.callers[c].call] > 0
      && (p.callers[c].Inline? <==> RunsInline(|p.workers|, p.sizes[p.callers[c].call]))
  }

  // While one runs inline, nobody else is inside.
  ghost predicate InlineAlone(p: Pool) {
    forall c, d :: 0 <= c < |p.callers| && 0 <= d < |p.callers| && c != d && p.callers[c].Inline? ==> p.callers[d].Idle?
  }

  lemma KindsStay(p: Pool, a: Action)
    requires KindsFit(p) && Enabled(p, a)
    ensures KindsFit(Do(p, a)) && |Do(p, a).workers| == |p.workers| && |Do(p, a).callers| == |p.callers|
  {
    hide KindsFit, Enabled, Do;
    if a.WorkerTests? || a.WorkerWakes? || a.WorkerClaims? || a.WorkerReturns? || a.WorkerThrows? || a.WorkerFinishes? {
      KindsStayForWorkers(p, a);
    } else if a.Calls? || a.InlineReturns? || a.InlineThrows? {
      KindsStayInline(p, a);
    } else {
      KindsStayPooled(p, a);
    }
  }

  lemma KindsStayForWorkers(p: Pool, a: Action)
    requires KindsFit(p) && Enabled(p, a)
    requires a.WorkerTests? || a.WorkerWakes? || a.WorkerClaims? || a.WorkerReturns? || a.WorkerThrows?
         || a.WorkerFinishes?
    ensures KindsFit(Do(p, a)) && |Do(p, a).workers| == |p.workers| && |Do(p, a).callers| == |p.callers|
  {
    hide RunsInline;
  }

  lemma KindsStayInline(p: Pool, a: Action)
    requires KindsFit(p) && Enabled(p, a) && (a.Calls? || a.InlineReturns? || a.InlineThrows?)
    ensures KindsFit(Do(p, a)) && |Do(p, a).workers| == |p.workers| && |Do(p, a).callers| == |p.callers|
  {}

  lemma KindsStayPooled(p: Pool, a: Action)
    requires KindsFit(p) && Enabled(p, a) && !a.Calls? && !a.InlineReturns? && !a.InlineThrows?
    requires !(a.WorkerTests? || a.WorkerWakes? || a.WorkerClaims? || a.WorkerReturns? || a.WorkerThrows?
               || a.WorkerFinishes?)
    ensures KindsFit(Do(p, a)) && |Do(p, a).workers| == |p.workers| && |Do(p, a).callers| == |p.callers|
  {
    hide RunsInline, Wake;
  }

  lemma InlineStaysAlone(p: Pool, a: Action)
    requires InlineAlone(p) && KindsFit(p) && Enabled(p, a)
    requires a.Calls? ==> KeepsApart(|p.workers|, Inside(p), a.size)
    ensures InlineAlone(Do(p, a))
  {
    if a.Calls? { CallStaysAlone(p, a); } else { hide KindsFit, Inside, KeepsApart, Wake; }
  }

  lemma CallStaysAlone(p: Pool, a: Action)
    requires InlineAlone(p) && KindsFit(p) && Enabled(p, a) && a.Calls? && KeepsApart(|p.workers|, Inside(p), a.size)
    ensures InlineAlone(Do(p, a))
  {
    if a.size > 0 {
      forall d | 0 <= d < |p.callers| ensures !p.callers[d].Inline? {
        assert !RunsInline(|p.workers|, Inside(p)[d]);
      }
      if RunsInline(|p.workers|, a.size) {
        forall d | 0 <= d < |p.callers| ensures p.callers[d].Idle? { assert Inside(p)[d] == 0; }
      }
    }
  }

  lemma {:induction false} KeptApart(workers: nat, callers: nat, run: seq<Action>)
    requires Legal(Start(workers, callers), run) && AllKeptApart(Start(workers, callers), run)
    ensures var p := AfterRun(Start(workers, callers), run);
            InlineAlone(p) && KindsFit(p) && |p.workers| == workers && |p.callers| == callers
    decreases |run|
  {
    hide Enabled, Do, KeepsApart, InlineAlone, KindsFit, Inside;
    var p := Start(workers, callers);
    if run == [] {
      NoneInside(workers, callers);
    } else {
      var l := |run| - 1;
      FewerKept(p, run, l);
      KeptApart(workers, callers, run[..l]);
      KindsStay(AfterRun(p, run[..l]), run[l]);
      InlineStaysAlone(AfterRun(p, run[..l]), run[l]);
    }
  }

  lemma FewerKept(p: Pool, run: seq<Action>, n: nat)
    requires n <= |run| && AllKeptApart(p, run)
    ensures AllKeptApart(p, run[..n])
  {
    hide KeepsApart, Inside, AfterRun;
    forall k | 0 <= k < n && run[..n][k].Calls?
      ensures KeepsApart(|p.workers|, Inside(AfterRun(p, run[..n][..k])), run[..n][k].size)
    {
      assert run[..n][..k] == run[..k];
    }
  }

  lemma NoneInside(workers: nat, callers: nat)
    ensures var p := Start(workers, callers);
            InlineAlone(p) && KindsFit(p) && |p.workers| == workers && |p.callers| == callers
  {}

  // Callers that keep apart never share an index.
  lemma NoneSharesWhenKeptApart(workers: nat, callers: nat, run: seq<Action>)
    requires Legal(Start(workers, callers), run) && AllKeptApart(Start(workers, callers), run)
    ensures !SharesIndex(AfterRun(Start(workers, callers), run))
  {
    KeptApart(workers, callers, run);
    SharedOnlyInline(AfterRun(Start(workers, callers), run));
    hide SharesIndex;
  }

  // ---- And only then ----

  // A call of this size, made while just these are inside, shares no index in any run so far kept apart and
  // however it goes on, short of other calls.
  ghost predicate Safe(workers: nat, callers: nat, inside: seq<nat>, c: nat, size: nat) {
    forall run: seq<Action>, more: seq<Action> ::
      Begins(workers, callers, inside, run) && NoCalls(more)
      && Legal(Start(workers, callers), run + [Calls(c, size)] + more) ==>
        !SharesIndex(AfterRun(Start(workers, callers), run + [Calls(c, size)] + more))
  }

  ghost predicate Begins(workers: nat, callers: nat, inside: seq<nat>, run: seq<Action>) {
    && Legal(Start(workers, callers), run) && AllKeptApart(Start(workers, callers), run)
    && Inside(AfterRun(Start(workers, callers), run)) == inside
  }

  lemma OneMoreStep(p: Pool, run: seq<Action>, a: Action)
    requires Legal(p, run) && Enabled(AfterRun(p, run), a)
    ensures Legal(p, run + [a]) && AfterRun(p, run + [a]) == Do(AfterRun(p, run), a)
  {
    hide Do;
    assert (run + [a])[..|run|] == run;
  }

  lemma OneMoreKept(p: Pool, run: seq<Action>, a: Action)
    requires AllKeptApart(p, run) && (a.Calls? ==> KeepsApart(|p.workers|, Inside(AfterRun(p, run)), a.size))
    ensures AllKeptApart(p, run + [a])
  {
    hide KeepsApart, Inside, AfterRun;
    var longer := run + [a];
    forall k | 0 <= k < |longer| && longer[k].Calls?
      ensures KeepsApart(|p.workers|, Inside(AfterRun(p, longer[..k])), longer[k].size)
    {
      if k < |run| { assert longer[..k] == run[..k]; } else { assert longer[..k] == run; }
    }
  }

  lemma {:induction false} StillKept(p: Pool, run: seq<Action>, more: seq<Action>)
    requires AllKeptApart(p, run) && NoCalls(more)
    ensures AllKeptApart(p, run + more)
    decreases |more|
  {
    if more == [] {
      assert run + more == run;
    } else {
      var l := |more| - 1;
      StillKept(p, run, more[..l]);
      OneMoreKept(p, run + more[..l], more[l]);
      assert run + more == run + more[..l] + [more[l]];
    }
  }

  lemma KeptIsSafe(workers: nat, callers: nat, inside: seq<nat>, c: nat, size: nat)
    requires KeepsApart(workers, inside, size)
    ensures Safe(workers, callers, inside, c, size)
  {
    hide SharesIndex, KeepsApart, Inside, AfterRun, Legal;
    var p := Start(workers, callers);
    forall run: seq<Action>, more: seq<Action>
      | Begins(workers, callers, inside, run) && NoCalls(more) && Legal(p, run + [Calls(c, size)] + more)
      ensures !SharesIndex(AfterRun(p, run + [Calls(c, size)] + more))
    {
      OneMoreKept(p, run, Calls(c, size));
      StillKept(p, run + [Calls(c, size)], more);
      NoneSharesWhenKeptApart(workers, callers, run + [Calls(c, size)] + more);
    }
  }

  // The four steps from waiting for a turn to running the first task of one's own call.
  function Proceeding(c: nat): seq<Action> {
    [TakesTurn(c), Publishes(c), Notifies(c), CallerClaims(c)]
  }

  // Nobody else moves meanwhile.
  ghost predicate OnlyMoves(p: Pool, q: Pool, c: nat) {
    && |q.callers| == |p.callers| && |q.workers| == |p.workers| && q.sizes == p.sizes && q.stopping == p.stopping
    && forall d :: 0 <= d < |p.callers| && d != c ==> q.callers[d] == p.callers[d]
  }

  lemma Proceeds(p: Pool, run: seq<Action>, c: nat)
    requires Legal(p, run)
    requires var q := AfterRun(p, run);
             c < |q.callers| && q.callers[c].Wanting? && q.turn.None? && q.callers[c].call < |q.sizes|
             && q.sizes[q.callers[c].call] > 0
    ensures Legal(p, run + Proceeding(c))
    ensures var q, r := AfterRun(p, run), AfterRun(p, run + Proceeding(c));
            OnlyMoves(q, r, c) && r.callers[c] == Running(q.callers[c].call, 0)
  {
    hide Legal, AfterRun, Do, Enabled;
    var q := AfterRun(p, run);
    Takes(q, c);
    OneMoreStep(p, run, TakesTurn(c));
    OneMoreStep(p, run + [TakesTurn(c)], Publishes(c));
    OneMoreStep(p, run + [TakesTurn(c)] + [Publishes(c)], Notifies(c));
    OneMoreStep(p, run + [TakesTurn(c)] + [Publishes(c)] + [Notifies(c)], CallerClaims(c));
    assert run + Proceeding(c) == run + [TakesTurn(c)] + [Publishes(c)] + [Notifies(c)] + [CallerClaims(c)];
  }

  lemma Takes(q: Pool, c: nat)
    requires c < |q.callers| && q.callers[c].Wanting? && q.turn.None? && q.callers[c].call < |q.sizes|
    requires q.sizes[q.callers[c].call] > 0
    ensures Enabled(q, TakesTurn(c))
    ensures var q1 := Do(q, TakesTurn(c)); Enabled(q1, Publishes(c))
    ensures var q1 := Do(q, TakesTurn(c)); var q2 := Do(q1, Publishes(c)); Enabled(q2, Notifies(c))
    ensures var q1 := Do(q, TakesTurn(c)); var q2 := Do(q1, Publishes(c)); var q3 := Do(q2, Notifies(c));
            Enabled(q3, CallerClaims(c))
    ensures var q1 := Do(q, TakesTurn(c)); var q2 := Do(q1, Publishes(c)); var q3 := Do(q2, Notifies(c));
            var q4 := Do(q3, CallerClaims(c));
            OnlyMoves(q, q4, c) && q4.callers[c] == Running(q.callers[c].call, 0)
  {
    hide Wake;
  }

  // Some pooled Runs that may all be under way: caller d running the first task of its own, the rest waiting.
  ghost predicate AllPooled(workers: nat, inside: seq<nat>) {
    workers > 0 && forall e :: 0 <= e < |inside| ==> inside[e] != 1
  }

  ghost predicate Waiting(p: Pool, inside: seq<nat>, d: nat, n: nat) {
    && |p.callers| == |inside| && d < |inside| && p.stopping.No?
    && p.callers[d].Running? && p.callers[d].call < |p.sizes| && p.sizes[p.callers[d].call] == inside[d]
    && forall e :: 0 <= e < |inside| && e != d ==>
         if e < n && inside[e] > 0
         then p.callers[e].Wanting? && p.callers[e].call < |p.sizes| && p.sizes[p.callers[e].call] == inside[e]
         else p.callers[e].Idle?
  }

  lemma FirstRuns(workers: nat, inside: seq<nat>, d: nat)
    requires AllPooled(workers, inside) && d < |inside| && inside[d] > 0
    ensures var p, run := Start(workers, |inside|), [Calls(d, inside[d])] + Proceeding(d);
      Legal(p, run) && AllKeptApart(p, run) && Waiting(AfterRun(p, run), inside, d, 0)
          && |AfterRun(p, run).workers| == workers
  {
    var p, call := Start(workers, |inside|), Calls(d, inside[d]);
    assert [] + [call] == [call];
    NobodyInside(workers, |inside|);
    OneMoreStep(p, [], call);
    OneMoreKept(p, [], call);
    hide AfterRun, Legal, Inside, KeepsApart, AllKeptApart;
    assert AfterRun(p, []) == p && Legal(p, []) by { NoRun(p); }
    Proceeds(p, [call], d);
    StillKept(p, [call], Proceeding(d));
  }

  lemma NoRun(p: Pool)
    ensures AfterRun(p, []) == p && Legal(p, []) && AllKeptApart(p, [])
  {}

  lemma NobodyInside(workers: nat, callers: nat)
    ensures forall d :: 0 <= d < callers ==> Inside(Start(workers, callers))[d] == 0
  {}

  lemma NextWaits(p: Pool, inside: seq<nat>, d: nat, n: nat)
    requires AllPooled(|p.workers|, inside) && Waiting(p, inside, d, n) && n < |inside|
    ensures n == d || inside[n] == 0 ==> Waiting(p, inside, d, n + 1)
    ensures n != d && inside[n] > 0 ==>
              var a := Calls(n, inside[n]);
              Enabled(p, a) && Waiting(Do(p, a), inside, d, n + 1) && |Do(p, a).workers| == |p.workers|
              && KeepsApart(|p.workers|, Inside(p), a.size)
  {
    if n != d && inside[n] > 0 {
      forall e | 0 <= e < |inside| ensures !RunsInline(|p.workers|, Inside(p)[e]) {
        assert inside[e] != 1;
        if e != d { assert p.callers[e].Idle? || p.callers[e].Wanting?; }
      }
    }
  }

  lemma {:induction false} Seated(workers: nat, inside: seq<nat>, d: nat, n: nat) returns (run: seq<Action>)
    requires AllPooled(workers, inside) && d < |inside| && inside[d] > 0 && n <= |inside|
    ensures var p := Start(workers, |inside|);
      Legal(p, run) && AllKeptApart(p, run) && Waiting(AfterRun(p, run), inside, d, n)
          && |AfterRun(p, run).workers| == workers
  {
    hide Legal, AfterRun, AllKeptApart, Waiting, Do, Enabled, KeepsApart, Inside, AllPooled;
    var p := Start(workers, |inside|);
    if n == 0 {
      run := [Calls(d, inside[d])] + Proceeding(d);
      FirstRuns(workers, inside, d);
    } else {
      run := Seated(workers, inside, d, n - 1);
      NextWaits(AfterRun(p, run), inside, d, n - 1);
      if n - 1 != d && inside[n - 1] > 0 {
        var a := Calls(n - 1, inside[n - 1]);
        StartWorkers(workers, |inside|);
        OneMoreStep(p, run, a);
        OneMoreKept(p, run, a);
        run := run + [a];
      }
    }
  }

  lemma StartWorkers(workers: nat, callers: nat)
    ensures |Start(workers, callers).workers| == workers && |Start(workers, callers).callers| == callers
  {}

  lemma WaitingIsInside(p: Pool, inside: seq<nat>, d: nat)
    requires Waiting(p, inside, d, |inside|)
    ensures Inside(p) == inside
  {}

  // A call made while an inline Run is under way: two bodies run as worker 0 as soon as it gets to its first.
  lemma BesideInline(workers: nat, callers: nat, run: seq<Action>, c: nat, size: nat, d: nat)
      returns (more: seq<Action>)
    requires Legal(Start(workers, callers), run) && AllKeptApart(Start(workers, callers), run) && size > 0
    requires var p := AfterRun(Start(workers, callers), run);
             Enabled(p, Calls(c, size)) && d < |p.callers| && p.callers[d].Inline?
    ensures var p, all := Start(workers, callers), run + [Calls(c, size)] + more;
            NoCalls(more) && Legal(p, all) && SharesIndex(AfterRun(p, all))
  {
    var start, call := Start(workers, callers), Calls(c, size);
    var p := AfterRun(start, run);
    KeptApart(workers, callers, run);
    RunKeeps(workers, callers, run);
    OneMoreStep(start, run, call);
    var q := AfterRun(start, run + [call]);
    NoOneHasTheTurn(p, d);
    CallEnters(p, c, size, d);
    assert NoCalls([]) && NoCalls(Proceeding(c));
    hide *;
    if RunsInline(|p.workers|, size) {
      more := [];
      assert run + [call] + more == run + [call];
      OverlapsNow(q, c, d);
    } else {
      more := Proceeding(c);
      Proceeds(start, run + [call], c);
      var r := AfterRun(start, run + [call] + more);
      MovesLeave(q, r, c, d);
      OverlapsNow(r, d, c);
    }
  }

  lemma MovesLeave(p: Pool, q: Pool, c: nat, d: nat)
    requires OnlyMoves(p, q, c) && c != d && d < |p.callers|
    ensures |q.callers| == |p.callers| && q.callers[d] == p.callers[d]
  {}

  // A call of something starts inline or begins to wait for its turn, beside whoever is inside.
  lemma CallEnters(p: Pool, c: nat, size: nat, d: nat)
    requires Enabled(p, Calls(c, size)) && size > 0 && d < |p.callers| && p.callers[d].Inline?
    ensures var q := Do(p, Calls(c, size));
            && c < |q.callers| == |p.callers| && c != d && q.callers[d] == p.callers[d] && q.turn == p.turn
            && if RunsInline(|p.workers|, size) then q.callers[c].Inline?
               else q.callers[c].Wanting? && q.callers[c].call < |q.sizes| && q.sizes[q.callers[c].call] == size
  {}

  lemma NoOneHasTheTurn(p: Pool, d: nat)
    requires Inv(p) && InlineAlone(p) && d < |p.callers| && p.callers[d].Inline?
    ensures p.turn.None?
  {
    hide OwnCalls, Generations, NoneLost, Tasks, Bodies;
  }

  lemma OverlapsNow(p: Pool, c: nat, d: nat)
    requires c < |p.callers| && d < |p.callers| && c != d && p.callers[c].Inline?
    requires (p.callers[d].Inline? || p.callers[d].Running?)
    ensures SharesIndex(p)
  {
    OverlapShares(p);
    hide SharesIndex;
  }

  // An inline call made while pooled Runs are inside: one of them may just then be running a task.
  lemma BesidePooled(workers: nat, inside: seq<nat>, c: nat, size: nat, d: nat) returns (run: seq<Action>)
    requires AllPooled(workers, inside) && d < |inside| && inside[d] > 0 && c < |inside| && inside[c] == 0
    requires RunsInline(workers, size)
    ensures var p, all := Start(workers, |inside|), run + [Calls(c, size)] + [];
            Begins(workers, |inside|, inside, run) && Legal(p, all) && SharesIndex(AfterRun(p, all))
  {
    var p := Start(workers, |inside|);
    run := Seated(workers, inside, d, |inside|);
    WaitingIsInside(AfterRun(p, run), inside, d);
    OneMoreStep(p, run, Calls(c, size));
    hide Legal, AfterRun, AllKeptApart, SharesIndex;
    assert run + [Calls(c, size)] + [] == run + [Calls(c, size)];
    OverlapsNow(AfterRun(p, run + [Calls(c, size)]), c, d);
  }

  // The promise that no two bodies running at once share an index, of a call that may be made: it is kept,
  // however everyone is scheduled, exactly when no inline Run is under way and, if the call is one, nobody is
  // inside Run. `seen` is some run in which just these are inside.
  lemma SafeExactlyWhenKeptApart(workers: nat, callers: nat, inside: seq<nat>, c: nat, size: nat, seen: seq<Action>)
    requires Begins(workers, callers, inside, seen) && Enabled(AfterRun(Start(workers, callers), seen), Calls(c, size))
    ensures Safe(workers, callers, inside, c, size) <==> KeepsApart(workers, inside, size)
  {
    var p := AfterRun(Start(workers, callers), seen);
    KeptApart(workers, callers, seen);
    hide Legal, AfterRun, AllKeptApart, SharesIndex, InlineAlone;
    if KeepsApart(workers, inside, size) {
      KeptIsSafe(workers, callers, inside, c, size);
    } else if d: nat :| d < |inside| && RunsInline(workers, inside[d]) {
      assert p.callers[d].Inline?;
      var more := BesideInline(workers, callers, seen, c, size, d);
      assert Begins(workers, callers, inside, seen) && NoCalls(more);
    } else {
      var d: nat :| d < |inside| && inside[d] > 0;
      assert forall e :: 0 <= e < |inside| ==> inside[e] != 1 by {
        forall e | 0 <= e < |inside| ensures inside[e] != 1 { assert !RunsInline(workers, inside[e]); }
      }
      assert workers > 0 by { assert !RunsInline(workers, inside[d]); }
      var run := BesidePooled(workers, inside, c, size, d);
      assert NoCalls([]);
    }
  }
}
