// Every interleaving of the frames one thread serves, the threads that decode ahead of them, and
// cancelling: src/read_ahead.cc.

module ReadAheadRuns {
  import opened Wrappers
  import opened Runs
  import opened ReadAheads

  // Where a thread that decodes a batch is. Only one that has returned can be joined.
  datatype Thread = Taking(i: nat) | Decoding(i: nat) | Leaving(failed: bool) | Returned
  datatype Batch = Batch(work: seq<Work>, thread: Thread)

  // Where the thread that plays the animation is: outside, waiting for the last batch's thread to return,
  // or about to start the next one.
  datatype Player = Idle | Joining(work: seq<Work>) | Starting(work: seq<Work>)

  datatype System = System(
    shared: Shared, cancelled: bool, stopping: nat, player: Player, batches: seq<Batch>, joinable: Option<nat>,
    // The runs each batch was decided for, in order.
    decided: seq<map<nat, Run>>)

  datatype Label =
    | Serve(began: int, late: bool, shown: seq<AnimatedPlane>, upcoming: seq<seq<AnimatedPlane>>, clock: int)
    | Join
    | Start
    | StartFails(clock: int)
    | Take(t: nat)
    | Finish(t: nat)
    | Throw(t: nat)
    | Stop(t: nat)
    | Return(t: nat, clock: int)
    | SetFlag
    | SetStopped

  function Initial(): System {
    System(Shared(false, 0, 0, map[], false, map[], 0, 0, false), false, 0, Idle, [], None, [])
  }

  predicate Enabled(s: System, l: Label) {
    match l
    case Serve(_, _, _, _, _) => s.player.Idle?
    case Join =>
      s.player.Joining?
      && (s.joinable.Some? ==> s.joinable.value < |s.batches| && s.batches[s.joinable.value].thread.Returned?)
    case Start => s.player.Starting?
    case StartFails(_) => s.player.Starting?
    case Take(t) =>
      && t < |s.batches| && s.batches[t].thread.Taking? && s.batches[t].thread.i < |s.batches[t].work| && !s.cancelled
    case Finish(t) => t < |s.batches| && s.batches[t].thread.Decoding?
    case Throw(t) => t < |s.batches| && (s.batches[t].thread.Taking? || s.batches[t].thread.Decoding?)
    case Stop(t) =>
      && t < |s.batches| && s.batches[t].thread.Taking?
      && (s.cancelled || s.batches[t].thread.i >= |s.batches[t].work|)
    case Return(t, _) => t < |s.batches| && s.batches[t].thread.Leaving?
    case SetFlag => true
    case SetStopped => s.stopping > 0
  }

  function Moved(s: System, t: nat, thread: Thread): System
    requires t < |s.batches|
  {
    s.(batches := s.batches[t := s.batches[t].(thread := thread)])
  }

  function After(s: System, l: Label, images: nat, source: Source): System
    requires Enabled(s, l)
  {
    match l
    case Serve(began, late, shown, upcoming, clock) =>
      var plan := Decided(s.shared, s.cancelled, began, late, shown, upcoming, images, source);
      var shared := AfterServed(s.shared, s.cancelled, began, late, shown, upcoming, images, source, clock);
      if plan.work == [] then s.(shared := shared)
      else s.(shared := shared, player := Joining(plan.work), decided := s.decided + [plan.runs])
    case Join => s.(player := Starting(s.player.work), joinable := None)
    case Start =>
      s.(player := Idle, batches := s.batches + [Batch(s.player.work, Taking(0))], joinable := Some(|s.batches|))
    case StartFails(clock) => s.(player := Idle, shared := AfterFinished(s.shared, true, clock))
    case Take(t) => Moved(s, t, Decoding(s.batches[t].thread.i))
    case Finish(t) => Moved(s, t, Taking(s.batches[t].thread.i + 1))
    case Throw(t) => Moved(s, t, Leaving(true))
    case Stop(t) => Moved(s, t, Leaving(false))
    case Return(t, clock) =>
      Moved(s, t, Returned).(shared := AfterFinished(s.shared, s.batches[t].thread.failed, clock))
    case SetFlag => s.(cancelled := true, stopping := s.stopping + 1)
    case SetStopped => s.(stopping := s.stopping - 1, shared := s.shared.(stopped := true))
  }

  // ---- What a decision keeps ----

  // Against what was asked for before: one piece of work for each image with a run, in another run than the
  // last asked for and than one shown.
  ghost predicate Fresh(plan: Plan, before: map<nat, Run>, shown: seq<AnimatedPlane>, images: nat, source: Source) {
    && |plan.work| == |plan.runs|
    && (forall image: nat :: FreshImage(plan, before, shown, images, source, image))
    && (forall i :: 0 <= i < |plan.work| ==> ForItsRun(plan.work[i], plan.runs, source))
  }

  ghost predicate FreshImage(plan: Plan, before: map<nat, Run>, shown: seq<AnimatedPlane>, images: nat, source: Source,
                             image: nat)
  {
    && AskedFor(plan.runs, before, plan.requested, image)
    && (image in plan.runs ==> image < images && ShownElsewhere(image, plan.runs[image], shown, source))
  }

  // What was last asked for an image, before and after a decision.
  ghost predicate AskedFor(runs: map<nat, Run>, before: map<nat, Run>, requested: map<nat, Run>, image: nat) {
    if image in runs then
      && image in requested && requested[image] == runs[image] && (image in before ==> before[image] != runs[image])
    else (image in requested <==> image in before) && (image in before ==> requested[image] == before[image])
  }

  ghost predicate ShownElsewhere(image: nat, run: Run, shown: seq<AnimatedPlane>, source: Source) {
    exists i :: 0 <= i < |shown| && shown[i].image == image && source(image, shown[i].request) != run
  }

  ghost predicate ForItsRun(work: Work, runs: map<nat, Run>, source: Source) {
    work.image in runs && source(work.image, work.request) == runs[work.image]
  }

  lemma {:induction false} PlanIsFresh(requested: map<nat, Run>, shown: seq<AnimatedPlane>,
                                       upcoming: seq<seq<AnimatedPlane>>, images: nat, source: Source)
    ensures Fresh(PlanAll(Plan(map[], requested, []), shown, upcoming, images, source), requested, shown, images,
                  source)
    decreases |shown|
  {
    if shown != [] {
      var l := |shown| - 1;
      PlanIsFresh(requested, shown[..l], upcoming, images, source);
      hide Next, PlanAll;
      OneMoreIsFresh(PlanAll(Plan(map[], requested, []), shown[..l], upcoming, images, source), requested, shown,
                     upcoming,
                     images, source);
      PlanStep(Plan(map[], requested, []), shown, l, upcoming, images, source);
      assert shown[..l + 1] == shown;
    } else {
      var none: map<nat, Run> := map[];
      assert |none| == 0;
    }
  }

  lemma ShownStill(image: nat, run: Run, shown: seq<AnimatedPlane>, source: Source)
    requires shown != [] && ShownElsewhere(image, run, shown[..|shown| - 1], source)
    ensures ShownElsewhere(image, run, shown, source)
  {
    var before := shown[..|shown| - 1];
    var i :| 0 <= i < |before| && before[i].image == image && source(image, before[i].request) != run;
    assert shown[i] == before[i];
  }

  lemma StillFresh(plan: Plan, before: map<nat, Run>, shown: seq<AnimatedPlane>, images: nat, source: Source)
    requires shown != [] && Fresh(plan, before, shown[..|shown| - 1], images, source)
    ensures Fresh(plan, before, shown, images, source)
  {
    hide ShownElsewhere;
    forall image: nat ensures FreshImage(plan, before, shown, images, source, image) {
      assert FreshImage(plan, before, shown[..|shown| - 1], images, source, image);
      if image in plan.runs { ShownStill(image, plan.runs[image], shown, source); }
    }
  }

  lemma AddedIsFresh(plan: Plan, before: map<nat, Run>, shown: seq<AnimatedPlane>, images: nat, source: Source,
                     work: Work, run: Run)
    requires Fresh(plan, before, shown, images, source)
    requires work.image < images && work.image !in plan.runs && source(work.image, work.request) == run
    requires !(work.image in plan.requested && plan.requested[work.image] == run)
    requires ShownElsewhere(work.image, run, shown, source)
    ensures Fresh(Plan(plan.runs[work.image := run], plan.requested[work.image := run], plan.work + [work]),
                  before, shown, images, source)
  {
    hide ShownElsewhere;
    var next := Plan(plan.runs[work.image := run], plan.requested[work.image := run], plan.work + [work]);
    assert FreshImage(plan, before, shown, images, source, work.image);
    forall image: nat ensures FreshImage(next, before, shown, images, source, image) {
      assert FreshImage(plan, before, shown, images, source, image);
    }
    forall i | 0 <= i < |next.work| ensures ForItsRun(next.work[i], next.runs, source) {
      if i < |plan.work| { assert ForItsRun(plan.work[i], plan.runs, source); }
    }
  }

  lemma OneMoreIsFresh(plan: Plan, before: map<nat, Run>, shown: seq<AnimatedPlane>, upcoming: seq<seq<AnimatedPlane>>,
                       images: nat, source: Source)
    requires shown != [] && Fresh(plan, before, shown[..|shown| - 1], images, source)
    ensures Fresh(PlanOne(plan, shown[|shown| - 1], upcoming, images, source), before, shown, images, source)
  {
    var now := shown[|shown| - 1];
    StillFresh(plan, before, shown, images, source);
    hide Next, Fresh;
    if PlanOne(plan, now, upcoming, images, source) != plan {
      var plane := Next(upcoming, now.image, source(now.image, now.request), source);
      var run := source(now.image, plane.value.request);
      assert ShownElsewhere(now.image, run, shown, source);
      AddedIsFresh(plan, before, shown, images, source, Work(now.image, plane.value.request), run);
    }
  }

  lemma DecidedIsFresh(s: Shared, cancelled: bool, began: int, late: bool, shown: seq<AnimatedPlane>,
                       upcoming: seq<seq<AnimatedPlane>>, images: nat, source: Source)
    ensures Fresh(Decided(s, cancelled, began, late, shown, upcoming, images, source), s.requested, shown, images,
                  source)
  {
    PlanIsFresh(s.requested, shown, LookedAt(upcoming), images, source);
    hide PlanAll, Noted;
    var none: map<nat, Run> := map[];
    assert |none| == 0;
  }

  // ---- What every step keeps ----

  // The last run decided on for an image.
  ghost function LastRun(decided: seq<map<nat, Run>>, image: nat): Option<Run> {
    if decided == [] then None
    else if image in decided[|decided| - 1] then Some(decided[|decided| - 1][image])
    else LastRun(decided[..|decided| - 1], image)
  }

  // One batch is under way at most, and it is the last.
  ghost predicate OneUnderWay(s: System) {
    && (forall t :: 0 <= t < |s.batches| - 1 ==> s.batches[t].thread.Returned?)
    && (s.shared.underWay <==> !s.player.Idle? || (s.batches != [] && !s.batches[|s.batches| - 1].thread.Returned?))
    && (!s.player.Idle? && s.batches != [] ==> s.batches[|s.batches| - 1].thread.Returned?)
  }

  // The thread that may be joined is the last batch's, and one that has not returned is.
  ghost predicate JoinsLast(s: System) {
    && (s.joinable.Some? ==> s.joinable.value == |s.batches| - 1)
    && (s.batches != [] && !s.batches[|s.batches| - 1].thread.Returned? ==> s.joinable.Some?)
    && (s.player.Starting? ==> s.joinable.None?)
  }

  // What was asked for last is what was decided last, and each decision differs from the image's one before.
  ghost predicate Remembers(s: System) {
    Recalls(s.decided, s.shared.requested)
  }

  ghost function Total(decided: seq<map<nat, Run>>): nat {
    if decided == [] then 0 else Total(decided[..|decided| - 1]) + |decided[|decided| - 1]|
  }

  // A batch is caught up with at most once, and is a prefetch of one image at least.
  ghost predicate Counts(s: System) {
    && s.shared.prefetches == Total(s.decided)
    && (forall j :: 0 <= j < |s.decided| ==> |s.decided[j]| >= 1)
    && (s.decided == [] ==> s.shared.prefetching == map[] && s.shared.caughtUp == 0)
    && (s.decided != [] ==>
          && s.shared.prefetching == s.decided[|s.decided| - 1]
          && s.shared.caughtUp + (if s.shared.countedCatch then 0 else 1) <= |s.decided|)
  }

  ghost predicate Valid(s: System) {
    OneUnderWay(s) && JoinsLast(s) && Remembers(s) && Counts(s)
  }

  lemma InitialIsValid()
    ensures Valid(Initial())
  {}

  lemma {:induction false} TotalAtLeast(decided: seq<map<nat, Run>>)
    requires forall j :: 0 <= j < |decided| ==> |decided[j]| >= 1
    ensures Total(decided) >= |decided|
  {
    if decided != [] { TotalAtLeast(decided[..|decided| - 1]); }
  }

  lemma Decides(s: System, l: Label, images: nat, source: Source)
    requires Valid(s) && l.Serve? && Enabled(s, l)
    ensures Valid(After(s, l, images, source))
  {
    var plan := Decided(s.shared, s.cancelled, l.began, l.late, l.shown, l.upcoming, images, source);
    DecidedIsFresh(s.shared, s.cancelled, l.began, l.late, l.shown, l.upcoming, images, source);
    NotedKeeps(s.shared, l.began, l.late, l.shown, images, source);
    if plan.work == [] {
      DecidesNothing(s, l, images, source);
    } else {
      DecidesSome(s, l, images, source);
    }
  }

  lemma NotedCounts(s: System, began: int, late: bool, shown: seq<AnimatedPlane>, images: nat, source: Source)
    requires Counts(s)
    ensures Counts(s.(shared := Noted(s.shared, began, late, shown, images, source)))
  {
    hide Caught;
  }

  lemma FreshAsks(plan: Plan, before: map<nat, Run>, shown: seq<AnimatedPlane>, images: nat, source: Source)
    requires Fresh(plan, before, shown, images, source)
    ensures forall image: nat :: AskedFor(plan.runs, before, plan.requested, image)
  {
    hide AskedFor;
    forall image: nat ensures AskedFor(plan.runs, before, plan.requested, image) {
      assert FreshImage(plan, before, shown, images, source, image);
    }
  }

  lemma AskedForNothing(before: map<nat, Run>, requested: map<nat, Run>)
    requires forall image: nat :: AskedFor(map[], before, requested, image)
    ensures requested == before
  {
    forall image: nat
      ensures (image in requested <==> image in before) && (image in before ==> requested[image] == before[image])
    {
      assert AskedFor(map[], before, requested, image);
    }
  }

  lemma DecidesNothing(s: System, l: Label, images: nat, source: Source)
    requires Valid(s) && l.Serve? && Enabled(s, l)
    requires Decided(s.shared, s.cancelled, l.began, l.late, l.shown, l.upcoming, images, source).work == []
    ensures Valid(After(s, l, images, source))
  {
    var plan := Decided(s.shared, s.cancelled, l.began, l.late, l.shown, l.upcoming, images, source);
    DecidedIsFresh(s.shared, s.cancelled, l.began, l.late, l.shown, l.upcoming, images, source);
    NotedKeeps(s.shared, l.began, l.late, l.shown, images, source);
    NotedCounts(s, l.began, l.late, l.shown, images, source);
    hide Noted, Decided, LastRun, Total;
    assert plan.runs == map[];
    FreshAsks(plan, s.shared.requested, l.shown, images, source);
    AskedForNothing(s.shared.requested, plan.requested);
  }

  lemma DecidesSome(s: System, l: Label, images: nat, source: Source)
    requires Valid(s) && l.Serve? && Enabled(s, l)
    requires Decided(s.shared, s.cancelled, l.began, l.late, l.shown, l.upcoming, images, source).work != []
    ensures Valid(After(s, l, images, source))
  {
    hide *;
    var plan := Decided(s.shared, s.cancelled, l.began, l.late, l.shown, l.upcoming, images, source);
    var noted := Noted(s.shared, l.began, l.late, l.shown, images, source);
    DecidedIsFresh(s.shared, s.cancelled, l.began, l.late, l.shown, l.upcoming, images, source);
    NotedKeeps(s.shared, l.began, l.late, l.shown, images, source);
    ValidCounts(s);
    NotedCounts(s, l.began, l.late, l.shown, images, source);
    FreshAsks(plan, s.shared.requested, l.shown, images, source);
    WorkMeansIdle(s, l, images, source);
    FreshSize(plan, s.shared.requested, l.shown, images, source);
    AfterServe(s, l, images, source);
    BatchStarts(s, noted, plan, l.clock);
  }

  lemma ValidCounts(s: System)
    requires Valid(s)
    ensures Counts(s)
  {}

  lemma AfterServe(s: System, l: Label, images: nat, source: Source)
    requires l.Serve? && Enabled(s, l)
    requires Decided(s.shared, s.cancelled, l.began, l.late, l.shown, l.upcoming, images, source).work != []
    ensures var noted := Noted(s.shared, l.began, l.late, l.shown, images, source);
            var plan := Decided(s.shared, s.cancelled, l.began, l.late, l.shown, l.upcoming, images, source);
            s.player.Idle? && After(s, l, images, source) == Begun(s, noted, plan, l.clock)
  {
    hide Noted, Decided;
  }

  lemma FreshSize(plan: Plan, before: map<nat, Run>, shown: seq<AnimatedPlane>, images: nat, source: Source)
    requires Fresh(plan, before, shown, images, source)
    ensures |plan.work| == |plan.runs|
  {}

  lemma WorkMeansIdle(s: System, l: Label, images: nat, source: Source)
    requires l.Serve?
    requires Decided(s.shared, s.cancelled, l.began, l.late, l.shown, l.upcoming, images, source).work != []
    ensures !s.shared.underWay && !s.shared.stopped && !s.cancelled
  {
    hide PlanAll;
  }

  // A batch decided on and about to be started.
  ghost function Begun(s: System, noted: Shared, plan: Plan, clock: int): System {
    s.(shared := noted.(underWay := true, started := clock, prefetching := plan.runs, countedCatch := false,
                        requested := plan.requested, prefetches := noted.prefetches + |plan.work|),
       player := Joining(plan.work), decided := s.decided + [plan.runs])
  }

  lemma BatchStarts(s: System, noted: Shared, plan: Plan, clock: int)
    requires Valid(s) && s.player.Idle? && !s.shared.underWay && plan.work != [] && |plan.work| == |plan.runs|
    requires noted == s.shared.(stopped := noted.stopped, caughtUp := noted.caughtUp,
                                countedCatch := noted.countedCatch)
    requires Counts(s.(shared := noted))
    requires forall image: nat :: AskedFor(plan.runs, s.shared.requested, plan.requested, image)
    ensures Valid(Begun(s, noted, plan, clock))
  {
    NotedAtMost(s, noted);
    BegunIs(s, noted, plan, clock);
    hide *;
    Parts(s);
    NowRemembers(s.decided, plan.runs, s.shared.requested, plan.requested);
    var next := Begun(s, noted, plan, clock);
    NowCounts(s, next, plan.runs);
    NowUnderWay(s, next);
    Whole(next);
  }

  lemma BegunIs(s: System, noted: Shared, plan: Plan, clock: int)
    requires noted.prefetches == s.shared.prefetches
    ensures var next := Begun(s, noted, plan, clock);
            && next.batches == s.batches && next.joinable == s.joinable && next.player.Joining?
            && next.decided == s.decided + [plan.runs] && next.shared.underWay
            && next.shared.prefetching == plan.runs && !next.shared.countedCatch
            && next.shared.caughtUp == noted.caughtUp && next.shared.requested == plan.requested
            && next.shared.prefetches == s.shared.prefetches + |plan.work|
  {}

  lemma Parts(s: System)
    requires Valid(s)
    ensures OneUnderWay(s) && JoinsLast(s) && Recalls(s.decided, s.shared.requested)
    ensures s.shared.prefetches == Total(s.decided) && forall j :: 0 <= j < |s.decided| ==> |s.decided[j]| >= 1
  {
    hide Recalls, OneUnderWay, JoinsLast, Total;
  }

  lemma Whole(s: System)
    requires OneUnderWay(s) && JoinsLast(s) && Recalls(s.decided, s.shared.requested) && Counts(s)
    ensures Valid(s)
  {
    hide Recalls, OneUnderWay, JoinsLast, Counts;
  }

  lemma NotedAtMost(s: System, noted: Shared)
    requires Counts(s.(shared := noted))
    ensures noted.caughtUp <= |s.decided|
  {
    hide Total;
  }

  lemma NowUnderWay(s: System, next: System)
    requires OneUnderWay(s) && JoinsLast(s) && s.player.Idle? && !s.shared.underWay
    requires next.batches == s.batches && next.joinable == s.joinable && next.player.Joining? && next.shared.underWay
    ensures OneUnderWay(next) && JoinsLast(next)
  {}

  lemma NowCounts(s: System, next: System, runs: map<nat, Run>)
    requires next.decided == s.decided + [runs] && |runs| >= 1 && Total(s.decided) + |runs| == next.shared.prefetches
    requires forall j :: 0 <= j < |s.decided| ==> |s.decided[j]| >= 1
    requires next.shared.prefetching == runs && !next.shared.countedCatch && next.shared.caughtUp <= |s.decided|
    ensures Counts(next)
  {
    assert next.decided[..|s.decided|] == s.decided;
  }

  ghost predicate Recalls(decided: seq<map<nat, Run>>, requested: map<nat, Run>) {
    && (forall image: nat :: LastRun(decided, image) == if image in requested then Some(requested[image]) else None)
    && (forall j, image: nat :: 0 <= j < |decided| && image in decided[j] ==>
          LastRun(decided[..j], image) != Some(decided[j][image]))
  }

  lemma NowRemembers(decided: seq<map<nat, Run>>, runs: map<nat, Run>, before: map<nat, Run>, requested: map<nat, Run>)
    requires Recalls(decided, before)
    requires forall image: nat :: AskedFor(runs, before, requested, image)
    ensures Recalls(decided + [runs], requested)
  {
    var next := decided + [runs];
    assert next[..|decided|] == decided;
    forall j, image: nat | 0 <= j < |next| && image in next[j]
      ensures LastRun(next[..j], image) != Some(next[j][image])
    {
      assert AskedFor(runs, before, requested, image);
      if j < |decided| { assert next[..j] == decided[..j]; }
    }
    forall image: nat ensures LastRun(next, image) == if image in requested then Some(requested[image]) else None {
      assert AskedFor(runs, before, requested, image);
    }
  }

  lemma OthersKeepCounts(s: System, l: Label, images: nat, source: Source)
    requires Remembers(s) && Counts(s) && !l.Serve? && Enabled(s, l)
    ensures Remembers(After(s, l, images, source)) && Counts(After(s, l, images, source))
  {
    hide Recalls, Total;
  }

  lemma OthersKeepThreads(s: System, l: Label, images: nat, source: Source)
    requires OneUnderWay(s) && JoinsLast(s) && !l.Serve? && Enabled(s, l)
    ensures OneUnderWay(After(s, l, images, source)) && JoinsLast(After(s, l, images, source))
  {}

  lemma Keeps(s: System, l: Label, images: nat, source: Source)
    requires Valid(s) && Enabled(s, l)
    ensures Valid(After(s, l, images, source))
  {
    if l.Serve? {
      Decides(s, l, images, source);
    } else {
      hide OneUnderWay, JoinsLast, Remembers, Counts, Enabled, After;
      OthersKeepCounts(s, l, images, source);
      OthersKeepThreads(s, l, images, source);
    }
  }

  // ---- Over every run of it ----

  // The state after these steps, unless one of them could not be taken.
  ghost function Reached(labels: seq<Label>, images: nat, source: Source): Option<System> {
    if labels == [] then Some(Initial())
    else
      var before := Reached(labels[..|labels| - 1], images, source);
      if before.Some? && Enabled(before.value, labels[|labels| - 1])
      then Some(After(before.value, labels[|labels| - 1], images, source))
      else None
  }

  lemma {:induction false} ReachedIsValid(labels: seq<Label>, images: nat, source: Source)
    requires Reached(labels, images, source).Some?
    ensures Valid(Reached(labels, images, source).value)
    decreases |labels|
  {
    hide Valid, After, Enabled;
    if labels == [] {
      InitialIsValid();
    } else {
      ReachedIsValid(labels[..|labels| - 1], images, source);
      Keeps(Reached(labels[..|labels| - 1], images, source).value, labels[|labels| - 1], images, source);
    }
  }

  // At most one batch is ever being decoded, the thread that starts the next never replaces one that has not
  // been joined, and while one is under way no other is decided on.
  lemma AtMostOneBatch(labels: seq<Label>, images: nat, source: Source, t: nat, u: nat)
    requires Reached(labels, images, source).Some?
    ensures var s := Reached(labels, images, source).value;
      && (t < u < |s.batches| ==> s.batches[t].thread.Returned?)
      && (s.player.Starting? ==> s.joinable.None?)
      && (t < |s.batches| && !s.batches[t].thread.Returned? ==> s.shared.underWay && s.player.Idle?)
  {
    ReachedIsValid(labels, images, source);
    hide Reached, Recalls, Total;
  }

  // A run caught up with was being decoded, and a batch is of one image at least.
  lemma CaughtUpAtMostPrefetched(labels: seq<Label>, images: nat, source: Source)
    requires Reached(labels, images, source).Some?
    ensures var s := Reached(labels, images, source).value;
      s.shared.caughtUp <= |s.decided| <= s.shared.prefetches
  {
    ReachedIsValid(labels, images, source);
    hide Reached, Recalls;
    TotalAtLeast(Reached(labels, images, source).value.decided);
  }

  // An image's consecutive prefetches are of different runs.
  lemma ConsecutiveRunsDiffer(labels: seq<Label>, images: nat, source: Source, i: nat, j: nat, image: nat)
    requires Reached(labels, images, source).Some?
    requires var s := Reached(labels, images, source).value;
             i < j < |s.decided| && image in s.decided[i] && image in s.decided[j]
             && forall k :: i < k < j ==> image !in s.decided[k]
    ensures var s := Reached(labels, images, source).value; s.decided[i][image] != s.decided[j][image]
  {
    ReachedIsValid(labels, images, source);
    hide Reached, Total;
    LastRunIs(Reached(labels, images, source).value.decided[..j], i, image);
  }

  lemma {:induction false} LastRunIs(decided: seq<map<nat, Run>>, i: nat, image: nat)
    requires i < |decided| && image in decided[i] && forall k :: i < k < |decided| ==> image !in decided[k]
    ensures LastRun(decided, image) == Some(decided[i][image])
    decreases |decided|
  {
    if i < |decided| - 1 { LastRunIs(decided[..|decided| - 1], i, image); }
  }

  // Once stopped, it stays so, and no frame served starts another batch.
  lemma {:induction false} StoppedForGood(before: seq<Label>, after: seq<Label>, images: nat, source: Source)
    requires Reached(before, images, source).Some? && Reached(before + after, images, source).Some?
    requires Reached(before, images, source).value.shared.stopped
    ensures var s, t := Reached(before, images, source).value, Reached(before + after, images, source).value;
            t.shared.stopped && t.decided == s.decided && t.shared.prefetches == s.shared.prefetches
    decreases |after|
  {
    if after == [] {
      assert before + after == before;
    } else {
      var l := |after| - 1;
      assert (before + after)[..|before + after| - 1] == before + after[..l];
      assert (before + after)[|before + after| - 1] == after[l];
      StoppedForGood(before, after[..l], images, source);
      hide After, Enabled;
      StaysStopped(Reached(before + after[..l], images, source).value, after[l], images, source);
    }
  }

  lemma StaysStopped(s: System, l: Label, images: nat, source: Source)
    requires s.shared.stopped && Enabled(s, l)
    ensures var t := After(s, l, images, source);
            t.shared.stopped && t.decided == s.decided && t.shared.prefetches == s.shared.prefetches
  {
    hide PlanAll, Caught;
  }

  // Nor does one once cancelling has begun, and what is under way takes up no more work.
  lemma CancelledStartsNothing(s: System, l: Label, images: nat, source: Source)
    requires s.cancelled && Enabled(s, l)
    ensures var t := After(s, l, images, source);
            t.cancelled && t.decided == s.decided
            && forall b :: 0 <= b < |s.batches| && t.batches[b].thread.Decoding? ==> s.batches[b].thread.Decoding?
  {
    hide PlanAll, Caught;
  }
}
