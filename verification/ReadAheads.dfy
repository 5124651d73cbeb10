// Reading ahead of an animation: ReadingAhead::Served, the thread it starts and Cancel,
// src/read_ahead.cc. What each does under the lock is one method of the object; ReadAheadRuns interleaves
// them.

module ReadAheads {
  import opened Wrappers
  import opened Pieces
  import opened Runs

  const UPCOMING_FRAMES: nat := 64

  datatype AnimatedPlane = AnimatedPlane(image: nat, request: ReadRequest)
  datatype Work = Work(image: nat, request: ReadRequest)

  // What a source answers: the run a plane of an image is in.
  type Source = (nat, ReadRequest) -> Run

  // What the lock guards.
  datatype Shared = Shared(
    underWay: bool, started: int, finished: int, prefetching: map<nat, Run>, countedCatch: bool,
    requested: map<nat, Run>, prefetches: nat, caughtUp: nat, stopped: bool)

  // ---- What a frame says of the prefetch that may share the machine with it ----

  // Some batch was under way at the moment `began`.
  predicate Overlapped(s: Shared, began: int) {
    s.prefetching != map[] && s.started <= began && (s.underWay || s.finished > began)
  }

  predicate Caught(prefetching: map<nat, Run>, plane: AnimatedPlane, images: nat, source: Source) {
    && plane.image in prefetching && plane.image < images
    && source(plane.image, plane.request) == prefetching[plane.image]
  }

  // A late frame stops all reading ahead; the first to reach what is being decoded is counted, once.
  function Noted(s: Shared, began: int, late: bool, shown: seq<AnimatedPlane>, images: nat, source: Source): Shared {
    var catches := Overlapped(s, began) && !s.countedCatch
                   && exists i :: 0 <= i < |shown| && Caught(s.prefetching, shown[i], images, source);
    s.(stopped := s.stopped || (late && Overlapped(s, began)),
       caughtUp := if catches then s.caughtUp + 1 else s.caughtUp,
       countedCatch := s.countedCatch || catches)
  }

  // ---- What to decode ahead ----

  // The first plane of an image in one frame.
  function PlaneOf(planes: seq<AnimatedPlane>, image: nat): (plane: Option<AnimatedPlane>)
    ensures plane.Some? ==> plane.value in planes && plane.value.image == image
    ensures plane.None? ==> forall p :: p in planes ==> p.image != image
  {
    if planes == [] then None
    else if planes[0].image == image then Some(planes[0])
    else PlaneOf(planes[1..], image)
  }

  // The first plane of an image among the frames to come that is in another run than the one shown.
  function Next(upcoming: seq<seq<AnimatedPlane>>, image: nat, now: Run, source: Source): (plane: Option<AnimatedPlane>)
    ensures plane.Some? ==> plane.value.image == image && source(image, plane.value.request) != now
  {
    if upcoming == [] then None
    else
      var first := PlaneOf(upcoming[0], image);
      if first.Some? && source(image, first.value.request) != now then first
      else Next(upcoming[1..], image, now, source)
  }

  // What is decided so far, image by image.
  datatype Plan = Plan(runs: map<nat, Run>, requested: map<nat, Run>, work: seq<Work>)

  function PlanOne(plan: Plan, now: AnimatedPlane, upcoming: seq<seq<AnimatedPlane>>, images: nat,
                   source: Source): Plan {
    if now.image >= images || now.image in plan.runs then plan
    else
      var plane := Next(upcoming, now.image, source(now.image, now.request), source);
      if plane.None? then plan
      else
        var run := source(now.image, plane.value.request);
        if now.image in plan.requested && plan.requested[now.image] == run then plan
        else Plan(plan.runs[now.image := run], plan.requested[now.image := run],
                  plan.work + [Work(now.image, plane.value.request)])
  }

  function PlanAll(plan: Plan, shown: seq<AnimatedPlane>, upcoming: seq<seq<AnimatedPlane>>, images: nat,
                   source: Source): Plan
  {
    if shown == [] then plan
    else PlanOne(PlanAll(plan, shown[..|shown| - 1], upcoming, images, source), shown[|shown| - 1], upcoming, images,
                 source)
  }

  function LookedAt(upcoming: seq<seq<AnimatedPlane>>): seq<seq<AnimatedPlane>> {
    if |upcoming| > UPCOMING_FRAMES then upcoming[..UPCOMING_FRAMES] else upcoming
  }

  // What Served decides under the lock: nothing once stopped, cancelled or under way.
  function Decided(s: Shared, cancelled: bool, began: int, late: bool, shown: seq<AnimatedPlane>,
                   upcoming: seq<seq<AnimatedPlane>>, images: nat, source: Source): Plan
  {
    var noted := Noted(s, began, late, shown, images, source);
    if noted.stopped || cancelled || s.underWay then Plan(map[], s.requested, [])
    else PlanAll(Plan(map[], s.requested, []), shown, LookedAt(upcoming), images, source)
  }

  function AfterServed(s: Shared, cancelled: bool, began: int, late: bool, shown: seq<AnimatedPlane>,
                       upcoming: seq<seq<AnimatedPlane>>, images: nat, source: Source, now: int): Shared
  {
    var noted := Noted(s, began, late, shown, images, source);
    var plan := Decided(s, cancelled, began, late, shown, upcoming, images, source);
    if plan.work == [] then noted.(requested := plan.requested)
    else noted.(underWay := true, started := now, prefetching := plan.runs, countedCatch := false,
                requested := plan.requested, prefetches := noted.prefetches + |plan.work|)
  }

  function AfterFinished(s: Shared, failed: bool, now: int): Shared {
    s.(underWay := false, finished := now, stopped := s.stopped || failed)
  }

  // ---- The object ----

  class ReadingAhead {
    const images: nat
    var cancelled: bool
    var underWay: bool
    var started: int
    var finished: int
    var prefetching: map<nat, Run>
    var countedCatch: bool
    var requested: map<nat, Run>
    var prefetches: nat
    var caughtUp: nat
    var stopped: bool

    ghost function Guarded(): Shared
      reads this
    {
      Shared(underWay, started, finished, prefetching, countedCatch, requested, prefetches, caughtUp, stopped)
    }

    constructor (images: nat)
      ensures this.images == images && !cancelled
      ensures Guarded() == Shared(false, 0, 0, map[], false, map[], 0, 0, false)
    {
      this.images := images;
      cancelled, underWay, started, finished, prefetching := false, false, 0, 0, map[];
      countedCatch, requested, prefetches, caughtUp, stopped := false, map[], 0, 0, false;
    }

    // What the frame says of the prefetch it may have shared the machine with.
    method Note(began: int, late: bool, shown: seq<AnimatedPlane>, source: Source)
      modifies this`stopped, this`caughtUp, this`countedCatch
      ensures Guarded() == Noted(old(Guarded()), began, late, shown, images, source)
    {
      hide Caught;
      var overlapped := prefetching != map[] && started <= began && (underWay || finished > began);
      if late && overlapped {
        stopped := true;
      }
      if overlapped && !countedCatch {
        CountCatch(shown, source);
      }
    }

    // For each image shown: the nearest upcoming run other than the current one, if that is not what was
    // asked for last.
    method LookAhead(shown: seq<AnimatedPlane>, upcoming: seq<seq<AnimatedPlane>>, source: Source)
      returns (runs: map<nat, Run>, work: seq<Work>)
      modifies this`requested
      ensures Plan(runs, requested, work) == PlanAll(Plan(map[], old(requested), []), shown, upcoming, images, source)
    {
      hide PlanAll, Next;
      runs, work := map[], [];
      ghost var before := Plan(map[], requested, []);
      NothingPlanned(before, shown, upcoming, images, source);
      for i := 0 to |shown|
        invariant Plan(runs, requested, work) == PlanAll(before, shown[..i], upcoming, images, source)
      {
        PlanStep(before, shown, i, upcoming, images, source);
        var now := shown[i];
        if now.image < images && now.image !in runs {
          var plane := FindNext(upcoming, now.image, source(now.image, now.request), source);
          if plane.Some? {
            var run := source(now.image, plane.value.request);
            if now.image !in requested || requested[now.image] != run {
              requested := requested[now.image := run];
              runs := runs[now.image := run];
              work := work + [Work(now.image, plane.value.request)];
            }
          }
        }
      }
      assert shown[..|shown|] == shown;
    }

    // The part of Served that holds the lock. `clock` is what the clock says when a batch starts.
    method Served(began: int, late: bool, shown: seq<AnimatedPlane>, upcoming: seq<seq<AnimatedPlane>>, source: Source,
                  clock: int)
      returns (work: seq<Work>)
      modifies this
      ensures cancelled == old(cancelled)
      ensures work == Decided(old(Guarded()), cancelled, began, late, shown, upcoming, images, source).work
      ensures Guarded() == AfterServed(old(Guarded()), cancelled, began, late, shown, upcoming, images, source, clock)
    {
      hide PlanAll, Noted;
      ghost var was := Guarded();
      Note(began, late, shown, source);
      NotedKeeps(was, began, late, shown, images, source);
      work := [];
      if stopped || cancelled || underWay {
        return;
      }
      var runs;
      runs, work := LookAhead(shown, LookedAt(upcoming), source);
      if work == [] {
        return;
      }
      underWay := true;
      started := clock;
      prefetching := runs;
      countedCatch := false;
      prefetches := prefetches + |work|;
    }

    // Counts the first frame to show a run being decoded.
    method CountCatch(shown: seq<AnimatedPlane>, source: Source)
      modifies this`caughtUp, this`countedCatch
      ensures (exists i :: 0 <= i < |shown| && Caught(prefetching, shown[i], images, source)) ==>
                caughtUp == old(caughtUp) + 1 && countedCatch
      ensures !(exists i :: 0 <= i < |shown| && Caught(prefetching, shown[i], images, source)) ==>
                caughtUp == old(caughtUp) && countedCatch == old(countedCatch)
    {
      for i := 0 to |shown|
        invariant forall j :: 0 <= j < i ==> !Caught(prefetching, shown[j], images, source)
        invariant caughtUp == old(caughtUp) && countedCatch == old(countedCatch)
      {
        var plane := shown[i];
        if plane.image in prefetching && plane.image < images
           && source(plane.image, plane.request) == prefetching[plane.image] {
          caughtUp := caughtUp + 1;
          countedCatch := true;
          assert Caught(prefetching, shown[i], images, source);
          return;
        }
      }
    }

    // A batch has been decoded, or could not be started: `failed` when it threw.
    method Finished(failed: bool, clock: int)
      modifies this
      ensures Guarded() == AfterFinished(old(Guarded()), failed, clock) && cancelled == old(cancelled)
    {
      underWay := false;
      finished := clock;
      if failed {
        stopped := true;
      }
    }

    // Cancelling: the flag first, then what the lock guards.
    method CancelFlag()
      modifies this`cancelled
      ensures cancelled
    {
      cancelled := true;
    }

    method CancelStops()
      modifies this
      ensures Guarded() == old(Guarded()).(stopped := true) && cancelled == old(cancelled)
    {
      stopped := true;
    }
  }

  // The frames to come, nearest first, for a plane of the image in another run.
  method FindNext(upcoming: seq<seq<AnimatedPlane>>, image: nat, now: Run, source: Source)
    returns (plane: Option<AnimatedPlane>)
    ensures plane == Next(upcoming, image, now, source)
  {
    assert upcoming[0..] == upcoming;
    for frame := 0 to |upcoming|
      invariant Next(upcoming, image, now, source) == Next(upcoming[frame..], image, now, source)
    {
      assert upcoming[frame..][1..] == upcoming[frame + 1..];
      var found := PlaneOf(upcoming[frame], image);
      if found.Some? && source(image, found.value.request) != now {
        return found;
      }
    }
    plane := None;
  }

  lemma NotedKeeps(s: Shared, began: int, late: bool, shown: seq<AnimatedPlane>, images: nat, source: Source)
    ensures var noted := Noted(s, began, late, shown, images, source);
            noted == s.(stopped := noted.stopped, caughtUp := noted.caughtUp, countedCatch := noted.countedCatch)
  {}

  lemma NothingPlanned(plan: Plan, shown: seq<AnimatedPlane>, upcoming: seq<seq<AnimatedPlane>>, images: nat,
                       source: Source)
    ensures PlanAll(plan, shown[..0], upcoming, images, source) == plan
  {}

  lemma PlanStep(plan: Plan, shown: seq<AnimatedPlane>, i: nat, upcoming: seq<seq<AnimatedPlane>>, images: nat,
                 source: Source)
    requires i < |shown|
    ensures PlanAll(plan, shown[..i + 1], upcoming, images, source)
         == PlanOne(PlanAll(plan, shown[..i], upcoming, images, source), shown[i], upcoming, images, source)
  {
    assert shown[..i + 1][..i] == shown[..i];
  }
}
