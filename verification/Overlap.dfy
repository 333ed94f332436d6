/** The six reconcilers of `Convergence`, call by call: each reads its CAPI object, then the Shoot,
    and later sends the difference its sync made as a patch that nobody checks for staleness.

    A reconcile is overtaken if the opposite direction of its pair lands a patch on something it has
    read already. As long as no overtaken reconcile sends a patch, every run is a run of whole
    reconciles, with all that follows from it. Overtaken patches can go back and forth for ever. */
module Overlap {
  import opened ApiTypes
  import opened Sync
  import opened Patch
  import opened Convergence

  /** What a reconcile has read; `complete` once it has read the Shoot as well. */
  datatype Flight = Flight(seen: World, complete: bool, overtaken: bool)

  /** A controller works on one object at a time, so there is at most one flight of each action. */
  datatype Config = Config(world: World, flights: map<Action, Flight>)

  datatype Event = ReadCapi(action: Action) | ReadShoot(action: Action) | SendPatch(action: Action) | Abort(action: Action)

  function Opposite(a: Action): Action {
    match a
    case ControlPlaneToShoot => ShootToControlPlane
    case ShootToControlPlane => ControlPlaneToShoot
    case InfraToShoot => ShootToInfra
    case ShootToInfra => InfraToShoot
    case PoolToShoot(i) => ShootToPool(i)
    case ShootToPool(i) => PoolToShoot(i)
  }

  predicate IntoShoot(a: Action) {
    a.ControlPlaneToShoot? || a.InfraToShoot? || a.PoolToShoot?
  }

  /** The difference between what was read and what the sync made of it, applied to the present. */
  function Patched(w: World, seen: World, a: Action): World {
    var modified := Step(seen, a);
    match a
    case ShootToControlPlane => w.(cp := PatchControlPlane(seen.cp, modified.cp, w.cp))
    case ShootToInfra => w.(infra := PatchInfra(seen.infra, modified.infra, w.infra))
    case ShootToPool(i) =>
      if i < |w.pools| && i < |seen.pools| && w.pools[i].name == seen.pools[i].name
      then w.(pools := w.pools[i := PatchPool(seen.pools[i], modified.pools[i], w.pools[i])])
      else w
    case _ => w.(shoot := PatchShoot(seen.shoot, modified.shoot, w.shoot))
  }

  predicate Completes(c: Config, e: Event) {
    e.SendPatch? && e.action in c.flights && c.flights[e.action].complete
  }

  /** A patch is sent exactly if the sync changed what was read. */
  predicate Sends(c: Config, e: Event) {
    Completes(c, e) && Step(c.flights[e.action].seen, e.action) != c.flights[e.action].seen
  }

  /** A patch on the CAPI object is on what the opposite direction reads first, a patch on the Shoot
      on what it reads last. */
  function Overtaken(flights: map<Action, Flight>, a: Action): map<Action, Flight> {
    if a in flights && (IntoShoot(a) || flights[a].complete) then flights[a := flights[a].(overtaken := true)] else flights
  }

  function Next(c: Config, e: Event): Config {
    match e
    case ReadCapi(a) => c.(flights := c.flights[a := Flight(c.world, false, false)])
    case ReadShoot(a) =>
      if a !in c.flights || c.flights[a].complete then c
      else
        var f := c.flights[a];
        c.(flights := c.flights[a := f.(seen := f.seen.(shoot := c.world.shoot), complete := true)])
    case SendPatch(a) =>
      if Sends(c, e) then Config(Patched(c.world, c.flights[a].seen, a), Overtaken(c.flights - {a}, Opposite(a)))
      else if Completes(c, e) then c.(flights := c.flights - {a})
      else c
    case Abort(a) => c.(flights := c.flights - {a})
  }

  function Play(c: Config, events: seq<Event>): Config
    decreases |events|
  {
    if events == [] then c else Play(Next(c, events[0]), events[1..])
  }

  /** A whole reconcile: it completes without having been overtaken. */
  predicate Performs(c: Config, e: Event) {
    Completes(c, e) && !c.flights[e.action].overtaken
  }

  function Order(c: Config, events: seq<Event>): seq<Action>
    decreases |events|
  {
    if events == [] then []
    else (if Performs(c, events[0]) then [events[0].action] else []) + Order(Next(c, events[0]), events[1..])
  }

  /** The same for one pair. */
  function OrderOf(c: Config, events: seq<Event>, pair: Pair): seq<Action>
    decreases |events|
  {
    if events == [] then []
    else
      (if Performs(c, events[0]) && PairOf(events[0].action) == pair then [events[0].action] else [])
      + OrderOf(Next(c, events[0]), events[1..], pair)
  }

  function Sent(c: Config, events: seq<Event>): nat
    decreases |events|
  {
    if events == [] then 0
    else (if Sends(c, events[0]) then 1 else 0) + Sent(Next(c, events[0]), events[1..])
  }

  function SentBy(c: Config, events: seq<Event>, pair: Pair): nat
    decreases |events|
  {
    if events == [] then 0
    else
      (if Sends(c, events[0]) && PairOf(events[0].action) == pair then 1 else 0)
      + SentBy(Next(c, events[0]), events[1..], pair)
  }

  /** An overtaken reconcile of the pair sends its patch all the same. */
  predicate Collides(c: Config, e: Event, pair: Pair) {
    Sends(c, e) && PairOf(e.action) == pair && c.flights[e.action].overtaken
  }

  predicate CleanRun(c: Config, events: seq<Event>, pair: Pair)
    decreases |events|
  {
    events == [] || (!Collides(c, events[0], pair) && CleanRun(Next(c, events[0]), events[1..], pair))
  }

  predicate CleanForAll(c: Config, events: seq<Event>)
    decreases |events|
  {
    events == [] || (!(Sends(c, events[0]) && c.flights[events[0].action].overtaken) && CleanForAll(Next(c, events[0]), events[1..]))
  }

  lemma PairHasTwoDirections(a: Action, b: Action)
    ensures PairOf(a) == PairOf(b) <==> b == a || b == Opposite(a)
  {}

  // ---------------------------------------------------------------------------
  // A patch of a reconcile that was not overtaken is a whole reconcile
  // ---------------------------------------------------------------------------

  /** Names never change. */
  ghost predicate Named(w: World, seen: World) {
    SamePoolNames(seen, w) && WorkerNames(seen.shoot.workers) == WorkerNames(w.shoot.workers)
  }

  ghost predicate Distinct(w: World) {
    DistinctPools(w.pools) && DistinctWorkers(w.shoot.workers)
  }

  lemma ShootPatchIsStep(w: World, seen: World, a: Action)
    requires SameFor(w, seen, PairOf(a)) && (a == ControlPlaneToShoot || a == InfraToShoot)
    ensures Patched(w, seen, a) == Step(w, a)
  {
    var modified := Step(seen, a).shoot;
    EmptyPatch(seen.shoot, w.shoot);
    AnnotationPatch(seen.shoot.annotations, modified.annotations, w.shoot.annotations);
    AnnotationPatch(seen.shoot.annotations, modified.annotations, seen.shoot.annotations);
    assert modified.workers == seen.shoot.workers;
  }

  lemma CapiPatchIsStep(w: World, seen: World, a: Action)
    requires SameFor(w, seen, PairOf(a)) && (a == ShootToControlPlane || a == ShootToInfra)
    ensures Patched(w, seen, a) == Step(w, a)
  {
    if a == ShootToControlPlane {
      SameShootPartSameControlPlane(w.shoot, seen.shoot, w.cp);
      ControlPlanePatch(seen.cp, Step(seen, a).cp, w.cp);
    }
  }

  /** A pool's patch to the Shoot touches the workers of its name and nothing else. */
  lemma WorkersPatch(base: seq<Worker>, current: seq<Worker>, pool: WorkerPool)
    requires WorkerNames(base) == WorkerNames(current) && DistinctWorkers(current)
    ensures |base| == |current|
    ensures var patched := PatchWorkers(base, WorkersFromPool(base, pool), current);
      forall k :: 0 <= k < |current| ==>
        patched[k] == if current[k].name == pool.name then PatchWorker(base[k], WorkerFromPool(pool), current[k]) else current[k]
  {
    var modified := WorkersFromPool(base, pool);
    PoolForward(base, pool);
    SameNamesDistinct(current, base);
    WorkerPatch(base, modified, current);
    forall k | 0 <= k < |current|
      ensures PatchWorkers(base, modified, current)[k]
           == if current[k].name == pool.name then PatchWorker(base[k], WorkerFromPool(pool), current[k]) else current[k]
    {
      NamesAt(base, current, k);
      PatchOfUnchanged(base[k], current[k]);
    }
  }

  lemma PatchOfUnchanged(base: Worker, current: Worker)
    ensures PatchWorker(base, base, current) == current
  {}

  lemma FreshWorkerPatch(base: Worker, modified: Worker)
    ensures PatchWorker(base, modified, base) == modified
  {}

  lemma WorkersPatchIsSync(base: seq<Worker>, current: seq<Worker>, pool: WorkerPool)
    requires WorkerNames(base) == WorkerNames(current) && DistinctWorkers(current) && SameNamed(current, base, pool.name)
    ensures PatchWorkers(base, WorkersFromPool(base, pool), current) == WorkersFromPool(current, pool)
  {
    var patched, expected := PatchWorkers(base, WorkersFromPool(base, pool), current), WorkersFromPool(current, pool);
    WorkersPatch(base, current, pool);
    forall k | 0 <= k < |current| ensures patched[k] == expected[k] {
      FreshWorkerPatch(base[k], WorkerFromPool(pool));
    }
  }

  lemma PoolPatchOfShoot(w: World, seen: World, i: nat)
    requires i < |seen.pools|
    ensures Patched(w, seen, PoolToShoot(i)) == w.(shoot := w.shoot.(
              workers := PatchWorkers(seen.shoot.workers, WorkersFromPool(seen.shoot.workers, seen.pools[i]), w.shoot.workers)))
  {
    EmptyPatch(seen.shoot, w.shoot);
    AnnotationPatch(seen.shoot.annotations, seen.shoot.annotations, w.shoot.annotations);
  }

  lemma WorkersPatchIsStep(w: World, seen: World, i: nat)
    requires SameFor(w, seen, Pools(i)) && Named(w, seen) && DistinctWorkers(w.shoot.workers)
    ensures Patched(w, seen, PoolToShoot(i)) == Step(w, PoolToShoot(i))
  {
    if i < |w.pools| {
      PoolPatchOfShoot(w, seen, i);
      WorkersPatchIsSync(seen.shoot.workers, w.shoot.workers, w.pools[i]);
    } else {
      EmptyPatch(seen.shoot, w.shoot);
    }
  }

  lemma PoolPatchIsStep(w: World, seen: World, i: nat)
    requires SameFor(w, seen, Pools(i)) && Named(w, seen)
    ensures Patched(w, seen, ShootToPool(i)) == Step(w, ShootToPool(i))
  {
    if i < |w.pools| {
      var pool := w.pools[i];
      SameNamedSamePool(w.shoot.workers, seen.shoot.workers, pool);
      BackwardPicksTheLast(w.shoot.workers, pool);
      PoolPatch(pool, PoolFromWorkers(w.shoot.workers, pool), pool);
    }
  }

  lemma {:induction false} StalePatchIsStep(w: World, seen: World, a: Action)
    requires SameFor(w, seen, PairOf(a)) && Named(w, seen) && DistinctWorkers(w.shoot.workers)
    ensures Patched(w, seen, a) == Step(w, a)
  {
    match a
    case PoolToShoot(i) => WorkersPatchIsStep(w, seen, i);
    case ShootToPool(i) => PoolPatchIsStep(w, seen, i);
    case InfraToShoot => ShootPatchIsStep(w, seen, a);
    case ControlPlaneToShoot => ShootPatchIsStep(w, seen, a);
    case _ => CapiPatchIsStep(w, seen, a);
  }

  /** Steps of a pair depend on, and change, only what the pair looks at. */
  lemma {:induction false} SameForSameStep(a: World, b: World, x: Action)
    requires SameFor(a, b, PairOf(x))
    ensures SameFor(Step(a, x), Step(b, x), PairOf(x))
    ensures Step(a, x) == a <==> Step(b, x) == b
  {
    match x
    case ControlPlaneToShoot => ControlPlaneForward(a.shoot, a.cp); ControlPlaneForward(b.shoot, b.cp);
    case ShootToControlPlane => SameShootPartSameControlPlane(a.shoot, b.shoot, a.cp);
    case InfraToShoot => InfraPair(a.shoot, a.infra); InfraPair(b.shoot, b.infra);
    case ShootToInfra =>
    case PoolToShoot(i) => SameForwardPool(a, b, i);
    case ShootToPool(i) => SameBackwardPool(a, b, i);
  }

  lemma SameForwardPool(a: World, b: World, i: nat)
    requires SameFor(a, b, Pools(i))
    ensures SameFor(Step(a, PoolToShoot(i)), Step(b, PoolToShoot(i)), Pools(i))
    ensures Step(a, PoolToShoot(i)) == a <==> Step(b, PoolToShoot(i)) == b
  {
    if i < |a.pools| {
      PoolForward(a.shoot.workers, a.pools[i]);
      PoolForward(b.shoot.workers, a.pools[i]);
      SameNamedSamePool(a.shoot.workers, b.shoot.workers, a.pools[i]);
    }
  }

  lemma SameBackwardPool(a: World, b: World, i: nat)
    requires SameFor(a, b, Pools(i))
    ensures SameFor(Step(a, ShootToPool(i)), Step(b, ShootToPool(i)), Pools(i))
    ensures Step(a, ShootToPool(i)) == a <==> Step(b, ShootToPool(i)) == b
  {
    if i < |a.pools| {
      BackwardPicksTheLast(a.shoot.workers, a.pools[i]);
      SameNamedSamePool(a.shoot.workers, b.shoot.workers, a.pools[i]);
      assert a.pools[i := a.pools[i]] == a.pools && b.pools[i := b.pools[i]] == b.pools;
      assert a.pools[i := PoolFromWorkers(a.shoot.workers, a.pools[i])][i] == PoolFromWorkers(a.shoot.workers, a.pools[i]);
      assert b.pools[i := PoolFromWorkers(a.shoot.workers, a.pools[i])][i] == PoolFromWorkers(a.shoot.workers, a.pools[i]);
    }
  }

  // ---------------------------------------------------------------------------
  // A patch, however stale, stays within its pair
  // ---------------------------------------------------------------------------

  lemma PatchKeepsNames(w: World, seen: World, a: Action)
    requires Named(w, seen)
    ensures Named(w, Patched(w, seen, a))
    ensures Distinct(w) ==> Distinct(Patched(w, seen, a))
  {
    var after := Patched(w, seen, a);
    forall i | 0 <= i < |w.shoot.workers| ensures after.shoot.workers[i].name == w.shoot.workers[i].name {}
    assert WorkerNames(after.shoot.workers) == WorkerNames(w.shoot.workers);
  }

  lemma ShootPatchStays(w: World, seen: World, a: Action, pair: Pair)
    requires PairOf(a) != pair && (a == ControlPlaneToShoot || a == InfraToShoot)
    ensures SameFor(Patched(w, seen, a), w, pair)
  {
    var modified := Step(seen, a).shoot;
    EmptyPatch(seen.shoot, w.shoot);
    assert modified.workers == seen.shoot.workers;
  }

  lemma WorkersPatchSparesOthers(base: seq<Worker>, current: seq<Worker>, pool: WorkerPool, name: string)
    requires WorkerNames(base) == WorkerNames(current) && DistinctWorkers(current) && name != pool.name
    ensures SameNamed(PatchWorkers(base, WorkersFromPool(base, pool), current), current, name)
  {
    WorkersPatch(base, current, pool);
  }

  lemma WorkersPatchStays(w: World, seen: World, i: nat, pair: Pair)
    requires Pools(i) != pair && Named(w, seen) && Distinct(w)
    ensures SameFor(Patched(w, seen, PoolToShoot(i)), w, pair)
  {
    if i < |seen.pools| {
      PoolPatchOfShoot(w, seen, i);
      if pair.Pools? && pair.index < |w.pools| {
        WorkersPatchSparesOthers(seen.shoot.workers, w.shoot.workers, seen.pools[i], w.pools[pair.index].name);
      }
    } else {
      EmptyPatch(seen.shoot, w.shoot);
    }
  }

  lemma {:induction false} PatchStaysInItsPair(w: World, seen: World, a: Action, pair: Pair)
    requires PairOf(a) != pair && Named(w, seen) && Distinct(w)
    ensures SameFor(Patched(w, seen, a), w, pair)
  {
    match a
    case PoolToShoot(i) => WorkersPatchStays(w, seen, i, pair);
    case InfraToShoot => ShootPatchStays(w, seen, a, pair);
    case ControlPlaneToShoot => ShootPatchStays(w, seen, a, pair);
    case _ =>
  }

  // ---------------------------------------------------------------------------
  // Clean runs are sequential
  // ---------------------------------------------------------------------------

  ghost predicate Valid(c: Config) {
    Distinct(c.world) && forall a :: a in c.flights ==> Named(c.world, c.flights[a].seen)
  }

  /** What the reconcile will have seen if it reads the Shoot now. */
  function View(w: World, f: Flight): World {
    if f.complete then f.seen else f.seen.(shoot := w.shoot)
  }

  /** Nothing that a reconcile of the pair has read has changed since, unless it was overtaken. */
  ghost predicate InStep(c: Config, pair: Pair) {
    forall a :: a in c.flights && PairOf(a) == pair && !c.flights[a].overtaken
      ==> SameFor(c.world, View(c.world, c.flights[a]), pair)
  }

  ghost predicate Start(c: Config) {
    c.flights == map[] && Distinct(c.world)
  }

  lemma NextIsValid(c: Config, e: Event)
    requires Valid(c)
    ensures Valid(Next(c, e)) && Named(c.world, Next(c, e).world)
  {
    var next := Next(c, e);
    if Sends(c, e) {
      PatchKeepsNames(c.world, c.flights[e.action].seen, e.action);
    }
    forall a | a in next.flights ensures Named(next.world, next.flights[a].seen) {
      assert a in c.flights ==> Named(c.world, c.flights[a].seen);
    }
  }

  lemma SentPatch(c: Config, e: Event)
    requires Valid(c) && InStep(c, PairOf(e.action)) && Sends(c, e) && !c.flights[e.action].overtaken
    ensures Next(c, e).world == Step(c.world, e.action) != c.world
  {
    var seen := c.flights[e.action].seen;
    StalePatchIsStep(c.world, seen, e.action);
    SameForSameStep(c.world, seen, e.action);
  }

  lemma NothingSent(c: Config, e: Event)
    requires InStep(c, PairOf(e.action)) && Performs(c, e) && !Sends(c, e)
    ensures Next(c, e).world == c.world == Step(c.world, e.action)
  {
    SameForSameStep(c.world, c.flights[e.action].seen, e.action);
  }

  /** A whole reconcile of the pair is one step of `Convergence`; nothing else moves the pair. */
  lemma {:induction false} NextOfPair(c: Config, e: Event, pair: Pair)
    requires Valid(c) && InStep(c, pair) && !Collides(c, e, pair)
    ensures Performs(c, e) && PairOf(e.action) == pair ==> Next(c, e).world == Step(c.world, e.action)
    ensures !(Performs(c, e) && PairOf(e.action) == pair) ==> SameFor(Next(c, e).world, c.world, pair)
    ensures Sends(c, e) && PairOf(e.action) == pair <==> Performs(c, e) && PairOf(e.action) == pair && Step(c.world, e.action) != c.world
  {
    SameForItself(c.world, pair);
    if Sends(c, e) {
      if PairOf(e.action) == pair {
        SentPatch(c, e);
      } else {
        PatchStaysInItsPair(c.world, c.flights[e.action].seen, e.action, pair);
      }
    } else if Performs(c, e) && PairOf(e.action) == pair {
      NothingSent(c, e);
    }
  }

  /** Another pair's patch, or the read of the Shoot, leaves a view in step. */
  lemma ViewStays(before: World, after: World, f: Flight, pair: Pair)
    requires SameFor(before, View(before, f), pair) && SameFor(after, before, pair)
    ensures SameFor(after, View(after, f), pair)
  {
    if f.complete {
      SameForTransitive(after, before, f.seen, pair);
    } else {
      SameForItself(after, pair);
    }
  }

  /** A reconcile that has not read the Shoot yet will find what the opposite direction put there. */
  lemma ShootPatchIsSeen(w: World, a: Action, f: Flight, pair: Pair)
    requires IntoShoot(a) && PairOf(a) == pair && !f.complete && SameFor(w, View(w, f), pair)
    ensures SameFor(Step(w, a), View(Step(w, a), f), pair)
  {
    SameForItself(Step(w, a), pair);
  }

  lemma InStepAfterPatch(c: Config, e: Event, pair: Pair)
    requires Valid(c) && InStep(c, pair) && !Collides(c, e, pair) && Sends(c, e)
    ensures InStep(Next(c, e), pair)
  {
    var next := Next(c, e);
    NextOfPair(c, e, pair);
    forall a | a in next.flights && PairOf(a) == pair && !next.flights[a].overtaken
      ensures SameFor(next.world, View(next.world, next.flights[a]), pair)
    {
      PairHasTwoDirections(a, e.action);
      assert next.flights[a] == c.flights[a];
      if PairOf(e.action) == pair {
        ShootPatchIsSeen(c.world, e.action, c.flights[a], pair);
      } else {
        ViewStays(c.world, next.world, c.flights[a], pair);
      }
    }
  }

  lemma {:induction false} InStepKept(c: Config, e: Event, pair: Pair)
    requires Valid(c) && InStep(c, pair) && !Collides(c, e, pair)
    ensures InStep(Next(c, e), pair)
  {
    if Sends(c, e) {
      InStepAfterPatch(c, e, pair);
    } else {
      SameForItself(c.world, pair);
    }
  }

  lemma {:induction false} SameForSameRun(a: World, b: World, actions: seq<Action>, pair: Pair)
    requires SameFor(a, b, pair) && forall x :: x in actions ==> PairOf(x) == pair
    ensures SameFor(Run(a, actions), Run(b, actions), pair)
    ensures PatchesOf(a, actions, pair) == PatchesOf(b, actions, pair)
    decreases |actions|
  {
    if actions != [] {
      SameForSameStep(a, b, actions[0]);
      SameForSameRun(Step(a, actions[0]), Step(b, actions[0]), actions[1..], pair);
    }
  }

  lemma {:induction false} OrderOfPair(c: Config, events: seq<Event>, pair: Pair)
    ensures forall x :: x in OrderOf(c, events, pair) ==> PairOf(x) == pair
    decreases |events|
  {
    if events != [] {
      OrderOfPair(Next(c, events[0]), events[1..], pair);
    }
  }

  /** For one pair, whatever the others do: if none of its reconciles sends a patch after having been
      overtaken, its objects go through the run of its whole reconciles, with as many patches. */
  lemma {:induction false} PairIsSequential(c: Config, events: seq<Event>, pair: Pair)
    requires Valid(c) && InStep(c, pair) && CleanRun(c, events, pair)
    ensures SameFor(Play(c, events).world, Run(c.world, OrderOf(c, events, pair)), pair)
    ensures SentBy(c, events, pair) == PatchesOf(c.world, OrderOf(c, events, pair), pair)
    decreases |events|
  {
    if events == [] {
      SameForItself(c.world, pair);
    } else {
      var e, next := events[0], Next(c, events[0]);
      NextIsValid(c, e);
      NextOfPair(c, e, pair);
      InStepKept(c, e, pair);
      PairIsSequential(next, events[1..], pair);
      var rest := OrderOf(next, events[1..], pair);
      if Performs(c, e) && PairOf(e.action) == pair {
        assert ([e.action] + rest)[1..] == rest;
      } else {
        assert [] + rest == rest;
        OrderOfPair(next, events[1..], pair);
        SameForSameRun(next.world, c.world, rest, pair);
        SameForTransitive(Play(c, events).world, Run(next.world, rest), Run(c.world, rest), pair);
      }
    }
  }

  lemma {:induction false} CleanIsSequential(c: Config, events: seq<Event>)
    requires Valid(c) && (forall pair :: InStep(c, pair)) && CleanForAll(c, events)
    ensures Play(c, events).world == Run(c.world, Order(c, events))
    ensures Sent(c, events) == Patches(c.world, Order(c, events))
    decreases |events|
  {
    if events != [] {
      var e, next := events[0], Next(c, events[0]);
      NextIsValid(c, e);
      if Completes(c, e) {
        NextOfPair(c, e, PairOf(e.action));
      }
      forall pair ensures InStep(next, pair) {
        assert InStep(c, pair);
        InStepKept(c, e, pair);
      }
      CleanIsSequential(next, events[1..]);
      var rest := Order(next, events[1..]);
      if Performs(c, e) {
        assert ([e.action] + rest)[1..] == rest;
      } else {
        assert next.world == c.world;
        assert [] + rest == rest;
      }
    }
  }

  lemma StartIsInStep(c: Config, pair: Pair)
    requires Start(c)
    ensures Valid(c) && InStep(c, pair)
  {}

  /** Main result: reads and patches of all six kinds may interleave freely. If no overtaken
      reconcile sends its patch, the world is the one that whole reconciles leave, run one after the
      other in the order of their patches, and no more patches are sent. */
  lemma {:induction false} CleanRunsAreSequential(c: Config, events: seq<Event>)
    requires Start(c) && CleanForAll(c, events)
    ensures Play(c, events).world == Run(c.world, Order(c, events))
    ensures Sent(c, events) == Patches(c.world, Order(c, events))
  {
    forall pair ensures Valid(c) && InStep(c, pair) {
      StartIsInStep(c, pair);
    }
    StartIsInStep(c, ControlPlanes);
    CleanIsSequential(c, events);
  }

  // ---------------------------------------------------------------------------
  // Directions that do not overlap
  // ---------------------------------------------------------------------------

  /** A reconcile starts only while the opposite direction of its pair is between reconciles. */
  predicate ApartRun(c: Config, events: seq<Event>)
    decreases |events|
  {
    events == [] || (
      && (events[0].ReadCapi? ==> Opposite(events[0].action) !in c.flights)
      && ApartRun(Next(c, events[0]), events[1..]))
  }

  ghost predicate Apart(c: Config) {
    forall a :: a in c.flights ==> Opposite(a) !in c.flights && !c.flights[a].overtaken
  }

  lemma {:induction false} ApartIsClean(c: Config, events: seq<Event>)
    requires Apart(c) && ApartRun(c, events)
    ensures CleanForAll(c, events)
    decreases |events|
  {
    if events != [] {
      assert Apart(Next(c, events[0])) by {
        ApartKept(c, events[0]);
      }
      ApartIsClean(Next(c, events[0]), events[1..]);
    }
  }

  lemma ApartKept(c: Config, e: Event)
    requires Apart(c) && (e.ReadCapi? ==> Opposite(e.action) !in c.flights)
    ensures Apart(Next(c, e))
  {
    var next := Next(c, e);
    forall a | a in next.flights ensures Opposite(a) !in next.flights && !next.flights[a].overtaken {
      assert Opposite(Opposite(a)) == a;
    }
  }

  lemma {:induction false} CleanForEach(c: Config, events: seq<Event>, pair: Pair)
    requires CleanForAll(c, events)
    ensures CleanRun(c, events, pair)
    decreases |events|
  {
    if events != [] {
      CleanForEach(Next(c, events[0]), events[1..], pair);
    }
  }

  // ---------------------------------------------------------------------------
  // No ping-pong, and its exact condition
  // ---------------------------------------------------------------------------

  ghost predicate SomeOvertaken(c: Config, pair: Pair) {
    exists a :: a in c.flights && PairOf(a) == pair && c.flights[a].overtaken
  }

  lemma OvertakenSparesOthers(flights: map<Action, Flight>, b: Action, a: Action)
    requires a != b && a in Overtaken(flights, b)
    ensures a in flights && Overtaken(flights, b)[a] == flights[a]
  {}

  lemma OvertakenBefore(c: Config, e: Event, pair: Pair)
    requires SomeOvertaken(Next(c, e), pair) && !(Sends(c, e) && PairOf(e.action) == pair)
    ensures SomeOvertaken(c, pair)
  {
    var next := Next(c, e);
    var a :| a in next.flights && PairOf(a) == pair && next.flights[a].overtaken;
    if Sends(c, e) {
      PairHasTwoDirections(e.action, Opposite(e.action));
      OvertakenSparesOthers(c.flights - {e.action}, Opposite(e.action), a);
    }
    assert a in c.flights && c.flights[a].overtaken;
  }

  /** Overtaking takes a patch, and a collision is another one. */
  lemma {:induction false} CollisionsSendTwice(c: Config, events: seq<Event>, pair: Pair)
    requires !CleanRun(c, events, pair)
    ensures SentBy(c, events, pair) >= if SomeOvertaken(c, pair) then 1 else 2
    decreases |events|
  {
    var e, next := events[0], Next(c, events[0]);
    if Collides(c, e, pair) {
      assert SomeOvertaken(c, pair);
    } else {
      CollisionsSendTwice(next, events[1..], pair);
      if SomeOvertaken(next, pair) && !(Sends(c, e) && PairOf(e.action) == pair) {
        OvertakenBefore(c, e, pair);
      }
    }
  }

  /** The most patches a clean run sends for a pair. */
  function Bound(pair: Pair): nat {
    if pair == ControlPlanes then 2 else 1
  }

  lemma {:induction false} PairBound(c: Config, events: seq<Event>, pair: Pair)
    requires Start(c) && CleanRun(c, events, pair)
    ensures SentBy(c, events, pair) <= Bound(pair)
  {
    StartIsInStep(c, pair);
    PairIsSequential(c, events, pair);
    PairPaysItsCost(c.world, OrderOf(c, events, pair), pair);
    if pair.Pools? {
      PoolCostBound(c.world, pair.index);
      if pair.index < |c.world.pools| {
        DistinctIsUniform(c.world.shoot.workers, c.world.pools[pair.index].name);
      }
    }
  }

  /** Main result: whatever the other pairs do, an infra or pool pair sends more than one patch
      exactly if one of its reconciles sends one after having been overtaken. */
  lemma {:induction false} OnePatchIffClean(c: Config, events: seq<Event>, pair: Pair)
    requires Start(c) && pair != ControlPlanes
    ensures SentBy(c, events, pair) <= 1 <==> CleanRun(c, events, pair)
  {
    if CleanRun(c, events, pair) {
      PairBound(c, events, pair);
    } else {
      CollisionsSendTwice(c, events, pair);
      assert !SomeOvertaken(c, pair);
    }
  }

  ghost predicate ForwardFacts(w: World, f: Flight) {
    f.complete ==> SameControlPlanePart(w.shoot, f.seen.shoot)
  }

  ghost predicate BackwardFacts(w: World, f: Flight) {
    f.seen.cp == w.cp && (f.overtaken ==> f.complete && !ControlPlaneAgrees(f.seen.shoot, f.seen.cp))
  }

  /** What holds of the control plane pair in clean runs: once a reconcile is overtaken the sides agree,
      only a reconcile itself changes its target, and an overtaken backward one saw disagreement. */
  ghost predicate ControlPlaneFacts(c: Config) {
    && (SomeOvertaken(c, ControlPlanes) ==> ControlPlaneAgrees(c.world.shoot, c.world.cp))
    && (ControlPlaneToShoot in c.flights ==> ForwardFacts(c.world, c.flights[ControlPlaneToShoot]))
    && (ShootToControlPlane in c.flights ==> BackwardFacts(c.world, c.flights[ShootToControlPlane]))
  }

  lemma OthersFlightsStay(c: Config, e: Event, a: Action)
    requires Sends(c, e) && PairOf(e.action) != PairOf(a) && a in Next(c, e).flights
    ensures a in c.flights && Next(c, e).flights[a] == c.flights[a]
  {
    PairHasTwoDirections(e.action, Opposite(e.action));
  }

  lemma SameForSameFacts(after: World, before: World, f: Flight)
    requires SameFor(after, before, ControlPlanes)
    ensures ForwardFacts(before, f) ==> ForwardFacts(after, f)
    ensures BackwardFacts(before, f) ==> BackwardFacts(after, f)
  {
    if f.complete && SameControlPlanePart(before.shoot, f.seen.shoot) {
      ChainControlPlanePart(after.shoot, before.shoot, f.seen.shoot);
    }
  }

  lemma FactsAfterOther(c: Config, e: Event)
    requires Valid(c) && ControlPlaneFacts(c) && Sends(c, e) && PairOf(e.action) != ControlPlanes
    ensures ControlPlaneFacts(Next(c, e))
  {
    var next := Next(c, e);
    PatchStaysInItsPair(c.world, c.flights[e.action].seen, e.action, ControlPlanes);
    if SomeOvertaken(next, ControlPlanes) {
      OvertakenBefore(c, e, ControlPlanes);
      SameShootSameAgreement(next.world, c.world, c.world.cp);
    }
    if ControlPlaneToShoot in next.flights {
      OthersFlightsStay(c, e, ControlPlaneToShoot);
      SameForSameFacts(next.world, c.world, c.flights[ControlPlaneToShoot]);
    }
    if ShootToControlPlane in next.flights {
      OthersFlightsStay(c, e, ShootToControlPlane);
      SameForSameFacts(next.world, c.world, c.flights[ShootToControlPlane]);
    }
  }

  lemma FactsAfterForward(c: Config, e: Event)
    requires Valid(c) && InStep(c, ControlPlanes) && ControlPlaneFacts(c) && !Collides(c, e, ControlPlanes)
    requires Sends(c, e) && e.action == ControlPlaneToShoot
    ensures ControlPlaneFacts(Next(c, e))
  {
    var w := c.world;
    SentPatch(c, e);
    ControlPlaneForward(w.shoot, w.cp);
    if ShootToControlPlane in c.flights {
      var f := c.flights[ShootToControlPlane];
      if f.complete && !f.overtaken {
        assert SameFor(w, View(w, f), ControlPlanes);
        SameShootSameAgreement(w, f.seen, w.cp);
      }
    }
  }

  lemma FactsAfterBackward(c: Config, e: Event)
    requires Valid(c) && InStep(c, ControlPlanes) && ControlPlaneFacts(c) && !Collides(c, e, ControlPlanes)
    requires Sends(c, e) && e.action == ShootToControlPlane
    ensures ControlPlaneFacts(Next(c, e))
  {
    SentPatch(c, e);
    ControlPlaneBackward(c.world.shoot, c.world.cp);
  }

  lemma FactsWithoutPatch(c: Config, e: Event)
    requires ControlPlaneFacts(c) && !Sends(c, e)
    ensures ControlPlaneFacts(Next(c, e))
  {
    if SomeOvertaken(Next(c, e), ControlPlanes) {
      OvertakenBefore(c, e, ControlPlanes);
    }
  }

  lemma {:induction false} FactsAlong(c: Config, events: seq<Event>)
    requires Valid(c) && InStep(c, ControlPlanes) && ControlPlaneFacts(c) && CleanRun(c, events, ControlPlanes)
    ensures Valid(Play(c, events)) && ControlPlaneFacts(Play(c, events))
    decreases |events|
  {
    if events != [] {
      var e := events[0];
      if !Sends(c, e) {
        FactsWithoutPatch(c, e);
      } else if e.action == ControlPlaneToShoot {
        FactsAfterForward(c, e);
      } else if e.action == ShootToControlPlane {
        FactsAfterBackward(c, e);
      } else {
        FactsAfterOther(c, e);
      }
      NextIsValid(c, e);
      InStepKept(c, e, ControlPlanes);
      FactsAlong(Next(c, e), events[1..]);
    }
  }

  /** A late forward patch puts the old GSCP values on the Shoot of a pair that has agreed on others. */
  lemma LateForwardPatch(w: World, seen: World)
    requires ControlPlaneAgrees(w.shoot, w.cp) && SameControlPlanePart(w.shoot, seen.shoot)
    requires Step(seen, ControlPlaneToShoot) != seen
    ensures !ControlPlaneAgrees(Patched(w, seen, ControlPlaneToShoot).shoot, w.cp)
  {
    ControlPlaneForward(seen.shoot, seen.cp);
  }

  /** A late backward patch does the same to the GSCP. */
  lemma LateBackwardPatch(w: World, seen: World)
    requires ControlPlaneAgrees(w.shoot, w.cp) && seen.cp == w.cp && !ControlPlaneAgrees(seen.shoot, seen.cp)
    requires Step(seen, ShootToControlPlane) != seen
    ensures !ControlPlaneAgrees(w.shoot, Patched(w, seen, ShootToControlPlane).cp)
  {
    var back := ControlPlaneFromShoot(seen.shoot, seen.cp);
    ControlPlanePatch(seen.cp, back, w.cp);
    ControlPlaneBackward(seen.shoot, seen.cp);
  }

  lemma CollisionDisagrees(c: Config, e: Event)
    requires ControlPlaneFacts(c) && Collides(c, e, ControlPlanes)
    ensures !ControlPlaneAgrees(Next(c, e).world.shoot, Next(c, e).world.cp)
  {
    var seen := c.flights[e.action].seen;
    assert SomeOvertaken(c, ControlPlanes);
    if e.action == ControlPlaneToShoot {
      LateForwardPatch(c.world, seen);
    } else {
      LateBackwardPatch(c.world, seen);
    }
  }

  /** Wherever a reconcile has something to do, it can do it undisturbed. */
  lemma OneMorePatch(c: Config, x: Action)
    requires Step(c.world, x) != c.world
    ensures var rest := [ReadCapi(x), ReadShoot(x), SendPatch(x)];
      CleanRun(c, rest, PairOf(x)) && SentBy(c, rest, PairOf(x)) == 1
  {
    var rest := [ReadCapi(x), ReadShoot(x), SendPatch(x)];
    var c1 := Next(c, rest[0]);
    assert c1.flights[x] == Flight(c.world, false, false);
    var c2 := Next(c1, rest[1]);
    assert c2.world == c.world && c2.flights[x] == Flight(c.world, true, false);
    PatchIsSent(c2, x);
    var c3 := Next(c2, rest[2]);
    assert rest[1..][1..] == rest[2..] && rest[2..][1..] == [];
    assert CleanRun(c3, [], PairOf(x)) && SentBy(c3, [], PairOf(x)) == 0;
    assert CleanRun(c2, rest[2..], PairOf(x)) && SentBy(c2, rest[2..], PairOf(x)) == 1;
    assert CleanRun(c1, rest[1..], PairOf(x)) && SentBy(c1, rest[1..], PairOf(x)) == 1;
  }

  lemma {:induction false} CleanConcat(c: Config, one: seq<Event>, two: seq<Event>, pair: Pair)
    ensures SentBy(c, one + two, pair) == SentBy(c, one, pair) + SentBy(Play(c, one), two, pair)
    ensures CleanRun(c, one + two, pair) <==> CleanRun(c, one, pair) && CleanRun(Play(c, one), two, pair)
    decreases |one|
  {
    if one == [] {
      assert one + two == two;
    } else {
      assert (one + two)[1..] == one[1..] + two;
      CleanConcat(Next(c, one[0]), one[1..], two, pair);
    }
  }

  /** After the event the run can go on cleanly to more patches than any clean run sends. */
  ghost predicate Exceeds(c: Config, events: seq<Event>, e: Event, pair: Pair) {
    exists rest :: CleanRun(Play(c, events + [e]), rest, pair) && SentBy(c, events + [e] + rest, pair) > Bound(pair)
  }

  lemma OnlyCollisionsExceed(c: Config, events: seq<Event>, e: Event, pair: Pair)
    requires Start(c) && CleanRun(c, events, pair) && Exceeds(c, events, e, pair)
    ensures Collides(Play(c, events), e, pair)
  {
    var rest :| CleanRun(Play(c, events + [e]), rest, pair) && SentBy(c, events + [e] + rest, pair) > Bound(pair);
    CleanConcat(c, events, [e], pair);
    CleanConcat(c, events + [e], rest, pair);
    if !Collides(Play(c, events), e, pair) {
      assert CleanRun(Play(c, events), [e], pair);
      PairBound(c, events + [e] + rest, pair);
    }
  }

  lemma CollisionsExceed(c: Config, events: seq<Event>, e: Event, pair: Pair)
    requires Start(c) && CleanRun(c, events, pair) && Collides(Play(c, events), e, pair)
    ensures Exceeds(c, events, e, pair)
  {
    var d := Play(c, events);
    CleanConcat(c, events, [e], pair);
    assert !CleanRun(d, [e], pair);
    CollisionsSendTwice(c, events + [e], pair);
    assert !SomeOvertaken(c, pair);
    if pair == ControlPlanes {
      StartIsInStep(c, pair);
      FactsAlong(c, events);
      CollisionDisagrees(d, e);
      PlayConcat(c, events, [e]);
      assert Play(Next(d, e), []) == Next(d, e);
      ExceedsOnDisagreement(c, events + [e]);
    } else {
      assert events + [e] + [] == events + [e];
      assert CleanRun(Play(c, events + [e]), [], pair);
    }
  }

  lemma ExceedsOnDisagreement(c: Config, events: seq<Event>)
    requires SentBy(c, events, ControlPlanes) >= 2
    requires !ControlPlaneAgrees(Play(c, events).world.shoot, Play(c, events).world.cp)
    ensures exists rest :: CleanRun(Play(c, events), rest, ControlPlanes) && SentBy(c, events + rest, ControlPlanes) > 2
  {
    var d := Play(c, events);
    var x := if Step(d.world, ControlPlaneToShoot) != d.world then ControlPlaneToShoot else ShootToControlPlane;
    if Step(d.world, x) == d.world {
      QuietControlPlane(d.world);
    }
    OneMorePatch(d, x);
    CleanConcat(c, events, [ReadCapi(x), ReadShoot(x), SendPatch(x)], ControlPlanes);
  }

  /** Main result: the condition is exact for every pair, whatever the others do. A clean run can be
      continued, cleanly but for the next event, to more patches than any clean run sends exactly if
      that event is a patch of an overtaken reconcile of the pair. */
  lemma {:induction false} BoundIsExact(c: Config, events: seq<Event>, e: Event, pair: Pair)
    requires Start(c) && CleanRun(c, events, pair)
    ensures Collides(Play(c, events), e, pair) <==> Exceeds(c, events, e, pair)
  {
    if Collides(Play(c, events), e, pair) {
      CollisionsExceed(c, events, e, pair);
    } else if Exceeds(c, events, e, pair) {
      OnlyCollisionsExceed(c, events, e, pair);
    }
  }

  /** Main result: clean runs of any length send at most two patches for the control plane, one for
      the infra cluster and one for each pool. */
  lemma {:induction false} NoPingPong(c: Config, events: seq<Event>)
    requires Start(c) && CleanForAll(c, events)
    ensures Sent(c, events) <= 3 + |c.world.pools|
    ensures SentBy(c, events, ControlPlanes) <= 2
    ensures SentBy(c, events, Infras) <= 1
    ensures forall i: nat :: SentBy(c, events, Pools(i)) <= 1
  {
    CleanRunsAreSequential(c, events);
    Convergence.NoPingPong(c.world, Order(c, events));
    forall pair ensures SentBy(c, events, pair) <= Bound(pair) {
      CleanForEach(c, events, pair);
      PairBound(c, events, pair);
    }
  }

  // ---------------------------------------------------------------------------
  // Overtaken patches can go back and forth for ever
  // ---------------------------------------------------------------------------

  function BothRead(a: Action): seq<Event> {
    [ReadCapi(a), ReadShoot(a), ReadCapi(Opposite(a)), ReadShoot(Opposite(a))]
  }

  function BothPatch(a: Action): seq<Event> {
    [SendPatch(a), SendPatch(Opposite(a))]
  }

  lemma {:induction false} PlayConcat(c: Config, one: seq<Event>, two: seq<Event>)
    ensures Play(c, one + two) == Play(Play(c, one), two)
    ensures Sent(c, one + two) == Sent(c, one) + Sent(Play(c, one), two)
    ensures Order(c, one + two) == Order(c, one) + Order(Play(c, one), two)
    decreases |one|
  {
    if one == [] {
      assert one + two == two;
    } else {
      assert (one + two)[1..] == one[1..] + two;
      PlayConcat(Next(c, one[0]), one[1..], two);
    }
  }

  /** Each side has what the other side's values make of it. */
  function Exchanged(w: World, a: Action): World {
    var into, outOf := Step(w, a), Step(w, Opposite(a));
    World(into.shoot, outOf.cp, outOf.infra, outOf.pools)
  }

  /** The sides of the pair disagree, for the control plane on more than the annotation. */
  ghost predicate Disputed(w: World, a: Action) {
    match PairOf(a)
    case ControlPlanes => !ControlPlaneAgrees(w.shoot, w.cp) && AgreeOn(w.shoot.annotations, w.cp.annotations, ANNOTATION_ALLOW_LIST)
    case Infras => !InfraAgrees(w.shoot, w.infra)
    case Pools(i) => i < |w.pools| && !PoolAgrees(w.shoot.workers, w.pools[i])
  }

  lemma {:induction false} DisputeSends(w: World, a: Action)
    requires Distinct(w) && Disputed(w, a)
    ensures Step(w, a) != w
  {
    match a
    case ControlPlaneToShoot => AgreementDoesNotPanic(w.shoot, w.cp); ControlPlaneForward(w.shoot, w.cp);
    case ShootToControlPlane => AgreementDoesNotPanic(w.shoot, w.cp); ControlPlaneBackward(w.shoot, w.cp);
    case InfraToShoot => InfraPair(w.shoot, w.infra);
    case ShootToInfra => InfraPair(w.shoot, w.infra);
    case PoolToShoot(i) => PoolForward(w.shoot.workers, w.pools[i]);
    case ShootToPool(i) => BackwardSends(w, i);
  }

  lemma BackwardSends(w: World, i: nat)
    requires Distinct(w) && i < |w.pools| && !PoolAgrees(w.shoot.workers, w.pools[i])
    ensures Step(w, ShootToPool(i)) != w
  {
    DisputedPool(w.shoot.workers, w.pools[i]);
    assert Step(w, ShootToPool(i)).pools[i] != w.pools[i];
  }

  lemma DisputedPool(workers: seq<Worker>, pool: WorkerPool)
    requires DistinctWorkers(workers) && !PoolAgrees(workers, pool)
    ensures var back := PoolFromWorkers(workers, pool);
      back != pool && back.name == pool.name && !PoolAgrees(WorkersFromPool(workers, pool), back)
  {
    DistinctIsUniform(workers, pool.name);
    PoolBackward(workers, pool);
    BackwardPicksTheLast(workers, pool);
    var back, result := PoolFromWorkers(workers, pool), WorkersFromPool(workers, pool);
    var k :| 0 <= k < |workers| && workers[k].name == pool.name && workers[k] != WorkerFromPool(pool);
    assert workers[k] == WorkerFromPool(back);
    assert result[k] == WorkerFromPool(pool);
  }

  lemma ControlPlaneDisputeStays(w: World)
    requires Disputed(w, ControlPlaneToShoot)
    ensures Disputed(Exchanged(w, ControlPlaneToShoot), ControlPlaneToShoot)
  {
    AgreementDoesNotPanic(w.shoot, w.cp);
    var w' := Exchanged(w, ControlPlaneToShoot);
    forall key | key in ANNOTATION_ALLOW_LIST ensures AgreeOnKey(w'.shoot.annotations, w'.cp.annotations, key) {
      assert AgreeOnKey(w.shoot.annotations, w.cp.annotations, key);
    }
  }

  /** An exchange settles nothing. */
  lemma {:induction false} DisputeStays(w: World, a: Action)
    requires Distinct(w) && Disputed(w, a) && IntoShoot(a)
    ensures Distinct(Exchanged(w, a)) && Disputed(Exchanged(w, a), a)
  {
    StepKeepsNames(w, a);
    StepKeepsNames(w, Opposite(a));
    SameNamesDistinct(w.shoot.workers, Step(w, a).shoot.workers);
    match a
    case ControlPlaneToShoot => ControlPlaneDisputeStays(w);
    case InfraToShoot =>
    case PoolToShoot(i) => DisputedPool(w.shoot.workers, w.pools[i]);
  }

  function BothSeen(w: World, a: Action): map<Action, Flight> {
    map[a := Flight(w, true, false), Opposite(a) := Flight(w, true, false)]
  }

  lemma AfterBothReads(w: World, a: Action)
    ensures var c := Config(w, map[]);
      Play(c, BothRead(a)) == Config(w, BothSeen(w, a)) && Sent(c, BothRead(a)) == 0
  {
    var c, events := Config(w, map[]), BothRead(a);
    var c1 := Next(c, events[0]);
    assert c1 == Config(w, map[a := Flight(w, false, false)]);
    var c2 := Next(c1, events[1]);
    assert c2 == Config(w, map[a := Flight(w, true, false)]);
    var c3 := Next(c2, events[2]);
    assert c3 == Config(w, map[a := Flight(w, true, false), Opposite(a) := Flight(w, false, false)]);
    var c4 := Next(c3, events[3]);
    assert c4 == Config(w, BothSeen(w, a));
    assert events[1..][1..] == events[2..] && events[2..][1..] == events[3..] && events[3..][1..] == [];
    assert Play(c3, events[3..]) == c4 && Sent(c3, events[3..]) == 0;
    assert Play(c2, events[2..]) == c4 && Sent(c2, events[2..]) == 0;
    assert Play(c1, events[1..]) == c4 && Sent(c1, events[1..]) == 0;
  }

  lemma OnlyTheOtherIsLeft(a: Action, b: Action, f: Flight)
    requires a != b && f.complete
    ensures Overtaken(map[a := f, b := f] - {a}, b) == map[b := f.(overtaken := true)]
  {
    assert map[a := f, b := f] - {a} == map[b := f];
  }

  lemma PatchIsSent(c: Config, a: Action)
    requires a in c.flights && c.flights[a].complete && Step(c.flights[a].seen, a) != c.flights[a].seen
    ensures Sends(c, SendPatch(a))
    ensures Next(c, SendPatch(a)) == Config(Patched(c.world, c.flights[a].seen, a), Overtaken(c.flights - {a}, Opposite(a)))
  {}

  lemma FreshPatchIsStep(w: World, a: Action)
    requires Distinct(w)
    ensures Patched(w, w, a) == Step(w, a)
  {
    SameForItself(w, PairOf(a));
    StalePatchIsStep(w, w, a);
  }

  lemma FirstPatchLands(w: World, a: Action)
    requires Distinct(w) && Step(w, a) != w
    ensures var c := Config(w, BothSeen(w, a));
      && Sends(c, SendPatch(a))
      && Next(c, SendPatch(a)) == Config(Step(w, a), map[Opposite(a) := Flight(w, true, true)])
  {
    var b := Opposite(a);
    assert a != b;
    PatchIsSent(Config(w, BothSeen(w, a)), a);
    OnlyTheOtherIsLeft(a, b, Flight(w, true, false));
    FreshPatchIsStep(w, a);
  }

  /** The overtaken patch is computed from the old Shoot and meets an unchanged CAPI object. */
  lemma OvertakenPatch(w: World, a: Action)
    requires IntoShoot(a)
    ensures Patched(Step(w, a), w, Opposite(a)) == Exchanged(w, a)
  {
    match a
    case ControlPlaneToShoot => ControlPlanePatch(w.cp, Step(w, Opposite(a)).cp, w.cp);
    case InfraToShoot =>
    case PoolToShoot(i) =>
      if i < |w.pools| {
        BackwardPicksTheLast(w.shoot.workers, w.pools[i]);
        PoolPatch(w.pools[i], PoolFromWorkers(w.shoot.workers, w.pools[i]), w.pools[i]);
      }
  }

  lemma SecondPatchLands(w: World, a: Action)
    requires Step(w, Opposite(a)) != w && IntoShoot(a)
    ensures var c := Config(Step(w, a), map[Opposite(a) := Flight(w, true, true)]);
      && Sends(c, SendPatch(Opposite(a)))
      && Next(c, SendPatch(Opposite(a))) == Config(Exchanged(w, a), map[])
  {
    OvertakenPatch(w, a);
    var flights := map[Opposite(a) := Flight(w, true, true)];
    assert flights - {Opposite(a)} == map[];
  }

  /** Wherever the sides of a pair disagree an overlap of the two directions exchanges their values:
      two patches, and they still disagree. */
  lemma {:induction false} OverlapExchanges(w: World, a: Action)
    requires Distinct(w) && Disputed(w, a) && IntoShoot(a)
    ensures var c := Config(w, map[]);
      && Play(c, BothRead(a) + BothPatch(a)) == Config(Exchanged(w, a), map[])
      && Sent(c, BothRead(a) + BothPatch(a)) == 2
  {
    var c1, patches := Config(w, BothSeen(w, a)), BothPatch(a);
    DisputeSends(w, a);
    DisputeSends(w, Opposite(a));
    AfterBothReads(w, a);
    FirstPatchLands(w, a);
    SecondPatchLands(w, a);
    PlayConcat(Config(w, map[]), BothRead(a), patches);
    var c2 := Next(c1, patches[0]);
    var c3 := Next(c2, patches[1]);
    assert patches[1..][1..] == [];
    assert Play(c2, patches[1..]) == c3 && Sent(c2, patches[1..]) == 1;
  }

  /** Two exchanges undo each other, but for the two fields only the Shoot decides. */
  lemma {:induction false} ExchangedTwice(w: World, a: Action)
    requires Distinct(w) && Disputed(w, a) && (a.InfraToShoot? || a.PoolToShoot?)
    ensures Exchanged(Exchanged(w, a), a) == w
  {
    if a.PoolToShoot? {
      PoolExchangedTwice(w.shoot.workers, w.pools[a.index]);
    }
  }

  lemma ExchangedWorkers(workers: seq<Worker>, pool: WorkerPool)
    requires DistinctWorkers(workers)
    ensures var back := PoolFromWorkers(workers, pool);
      back.name == pool.name && WorkersFromPool(WorkersFromPool(workers, pool), back) == workers
  {
    var back := PoolFromWorkers(workers, pool);
    DistinctIsUniform(workers, pool.name);
    WorkerRoundTrips(workers, pool);
    BackwardPicksTheLast(workers, pool);
    assert WorkersFromPool(WorkersFromPool(workers, pool), back) == WorkersFromPool(workers, back);
  }

  lemma ExchangedPool(workers: seq<Worker>, pool: WorkerPool, back: WorkerPool)
    requires PoolAgrees(workers, pool) && back.name == pool.name && back.spec.providerIDList == pool.spec.providerIDList
    requires exists i :: 0 <= i < |workers| && workers[i].name == pool.name
    ensures PoolFromWorkers(workers, back) == pool
  {
    BackwardPicksTheLast(workers, back);
    var last := LastNamed(workers, pool.name);
    assert WorkerFromPool(PoolFromWorkers(workers, back)) == workers[last] == WorkerFromPool(pool);
    SameWorkerSamePool(PoolFromWorkers(workers, back), pool);
  }

  lemma PoolExchangedTwice(workers: seq<Worker>, pool: WorkerPool)
    requires DistinctWorkers(workers) && !PoolAgrees(workers, pool)
    ensures var back, result := PoolFromWorkers(workers, pool), WorkersFromPool(workers, pool);
      WorkersFromPool(result, back) == workers && PoolFromWorkers(result, back) == pool
  {
    var back, result := PoolFromWorkers(workers, pool), WorkersFromPool(workers, pool);
    ExchangedWorkers(workers, pool);
    BackwardPicksTheLast(workers, pool);
    PoolForward(workers, pool);
    var k :| 0 <= k < |workers| && workers[k].name == pool.name;
    assert result[k].name == pool.name;
    ExchangedPool(result, pool, back);
  }

  /** Main result: without the condition there is no bound. Wherever the sides of a pair disagree, `n`
      overlaps in a row send 2n patches and leave them in disagreement. */
  lemma {:induction false} OverlapsNeverSettle(w: World, a: Action, n: nat) returns (events: seq<Event>)
    requires Distinct(w) && Disputed(w, a) && IntoShoot(a)
    ensures Sent(Config(w, map[]), events) == 2 * n
    ensures Play(Config(w, map[]), events).flights == map[]
    ensures Disputed(Play(Config(w, map[]), events).world, a)
    decreases n
  {
    if n == 0 {
      events := [];
    } else {
      OverlapExchanges(w, a);
      DisputeStays(w, a);
      var rest := OverlapsNeverSettle(Exchanged(w, a), a, n - 1);
      events := BothRead(a) + BothPatch(a) + rest;
      PlayConcat(Config(w, map[]), BothRead(a) + BothPatch(a), rest);
    }
  }

  // ---------------------------------------------------------------------------
  // Settling
  // ---------------------------------------------------------------------------

  /** A clean run in which every reconcile completes settles everything, whatever the order, unless
      the annotation sync into the control plane panics at the start. */
  lemma {:induction false} OneRound(c: Config, events: seq<Event>)
    requires Start(c) && CleanForAll(c, events)
    requires Round(c.world, Order(c, events)) && !BackwardPanics(c.world.shoot, c.world.cp)
    ensures Settled(Play(c, events).world)
  {
    CleanRunsAreSequential(c, events);
    Convergence.OneRound(c.world, Order(c, events));
  }

  /** Main result: a clean run in which every reconcile completes twice, every one once before any
      second time, leaves nothing to do in either direction, from any state. */
  lemma {:induction false} TwoRounds(c: Config, one: seq<Event>, two: seq<Event>)
    requires Start(c) && CleanForAll(c, one + two)
    requires Round(c.world, Order(c, one)) && Round(c.world, Order(Play(c, one), two))
    ensures var after := Play(c, one + two).world;
      Settled(after) && forall a: Action :: Step(after, a) == after
  {
    CleanRunsAreSequential(c, one + two);
    PlayConcat(c, one, two);
    Convergence.TwoRounds(c.world, Order(c, one), Order(Play(c, one), two));
  }

  // ---------------------------------------------------------------------------
  // The first writer wins
  // ---------------------------------------------------------------------------

  /** Both sides end with the infra fields of the side whose reconcile completes first. */
  lemma {:induction false} InfraFirstWriterWins(c: Config, events: seq<Event>)
    requires Start(c) && CleanRun(c, events, Infras)
    ensures var w, order, after := c.world, OrderOf(c, events, Infras), Play(c, events).world;
      if order == [] then after.infra == w.infra && SameInfra(after.shoot, w.shoot)
      else if order[0] == InfraToShoot then after.infra == w.infra && InfraAgrees(after.shoot, w.infra)
      else InfraAgrees(w.shoot, after.infra) && SameInfra(after.shoot, w.shoot)
  {
    var order := OrderOf(c, events, Infras);
    StartIsInStep(c, Infras);
    PairIsSequential(c, events, Infras);
    OrderOfPair(c, events, Infras);
    Convergence.InfraFirstWriterWins(c.world, order);
    assert order != [] ==> order[0] in order;
  }

  /** The same for the control plane, with the reconcile that first completes without a panic; the
      two fields only the Shoot decides follow the Shoot as soon as it speaks. */
  lemma {:induction false} ControlPlaneFirstWriterWins(c: Config, events: seq<Event>)
    requires Start(c) && CleanRun(c, events, ControlPlanes)
    ensures var w, order, after := c.world, OrderOf(c, events, ControlPlanes), Play(c, events).world;
      var k := FirstOf(w, order, ControlPlanes);
      if k == |order| then after.cp == w.cp && SameControlPlanePart(after.shoot, w.shoot)
      else if order[k] == ShootToControlPlane then
        after.cp == ControlPlaneFromShoot(w.shoot, w.cp) && SameControlPlanePart(after.shoot, w.shoot)
      else
        && ControlPlaneAgrees(after.shoot, w.cp)
        && after.cp == if ShootToControlPlane in order[k + 1..]
                       then w.cp.(spec := w.cp.spec.(
                              credentialsBindingName := w.shoot.spec.credentialsBindingName,
                              accessRestrictions := w.shoot.spec.accessRestrictions))
                       else w.cp
  {
    var order := OrderOf(c, events, ControlPlanes);
    StartIsInStep(c, ControlPlanes);
    PairIsSequential(c, events, ControlPlanes);
    Convergence.ControlPlaneFirstWriterWins(c.world, order);
    var end := Run(c.world, order);
    assert SameControlPlanePart(end.shoot, c.world.shoot) ==> SameControlPlanePart(Play(c, events).world.shoot, c.world.shoot) by {
      if SameControlPlanePart(end.shoot, c.world.shoot) {
        ChainControlPlanePart(Play(c, events).world.shoot, end.shoot, c.world.shoot);
      }
    }
    SameShootSameAgreement(Play(c, events).world, end, c.world.cp);
  }

  lemma SameShootSameAgreement(a: World, b: World, cp: ControlPlane)
    requires SameFor(a, b, ControlPlanes)
    ensures ControlPlaneAgrees(a.shoot, cp) <==> ControlPlaneAgrees(b.shoot, cp)
  {}

  lemma {:induction false} RunKeepsWorkerNames(w: World, actions: seq<Action>)
    ensures WorkerNames(Run(w, actions).shoot.workers) == WorkerNames(w.shoot.workers)
    decreases |actions|
  {
    if actions != [] {
      StepKeepsNames(w, actions[0]);
      RunKeepsWorkerNames(Step(w, actions[0]), actions[1..]);
    }
  }

  /** Workers that agree with a pool taken from them are as they were. */
  lemma AgreementRestores(before: seq<Worker>, after: seq<Worker>, pool: WorkerPool)
    requires DistinctWorkers(before) && WorkerNames(after) == WorkerNames(before)
    requires PoolAgrees(after, PoolFromWorkers(before, pool))
    ensures SameNamed(after, before, pool.name)
  {
    DistinctIsUniform(before, pool.name);
    PoolBackward(before, pool);
    BackwardPicksTheLast(before, pool);
    assert |WorkerNames(after)| == |WorkerNames(before)|;
    forall k | 0 <= k < |after| ensures after[k].name == before[k].name {
      NamesAt(after, before, k);
    }
  }

  /** The pool's objects as the whole reconciles of its pair leave them, names being unique. */
  ghost predicate PoolOutcome(w: World, order: seq<Action>, after: World, i: nat)
    requires i < |w.pools|
  {
    && |after.pools| == |w.pools|
    && if order == [] then after.pools[i] == w.pools[i] && SameNamed(after.shoot.workers, w.shoot.workers, w.pools[i].name)
       else if order[0] == PoolToShoot(i) then after.pools[i] == w.pools[i] && PoolAgrees(after.shoot.workers, w.pools[i])
       else
         && after.pools[i] == PoolFromWorkers(w.shoot.workers, w.pools[i])
         && SameNamed(after.shoot.workers, w.shoot.workers, w.pools[i].name)
  }

  lemma PoolRunOutcome(w: World, order: seq<Action>, i: nat)
    requires Distinct(w) && i < |w.pools| && forall x :: x in order ==> PairOf(x) == Pools(i)
    ensures PoolOutcome(w, order, Run(w, order), i)
  {
    Convergence.PoolFirstWriterWins(w, order, i);
    RunKeepsWorkerNames(w, order);
    if order != [] {
      assert order[0] in order;
      if order[0] == ShootToPool(i) && PoolToShoot(i) in order[1..] {
        AgreementRestores(w.shoot.workers, Run(w, order).shoot.workers, w.pools[i]);
      }
    }
  }

  lemma SameForSameOutcome(w: World, order: seq<Action>, after: World, end: World, i: nat)
    requires i < |w.pools| && SameFor(after, end, Pools(i)) && PoolOutcome(w, order, end, i)
    requires end.pools[i].name == w.pools[i].name
    ensures PoolOutcome(w, order, after, i)
  {
    SameNamedSamePool(after.shoot.workers, end.shoot.workers, end.pools[i]);
  }

  /** The same for a pool: it takes over the worker of its name, or gives that worker its own values,
      whichever reconcile completes first. */
  lemma {:induction false} PoolFirstWriterWins(c: Config, events: seq<Event>, i: nat)
    requires Start(c) && CleanRun(c, events, Pools(i)) && i < |c.world.pools|
    ensures PoolOutcome(c.world, OrderOf(c, events, Pools(i)), Play(c, events).world, i)
  {
    var order := OrderOf(c, events, Pools(i));
    StartIsInStep(c, Pools(i));
    PairIsSequential(c, events, Pools(i));
    OrderOfPair(c, events, Pools(i));
    PoolRunOutcome(c.world, order, i);
    RunKeepsNames(c.world, order);
    SameForSameOutcome(c.world, order, Play(c, events).world, Run(c.world, order), i);
  }
}
