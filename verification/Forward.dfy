/** The forward reconcilers: six kinds of clients write disjoint parts of one Shoot with patches
    computed from Shoots they read earlier.

    Any interleaving of their read and patch calls has the effect of running whole reconciles one
    after the other in the order of the patches, and the outcome depends only on who patched. */
module Forward {
  import opened ApiTypes
  import opened Sync
  import opened Patch

  /** The CAPI side, fixed during a run. */
  datatype Specs = Specs(cp: ControlPlane, infra: InfraSpec, pools: seq<WorkerPool>)

  datatype Writer = ControlPlaneWriter | InfraWriter | PoolWriter(index: nat)

  /** What one uninterrupted forward reconcile leaves; a panic in the annotation sync aborts it. */
  function ForwardSync(specs: Specs, writer: Writer, shoot: Shoot): Shoot {
    match writer
    case ControlPlaneWriter => if ForwardPanics(shoot, specs.cp) then shoot else ShootFromControlPlane(shoot, specs.cp)
    case InfraWriter => ShootFromInfra(shoot, specs.infra)
    case PoolWriter(i) =>
      if i < |specs.pools| then shoot.(workers := WorkersFromPool(shoot.workers, specs.pools[i])) else shoot
  }

  function Sequential(specs: Specs, shoot: Shoot, writers: seq<Writer>): Shoot
    decreases |writers|
  {
    if writers == [] then shoot
    else Sequential(specs, ForwardSync(specs, writers[0], shoot), writers[1..])
  }

  // ---------------------------------------------------------------------------
  // Interleaved reads and patches
  // ---------------------------------------------------------------------------

  /** A reconcile between its read and its patch, with the deep copy it will diff against. */
  datatype Flight = Flight(writer: Writer, baseline: Shoot)

  datatype Config = Config(shoot: Shoot, flights: map<nat, Flight>)

  /** A read under a used identifier replaces the earlier reconcile, as a crash and restart would. */
  datatype Event = Read(id: nat, writer: Writer) | SendPatch(id: nat)

  function Step(specs: Specs, c: Config, e: Event): Config {
    match e
    case Read(id, writer) => c.(flights := c.flights[id := Flight(writer, c.shoot)])
    case SendPatch(id) =>
      if id !in c.flights then c
      else
        var Flight(writer, baseline) := c.flights[id];
        var modified := ForwardSync(specs, writer, baseline);
        Config(if baseline == modified then c.shoot else PatchShoot(baseline, modified, c.shoot), c.flights - {id})
  }

  function Run(specs: Specs, c: Config, events: seq<Event>): Config
    decreases |events|
  {
    if events == [] then c else Run(specs, Step(specs, c, events[0]), events[1..])
  }

  /** The writers in the order in which their patches arrived. */
  function PatchOrder(specs: Specs, c: Config, events: seq<Event>): seq<Writer>
    decreases |events|
  {
    if events == [] then []
    else
      (if events[0].SendPatch? && events[0].id in c.flights then [c.flights[events[0].id].writer] else [])
      + PatchOrder(specs, Step(specs, c, events[0]), events[1..])
  }

  // ---------------------------------------------------------------------------
  // A stale baseline differs from the server only where the server is already at the target
  // ---------------------------------------------------------------------------

  ghost predicate AtTarget(specs: Specs, worker: Worker) {
    exists j :: 0 <= j < |specs.pools| && specs.pools[j].name == worker.name && worker == WorkerFromPool(specs.pools[j])
  }

  ghost predicate Behind(specs: Specs, baseline: Shoot, shoot: Shoot) {
    && (ForwardPanics(baseline, specs.cp) <==> ForwardPanics(shoot, specs.cp))
    && (SameControlPlanePart(shoot, baseline) || ControlPlaneAgrees(shoot, specs.cp))
    && (SameInfra(shoot, baseline) || InfraAgrees(shoot, specs.infra))
    && WorkerNames(shoot.workers) == WorkerNames(baseline.workers)
    && |shoot.workers| == |baseline.workers|
    && forall i :: 0 <= i < |shoot.workers| ==> shoot.workers[i] == baseline.workers[i] || AtTarget(specs, shoot.workers[i])
  }

  lemma BehindItself(specs: Specs, shoot: Shoot)
    ensures Behind(specs, shoot, shoot)
  {}

  lemma StaysBehind(specs: Specs, baseline: Shoot, shoot: Shoot, writer: Writer)
    requires Behind(specs, baseline, shoot)
    ensures Behind(specs, baseline, ForwardSync(specs, writer, shoot))
  {
    match writer
    case ControlPlaneWriter =>
      ControlPlaneForward(shoot, specs.cp);
    case InfraWriter =>
      InfraPair(shoot, specs.infra);
      var after := ShootFromInfra(shoot, specs.infra);
      assert SameControlPlanePart(shoot, baseline) ==> SameControlPlanePart(after, baseline);
    case PoolWriter(i) =>
      if i < |specs.pools| {
        PoolForward(shoot.workers, specs.pools[i]);
        var after := ForwardSync(specs, writer, shoot);
        assert SameControlPlanePart(shoot, baseline) ==> SameControlPlanePart(after, baseline);
        forall k | 0 <= k < |after.workers|
          ensures after.workers[k] == baseline.workers[k] || AtTarget(specs, after.workers[k])
        {
          if shoot.workers[k].name == specs.pools[i].name {
            assert after.workers[k] == WorkerFromPool(specs.pools[i]);
          }
        }
      }
  }

  lemma StaleAnnotations(source: Annotations, baseline: Annotations, current: Annotations, allowed: seq<string>)
    requires AgreeOn(current, baseline, allowed) || AgreeOn(current, source, allowed)
    ensures PatchAnnotations(baseline, AnnotationsSynced(source, baseline, allowed), current)
         == AnnotationsSynced(source, current, allowed)
  {
    var modified := AnnotationsSynced(source, baseline, allowed);
    var patched, expected := PatchAnnotations(baseline, modified, current), AnnotationsSynced(source, current, allowed);
    AnnotationSync(source, baseline, allowed);
    AnnotationSync(source, current, allowed);
    forall key ensures AgreeOnKey(patched, expected, key) {
      if key in allowed {
        assert AgreeOnKey(modified, source, key) && AgreeOnKey(expected, source, key);
        assert AgreeOnKey(current, baseline, key) || AgreeOnKey(current, source, key);
      } else {
        assert AgreeOnKey(modified, baseline, key) && AgreeOnKey(expected, current, key);
      }
    }
    SameMap(patched, expected);
  }

  lemma SameMap(a: Annotations, b: Annotations)
    requires forall key :: AgreeOnKey(a, b, key)
    ensures a == b
  {
    forall key ensures key in a <==> key in b { assert AgreeOnKey(a, b, key); }
    forall key | key in a ensures a[key] == b[key] { assert AgreeOnKey(a, b, key); }
  }

  /** The only entry that can be ahead of its baseline is one already at the target. */
  lemma StaleWorker(baseline: Worker, target: Worker, current: Worker)
    requires current == baseline || current == target
    ensures PatchWorker(baseline, target, current) == target
  {}

  lemma StaleWorkers(specs: Specs, pool: WorkerPool, baseline: seq<Worker>, current: seq<Worker>)
    requires WorkerNames(current) == WorkerNames(baseline) && DistinctWorkers(baseline) && |current| == |baseline|
    requires forall i :: 0 <= i < |current| ==> current[i] == baseline[i] || AtTarget(specs, current[i])
    requires DistinctPools(specs.pools) && pool in specs.pools
    ensures PatchWorkers(baseline, WorkersFromPool(baseline, pool), current) == WorkersFromPool(current, pool)
  {
    var modified, expected := WorkersFromPool(baseline, pool), WorkersFromPool(current, pool);
    PoolForward(baseline, pool);
    WorkerPatch(baseline, modified, current);
    var patched := PatchWorkers(baseline, modified, current);
    forall i | 0 <= i < |current| ensures patched[i] == expected[i] {
      NamesAt(baseline, current, i);
      if current[i].name == pool.name {
        TargetOf(specs, pool, current[i]);
        StaleWorker(baseline[i], WorkerFromPool(pool), current[i]);
      } else {
        UnchangedWorker(baseline[i], current[i]);
      }
    }
  }

  lemma UnchangedWorker(baseline: Worker, current: Worker)
    ensures PatchWorker(baseline, baseline, current) == current
  {}

  lemma TargetOf(specs: Specs, pool: WorkerPool, worker: Worker)
    requires DistinctPools(specs.pools) && pool in specs.pools && worker.name == pool.name
    ensures AtTarget(specs, worker) ==> worker == WorkerFromPool(pool)
  {}

  /** A patch computed from a stale Shoot has exactly the effect of a fresh reconcile: no update is lost. */
  lemma {:induction false} StalePatchIsFreshSync(specs: Specs, writer: Writer, baseline: Shoot, shoot: Shoot)
    requires Behind(specs, baseline, shoot) && DistinctWorkers(baseline.workers) && DistinctPools(specs.pools)
    ensures PatchShoot(baseline, ForwardSync(specs, writer, baseline), shoot) == ForwardSync(specs, writer, shoot)
  {
    if ForwardSync(specs, writer, baseline) == baseline {
      EmptyPatch(baseline, shoot);
    }
    match writer
    case ControlPlaneWriter =>
      if !ForwardPanics(shoot, specs.cp) {
        StaleAnnotations(specs.cp.annotations, baseline.annotations, shoot.annotations, ANNOTATION_ALLOW_LIST);
        StaleControlPlaneSpec(specs, baseline, shoot);
        EmptyPatch(baseline, shoot);
      }
    case InfraWriter =>
      AnnotationPatch(baseline.annotations, baseline.annotations, shoot.annotations);
      EmptyPatch(baseline, shoot);
    case PoolWriter(i) =>
      if i < |specs.pools| {
        AnnotationPatch(baseline.annotations, baseline.annotations, shoot.annotations);
        StaleWorkers(specs, specs.pools[i], baseline.workers, shoot.workers);
      }
  }

  lemma StaleControlPlaneSpec(specs: Specs, baseline: Shoot, shoot: Shoot)
    requires SameControlPlanePart(shoot, baseline) || ControlPlaneAgrees(shoot, specs.cp)
    ensures PatchShootSpec(baseline.spec, ShootFromControlPlane(baseline, specs.cp).spec, shoot.spec)
         == ShootFromControlPlane(shoot, specs.cp).spec
  {}

  // ---------------------------------------------------------------------------
  // Every interleaving is a sequential run
  // ---------------------------------------------------------------------------

  ghost predicate Valid(specs: Specs, c: Config) {
    && DistinctPools(specs.pools)
    && DistinctWorkers(c.shoot.workers)
    && forall id :: id in c.flights ==> Behind(specs, c.flights[id].baseline, c.shoot)
  }

  lemma {:induction false} StepIsSequential(specs: Specs, c: Config, e: Event)
    requires Valid(specs, c)
    ensures Valid(specs, Step(specs, c, e))
    ensures Step(specs, c, e).shoot
         == if e.SendPatch? && e.id in c.flights then ForwardSync(specs, c.flights[e.id].writer, c.shoot) else c.shoot
  {
    var next := Step(specs, c, e);
    if e.Read? {
      BehindItself(specs, c.shoot);
    } else if e.id in c.flights {
      var Flight(writer, baseline) := c.flights[e.id];
      SameNamesDistinct(c.shoot.workers, baseline.workers);
      StalePatchIsFreshSync(specs, writer, baseline, c.shoot);
      EmptyPatch(baseline, c.shoot);
      assert next.shoot == ForwardSync(specs, writer, c.shoot);
      StaysBehind(specs, c.shoot, c.shoot, writer) by { BehindItself(specs, c.shoot); }
      SameNamesDistinct(c.shoot.workers, next.shoot.workers);
      forall id | id in next.flights ensures Behind(specs, next.flights[id].baseline, next.shoot) {
        StaysBehind(specs, next.flights[id].baseline, c.shoot, writer);
      }
    }
  }

  lemma {:induction false} RunIsSequential(specs: Specs, c: Config, events: seq<Event>)
    requires Valid(specs, c)
    ensures Run(specs, c, events).shoot == Sequential(specs, c.shoot, PatchOrder(specs, c, events))
    decreases |events|
  {
    if events != [] {
      var next := Step(specs, c, events[0]);
      StepIsSequential(specs, c, events[0]);
      RunIsSequential(specs, next, events[1..]);
      var order := PatchOrder(specs, next, events[1..]);
      if events[0].SendPatch? && events[0].id in c.flights {
        var writer := c.flights[events[0].id].writer;
        assert ([writer] + order)[1..] == order;
      } else {
        assert [] + order == order;
      }
    }
  }

  /** Main result: stale forward patches linearise in the order in which they were applied. */
  lemma {:induction false} StalePatchesLinearise(specs: Specs, shoot: Shoot, events: seq<Event>)
    requires DistinctPools(specs.pools) && DistinctWorkers(shoot.workers)
    ensures var start := Config(shoot, map[]);
      Run(specs, start, events).shoot == Sequential(specs, shoot, PatchOrder(specs, start, events))
  {
    RunIsSequential(specs, Config(shoot, map[]), events);
  }

  // ---------------------------------------------------------------------------
  // Confluence: the outcome depends only on the set of writers
  // ---------------------------------------------------------------------------

  ghost predicate PoolWrote(specs: Specs, writers: seq<Writer>, name: string, j: nat) {
    j < |specs.pools| && specs.pools[j].name == name && PoolWriter(j) in writers
  }

  /** What the server holds once exactly the given writers have had their turn, in no particular order. */
  ghost predicate Written(specs: Specs, before: Shoot, writers: seq<Writer>, after: Shoot) {
    && (if ControlPlaneWriter in writers && !ForwardPanics(before, specs.cp)
        then ControlPlaneAgrees(after, specs.cp) else SameControlPlanePart(after, before))
    && (if InfraWriter in writers then InfraAgrees(after, specs.infra) else SameInfra(after, before))
    && |after.workers| == |before.workers|
    && (forall i :: 0 <= i < |after.workers| ==>
          && after.workers[i].name == before.workers[i].name
          && (forall j: nat :: PoolWrote(specs, writers, before.workers[i].name, j) ==> after.workers[i] == WorkerFromPool(specs.pools[j]))
          && ((forall j: nat :: !PoolWrote(specs, writers, before.workers[i].name, j)) ==> after.workers[i] == before.workers[i]))
    && after.spec.cloudProfile == before.spec.cloudProfile
    && after.spec.credentialsBindingName == before.spec.credentialsBindingName
    && after.spec.accessRestrictions == before.spec.accessRestrictions
    && (forall key :: key !in ANNOTATION_ALLOW_LIST ==> AgreeOnKey(after.annotations, before.annotations, key))
  }

  /** `Written` describes one Shoot only. */
  lemma WrittenIsUnique(specs: Specs, before: Shoot, writers: seq<Writer>, a: Shoot, b: Shoot)
    requires Written(specs, before, writers, a) && Written(specs, before, writers, b)
    ensures a == b
  {
    forall key ensures AgreeOnKey(a.annotations, b.annotations, key) {
      if key in ANNOTATION_ALLOW_LIST {
        assert AgreeOnKey(a.annotations, specs.cp.annotations, key) || AgreeOnKey(a.annotations, before.annotations, key);
      } else {
        assert AgreeOnKey(a.annotations, before.annotations, key) && AgreeOnKey(b.annotations, before.annotations, key);
      }
    }
    SameMap(a.annotations, b.annotations);
    forall i | 0 <= i < |a.workers| ensures a.workers[i] == b.workers[i] {
      if j: nat :| PoolWrote(specs, writers, before.workers[i].name, j) {
      }
    }
  }

  lemma {:induction false} SequentialWrites(specs: Specs, shoot: Shoot, writers: seq<Writer>)
    requires DistinctPools(specs.pools)
    ensures Written(specs, shoot, writers, Sequential(specs, shoot, writers))
    decreases |writers|
  {
    if writers == [] {
      BehindItself(specs, shoot);
      forall key ensures AgreeOnKey(shoot.annotations, shoot.annotations, key) {}
    } else {
      var next := ForwardSync(specs, writers[0], shoot);
      SequentialWrites(specs, next, writers[1..]);
      FirstWriter(specs, shoot, writers, Sequential(specs, next, writers[1..]));
    }
  }

  lemma FirstWriter(specs: Specs, before: Shoot, writers: seq<Writer>, after: Shoot)
    requires DistinctPools(specs.pools) && writers != []
    requires Written(specs, ForwardSync(specs, writers[0], before), writers[1..], after)
    ensures Written(specs, before, writers, after)
  {
    var next := ForwardSync(specs, writers[0], before);
    assert forall w :: w in writers <==> w == writers[0] || w in writers[1..];
    ControlPlaneForward(before, specs.cp);
    FirstWriterWorkers(specs, before, writers, after);
    forall key | key !in ANNOTATION_ALLOW_LIST ensures AgreeOnKey(after.annotations, before.annotations, key) {
      assert AgreeOnKey(after.annotations, next.annotations, key);
      assert writers[0].ControlPlaneWriter? && next != before ==> AgreeOnKey(next.annotations, before.annotations, key);
    }
    FirstWriterControlPlane(specs, before, writers, after);
  }

  lemma FirstWriterControlPlane(specs: Specs, before: Shoot, writers: seq<Writer>, after: Shoot)
    requires writers != []
    requires Written(specs, ForwardSync(specs, writers[0], before), writers[1..], after)
    ensures if ControlPlaneWriter in writers && !ForwardPanics(before, specs.cp)
            then ControlPlaneAgrees(after, specs.cp) else SameControlPlanePart(after, before)
  {}

  lemma FirstWriterWorkers(specs: Specs, before: Shoot, writers: seq<Writer>, after: Shoot)
    requires DistinctPools(specs.pools) && writers != []
    requires Written(specs, ForwardSync(specs, writers[0], before), writers[1..], after)
    ensures |after.workers| == |before.workers|
    ensures forall i :: 0 <= i < |after.workers| ==>
          && after.workers[i].name == before.workers[i].name
          && (forall j: nat :: PoolWrote(specs, writers, before.workers[i].name, j) ==> after.workers[i] == WorkerFromPool(specs.pools[j]))
          && ((forall j: nat :: !PoolWrote(specs, writers, before.workers[i].name, j)) ==> after.workers[i] == before.workers[i])
  {
    var next := ForwardSync(specs, writers[0], before);
    assert forall w :: w in writers <==> w == writers[0] || w in writers[1..];
    forall i | 0 <= i < |after.workers|
      ensures after.workers[i].name == before.workers[i].name
      ensures forall j: nat :: PoolWrote(specs, writers, before.workers[i].name, j) ==> after.workers[i] == WorkerFromPool(specs.pools[j])
      ensures (forall j: nat :: !PoolWrote(specs, writers, before.workers[i].name, j)) ==> after.workers[i] == before.workers[i]
    {
      var name := before.workers[i].name;
      assert next.workers[i].name == name;
      forall j: nat | PoolWrote(specs, writers, name, j) ensures after.workers[i] == WorkerFromPool(specs.pools[j]) {
        if PoolWriter(j) in writers[1..] {
          assert PoolWrote(specs, writers[1..], name, j);
        } else {
          assert writers[0] == PoolWriter(j);
          forall k: nat ensures !PoolWrote(specs, writers[1..], name, k) {
            if k < |specs.pools| && specs.pools[k].name == name {
              SamePool(specs.pools, j, k);
            }
          }
        }
      }
      if forall j: nat :: !PoolWrote(specs, writers, name, j) {
        forall j: nat ensures !PoolWrote(specs, writers[1..], name, j) {
          assert !PoolWrote(specs, writers, name, j);
        }
        if writers[0].PoolWriter? {
          assert !PoolWrote(specs, writers, name, writers[0].index);
        }
      }
    }
  }

  ghost predicate SameWriters(a: seq<Writer>, b: seq<Writer>) {
    forall w :: w in a <==> w in b
  }

  /** Any two interleavings in which the same reconcilers got a patch through end in the same Shoot. */
  lemma {:induction false} ForwardConfluence(specs: Specs, shoot: Shoot, one: seq<Event>, two: seq<Event>)
    requires DistinctPools(specs.pools) && DistinctWorkers(shoot.workers)
    requires var start := Config(shoot, map[]);
      SameWriters(PatchOrder(specs, start, one), PatchOrder(specs, start, two))
    ensures var start := Config(shoot, map[]);
      && Run(specs, start, one).shoot == Run(specs, start, two).shoot
      && Written(specs, shoot, PatchOrder(specs, start, one), Run(specs, start, one).shoot)
  {
    var start := Config(shoot, map[]);
    StalePatchesLinearise(specs, shoot, one);
    StalePatchesLinearise(specs, shoot, two);
    var a, b := PatchOrder(specs, start, one), PatchOrder(specs, start, two);
    SequentialWrites(specs, shoot, a);
    SequentialWrites(specs, shoot, b);
    forall name, j: nat ensures PoolWrote(specs, a, name, j) <==> PoolWrote(specs, b, name, j) {}
    WrittenIsUnique(specs, shoot, a, Sequential(specs, shoot, a), Sequential(specs, shoot, b));
  }

  /** With every reconciler heard, the Shoot carries the CAPI specs, unless the annotation sync panics:
      then the control plane part is never written, and that is the only way to miss it. */
  lemma {:induction false} EveryoneHeard(specs: Specs, shoot: Shoot, writers: seq<Writer>)
    requires DistinctPools(specs.pools)
    requires ControlPlaneWriter in writers && InfraWriter in writers
    requires forall j :: 0 <= j < |specs.pools| ==> PoolWriter(j) in writers
    ensures var after := Sequential(specs, shoot, writers);
      && InfraAgrees(after, specs.infra)
      && (forall j :: 0 <= j < |specs.pools| ==> PoolAgrees(after.workers, specs.pools[j]))
      && (ControlPlaneAgrees(after, specs.cp) <==> !ForwardPanics(shoot, specs.cp))
  {
    var after := Sequential(specs, shoot, writers);
    SequentialWrites(specs, shoot, writers);
    forall j | 0 <= j < |specs.pools| ensures PoolAgrees(after.workers, specs.pools[j]) {
      forall i | 0 <= i < |after.workers| && after.workers[i].name == specs.pools[j].name
        ensures after.workers[i] == WorkerFromPool(specs.pools[j])
      {
        assert PoolWrote(specs, writers, shoot.workers[i].name, j);
      }
    }
    if ForwardPanics(shoot, specs.cp) {
      var key :| key in ANNOTATION_ALLOW_LIST && key in specs.cp.annotations;
      assert AgreeOnKey(after.annotations, shoot.annotations, key);
      assert !AgreeOnKey(after.annotations, specs.cp.annotations, key);
    }
  }

  /** Every order of whole reconciles is the patch order of some run, in which each reads and then
      patches; the Shoot is then as that order leaves it. */
  lemma {:induction false} EveryOrderOccurs(specs: Specs, shoot: Shoot, writers: seq<Writer>) returns (events: seq<Event>)
    requires DistinctPools(specs.pools) && DistinctWorkers(shoot.workers)
    ensures PatchOrder(specs, Config(shoot, map[]), events) == writers
    ensures Run(specs, Config(shoot, map[]), events) == Config(Sequential(specs, shoot, writers), map[])
    decreases |writers|
  {
    if writers == [] {
      events := [];
    } else {
      var c, next := Config(shoot, map[]), ForwardSync(specs, writers[0], shoot);
      ReadThenPatch(specs, shoot, writers[0]);
      var rest := EveryOrderOccurs(specs, next, writers[1..]);
      events := [Read(0, writers[0]), SendPatch(0)] + rest;
      assert events[1..] == [SendPatch(0)] + rest && events[1..][1..] == rest;
      var c1 := Step(specs, c, events[0]);
      assert PatchOrder(specs, c, events) == PatchOrder(specs, c1, events[1..]);
      assert PatchOrder(specs, c1, events[1..]) == [writers[0]] + PatchOrder(specs, Config(next, map[]), rest);
    }
  }

  lemma ReadThenPatch(specs: Specs, shoot: Shoot, writer: Writer)
    requires DistinctPools(specs.pools) && DistinctWorkers(shoot.workers)
    ensures var c1 := Step(specs, Config(shoot, map[]), Read(0, writer));
      && 0 in c1.flights && c1.flights[0].writer == writer
      && Step(specs, c1, SendPatch(0)) == Config(ForwardSync(specs, writer, shoot), map[])
    ensures DistinctWorkers(ForwardSync(specs, writer, shoot).workers)
  {
    var c1 := Step(specs, Config(shoot, map[]), Read(0, writer));
    BehindItself(specs, shoot);
    StepIsSequential(specs, c1, SendPatch(0));
    assert c1.flights - {0} == map[];
  }
}
