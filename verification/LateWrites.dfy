/** What a patch writes when the server has moved on since its reads: a field on which the two sides
    disagreed when they were read gets the value of the side that is copied, whatever edits and other
    patches came between, and every other field is left as the server has it. */
module LateWrites {
  import opened ApiTypes
  import opened Sync
  import opened Patch
  import opened Convergence
  import opened Provenance
  import Overlap

  predicate OfInfra(f: Field) {
    f.Hibernation? || f.Maintenance? || f.Region? || f.SeedName? || f.SeedSelector?
  }

  /** The spec fields a reconcile copies. */
  predicate Copies(a: Action, f: Field) {
    match a
    case ControlPlaneToShoot => !OfInfra(f) && f != CredentialsBindingName && f != AccessRestrictions
    case ShootToControlPlane => !OfInfra(f)
    case InfraToShoot => OfInfra(f)
    case ShootToInfra => OfInfra(f)
    case _ => false
  }

  /** The field as the reconcile's source says it, and as its target does. */
  function Source(w: World, a: Action, f: Field): Value {
    if Overlap.IntoShoot(a) then CapiField(w, f) else ShootField(w.shoot.spec, f)
  }

  function Target(w: World, a: Action, f: Field): Value {
    if Overlap.IntoShoot(a) then ShootField(w.shoot.spec, f) else CapiField(w, f)
  }

  function SourceAnnotations(w: World, a: Action): Annotations {
    if Overlap.IntoShoot(a) then w.cp.annotations else w.shoot.annotations
  }

  function TargetAnnotations(w: World, a: Action): Annotations {
    if Overlap.IntoShoot(a) then w.shoot.annotations else w.cp.annotations
  }

  /** Where the sides disagreed the target has what the source said, elsewhere what it had. */
  ghost predicate FieldsWritten(seen: World, before: World, after: World, a: Action) {
    forall f :: Copies(a, f) ==>
      Target(after, a, f) == if Source(seen, a, f) != Target(seen, a, f) then Source(seen, a, f) else Target(before, a, f)
  }

  ghost predicate AnnotationsWritten(seen: World, before: World, after: World, a: Action) {
    && (if AgreeOnKey(SourceAnnotations(seen, a), TargetAnnotations(seen, a), GARDENER_OPERATION)
        then AgreeOnKey(TargetAnnotations(after, a), TargetAnnotations(before, a), GARDENER_OPERATION)
        else AgreeOnKey(TargetAnnotations(after, a), SourceAnnotations(seen, a), GARDENER_OPERATION))
    && forall key :: key != GARDENER_OPERATION ==> AgreeOnKey(TargetAnnotations(after, a), TargetAnnotations(before, a), key)
  }

  /** The entries of the pool's name get the fields on which the first of them disagreed with the pool. */
  ghost predicate WorkersWritten(seen: World, before: World, after: World, i: nat)
    requires i < |seen.pools|
  {
    && |after.shoot.workers| == |before.shoot.workers|
    && forall k :: 0 <= k < |before.shoot.workers| ==>
         if before.shoot.workers[k].name == seen.pools[i].name then
           forall b: nat, f: WorkerField :: FirstNamed(seen.shoot.workers, seen.pools[i].name, b) ==>
             EntryWritten(seen.shoot.workers[b], seen.pools[i], before.shoot.workers[k], after.shoot.workers[k], f)
         else after.shoot.workers[k] == before.shoot.workers[k]
  }

  ghost predicate EntryWritten(seen: Worker, pool: WorkerPool, before: Worker, after: Worker, f: WorkerField) {
    WorkerValue(after, f) ==
      if WorkerValue(seen, f) != WorkerValue(WorkerFromPool(pool), f) then WorkerValue(WorkerFromPool(pool), f)
      else WorkerValue(before, f)
  }

  /** The pool gets the fields on which the last worker of its name disagreed with it. */
  ghost predicate PoolWritten(seen: World, before: World, after: World, i: nat)
    requires i < |seen.pools| && i < |before.pools|
  {
    && |after.pools| == |before.pools|
    && (forall k :: 0 <= k < |before.pools| && k != i ==> after.pools[k] == before.pools[k])
    && forall last, f :: IsLastNamed(seen.shoot.workers, seen.pools[i].name, last) ==>
         PoolFieldWritten(seen.shoot.workers[last], seen.pools[i], before.pools[i], after.pools[i], f)
  }

  ghost predicate PoolFieldWritten(worker: Worker, seen: WorkerPool, before: WorkerPool, after: WorkerPool, f: WorkerField) {
    WorkerValue(WorkerFromPool(after), f) ==
      if WorkerValue(worker, f) != WorkerValue(WorkerFromPool(seen), f) then WorkerValue(worker, f)
      else WorkerValue(WorkerFromPool(before), f)
  }

  // ---------------------------------------------------------------------------
  // One patch
  // ---------------------------------------------------------------------------

  lemma ForwardFields(w: World, seen: World, a: Action)
    requires Overlap.IntoShoot(a) && !Panics(seen, a)
    ensures FieldsWritten(seen, w, Overlap.Patched(w, seen, a), a)
  {
    ShootPatchLands(seen.shoot, Step(seen, a).shoot, w.shoot);
  }

  lemma BackwardFields(w: World, seen: World, a: Action)
    requires !Overlap.IntoShoot(a) && !Panics(seen, a)
    ensures FieldsWritten(seen, w, Overlap.Patched(w, seen, a), a)
  {
    ControlPlanePatchLands(seen.cp, Step(seen, a).cp, w.cp);
    InfraPatchLands(seen.infra, Step(seen, a).infra, w.infra);
  }

  lemma AnnotationsLand(w: World, seen: World, a: Action)
    requires PairOf(a) == ControlPlanes && !Panics(seen, a)
    ensures AnnotationsWritten(seen, w, Overlap.Patched(w, seen, a), a)
  {
    var source, base := SourceAnnotations(seen, a), TargetAnnotations(seen, a);
    var modified := AnnotationsSynced(source, base, ANNOTATION_ALLOW_LIST);
    AnnotationSync(source, base, ANNOTATION_ALLOW_LIST);
    assert GARDENER_OPERATION in ANNOTATION_ALLOW_LIST;
    assert AgreeOnKey(modified, source, GARDENER_OPERATION);
    AnnotationPatchLands(base, modified, TargetAnnotations(w, a));
    var result := TargetAnnotations(Overlap.Patched(w, seen, a), a);
    assert result == PatchAnnotations(base, modified, TargetAnnotations(w, a));
    forall key ensures KeyLands(base, modified, TargetAnnotations(w, a), result, key) {}
    forall key | key != GARDENER_OPERATION ensures AgreeOnKey(result, TargetAnnotations(w, a), key) {
      assert AgreeOnKey(modified, base, key);
      assert KeyLands(base, modified, TargetAnnotations(w, a), result, key);
    }
    assert KeyLands(base, modified, TargetAnnotations(w, a), result, GARDENER_OPERATION);
  }

  lemma EntryLands(seen: Worker, pool: WorkerPool, before: Worker, f: WorkerField)
    ensures EntryWritten(seen, pool, before, PatchWorker(seen, WorkerFromPool(pool), before), f)
  {
    WorkerPatchLands(seen, WorkerFromPool(pool), before);
  }

  lemma UnchangedEntryLands(seen: Worker, before: Worker)
    ensures PatchWorker(seen, seen, before) == before
  {
    WorkerPatchLands(seen, seen, before);
  }

  lemma EntriesLand(seen: seq<Worker>, pool: WorkerPool, before: seq<Worker>, k: nat)
    requires k < |before|
    ensures var after := PatchWorkers(seen, WorkersFromPool(seen, pool), before)[k];
      if before[k].name == pool.name then
        forall b: nat, f: WorkerField :: FirstNamed(seen, pool.name, b) ==> EntryWritten(seen[b], pool, before[k], after, f)
      else after == before[k]
  {
    var name, modified := before[k].name, WorkersFromPool(seen, pool);
    PositionIsFirst(seen, name);
    PositionIsFirst(modified, name);
    var b := Position(seen, name);
    if b < |seen| {
      assert FirstNamed(seen, name, b);
      assert FirstNamed(modified, name, b) by {
        forall j | 0 <= j < b ensures modified[j].name != name {}
      }
      if name == pool.name {
        forall f ensures EntryWritten(seen[b], pool, before[k], PatchWorker(seen[b], modified[b], before[k]), f) {
          EntryLands(seen[b], pool, before[k], f);
        }
      } else {
        UnchangedEntryLands(seen[b], before[k]);
      }
    }
  }

  lemma WorkersAreWritten(w: World, seen: World, i: nat)
    requires i < |seen.pools|
    ensures WorkersWritten(seen, w, Overlap.Patched(w, seen, PoolToShoot(i)), i)
  {
    forall k: nat | k < |w.shoot.workers|
      ensures var after := PatchWorkers(seen.shoot.workers, WorkersFromPool(seen.shoot.workers, seen.pools[i]), w.shoot.workers)[k];
        if w.shoot.workers[k].name == seen.pools[i].name then
          forall b: nat, f: WorkerField :: FirstNamed(seen.shoot.workers, seen.pools[i].name, b) ==>
            EntryWritten(seen.shoot.workers[b], seen.pools[i], w.shoot.workers[k], after, f)
        else after == w.shoot.workers[k]
    {
      EntriesLand(seen.shoot.workers, seen.pools[i], w.shoot.workers, k);
    }
    Overlap.PoolPatchOfShoot(w, seen, i);
  }

  lemma PoolFieldLands(worker: Worker, seen: WorkerPool, modified: WorkerPool, before: WorkerPool, f: WorkerField)
    requires WorkerFromPool(modified) == worker
    ensures PoolFieldWritten(worker, seen, before, PatchPool(seen, modified, before), f)
  {
    PoolPatchLands(seen, modified, before);
  }

  lemma PoolPatchOfPools(w: World, seen: World, i: nat)
    requires i < |seen.pools| && i < |w.pools| && w.pools[i].name == seen.pools[i].name
    ensures Overlap.Patched(w, seen, ShootToPool(i)) == w.(pools :=
              w.pools[i := PatchPool(seen.pools[i], PoolFromWorkers(seen.shoot.workers, seen.pools[i]), w.pools[i])])
  {
    assert Step(seen, ShootToPool(i)).pools[i] == PoolFromWorkers(seen.shoot.workers, seen.pools[i]);
  }

  lemma PoolFieldsLand(workers: seq<Worker>, pool: WorkerPool, before: WorkerPool)
    ensures forall last, f :: IsLastNamed(workers, pool.name, last) ==>
              PoolFieldWritten(workers[last], pool, before, PatchPool(pool, PoolFromWorkers(workers, pool), before), f)
  {
    var modified := PoolFromWorkers(workers, pool);
    BackwardPicksTheLast(workers, pool);
    forall last, f | IsLastNamed(workers, pool.name, last)
      ensures PoolFieldWritten(workers[last], pool, before, PatchPool(pool, modified, before), f)
    {
      PoolFieldLands(workers[last], pool, modified, before, f);
    }
  }

  lemma PoolIsWritten(w: World, seen: World, i: nat)
    requires i < |seen.pools| && i < |w.pools| && w.pools[i].name == seen.pools[i].name
    ensures PoolWritten(seen, w, Overlap.Patched(w, seen, ShootToPool(i)), i)
  {
    PoolFieldsLand(seen.shoot.workers, seen.pools[i], w.pools[i]);
    PoolPatchOfPools(w, seen, i);
  }

  /** Everything one patch writes, by the kind of its reconcile. */
  ghost predicate Written(seen: World, before: World, after: World, a: Action) {
    match a
    case PoolToShoot(i) => i < |seen.pools| ==> WorkersWritten(seen, before, after, i)
    case ShootToPool(i) =>
      i < |seen.pools| && i < |before.pools| && before.pools[i].name == seen.pools[i].name ==> PoolWritten(seen, before, after, i)
    case InfraToShoot => FieldsWritten(seen, before, after, a)
    case ShootToInfra => FieldsWritten(seen, before, after, a)
    case _ => !Panics(seen, a) ==> FieldsWritten(seen, before, after, a) && AnnotationsWritten(seen, before, after, a)
  }

  lemma {:induction false} PatchWrites(w: World, seen: World, a: Action)
    ensures Written(seen, w, Overlap.Patched(w, seen, a), a)
  {
    match a
    case PoolToShoot(i) => if i < |seen.pools| { WorkersAreWritten(w, seen, i); }
    case ShootToPool(i) =>
      if i < |seen.pools| && i < |w.pools| && w.pools[i].name == seen.pools[i].name {
        PoolIsWritten(w, seen, i);
      }
    case InfraToShoot => ForwardFields(w, seen, a);
    case ShootToInfra => BackwardFields(w, seen, a);
    case ControlPlaneToShoot =>
      if !Panics(seen, a) {
        ForwardFields(w, seen, a);
        AnnotationsLand(w, seen, a);
      }
    case ShootToControlPlane =>
      if !Panics(seen, a) {
        BackwardFields(w, seen, a);
        AnnotationsLand(w, seen, a);
      }
  }

  /** A patch that need not be sent would change nothing. */
  lemma EmptyPatchStays(w: World, seen: World, a: Action)
    requires Step(seen, a) == seen
    ensures Overlap.Patched(w, seen, a) == w
  {
    EmptyPatch(seen.shoot, w.shoot);
    ControlPlanePatch(seen.cp, seen.cp, w.cp);
    match a
    case ShootToPool(i) =>
      if i < |w.pools| && i < |seen.pools| {
        PoolPatch(seen.pools[i], seen.pools[i], w.pools[i]);
        assert w.pools[i := w.pools[i]] == w.pools;
      }
    case _ =>
  }

  // ---------------------------------------------------------------------------
  // Whatever comes between
  // ---------------------------------------------------------------------------

  /** Edits and other reconciles, but no call of this one. */
  predicate Elsewhere(events: seq<Event>, a: Action) {
    forall e :: e in events ==> e.Edit? || e.event.action != a
  }

  lemma FlightStaysOnce(c: Overlap.Config, e: Event, a: Action)
    requires a in c.flights && (e.Edit? || e.event.action != a)
    ensures a in Next(c, e).flights
    ensures Next(c, e).flights[a].seen == c.flights[a].seen && Next(c, e).flights[a].complete == c.flights[a].complete
  {}

  lemma {:induction false} FlightStays(c: Overlap.Config, events: seq<Event>, a: Action)
    requires a in c.flights && Elsewhere(events, a)
    ensures var after := RunWithEdits(c, events);
      a in after.flights && after.flights[a].seen == c.flights[a].seen && after.flights[a].complete == c.flights[a].complete
    decreases |events|
  {
    if events != [] {
      FlightStaysOnce(c, events[0], a);
      FlightStays(Next(c, events[0]), events[1..], a);
    }
  }

  /** Main result: a reconcile reads its CAPI object, then the Shoot, then patches, with any edits and
      any calls of others in between. What it writes is what the sides it read disagreed on, with the
      values it read; everything else is as it was just before. */
  lemma {:induction false} LatePatchOverwrites(c: Overlap.Config, one: seq<Event>, two: seq<Event>, a: Action)
    requires Elsewhere(one, a) && Elsewhere(two, a)
    ensures var atShoot := RunWithEdits(Next(c, Sync(Overlap.ReadCapi(a))), one);
      var before := RunWithEdits(Next(atShoot, Sync(Overlap.ReadShoot(a))), two);
      var after := Next(before, Sync(Overlap.SendPatch(a)));
      Written(c.world.(shoot := atShoot.world.shoot), before.world, after.world, a)
  {
    var c1 := Next(c, Sync(Overlap.ReadCapi(a)));
    FlightStays(c1, one, a);
    var c2 := RunWithEdits(c1, one);
    var c3 := Next(c2, Sync(Overlap.ReadShoot(a)));
    FlightStays(c3, two, a);
    var c4 := RunWithEdits(c3, two);
    var seen := c.world.(shoot := c2.world.shoot);
    assert c4.flights[a].seen == seen && c4.flights[a].complete;
    PatchWrites(c4.world, seen, a);
    if Step(seen, a) == seen {
      EmptyPatchStays(c4.world, seen, a);
    }
  }
}
