/** No value out of thin air: whatever a synchronised field holds was there at the start, on one
    side or the other, or was brought in on that field by an edit from outside. This holds field by
    field, also within a worker entry, for patches of any age and any overlap of the reconcilers. */
module Provenance {
  import opened ApiTypes
  import opened Sync
  import opened Patch
  import opened Convergence
  import Overlap

  datatype Field =
    | Addons
    | Dns
    | Extensions
    | Kubernetes
    | Networking
    | Monitoring
    | Purpose
    | SecretBindingName
    | Resources
    | Tolerations
    | ExposureClassName
    | SystemComponents
    | ControlPlane
    | SchedulerName
    | CredentialsBindingName
    | AccessRestrictions
    | ProviderType
    | ControlPlaneConfig
    | InfrastructureConfig
    | WorkersSettings
    | Hibernation
    | Maintenance
    | Region
    | SeedName
    | SeedSelector

  function ShootField(spec: ShootSpec, f: Field): Value {
    match f
    case Addons => spec.addons
    case Dns => spec.dns
    case Extensions => spec.extensions
    case Kubernetes => spec.kubernetes
    case Networking => spec.networking
    case Monitoring => spec.monitoring
    case Purpose => spec.purpose
    case SecretBindingName => spec.secretBindingName
    case Resources => spec.resources
    case Tolerations => spec.tolerations
    case ExposureClassName => spec.exposureClassName
    case SystemComponents => spec.systemComponents
    case ControlPlane => spec.controlPlane
    case SchedulerName => spec.schedulerName
    case CredentialsBindingName => spec.credentialsBindingName
    case AccessRestrictions => spec.accessRestrictions
    case ProviderType => spec.provider.providerType
    case ControlPlaneConfig => spec.provider.controlPlaneConfig
    case InfrastructureConfig => spec.provider.infrastructureConfig
    case WorkersSettings => spec.provider.workersSettings
    case Hibernation => spec.hibernation
    case Maintenance => spec.maintenance
    case Region => spec.region
    case SeedName => spec.seedName
    case SeedSelector => spec.seedSelector
  }

  /** The field of the same name on the CAPI side. */
  function CapiField(w: World, f: Field): Value {
    match f
    case Addons => w.cp.spec.addons
    case Dns => w.cp.spec.dns
    case Extensions => w.cp.spec.extensions
    case Kubernetes => w.cp.spec.kubernetes
    case Networking => w.cp.spec.networking
    case Monitoring => w.cp.spec.monitoring
    case Purpose => w.cp.spec.purpose
    case SecretBindingName => w.cp.spec.secretBindingName
    case Resources => w.cp.spec.resources
    case Tolerations => w.cp.spec.tolerations
    case ExposureClassName => w.cp.spec.exposureClassName
    case SystemComponents => w.cp.spec.systemComponents
    case ControlPlane => w.cp.spec.controlPlane
    case SchedulerName => w.cp.spec.schedulerName
    case CredentialsBindingName => w.cp.spec.credentialsBindingName
    case AccessRestrictions => w.cp.spec.accessRestrictions
    case ProviderType => w.cp.spec.provider.providerType
    case ControlPlaneConfig => w.cp.spec.provider.controlPlaneConfig
    case InfrastructureConfig => w.cp.spec.provider.infrastructureConfig
    case WorkersSettings => w.cp.spec.provider.workersSettings
    case Hibernation => w.infra.hibernation
    case Maintenance => w.infra.maintenance
    case Region => w.infra.region
    case SeedName => w.infra.seedName
    case SeedSelector => w.infra.seedSelector
  }

  /** The fields a worker pool shares with its worker entry. */
  datatype WorkerField =
    | WorkerAnnotations
    | WorkerCaBundle
    | WorkerCri
    | WorkerKubernetes
    | WorkerLabels
    | WorkerMachine
    | WorkerMaximum
    | WorkerMinimum
    | WorkerMaxSurge
    | WorkerMaxUnavailable
    | WorkerProviderConfig
    | WorkerTaints
    | WorkerVolume
    | WorkerDataVolumes
    | WorkerKubeletDataVolumeName
    | WorkerZones
    | WorkerSystemComponents
    | WorkerMachineControllerManagerSettings
    | WorkerSysctls
    | WorkerClusterAutoscaler
    | WorkerPriority
    | WorkerUpdateStrategy
    | WorkerControlPlane

  datatype Topic = FieldTopic(field: Field) | WorkerTopic(name: string, workerField: WorkerField) | AnnotationTopic

  datatype Observed = FieldValue(value: Value) | Number(number: int32) | Text(text: string)

  function WorkerValue(worker: Worker, f: WorkerField): Observed {
    match f
    case WorkerAnnotations => FieldValue(worker.annotations)
    case WorkerCaBundle => FieldValue(worker.caBundle)
    case WorkerCri => FieldValue(worker.cri)
    case WorkerKubernetes => FieldValue(worker.kubernetes)
    case WorkerLabels => FieldValue(worker.labels)
    case WorkerMachine => FieldValue(worker.machine)
    case WorkerMaximum => Number(worker.maximum)
    case WorkerMinimum => Number(worker.minimum)
    case WorkerMaxSurge => FieldValue(worker.maxSurge)
    case WorkerMaxUnavailable => FieldValue(worker.maxUnavailable)
    case WorkerProviderConfig => FieldValue(worker.providerConfig)
    case WorkerTaints => FieldValue(worker.taints)
    case WorkerVolume => FieldValue(worker.volume)
    case WorkerDataVolumes => FieldValue(worker.dataVolumes)
    case WorkerKubeletDataVolumeName => FieldValue(worker.kubeletDataVolumeName)
    case WorkerZones => FieldValue(worker.zones)
    case WorkerSystemComponents => FieldValue(worker.systemComponents)
    case WorkerMachineControllerManagerSettings => FieldValue(worker.machineControllerManagerSettings)
    case WorkerSysctls => FieldValue(worker.sysctls)
    case WorkerClusterAutoscaler => FieldValue(worker.clusterAutoscaler)
    case WorkerPriority => FieldValue(worker.priority)
    case WorkerUpdateStrategy => FieldValue(worker.updateStrategy)
    case WorkerControlPlane => FieldValue(worker.controlPlane)
  }

  function Texts(annotations: Annotations): set<Observed> {
    if GARDENER_OPERATION in annotations then {Text(annotations[GARDENER_OPERATION])} else {}
  }

  ghost predicate WorkerSays(workers: seq<Worker>, name: string, f: WorkerField, value: Observed) {
    exists i :: 0 <= i < |workers| && workers[i].name == name && WorkerValue(workers[i], f) == value
  }

  ghost predicate PoolSays(pools: seq<WorkerPool>, name: string, f: WorkerField, value: Observed) {
    exists i :: 0 <= i < |pools| && pools[i].name == name && WorkerValue(WorkerFromPool(pools[i]), f) == value
  }

  /** Either side says this about the topic. */
  ghost predicate Shows(w: World, topic: Topic, value: Observed) {
    match topic
    case FieldTopic(f) => value == FieldValue(ShootField(w.shoot.spec, f)) || value == FieldValue(CapiField(w, f))
    case WorkerTopic(name, f) => WorkerSays(w.shoot.workers, name, f, value) || PoolSays(w.pools, name, f, value)
    case AnnotationTopic => value in Texts(w.shoot.annotations) || value in Texts(w.cp.annotations)
  }

  /** Either side says it, or a reconcile under way has read it. */
  ghost predicate Known(c: Overlap.Config, topic: Topic, value: Observed) {
    Shows(c.world, topic, value) || exists a :: a in c.flights && Shows(c.flights[a].seen, topic, value)
  }

  // ---------------------------------------------------------------------------
  // A sync copies
  // ---------------------------------------------------------------------------

  lemma FieldsOnlyCopied(w: World, a: Action, f: Field, value: Observed)
    requires Shows(Step(w, a), FieldTopic(f), value)
    ensures Shows(w, FieldTopic(f), value)
  {}

  lemma AnnotationOnlyCopied(w: World, a: Action, value: Observed)
    requires Shows(Step(w, a), AnnotationTopic, value)
    ensures Shows(w, AnnotationTopic, value)
  {}

  lemma WorkersOnlyCopied(w: World, i: nat, name: string, f: WorkerField, value: Observed)
    requires i < |w.pools| && WorkerSays(WorkersFromPool(w.shoot.workers, w.pools[i]), name, f, value)
    ensures Shows(w, WorkerTopic(name, f), value)
  {
    var after := WorkersFromPool(w.shoot.workers, w.pools[i]);
    var k :| 0 <= k < |after| && after[k].name == name && WorkerValue(after[k], f) == value;
    if w.shoot.workers[k].name == w.pools[i].name {
      assert PoolSays(w.pools, name, f, value);
    } else {
      assert WorkerSays(w.shoot.workers, name, f, value);
    }
  }

  lemma PoolsOnlyCopied(w: World, i: nat, f: WorkerField)
    requires i < |w.pools|
    ensures Shows(w, WorkerTopic(w.pools[i].name, f), WorkerValue(WorkerFromPool(PoolFromWorkers(w.shoot.workers, w.pools[i])), f))
  {
    BackwardPicksTheLast(w.shoot.workers, w.pools[i]);
    var last := LastNamed(w.shoot.workers, w.pools[i].name);
    if last >= 0 {
      assert WorkerFromPool(PoolFromWorkers(w.shoot.workers, w.pools[i])) == w.shoot.workers[last];
      assert WorkerSays(w.shoot.workers, w.pools[i].name, f, WorkerValue(w.shoot.workers[last], f));
    } else {
      assert PoolSays(w.pools, w.pools[i].name, f, WorkerValue(WorkerFromPool(w.pools[i]), f));
    }
  }

  // ---------------------------------------------------------------------------
  // A patch takes every field from what it was computed to be or leaves it
  // ---------------------------------------------------------------------------

  lemma FieldsOnlyPatched(w: World, seen: World, a: Action, f: Field, value: Observed)
    requires Shows(Overlap.Patched(w, seen, a), FieldTopic(f), value)
    ensures Shows(w, FieldTopic(f), value) || Shows(seen, FieldTopic(f), value)
  {
    if Shows(Step(seen, a), FieldTopic(f), value) {
      FieldsOnlyCopied(seen, a, f, value);
    }
  }

  lemma AnnotationOnlyPatched(w: World, seen: World, a: Action, value: Observed)
    requires Shows(Overlap.Patched(w, seen, a), AnnotationTopic, value)
    ensures Shows(w, AnnotationTopic, value) || Shows(seen, AnnotationTopic, value)
  {
    if Shows(Step(seen, a), AnnotationTopic, value) {
      AnnotationOnlyCopied(seen, a, value);
    }
  }

  lemma WorkerFieldPatched(base: Worker, modified: Worker, current: Worker, f: WorkerField)
    ensures var value := WorkerValue(PatchWorker(base, modified, current), f);
      value == WorkerValue(modified, f) || value == WorkerValue(current, f)
  {}

  lemma PoolFieldPatched(base: WorkerPool, modified: WorkerPool, current: WorkerPool, f: WorkerField)
    ensures var value := WorkerValue(WorkerFromPool(PatchPool(base, modified, current)), f);
      value == WorkerValue(WorkerFromPool(modified), f) || value == WorkerValue(WorkerFromPool(current), f)
  {}

  lemma WorkersOnlyPatched(base: seq<Worker>, modified: seq<Worker>, current: seq<Worker>, name: string, f: WorkerField, value: Observed)
    requires WorkerSays(PatchWorkers(base, modified, current), name, f, value)
    ensures WorkerSays(modified, name, f, value) || WorkerSays(current, name, f, value)
  {
    var patched := PatchWorkers(base, modified, current);
    var k :| 0 <= k < |patched| && patched[k].name == name && WorkerValue(patched[k], f) == value;
    var b, m := Position(base, current[k].name), Position(modified, current[k].name);
    if b < |base| && m < |modified| {
      WorkerFieldPatched(base[b], modified[m], current[k], f);
      assert patched[k] == PatchWorker(base[b], modified[m], current[k]);
      assert current[k].name == name;
      if value == WorkerValue(modified[m], f) {
        assert WorkerSays(modified, name, f, value);
      } else {
        assert WorkerSays(current, name, f, value);
      }
    } else {
      assert WorkerSays(current, name, f, value);
    }
  }

  lemma ShootWorkersPatched(w: World, seen: World, a: Action, name: string, f: WorkerField, value: Observed)
    requires WorkerSays(Overlap.Patched(w, seen, a).shoot.workers, name, f, value)
    ensures Shows(w, WorkerTopic(name, f), value) || Shows(seen, WorkerTopic(name, f), value)
  {
    if a.ControlPlaneToShoot? || a.InfraToShoot? || a.PoolToShoot? {
      var modified := Step(seen, a).shoot.workers;
      WorkersOnlyPatched(seen.shoot.workers, modified, w.shoot.workers, name, f, value);
      if WorkerSays(modified, name, f, value) && a.PoolToShoot? && a.index < |seen.pools| {
        WorkersOnlyCopied(seen, a.index, name, f, value);
      }
    }
  }

  lemma PoolsPatched(w: World, seen: World, a: Action, name: string, f: WorkerField, value: Observed)
    requires PoolSays(Overlap.Patched(w, seen, a).pools, name, f, value)
    ensures Shows(w, WorkerTopic(name, f), value) || Shows(seen, WorkerTopic(name, f), value)
  {
    var after := Overlap.Patched(w, seen, a).pools;
    var k :| 0 <= k < |after| && after[k].name == name && WorkerValue(WorkerFromPool(after[k]), f) == value;
    if after[k] == w.pools[k] {
      assert PoolSays(w.pools, name, f, value);
    } else {
      var modified := PoolFromWorkers(seen.shoot.workers, seen.pools[k]);
      PoolFieldPatched(seen.pools[k], modified, w.pools[k], f);
      assert after[k] == PatchPool(seen.pools[k], modified, w.pools[k]);
      if value == WorkerValue(WorkerFromPool(modified), f) {
        PoolsOnlyCopied(seen, k, f);
      } else {
        assert PoolSays(w.pools, name, f, value);
      }
    }
  }

  lemma OnlyPatched(w: World, seen: World, a: Action, topic: Topic, value: Observed)
    requires Shows(Overlap.Patched(w, seen, a), topic, value)
    ensures Shows(w, topic, value) || Shows(seen, topic, value)
  {
    match topic
    case FieldTopic(f) => FieldsOnlyPatched(w, seen, a, f, value);
    case AnnotationTopic => AnnotationOnlyPatched(w, seen, a, value);
    case WorkerTopic(name, f) =>
      if WorkerSays(Overlap.Patched(w, seen, a).shoot.workers, name, f, value) {
        ShootWorkersPatched(w, seen, a, name, f, value);
      } else {
        PoolsPatched(w, seen, a, name, f, value);
      }
  }

  // ---------------------------------------------------------------------------
  // Runs with edits from outside
  // ---------------------------------------------------------------------------

  /** An edit replaces any part of the objects, on either side. */
  datatype Event = Sync(event: Overlap.Event) | Edit(to: World)

  function Next(c: Overlap.Config, e: Event): Overlap.Config {
    match e
    case Sync(event) => Overlap.Next(c, event)
    case Edit(to) => c.(world := to)
  }

  function RunWithEdits(c: Overlap.Config, events: seq<Event>): Overlap.Config
    decreases |events|
  {
    if events == [] then c else RunWithEdits(Next(c, events[0]), events[1..])
  }

  /** Some edit of the run brings the value in on the topic: it was not there just before the edit. */
  ghost predicate Introduced(c: Overlap.Config, events: seq<Event>, topic: Topic, value: Observed)
    decreases |events|
  {
    events != [] && (
      || (events[0].Edit? && Shows(events[0].to, topic, value) && !Shows(c.world, topic, value))
      || Introduced(Next(c, events[0]), events[1..], topic, value))
  }

  lemma MixedReadShows(seen: World, w: World, topic: Topic, value: Observed)
    requires Shows(seen.(shoot := w.shoot), topic, value)
    ensures Shows(seen, topic, value) || Shows(w, topic, value)
  {}

  /** What a reconcile has read after an event: the same as before, the present, or part of each. */
  lemma NextSeen(c: Overlap.Config, e: Overlap.Event, a: Action)
    requires a in Overlap.Next(c, e).flights
    ensures var seen := Overlap.Next(c, e).flights[a].seen;
      || seen == c.world
      || (a in c.flights && (seen == c.flights[a].seen || seen == c.flights[a].seen.(shoot := c.world.shoot)))
  {}

  lemma NextOnlyKnows(c: Overlap.Config, e: Overlap.Event, topic: Topic, value: Observed)
    requires Known(Overlap.Next(c, e), topic, value)
    ensures Known(c, topic, value)
  {
    var next := Overlap.Next(c, e);
    if Shows(next.world, topic, value) {
      if Overlap.Sends(c, e) {
        OnlyPatched(c.world, c.flights[e.action].seen, e.action, topic, value);
      }
    } else {
      var a :| a in next.flights && Shows(next.flights[a].seen, topic, value);
      NextSeen(c, e, a);
      if a in c.flights && next.flights[a].seen == c.flights[a].seen.(shoot := c.world.shoot) {
        MixedReadShows(c.flights[a].seen, c.world, topic, value);
      }
    }
  }

  lemma {:induction false} KnownOrIntroduced(c: Overlap.Config, events: seq<Event>, topic: Topic, value: Observed)
    requires Known(RunWithEdits(c, events), topic, value)
    ensures Known(c, topic, value) || Introduced(c, events, topic, value)
    decreases |events|
  {
    if events != [] {
      var next := Next(c, events[0]);
      KnownOrIntroduced(next, events[1..], topic, value);
      if Known(next, topic, value) && events[0].Sync? {
        NextOnlyKnows(c, events[0].event, topic, value);
      }
    }
  }

  /** Main result: over any run of reads, patches of any age, and edits, a topic only ever shows what
      it showed at the start or what an edit introduced on that very topic. */
  lemma {:induction false} NothingOutOfThinAir(w: World, events: seq<Event>, topic: Topic, value: Observed)
    requires Shows(RunWithEdits(Overlap.Config(w, map[]), events).world, topic, value)
    ensures Shows(w, topic, value) || Introduced(Overlap.Config(w, map[]), events, topic, value)
  {
    KnownOrIntroduced(Overlap.Config(w, map[]), events, topic, value);
  }
}
