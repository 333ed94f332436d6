/** The sync functions and the spec-sync part of the six reconcilers in their imperative form:
    objects behind pointers, annotation maps and worker slices updated in place, deep-copied
    baselines, and a patch sent only when something changed. */
module SyncHeap {
  import opened ApiTypes
  import opened Sync
  import opened Patch
  import opened Convergence

  /** A Go map. */
  class StringMap {
    var entries: map<string, string>

    constructor (entries: map<string, string>)
      ensures this.entries == entries
    {
      this.entries := entries;
    }
  }

  function Entries(m: StringMap?): Annotations
    reads m
  {
    if m == null then map[] else m.entries
  }

  /** Decoding an object without annotations leaves a nil map. */
  ghost predicate Decoded(m: StringMap?)
    reads m
  {
    m != null ==> m.entries != map[]
  }

  method NewMap(entries: Annotations) returns (m: StringMap?)
    ensures m == null || fresh(m)
    ensures Entries(m) == entries && Decoded(m)
  {
    if entries == map[] {
      m := null;
    } else {
      m := new StringMap(entries);
    }
  }

  class ShootObject {
    var annotations: StringMap?
    var spec: ShootSpec
    var workers: array<Worker>

    constructor (shoot: Shoot)
      ensures Value() == shoot && Decoded(annotations)
      ensures fresh(workers) && (annotations == null || fresh(annotations))
    {
      spec := shoot.spec;
      workers := new Worker[|shoot.workers|](i requires 0 <= i < |shoot.workers| => shoot.workers[i]);
      annotations := null;
      new;
      annotations := NewMap(shoot.annotations);
      assert workers[..] == shoot.workers;
    }

    ghost function Value(): Shoot
      reads this, annotations, workers
    {
      Shoot(Entries(annotations), spec, workers[..])
    }

    method DeepCopy() returns (copy: ShootObject)
      ensures fresh(copy) && fresh(copy.workers) && (copy.annotations == null || fresh(copy.annotations))
      ensures copy.Value() == Value()
    {
      copy := new ShootObject(Shoot(Entries(annotations), spec, workers[..]));
    }

    /** The response of a patch is decoded into the object. */
    method Decode(shoot: Shoot)
      modifies this
      ensures Value() == shoot && Decoded(annotations)
      ensures fresh(workers) && (annotations == null || fresh(annotations))
    {
      spec := shoot.spec;
      workers := new Worker[|shoot.workers|](i requires 0 <= i < |shoot.workers| => shoot.workers[i]);
      annotations := NewMap(shoot.annotations);
      assert workers[..] == shoot.workers;
    }
  }

  class ControlPlaneObject {
    var annotations: StringMap?
    var spec: ControlPlaneSpec

    constructor (cp: ControlPlane)
      ensures Value() == cp && Decoded(annotations)
      ensures annotations == null || fresh(annotations)
    {
      spec := cp.spec;
      annotations := null;
      new;
      annotations := NewMap(cp.annotations);
    }

    ghost function Value(): ControlPlane
      reads this, annotations
    {
      ControlPlane(Entries(annotations), spec)
    }

    method DeepCopy() returns (copy: ControlPlaneObject)
      ensures fresh(copy) && (copy.annotations == null || fresh(copy.annotations))
      ensures copy.Value() == Value()
    {
      copy := new ControlPlaneObject(ControlPlane(Entries(annotations), spec));
    }

    method Decode(cp: ControlPlane)
      modifies this
      ensures Value() == cp && Decoded(annotations)
      ensures annotations == null || fresh(annotations)
    {
      spec := cp.spec;
      annotations := NewMap(cp.annotations);
    }
  }

  class InfraObject {
    var spec: InfraSpec

    constructor (spec: InfraSpec)
      ensures this.spec == spec
    {
      this.spec := spec;
    }
  }

  class PoolObject {
    const name: string
    var spec: WorkerPoolSpec

    constructor (pool: WorkerPool)
      ensures Value() == pool
    {
      name := pool.name;
      spec := pool.spec;
    }

    ghost function Value(): WorkerPool
      reads this
    {
      WorkerPool(name, spec)
    }
  }

  // ---------------------------------------------------------------------------
  // The sync functions
  // ---------------------------------------------------------------------------

  lemma OneMoreKey(source: Annotations, target: Annotations, allowed: seq<string>, i: nat)
    requires i < |allowed|
    ensures var before, after := AnnotationsSynced(source, target, allowed[..i]), AnnotationsSynced(source, target, allowed[..i + 1]);
      after == if allowed[i] in source then before[allowed[i] := source[allowed[i]]] else before - {allowed[i]}
  {}

  /** Go panics on the first write into a nil map; nothing has been changed by then. */
  method SyncAnnotations(source: StringMap?, target: StringMap?, allowed: seq<string>)
    returns (result: StringMap?, panicked: bool)
    modifies target
    ensures panicked <==> target == null && exists key :: key in allowed && key in Entries(source)
    ensures result == target
    ensures Entries(source) == old(Entries(source))
    ensures !panicked ==> Entries(target) == AnnotationsSynced(old(Entries(source)), old(Entries(target)), allowed)
  {
    result, panicked := target, false;
    ghost var from, before := Entries(source), Entries(target);
    assert AnnotationsSynced(from, before, allowed[..0]) == before;
    var i := 0;
    while i < |allowed|
      invariant 0 <= i <= |allowed|
      invariant Entries(source) == from
      invariant target == null ==> forall j :: 0 <= j < i ==> allowed[j] !in from
      invariant Entries(target) == AnnotationsSynced(from, before, allowed[..i])
    {
      var key := allowed[i];
      OneMoreKey(from, before, allowed, i);
      i := i + 1;
      if source != null && key in source.entries {
        if target == null {
          panicked := true;
          return;
        }
        target.entries := target.entries[key := source.entries[key]];
        continue;
      }
      if target != null && key in target.entries {
        target.entries := target.entries - {key};
      }
    }
    assert allowed[..|allowed|] == allowed;
  }

  method SyncShootSpecFromGSCP(shoot: ShootObject, cp: ControlPlaneObject) returns (panicked: bool)
    modifies shoot, shoot.annotations
    ensures panicked <==> old(shoot.annotations) == null && GARDENER_OPERATION in Entries(cp.annotations)
    ensures shoot.annotations == old(shoot.annotations) && shoot.workers == old(shoot.workers)
    ensures cp.Value() == old(cp.Value())
    ensures shoot.Value() == if panicked then old(shoot.Value()) else ShootFromControlPlane(old(shoot.Value()), cp.Value())
  {
    shoot.annotations, panicked := SyncAnnotations(cp.annotations, shoot.annotations, ANNOTATION_ALLOW_LIST);
    assert GARDENER_OPERATION in ANNOTATION_ALLOW_LIST;
    if panicked {
      return;
    }
    shoot.spec := shoot.spec.(addons := cp.spec.addons);
    shoot.spec := shoot.spec.(dns := cp.spec.dns);
    shoot.spec := shoot.spec.(extensions := cp.spec.extensions);
    shoot.spec := shoot.spec.(kubernetes := cp.spec.kubernetes);
    shoot.spec := shoot.spec.(networking := cp.spec.networking);
    shoot.spec := shoot.spec.(monitoring := cp.spec.monitoring);
    SyncShootProviderFromGSCP(shoot, cp);
    shoot.spec := shoot.spec.(purpose := cp.spec.purpose);
    shoot.spec := shoot.spec.(secretBindingName := cp.spec.secretBindingName);
    shoot.spec := shoot.spec.(resources := cp.spec.resources);
    shoot.spec := shoot.spec.(tolerations := cp.spec.tolerations);
    shoot.spec := shoot.spec.(exposureClassName := cp.spec.exposureClassName);
    shoot.spec := shoot.spec.(systemComponents := cp.spec.systemComponents);
    shoot.spec := shoot.spec.(controlPlane := cp.spec.controlPlane);
    shoot.spec := shoot.spec.(schedulerName := cp.spec.schedulerName);
  }

  method SyncShootProviderFromGSCP(shoot: ShootObject, cp: ControlPlaneObject)
    modifies shoot`spec
    ensures shoot.spec == old(shoot.spec).(provider := cp.spec.provider)
  {
    shoot.spec := shoot.spec.(provider := shoot.spec.provider.(providerType := cp.spec.provider.providerType));
    shoot.spec := shoot.spec.(provider := shoot.spec.provider.(controlPlaneConfig := cp.spec.provider.controlPlaneConfig));
    shoot.spec := shoot.spec.(provider := shoot.spec.provider.(infrastructureConfig := cp.spec.provider.infrastructureConfig));
    shoot.spec := shoot.spec.(provider := shoot.spec.provider.(workersSettings := cp.spec.provider.workersSettings));
  }

  method SyncGSCPSpecFromShoot(shoot: ShootObject, cp: ControlPlaneObject) returns (panicked: bool)
    modifies cp, cp.annotations
    ensures panicked <==> old(cp.annotations) == null && GARDENER_OPERATION in Entries(shoot.annotations)
    ensures cp.annotations == old(cp.annotations)
    ensures shoot.Value() == old(shoot.Value())
    ensures cp.Value() == if panicked then old(cp.Value()) else ControlPlaneFromShoot(shoot.Value(), old(cp.Value()))
  {
    cp.annotations, panicked := SyncAnnotations(shoot.annotations, cp.annotations, ANNOTATION_ALLOW_LIST);
    assert GARDENER_OPERATION in ANNOTATION_ALLOW_LIST;
    if panicked {
      return;
    }
    cp.spec := cp.spec.(addons := shoot.spec.addons);
    cp.spec := cp.spec.(dns := shoot.spec.dns);
    cp.spec := cp.spec.(extensions := shoot.spec.extensions);
    cp.spec := cp.spec.(kubernetes := shoot.spec.kubernetes);
    cp.spec := cp.spec.(networking := shoot.spec.networking);
    cp.spec := cp.spec.(monitoring := shoot.spec.monitoring);
    SyncGSCPProviderFromShoot(shoot, cp);
    cp.spec := cp.spec.(purpose := shoot.spec.purpose);
    cp.spec := cp.spec.(secretBindingName := shoot.spec.secretBindingName);
    cp.spec := cp.spec.(resources := shoot.spec.resources);
    cp.spec := cp.spec.(tolerations := shoot.spec.tolerations);
    cp.spec := cp.spec.(exposureClassName := shoot.spec.exposureClassName);
    cp.spec := cp.spec.(systemComponents := shoot.spec.systemComponents);
    cp.spec := cp.spec.(controlPlane := shoot.spec.controlPlane);
    cp.spec := cp.spec.(schedulerName := shoot.spec.schedulerName);
    cp.spec := cp.spec.(credentialsBindingName := shoot.spec.credentialsBindingName);
    cp.spec := cp.spec.(accessRestrictions := shoot.spec.accessRestrictions);
  }

  method SyncGSCPProviderFromShoot(shoot: ShootObject, cp: ControlPlaneObject)
    modifies cp`spec
    ensures cp.spec == old(cp.spec).(provider := shoot.spec.provider)
  {
    cp.spec := cp.spec.(provider := cp.spec.provider.(providerType := shoot.spec.provider.providerType));
    cp.spec := cp.spec.(provider := cp.spec.provider.(controlPlaneConfig := shoot.spec.provider.controlPlaneConfig));
    cp.spec := cp.spec.(provider := cp.spec.provider.(infrastructureConfig := shoot.spec.provider.infrastructureConfig));
    cp.spec := cp.spec.(provider := cp.spec.provider.(workersSettings := shoot.spec.provider.workersSettings));
  }

  method SyncShootSpecFromCluster(shoot: ShootObject, infra: InfraObject)
    modifies shoot`spec
    ensures shoot.Value() == ShootFromInfra(old(shoot.Value()), infra.spec)
  {
    shoot.spec := shoot.spec.(hibernation := infra.spec.hibernation);
    shoot.spec := shoot.spec.(maintenance := infra.spec.maintenance);
    shoot.spec := shoot.spec.(region := infra.spec.region);
    shoot.spec := shoot.spec.(seedName := infra.spec.seedName);
    shoot.spec := shoot.spec.(seedSelector := infra.spec.seedSelector);
  }

  method SyncClusterSpecFromShoot(shoot: ShootObject, infra: InfraObject)
    modifies infra
    ensures infra.spec == InfraFromShoot(shoot.Value(), old(infra.spec))
  {
    infra.spec := infra.spec.(hibernation := shoot.spec.hibernation);
    infra.spec := infra.spec.(maintenance := shoot.spec.maintenance);
    infra.spec := infra.spec.(region := shoot.spec.region);
    infra.spec := infra.spec.(seedName := shoot.spec.seedName);
    infra.spec := infra.spec.(seedSelector := shoot.spec.seedSelector);
  }

  method WorkerConfigFromWorkerPool(pool: PoolObject) returns (worker: Worker)
    ensures worker == WorkerFromPool(pool.Value())
  {
    worker := Worker(
      name := pool.name,
      annotations := pool.spec.annotations,
      caBundle := pool.spec.caBundle,
      cri := pool.spec.cri,
      kubernetes := pool.spec.kubernetes,
      labels := pool.spec.labels,
      machine := pool.spec.machine,
      maximum := pool.spec.maximum,
      minimum := pool.spec.minimum,
      maxSurge := pool.spec.maxSurge,
      maxUnavailable := pool.spec.maxUnavailable,
      providerConfig := pool.spec.providerConfig,
      taints := pool.spec.taints,
      volume := pool.spec.volume,
      dataVolumes := pool.spec.dataVolumes,
      kubeletDataVolumeName := pool.spec.kubeletDataVolumeName,
      zones := pool.spec.zones,
      systemComponents := pool.spec.systemComponents,
      machineControllerManagerSettings := pool.spec.machineControllerManagerSettings,
      sysctls := pool.spec.sysctls,
      clusterAutoscaler := pool.spec.clusterAutoscaler,
      priority := pool.spec.priority,
      updateStrategy := pool.spec.updateStrategy,
      controlPlane := pool.spec.controlPlane);
  }

  /** Rewrites the slice the Shoot shares with every other holder of it. */
  method SyncShootSpecFromWorkerPool(shoot: ShootObject, pool: PoolObject)
    modifies shoot.workers
    ensures shoot.Value() == old(shoot.Value()).(workers := WorkersFromPool(old(shoot.Value()).workers, pool.Value()))
  {
    var workers := shoot.workers;
    var i := 0;
    while i < workers.Length
      invariant 0 <= i <= workers.Length
      invariant forall j :: 0 <= j < i ==>
        workers[j] == if old(workers[j]).name == pool.name then WorkerFromPool(pool.Value()) else old(workers[j])
      invariant forall j :: i <= j < workers.Length ==> workers[j] == old(workers[j])
    {
      if workers[i].name == pool.name {
        workers[i] := WorkerConfigFromWorkerPool(pool);
      }
      i := i + 1;
    }
    assert workers[..] == WorkersFromPool(old(workers[..]), pool.Value());
  }

  method SyncWorkerPoolFromShootSpec(shoot: ShootObject, pool: PoolObject)
    modifies pool
    ensures pool.Value() == PoolFromWorkers(shoot.Value().workers, old(pool.Value()))
  {
    var workers := shoot.workers;
    ghost var before := pool.Value();
    var i := 0;
    while i < workers.Length
      invariant 0 <= i <= workers.Length
      invariant pool.Value() == PoolFromWorkers(workers[..i], before)
    {
      var worker := workers[i];
      assert workers[..i + 1][..i] == workers[..i];
      BackwardPicksTheLast(workers[..i], before);
      i := i + 1;
      if worker.name != pool.name {
        continue;
      }
      pool.spec := pool.spec.(annotations := worker.annotations);
      pool.spec := pool.spec.(caBundle := worker.caBundle);
      pool.spec := pool.spec.(cri := worker.cri);
      pool.spec := pool.spec.(kubernetes := worker.kubernetes);
      pool.spec := pool.spec.(labels := worker.labels);
      pool.spec := pool.spec.(machine := worker.machine);
      pool.spec := pool.spec.(maximum := worker.maximum);
      pool.spec := pool.spec.(minimum := worker.minimum);
      pool.spec := pool.spec.(maxSurge := worker.maxSurge);
      pool.spec := pool.spec.(maxUnavailable := worker.maxUnavailable);
      pool.spec := pool.spec.(providerConfig := worker.providerConfig);
      pool.spec := pool.spec.(taints := worker.taints);
      pool.spec := pool.spec.(volume := worker.volume);
      pool.spec := pool.spec.(dataVolumes := worker.dataVolumes);
      pool.spec := pool.spec.(kubeletDataVolumeName := worker.kubeletDataVolumeName);
      pool.spec := pool.spec.(zones := worker.zones);
      pool.spec := pool.spec.(systemComponents := worker.systemComponents);
      pool.spec := pool.spec.(machineControllerManagerSettings := worker.machineControllerManagerSettings);
      pool.spec := pool.spec.(sysctls := worker.sysctls);
      pool.spec := pool.spec.(clusterAutoscaler := worker.clusterAutoscaler);
      pool.spec := pool.spec.(priority := worker.priority);
      pool.spec := pool.spec.(updateStrategy := worker.updateStrategy);
      pool.spec := pool.spec.(controlPlane := worker.controlPlane);
    }
    assert workers[..i] == workers[..];
  }

  // ---------------------------------------------------------------------------
  // The spec-sync part of the reconcilers
  // ---------------------------------------------------------------------------

  /** The API servers. A patch is diffed against the sender's baseline and applied to what is stored now. */
  class Server {
    var world: World
    var sent: nat

    constructor (world: World)
      ensures this.world == world && sent == 0
    {
      this.world := world;
      sent := 0;
    }

    method SendShoot(base: Shoot, modified: Shoot)
      modifies this
      ensures world == old(world).(shoot := PatchShoot(base, modified, old(world).shoot)) && sent == old(sent) + 1
    {
      world := world.(shoot := PatchShoot(base, modified, world.shoot));
      sent := sent + 1;
    }

    method SendControlPlane(base: ControlPlane, modified: ControlPlane)
      modifies this
      ensures world == old(world).(cp := PatchControlPlane(base, modified, old(world).cp)) && sent == old(sent) + 1
    {
      world := world.(cp := PatchControlPlane(base, modified, world.cp));
      sent := sent + 1;
    }

    method SendInfra(base: InfraSpec, modified: InfraSpec)
      modifies this
      ensures world == old(world).(infra := PatchInfra(base, modified, old(world).infra)) && sent == old(sent) + 1
    {
      world := world.(infra := PatchInfra(base, modified, world.infra));
      sent := sent + 1;
    }

    method SendPool(i: nat, base: WorkerPool, modified: WorkerPool)
      requires i < |world.pools|
      modifies this
      ensures world == old(world).(pools := old(world).pools[i := PatchPool(base, modified, old(world).pools[i])])
      ensures sent == old(sent) + 1
    {
      world := world.(pools := world.pools[i := PatchPool(base, modified, world.pools[i])]);
      sent := sent + 1;
    }
  }

  /** What a sent or skipped Shoot patch leaves, whether or not the baseline is still current. */
  function AfterShootPatch(w: World, base: Shoot, modified: Shoot): World {
    if base == modified then w else w.(shoot := PatchShoot(base, modified, w.shoot))
  }

  /** The guard every forward reconcile ends with. */
  method PatchShootIfChanged(server: Server, original: ShootObject, shoot: ShootObject)
    requires WorkerNames(original.Value().workers) == WorkerNames(shoot.Value().workers) && DistinctWorkers(original.Value().workers)
    modifies server, shoot
    ensures server.world == AfterShootPatch(old(server.world), old(original.Value()), old(shoot.Value()))
    ensures server.sent == old(server.sent) + (if old(original.Value()) == old(shoot.Value()) then 0 else 1)
    ensures old(server.world).shoot == old(original.Value()) ==> server.world == old(server.world).(shoot := old(shoot.Value()))
    ensures shoot.Value() == if old(original.Value()) == old(shoot.Value()) then old(shoot.Value()) else server.world.shoot
  {
    FreshPatch(original.Value(), shoot.Value());
    if original.spec != shoot.spec || original.workers[..] != shoot.workers[..]
       || Entries(original.annotations) != Entries(shoot.annotations)
    {
      server.SendShoot(
        Shoot(Entries(original.annotations), original.spec, original.workers[..]),
        Shoot(Entries(shoot.annotations), shoot.spec, shoot.workers[..]));
      shoot.Decode(server.world.shoot);
    }
  }

  method PatchControlPlaneIfChanged(server: Server, original: ControlPlaneObject, cp: ControlPlaneObject)
    modifies server, cp
    ensures server.world == old(server.world).(cp := PatchControlPlane(old(original.Value()), old(cp.Value()), old(server.world).cp))
    ensures server.sent == old(server.sent) + (if old(original.Value()) == old(cp.Value()) then 0 else 1)
    ensures old(server.world).cp == old(original.Value()) ==> server.world == old(server.world).(cp := old(cp.Value()))
    ensures cp.Value() == if old(original.Value()) == old(cp.Value()) then old(cp.Value()) else server.world.cp
  {
    ControlPlanePatch(original.Value(), cp.Value(), server.world.cp);
    if original.spec != cp.spec || Entries(original.annotations) != Entries(cp.annotations) {
      server.SendControlPlane(
        ControlPlane(Entries(original.annotations), original.spec),
        ControlPlane(Entries(cp.annotations), cp.spec));
      cp.Decode(server.world.cp);
    }
  }

  /** Shoot before control plane: the control plane is patched. */
  method PullControlPlaneSpecs(server: Server, shoot: ShootObject, cp: ControlPlaneObject) returns (panicked: bool)
    requires Decoded(cp.annotations)
    modifies server, cp, cp.annotations
    ensures panicked <==> BackwardPanics(old(shoot.Value()), old(cp.Value()))
    ensures panicked ==> server.world == old(server.world) && server.sent == old(server.sent)
    ensures !panicked ==>
      var base, modified := old(cp.Value()), ControlPlaneFromShoot(old(shoot.Value()), old(cp.Value()));
      && server.world == old(server.world).(cp := PatchControlPlane(base, modified, old(server.world).cp))
      && server.sent == old(server.sent) + (if base == modified then 0 else 1)
      && (old(server.world).cp == base ==> server.world == old(server.world).(cp := modified))
  {
    var originalShoot := shoot.DeepCopy();
    var originalControlPlane := cp.DeepCopy();
    panicked := SyncGSCPSpecFromShoot(originalShoot, cp);
    if !panicked {
      PatchControlPlaneIfChanged(server, originalControlPlane, cp);
    }
  }

  /** Control plane before Shoot: the Shoot is patched. */
  method PushControlPlaneSpecs(server: Server, shoot: ShootObject, cp: ControlPlaneObject) returns (panicked: bool)
    requires Decoded(shoot.annotations) && DistinctWorkers(shoot.Value().workers)
    modifies server, shoot, shoot.annotations
    ensures panicked <==> ForwardPanics(old(shoot.Value()), old(cp.Value()))
    ensures panicked ==> server.world == old(server.world) && server.sent == old(server.sent)
    ensures !panicked ==>
      var base, modified := old(shoot.Value()), ShootFromControlPlane(old(shoot.Value()), old(cp.Value()));
      && server.world == AfterShootPatch(old(server.world), base, modified)
      && server.sent == old(server.sent) + (if base == modified then 0 else 1)
      && (old(server.world).shoot == base ==> server.world == old(server.world).(shoot := modified))
  {
    var originalShoot := shoot.DeepCopy();
    var originalControlPlane := cp.DeepCopy();
    panicked := SyncShootSpecFromGSCP(shoot, originalControlPlane);
    if !panicked {
      PatchShootIfChanged(server, originalShoot, shoot);
    }
  }

  /** On fresh reads the reconcile is one step of the protocol, and a patch is sent exactly when the
      step changes something; a panic leaves everything as it was. */
  method SyncControlPlaneSpecs(server: Server, shoot: ShootObject, cp: ControlPlaneObject, prioritizeShoot: bool)
    returns (panicked: bool)
    requires Decoded(shoot.annotations) && Decoded(cp.annotations) && DistinctWorkers(shoot.Value().workers)
    modifies server, shoot, shoot.annotations, cp, cp.annotations
    ensures panicked <==> if prioritizeShoot then BackwardPanics(old(shoot.Value()), old(cp.Value()))
                          else ForwardPanics(old(shoot.Value()), old(cp.Value()))
    ensures panicked ==> server.world == old(server.world) && server.sent == old(server.sent)
    ensures old(server.world).shoot == old(shoot.Value()) && old(server.world).cp == old(cp.Value()) ==>
      && server.world == Step(old(server.world), if prioritizeShoot then ShootToControlPlane else ControlPlaneToShoot)
      && server.sent == old(server.sent) + (if server.world != old(server.world) then 1 else 0)
  {
    if prioritizeShoot {
      panicked := PullControlPlaneSpecs(server, shoot, cp);
    } else {
      panicked := PushControlPlaneSpecs(server, shoot, cp);
    }
  }

  method SyncInfraSpecs(server: Server, shoot: ShootObject, infra: InfraObject, prioritizeShoot: bool)
    requires DistinctWorkers(shoot.Value().workers)
    modifies server, shoot, infra
    ensures !prioritizeShoot ==>
      var base, modified := old(shoot.Value()), ShootFromInfra(old(shoot.Value()), old(infra.spec));
      && server.world == AfterShootPatch(old(server.world), base, modified)
      && server.sent == old(server.sent) + (if base == modified then 0 else 1)
    ensures prioritizeShoot ==>
      var base, modified := old(infra.spec), InfraFromShoot(old(shoot.Value()), old(infra.spec));
      && server.world == old(server.world).(infra := PatchInfra(base, modified, old(server.world).infra))
      && server.sent == old(server.sent) + (if base == modified then 0 else 1)
      && infra.spec == if base == modified then base else server.world.infra
    ensures old(server.world).shoot == old(shoot.Value()) && old(server.world).infra == old(infra.spec) ==>
      && server.world == (if prioritizeShoot then Step(old(server.world), ShootToInfra) else Step(old(server.world), InfraToShoot))
      && server.sent == old(server.sent) + (if server.world != old(server.world) then 1 else 0)
  {
    var originalShoot := shoot.DeepCopy();
    var originalInfra := new InfraObject(infra.spec);
    if prioritizeShoot {
      SyncClusterSpecFromShoot(originalShoot, infra);
      if originalInfra.spec != infra.spec {
        server.SendInfra(originalInfra.spec, infra.spec);
        infra.spec := server.world.infra;
      }
    } else {
      SyncShootSpecFromCluster(shoot, originalInfra);
      PatchShootIfChanged(server, originalShoot, shoot);
    }
  }

  lemma UpdateChanges<T>(s: seq<T>, i: nat, x: T)
    requires i < |s|
    ensures s[i := x] == s <==> x == s[i]
  {}

  method PatchPoolIfChanged(server: Server, original: PoolObject, pool: PoolObject, index: nat)
    requires index < |server.world.pools| && original.name == pool.name
    modifies server, pool
    ensures var base, modified := old(original.Value()), old(pool.Value());
      && server.world == old(server.world).(pools :=
           old(server.world).pools[index := PatchPool(base, modified, old(server.world).pools[index])])
      && server.sent == old(server.sent) + (if base == modified then 0 else 1)
      && pool.spec == (if base == modified then base.spec else server.world.pools[index].spec)
      && (old(server.world).pools[index] == base ==>
            && server.world == old(server.world).(pools := old(server.world).pools[index := modified])
            && server.sent == old(server.sent) + (if server.world != old(server.world) then 1 else 0))
  {
    PoolPatch(original.Value(), pool.Value(), server.world.pools[index]);
    PoolPatch(original.Value(), pool.Value(), original.Value());
    UpdateChanges(server.world.pools, index, original.Value());
    UpdateChanges(server.world.pools, index, pool.Value());
    if original.spec != pool.spec {
      server.SendPool(index, WorkerPool(original.name, original.spec), WorkerPool(pool.name, pool.spec));
      pool.spec := server.world.pools[index].spec;
    }
  }

  method PullPoolSpecs(server: Server, shoot: ShootObject, pool: PoolObject, index: nat)
    requires index < |server.world.pools|
    modifies server, pool
    ensures var base, modified := old(pool.Value()), PoolFromWorkers(old(shoot.Value()).workers, old(pool.Value()));
      && server.world == old(server.world).(pools :=
           old(server.world).pools[index := PatchPool(base, modified, old(server.world).pools[index])])
      && server.sent == old(server.sent) + (if base == modified then 0 else 1)
      && (old(server.world).pools[index] == base && old(server.world).shoot == old(shoot.Value()) ==>
            && server.world == Step(old(server.world), ShootToPool(index))
            && server.sent == old(server.sent) + (if server.world != old(server.world) then 1 else 0))
  {
    var originalShoot := shoot.DeepCopy();
    var originalPool := new PoolObject(WorkerPool(pool.name, pool.spec));
    SyncWorkerPoolFromShootSpec(originalShoot, pool);
    PatchPoolIfChanged(server, originalPool, pool, index);
  }

  /** The worker slice is rewritten in place; the baseline is not affected. */
  method PushPoolSpecs(server: Server, shoot: ShootObject, pool: PoolObject)
    requires DistinctWorkers(shoot.Value().workers)
    modifies server, shoot, shoot.workers
    ensures var base := old(shoot.Value());
      var modified := base.(workers := WorkersFromPool(base.workers, old(pool.Value())));
      && server.world == AfterShootPatch(old(server.world), base, modified)
      && server.sent == old(server.sent) + (if base == modified then 0 else 1)
      && (old(server.world).shoot == base ==> server.world == old(server.world).(shoot := modified))
  {
    var originalShoot := shoot.DeepCopy();
    var originalPool := new PoolObject(WorkerPool(pool.name, pool.spec));
    ghost var base := shoot.Value();
    SyncShootSpecFromWorkerPool(shoot, originalPool);
    PoolForward(base.workers, originalPool.Value());
    assert originalShoot.Value() == base;
    PatchShootIfChanged(server, originalShoot, shoot);
  }

  lemma PoolToShootStep(w: World, index: nat)
    requires index < |w.pools|
    ensures var modified := w.shoot.(workers := WorkersFromPool(w.shoot.workers, w.pools[index]));
      && Step(w, PoolToShoot(index)) == w.(shoot := modified)
      && (Step(w, PoolToShoot(index)) == w <==> w.shoot == modified)
  {}

  method SyncPoolSpecs(server: Server, shoot: ShootObject, pool: PoolObject, index: nat, prioritizeShoot: bool)
    requires index < |server.world.pools|
    requires DistinctWorkers(shoot.Value().workers)
    modifies server, shoot, shoot.workers, pool
    ensures old(server.world).shoot == old(shoot.Value()) && old(server.world).pools[index] == old(pool.Value()) ==>
      && server.world == Step(old(server.world), if prioritizeShoot then ShootToPool(index) else PoolToShoot(index))
      && server.sent == old(server.sent) + (if server.world != old(server.world) then 1 else 0)
  {
    if prioritizeShoot {
      PullPoolSpecs(server, shoot, pool, index);
    } else {
      PoolToShootStep(server.world, index);
      PushPoolSpecs(server, shoot, pool);
    }
  }
}
