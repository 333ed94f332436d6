/** What the spec-sync functions of internal/util/util.go compute, as functions on values, and
    how each pair of directions relates. `SyncHeap` proves the in-place code against them. */
module Sync {
  import opened ApiTypes

  // ---------------------------------------------------------------------------
  // Annotations
  // ---------------------------------------------------------------------------

  /** The target agrees with the source on the allowed keys and is unchanged elsewhere. */
  function AnnotationsSynced(source: Annotations, target: Annotations, allowed: seq<string>): Annotations {
    map key | key in source.Keys + target.Keys && (if key in allowed then key in source else key in target)
      :: if key in allowed then source[key] else target[key]
  }

  /** Writing to a nil Go map panics: the target has no map and an allowed key must be stored. */
  predicate AnnotationsPanic(source: Annotations, target: Annotations, allowed: seq<string>) {
    target == map[] && exists key :: key in allowed && key in source
  }

  ghost predicate AgreeOnKey(a: Annotations, b: Annotations, key: string) {
    (key in a <==> key in b) && (key in a ==> a[key] == b[key])
  }

  ghost predicate AgreeOn(a: Annotations, b: Annotations, keys: seq<string>) {
    forall key :: key in keys ==> AgreeOnKey(a, b, key)
  }

  lemma AnnotationSync(source: Annotations, target: Annotations, allowed: seq<string>)
    ensures var synced := AnnotationsSynced(source, target, allowed);
      && AgreeOn(synced, source, allowed)
      && (forall key :: key !in allowed ==> AgreeOnKey(synced, target, key))
      && AnnotationsSynced(source, synced, allowed) == synced
      && AnnotationsSynced(synced, source, allowed) == source
      && (AgreeOn(source, target, allowed) <==> synced == target)
  {}

  // ---------------------------------------------------------------------------
  // Control plane: SyncShootSpecFromGSCP and SyncGSCPSpecFromShoot
  // ---------------------------------------------------------------------------

  function ShootFromControlPlane(shoot: Shoot, cp: ControlPlane): Shoot {
    shoot.(
      annotations := AnnotationsSynced(cp.annotations, shoot.annotations, ANNOTATION_ALLOW_LIST),
      spec := shoot.spec.(
      addons := cp.spec.addons,
      dns := cp.spec.dns,
      extensions := cp.spec.extensions,
      kubernetes := cp.spec.kubernetes,
      networking := cp.spec.networking,
      monitoring := cp.spec.monitoring,
      provider := cp.spec.provider,
      purpose := cp.spec.purpose,
      secretBindingName := cp.spec.secretBindingName,
      resources := cp.spec.resources,
      tolerations := cp.spec.tolerations,
      exposureClassName := cp.spec.exposureClassName,
      systemComponents := cp.spec.systemComponents,
      controlPlane := cp.spec.controlPlane,
      schedulerName := cp.spec.schedulerName))
  }

  function ControlPlaneFromShoot(shoot: Shoot, cp: ControlPlane): ControlPlane {
    cp.(
      annotations := AnnotationsSynced(shoot.annotations, cp.annotations, ANNOTATION_ALLOW_LIST),
      spec := cp.spec.(
      addons := shoot.spec.addons,
      dns := shoot.spec.dns,
      extensions := shoot.spec.extensions,
      kubernetes := shoot.spec.kubernetes,
      networking := shoot.spec.networking,
      monitoring := shoot.spec.monitoring,
      provider := shoot.spec.provider,
      purpose := shoot.spec.purpose,
      secretBindingName := shoot.spec.secretBindingName,
      resources := shoot.spec.resources,
      tolerations := shoot.spec.tolerations,
      exposureClassName := shoot.spec.exposureClassName,
      systemComponents := shoot.spec.systemComponents,
      controlPlane := shoot.spec.controlPlane,
      schedulerName := shoot.spec.schedulerName,
      credentialsBindingName := shoot.spec.credentialsBindingName,
      accessRestrictions := shoot.spec.accessRestrictions))
  }

  predicate ForwardPanics(shoot: Shoot, cp: ControlPlane) {
    AnnotationsPanic(cp.annotations, shoot.annotations, ANNOTATION_ALLOW_LIST)
  }

  predicate BackwardPanics(shoot: Shoot, cp: ControlPlane) {
    AnnotationsPanic(shoot.annotations, cp.annotations, ANNOTATION_ALLOW_LIST)
  }

  /** The parts of a Shoot the control plane never writes. */
  ghost predicate SameOutsideControlPlane(a: Shoot, b: Shoot) {
    && a.workers == b.workers
    && SameInfra(a, b)
    && a.spec.cloudProfile == b.spec.cloudProfile
    && a.spec.credentialsBindingName == b.spec.credentialsBindingName
    && a.spec.accessRestrictions == b.spec.accessRestrictions
    && forall key :: key !in ANNOTATION_ALLOW_LIST ==> AgreeOnKey(a.annotations, b.annotations, key)
  }

  /** The parts of a control plane that no sync ever writes. */
  ghost predicate SameOwnControlPlane(a: ControlPlane, b: ControlPlane) {
    && a.spec.controlPlaneEndpoint == b.spec.controlPlaneEndpoint
    && a.spec.version == b.spec.version
    && a.spec.projectNamespace == b.spec.projectNamespace
    && a.spec.workerless == b.spec.workerless
    && a.spec.cloudProfileName == b.spec.cloudProfileName
    && a.spec.cloudProfile == b.spec.cloudProfile
    && forall key :: key !in ANNOTATION_ALLOW_LIST ==> AgreeOnKey(a.annotations, b.annotations, key)
  }

  /** Every field the forward direction copies, and the allowed annotation, agree. */
  ghost predicate ControlPlaneAgrees(shoot: Shoot, cp: ControlPlane) {
    && AgreeOn(shoot.annotations, cp.annotations, ANNOTATION_ALLOW_LIST)
    && shoot.spec.addons == cp.spec.addons
    && shoot.spec.dns == cp.spec.dns
    && shoot.spec.extensions == cp.spec.extensions
    && shoot.spec.kubernetes == cp.spec.kubernetes
    && shoot.spec.networking == cp.spec.networking
    && shoot.spec.monitoring == cp.spec.monitoring
    && shoot.spec.provider == cp.spec.provider
    && shoot.spec.purpose == cp.spec.purpose
    && shoot.spec.secretBindingName == cp.spec.secretBindingName
    && shoot.spec.resources == cp.spec.resources
    && shoot.spec.tolerations == cp.spec.tolerations
    && shoot.spec.exposureClassName == cp.spec.exposureClassName
    && shoot.spec.systemComponents == cp.spec.systemComponents
    && shoot.spec.controlPlane == cp.spec.controlPlane
    && shoot.spec.schedulerName == cp.spec.schedulerName
  }

  /** The parts of a Shoot the forward direction writes are the same in both. */
  ghost predicate SameControlPlanePart(a: Shoot, b: Shoot) {
    && AgreeOn(a.annotations, b.annotations, ANNOTATION_ALLOW_LIST)
    && a.spec.addons == b.spec.addons
    && a.spec.dns == b.spec.dns
    && a.spec.extensions == b.spec.extensions
    && a.spec.kubernetes == b.spec.kubernetes
    && a.spec.networking == b.spec.networking
    && a.spec.monitoring == b.spec.monitoring
    && a.spec.provider == b.spec.provider
    && a.spec.purpose == b.spec.purpose
    && a.spec.secretBindingName == b.spec.secretBindingName
    && a.spec.resources == b.spec.resources
    && a.spec.tolerations == b.spec.tolerations
    && a.spec.exposureClassName == b.spec.exposureClassName
    && a.spec.systemComponents == b.spec.systemComponents
    && a.spec.controlPlane == b.spec.controlPlane
    && a.spec.schedulerName == b.spec.schedulerName
  }

  /** Fields copied only from the Shoot. */
  ghost predicate ShootOnlyFieldsAgree(shoot: Shoot, cp: ControlPlane) {
    && shoot.spec.credentialsBindingName == cp.spec.credentialsBindingName
    && shoot.spec.accessRestrictions == cp.spec.accessRestrictions
  }

  lemma ControlPlaneForward(shoot: Shoot, cp: ControlPlane)
    ensures ControlPlaneAgrees(ShootFromControlPlane(shoot, cp), cp)
    ensures SameOutsideControlPlane(ShootFromControlPlane(shoot, cp), shoot)
    ensures ControlPlaneAgrees(shoot, cp) <==> ShootFromControlPlane(shoot, cp) == shoot
    ensures !ForwardPanics(shoot, cp) ==> !ForwardPanics(ShootFromControlPlane(shoot, cp), cp)
    ensures !BackwardPanics(ShootFromControlPlane(shoot, cp), cp)
  {}

  lemma ControlPlaneBackward(shoot: Shoot, cp: ControlPlane)
    ensures ControlPlaneAgrees(shoot, ControlPlaneFromShoot(shoot, cp))
    ensures ShootOnlyFieldsAgree(shoot, ControlPlaneFromShoot(shoot, cp))
    ensures SameOwnControlPlane(ControlPlaneFromShoot(shoot, cp), cp)
    ensures ControlPlaneAgrees(shoot, cp) && ShootOnlyFieldsAgree(shoot, cp) <==> ControlPlaneFromShoot(shoot, cp) == cp
  {}

  /** Once the allowed annotation agrees, neither direction writes into a missing map. */
  lemma AgreementDoesNotPanic(shoot: Shoot, cp: ControlPlane)
    requires AgreeOn(shoot.annotations, cp.annotations, ANNOTATION_ALLOW_LIST)
    ensures !ForwardPanics(shoot, cp) && !BackwardPanics(shoot, cp)
  {}

  /** Both directions are never blocked at once: whichever panics, the other one runs. */
  lemma NeverBothPanic(shoot: Shoot, cp: ControlPlane)
    ensures !(ForwardPanics(shoot, cp) && BackwardPanics(shoot, cp))
  {}

  /** A panicking direction is released by the other one, which removes the annotation that caused it. */
  lemma BlockedForwardLosesTheAnnotation(shoot: Shoot, cp: ControlPlane)
    requires ForwardPanics(shoot, cp)
    ensures !BackwardPanics(shoot, cp)
    ensures GARDENER_OPERATION in cp.annotations
    ensures ControlPlaneFromShoot(shoot, cp).annotations == cp.annotations - {GARDENER_OPERATION}
  {}

  lemma ControlPlaneRoundTrips(shoot: Shoot, cp: ControlPlane)
    ensures ShootFromControlPlane(shoot, ControlPlaneFromShoot(shoot, cp)) == shoot
    ensures ControlPlaneFromShoot(ShootFromControlPlane(shoot, cp), cp) == cp.(spec := cp.spec.(
              credentialsBindingName := shoot.spec.credentialsBindingName,
              accessRestrictions := shoot.spec.accessRestrictions))
  {
    AnnotationSync(shoot.annotations, cp.annotations, ANNOTATION_ALLOW_LIST);
    AnnotationSync(cp.annotations, shoot.annotations, ANNOTATION_ALLOW_LIST);
  }

  // ---------------------------------------------------------------------------
  // Infrastructure cluster: SyncShootSpecFromCluster and SyncClusterSpecFromShoot
  // ---------------------------------------------------------------------------

  function ShootFromInfra(shoot: Shoot, infra: InfraSpec): Shoot {
    shoot.(spec := shoot.spec.(
      hibernation := infra.hibernation,
      maintenance := infra.maintenance,
      region := infra.region,
      seedName := infra.seedName,
      seedSelector := infra.seedSelector))
  }

  function InfraFromShoot(shoot: Shoot, infra: InfraSpec): InfraSpec {
    infra.(
      hibernation := shoot.spec.hibernation,
      maintenance := shoot.spec.maintenance,
      region := shoot.spec.region,
      seedName := shoot.spec.seedName,
      seedSelector := shoot.spec.seedSelector)
  }

  ghost predicate SameInfra(a: Shoot, b: Shoot) {
    && a.spec.hibernation == b.spec.hibernation
    && a.spec.maintenance == b.spec.maintenance
    && a.spec.region == b.spec.region
    && a.spec.seedName == b.spec.seedName
    && a.spec.seedSelector == b.spec.seedSelector
  }

  ghost predicate InfraAgrees(shoot: Shoot, infra: InfraSpec) {
    && shoot.spec.hibernation == infra.hibernation
    && shoot.spec.maintenance == infra.maintenance
    && shoot.spec.region == infra.region
    && shoot.spec.seedName == infra.seedName
    && shoot.spec.seedSelector == infra.seedSelector
  }

  ghost predicate SameOutsideInfra(a: Shoot, b: Shoot) {
    && a.annotations == b.annotations
    && a.workers == b.workers
    && a.spec.addons == b.spec.addons
    && a.spec.dns == b.spec.dns
    && a.spec.extensions == b.spec.extensions
    && a.spec.kubernetes == b.spec.kubernetes
    && a.spec.networking == b.spec.networking
    && a.spec.monitoring == b.spec.monitoring
    && a.spec.provider == b.spec.provider
    && a.spec.purpose == b.spec.purpose
    && a.spec.secretBindingName == b.spec.secretBindingName
    && a.spec.resources == b.spec.resources
    && a.spec.tolerations == b.spec.tolerations
    && a.spec.exposureClassName == b.spec.exposureClassName
    && a.spec.systemComponents == b.spec.systemComponents
    && a.spec.controlPlane == b.spec.controlPlane
    && a.spec.schedulerName == b.spec.schedulerName
    && a.spec.cloudProfile == b.spec.cloudProfile
    && a.spec.credentialsBindingName == b.spec.credentialsBindingName
    && a.spec.accessRestrictions == b.spec.accessRestrictions
  }

  lemma InfraPair(shoot: Shoot, infra: InfraSpec)
    ensures InfraAgrees(ShootFromInfra(shoot, infra), infra) && SameOutsideInfra(ShootFromInfra(shoot, infra), shoot)
    ensures InfraAgrees(shoot, InfraFromShoot(shoot, infra))
    ensures ShootFromInfra(shoot, InfraFromShoot(shoot, infra)) == shoot
    ensures InfraFromShoot(ShootFromInfra(shoot, infra), infra) == infra
    ensures InfraAgrees(shoot, infra) <==> ShootFromInfra(shoot, infra) == shoot
    ensures InfraAgrees(shoot, infra) <==> InfraFromShoot(shoot, infra) == infra
  {}

  // ---------------------------------------------------------------------------
  // Worker pools: SyncShootSpecFromWorkerPool and SyncWorkerPoolFromShootSpec
  // ---------------------------------------------------------------------------

  function WorkerFromPool(pool: WorkerPool): Worker {
    Worker(
      name := pool.name,
      annotations := pool.spec.annotations,
      caBundle := pool.spec.caBundle,
      cri := pool.spec.cri,
      kubernetes := pool.spec.kubernetes,
      labels := pool.spec.labels,
      machine := pool.spec.machine,
      maximum := pool.spec.maximum,
      minimum := pool.spec.minimum,
      maxSurge := pool.spec.maxSurge,
      maxUnavailable := pool.spec.maxUnavailable,
      providerConfig := pool.spec.providerConfig,
      taints := pool.spec.taints,
      volume := pool.spec.volume,
      dataVolumes := pool.spec.dataVolumes,
      kubeletDataVolumeName := pool.spec.kubeletDataVolumeName,
      zones := pool.spec.zones,
      systemComponents := pool.spec.systemComponents,
      machineControllerManagerSettings := pool.spec.machineControllerManagerSettings,
      sysctls := pool.spec.sysctls,
      clusterAutoscaler := pool.spec.clusterAutoscaler,
      priority := pool.spec.priority,
      updateStrategy := pool.spec.updateStrategy,
      controlPlane := pool.spec.controlPlane)
  }

  /** One iteration of the backward loop: every field but `providerIDList` comes from the worker. */
  function PoolFromWorker(pool: WorkerPool, worker: Worker): WorkerPool {
    pool.(spec := pool.spec.(
      annotations := worker.annotations,
      caBundle := worker.caBundle,
      cri := worker.cri,
      kubernetes := worker.kubernetes,
      labels := worker.labels,
      machine := worker.machine,
      maximum := worker.maximum,
      minimum := worker.minimum,
      maxSurge := worker.maxSurge,
      maxUnavailable := worker.maxUnavailable,
      providerConfig := worker.providerConfig,
      taints := worker.taints,
      volume := worker.volume,
      dataVolumes := worker.dataVolumes,
      kubeletDataVolumeName := worker.kubeletDataVolumeName,
      zones := worker.zones,
      systemComponents := worker.systemComponents,
      machineControllerManagerSettings := worker.machineControllerManagerSettings,
      sysctls := worker.sysctls,
      clusterAutoscaler := worker.clusterAutoscaler,
      priority := worker.priority,
      updateStrategy := worker.updateStrategy,
      controlPlane := worker.controlPlane))
  }

  /** Every worker of the pool's name is rewritten; count, order and the other workers stay. */
  function WorkersFromPool(workers: seq<Worker>, pool: WorkerPool): (result: seq<Worker>)
    ensures |result| == |workers|
  {
    seq(|workers|, i requires 0 <= i < |workers| =>
      if workers[i].name == pool.name then WorkerFromPool(pool) else workers[i])
  }

  /** The last worker of the pool's name wins; without one the pool is left alone. */
  function PoolFromWorkers(workers: seq<Worker>, pool: WorkerPool): WorkerPool {
    if workers == [] then pool
    else if workers[|workers| - 1].name == pool.name then PoolFromWorker(pool, workers[|workers| - 1])
    else PoolFromWorkers(workers[..|workers| - 1], pool)
  }

  ghost predicate PoolAgrees(workers: seq<Worker>, pool: WorkerPool) {
    forall i :: 0 <= i < |workers| && workers[i].name == pool.name ==> workers[i] == WorkerFromPool(pool)
  }

  /** A worker entry says what the pool of its name says, field by field. */
  ghost predicate WorkerMatches(pool: WorkerPool, worker: Worker) {
    && worker.name == pool.name
    && worker.annotations == pool.spec.annotations
    && worker.caBundle == pool.spec.caBundle
    && worker.cri == pool.spec.cri
    && worker.kubernetes == pool.spec.kubernetes
    && worker.labels == pool.spec.labels
    && worker.machine == pool.spec.machine
    && worker.maximum == pool.spec.maximum
    && worker.minimum == pool.spec.minimum
    && worker.maxSurge == pool.spec.maxSurge
    && worker.maxUnavailable == pool.spec.maxUnavailable
    && worker.providerConfig == pool.spec.providerConfig
    && worker.taints == pool.spec.taints
    && worker.volume == pool.spec.volume
    && worker.dataVolumes == pool.spec.dataVolumes
    && worker.kubeletDataVolumeName == pool.spec.kubeletDataVolumeName
    && worker.zones == pool.spec.zones
    && worker.systemComponents == pool.spec.systemComponents
    && worker.machineControllerManagerSettings == pool.spec.machineControllerManagerSettings
    && worker.sysctls == pool.spec.sysctls
    && worker.clusterAutoscaler == pool.spec.clusterAutoscaler
    && worker.priority == pool.spec.priority
    && worker.updateStrategy == pool.spec.updateStrategy
    && worker.controlPlane == pool.spec.controlPlane
  }

  /** All workers of one name are equal; unique names are the special case. */
  ghost predicate UniformWorkers(workers: seq<Worker>, name: string) {
    forall i, j :: 0 <= i < |workers| && 0 <= j < |workers| && workers[i].name == name && workers[j].name == name
      ==> workers[i] == workers[j]
  }

  lemma WorkerPoolFields(pool: WorkerPool, worker: Worker)
    ensures WorkerMatches(pool, worker) <==> worker == WorkerFromPool(pool)
    ensures worker.name == pool.name ==> WorkerMatches(PoolFromWorker(pool, worker), worker)
    ensures PoolFromWorker(pool, WorkerFromPool(pool)) == pool
    ensures PoolFromWorker(pool, worker).spec.providerIDList == pool.spec.providerIDList
    ensures PoolFromWorker(pool, worker).name == pool.name
  {}

  /** Either no worker has the name and the pool stays, or one with the name, the last, gives every field. */
  lemma {:induction false} BackwardPicksTheLast(workers: seq<Worker>, pool: WorkerPool)
    ensures PoolFromWorkers(workers, pool).name == pool.name
    ensures PoolFromWorkers(workers, pool).spec.providerIDList == pool.spec.providerIDList
    ensures (forall i :: 0 <= i < |workers| ==> workers[i].name != pool.name) ==> PoolFromWorkers(workers, pool) == pool
    ensures forall i :: 0 <= i < |workers| && workers[i].name == pool.name
              && (forall j :: i < j < |workers| ==> workers[j].name != pool.name)
              ==> WorkerFromPool(PoolFromWorkers(workers, pool)) == workers[i]
  {
    if workers != [] {
      var last := |workers| - 1;
      WorkerPoolFields(pool, workers[last]);
      if workers[last].name != pool.name {
        BackwardPicksTheLast(workers[..last], pool);
      }
    }
  }

  /** Some worker has the pool's name, and this is the last of them. */
  ghost predicate IsLastNamed(workers: seq<Worker>, name: string, i: int) {
    && 0 <= i < |workers| && workers[i].name == name
    && forall j :: i < j < |workers| ==> workers[j].name != name
  }

  lemma {:induction false} LastNamed(workers: seq<Worker>, name: string) returns (i: int)
    ensures i < 0 ==> forall j :: 0 <= j < |workers| ==> workers[j].name != name
    ensures i >= 0 ==> IsLastNamed(workers, name, i)
  {
    i := |workers| - 1;
    while i >= 0 && workers[i].name != name
      invariant -1 <= i < |workers|
      invariant forall j :: i < j < |workers| ==> workers[j].name != name
    {
      i := i - 1;
    }
  }

  lemma PoolForward(workers: seq<Worker>, pool: WorkerPool)
    ensures var result := WorkersFromPool(workers, pool);
      && PoolAgrees(result, pool)
      && WorkerNames(result) == WorkerNames(workers)
      && (forall i :: 0 <= i < |workers| && workers[i].name != pool.name ==> result[i] == workers[i])
      && (PoolAgrees(workers, pool) <==> result == workers)
  {}

  lemma PoolBackward(workers: seq<Worker>, pool: WorkerPool)
    ensures PoolAgrees(workers, pool) ==> PoolFromWorkers(workers, pool) == pool
    ensures forall i :: IsLastNamed(workers, pool.name, i) ==>
              (PoolFromWorkers(workers, pool) == pool <==> workers[i] == WorkerFromPool(pool))
    ensures UniformWorkers(workers, pool.name) ==> PoolAgrees(workers, PoolFromWorkers(workers, pool))
    ensures PoolFromWorkers(workers, PoolFromWorkers(workers, pool)) == PoolFromWorkers(workers, pool)
  {
    var back := PoolFromWorkers(workers, pool);
    BackwardPicksTheLast(workers, pool);
    BackwardPicksTheLast(workers, back);
    var i := LastNamed(workers, pool.name);
    if i >= 0 {
      assert WorkerFromPool(back) == workers[i];
      assert WorkerFromPool(PoolFromWorkers(workers, back)) == workers[i];
      SameWorkerSamePool(back, PoolFromWorkers(workers, back));
      if workers[i] == WorkerFromPool(pool) {
        SameWorkerSamePool(back, pool);
      }
    }
  }

  /** A pool is its worker entry plus its provider IDs. */
  lemma SameWorkerSamePool(a: WorkerPool, b: WorkerPool)
    requires WorkerFromPool(a) == WorkerFromPool(b) && a.spec.providerIDList == b.spec.providerIDList
    ensures a == b
  {}

  /** Pool to Shoot to pool always restores the pool; Shoot to pool to Shoot restores the Shoot
      exactly when all workers of the pool's name are equal. */
  lemma WorkerRoundTrips(workers: seq<Worker>, pool: WorkerPool)
    ensures PoolFromWorkers(WorkersFromPool(workers, pool), pool) == pool
    ensures UniformWorkers(workers, pool.name) <==> WorkersFromPool(workers, PoolFromWorkers(workers, pool)) == workers
  {
    PoolForward(workers, pool);
    PoolBackward(WorkersFromPool(workers, pool), pool);
    var back := PoolFromWorkers(workers, pool);
    BackwardPicksTheLast(workers, pool);
    PoolForward(workers, back);
    PoolBackward(workers, pool);
  }
}
