/** The API objects the controllers keep in step, as values.

    Go structs are values, so they are datatypes here; a field the controllers only copy and
    compare has the uninterpreted type `Value`, whose equality stands for semantic equality
    (a nil and an empty slice or map are the same value). */
module ApiTypes {
  type Value(==, !new)

  type int32 = x: int | -0x8000_0000 <= x < 0x8000_0000

  /** Object annotations as stored by the API server, which does not tell an empty map from a missing one. */
  type Annotations = map<string, string>

  const GARDENER_OPERATION := "gardener.cloud/operation"

  /** The annotations copied between a GardenerShootControlPlane and its Shoot. */
  const ANNOTATION_ALLOW_LIST: seq<string> := [GARDENER_OPERATION]

  /** One entry of a Shoot's `spec.provider.workers`. */
  datatype Worker = Worker(
    name: string,
    annotations: Value,
    caBundle: Value,
    cri: Value,
    kubernetes: Value,
    labels: Value,
    machine: Value,
    maximum: int32,
    minimum: int32,
    maxSurge: Value,
    maxUnavailable: Value,
    providerConfig: Value,
    taints: Value,
    volume: Value,
    dataVolumes: Value,
    kubeletDataVolumeName: Value,
    zones: Value,
    systemComponents: Value,
    machineControllerManagerSettings: Value,
    sysctls: Value,
    clusterAutoscaler: Value,
    priority: Value,
    updateStrategy: Value,
    controlPlane: Value)

  /** The spec of a GardenerWorkerPool. */
  datatype WorkerPoolSpec = WorkerPoolSpec(
    providerIDList: seq<string>,
    annotations: Value,
    caBundle: Value,
    cri: Value,
    kubernetes: Value,
    labels: Value,
    machine: Value,
    maximum: int32,
    minimum: int32,
    maxSurge: Value,
    maxUnavailable: Value,
    providerConfig: Value,
    taints: Value,
    volume: Value,
    dataVolumes: Value,
    kubeletDataVolumeName: Value,
    zones: Value,
    systemComponents: Value,
    machineControllerManagerSettings: Value,
    sysctls: Value,
    clusterAutoscaler: Value,
    priority: Value,
    updateStrategy: Value,
    controlPlane: Value)

  datatype WorkerPool = WorkerPool(name: string, spec: WorkerPoolSpec)

  /** The provider settings without the worker list. */
  datatype Provider = Provider(
    providerType: Value,
    controlPlaneConfig: Value,
    infrastructureConfig: Value,
    workersSettings: Value)

  /** The spec of a Shoot, without the worker list (see `Shoot`). */
  datatype ShootSpec = ShootSpec(
    addons: Value,
    dns: Value,
    extensions: Value,
    hibernation: Value,
    kubernetes: Value,
    networking: Value,
    maintenance: Value,
    monitoring: Value,
    provider: Provider,
    purpose: Value,
    region: Value,
    secretBindingName: Value,
    seedName: Value,
    seedSelector: Value,
    resources: Value,
    tolerations: Value,
    exposureClassName: Value,
    systemComponents: Value,
    controlPlane: Value,
    schedulerName: Value,
    cloudProfile: Value,
    credentialsBindingName: Value,
    accessRestrictions: Value)

  /** A Shoot; `workers` is `spec.provider.workers`, kept beside the spec because it is a slice. */
  datatype Shoot = Shoot(annotations: Annotations, spec: ShootSpec, workers: seq<Worker>)

  /** The spec of a GardenerShootControlPlane (GSCP). */
  datatype ControlPlaneSpec = ControlPlaneSpec(
    controlPlaneEndpoint: Value,
    version: Value,
    projectNamespace: string,
    workerless: bool,
    addons: Value,
    cloudProfileName: Value,
    dns: Value,
    extensions: Value,
    kubernetes: Value,
    networking: Value,
    monitoring: Value,
    provider: Provider,
    purpose: Value,
    secretBindingName: Value,
    resources: Value,
    tolerations: Value,
    exposureClassName: Value,
    systemComponents: Value,
    controlPlane: Value,
    schedulerName: Value,
    cloudProfile: Value,
    credentialsBindingName: Value,
    accessRestrictions: Value)

  datatype ControlPlane = ControlPlane(annotations: Annotations, spec: ControlPlaneSpec)

  /** The spec of a GardenerShootCluster (GSC), the infrastructure cluster. */
  datatype InfraSpec = InfraSpec(
    hibernation: Value,
    maintenance: Value,
    region: Value,
    seedName: Value,
    seedSelector: Value)

  function WorkerNames(workers: seq<Worker>): (names: seq<string>)
    ensures |names| == |workers|
    ensures forall i :: 0 <= i < |workers| ==> names[i] == workers[i].name
  {
    seq(|workers|, i requires 0 <= i < |workers| => workers[i].name)
  }

  /** Pools live in one namespace, where the API server keeps names unique. */
  ghost predicate DistinctPools(pools: seq<WorkerPool>) {
    forall i, j :: 0 <= i < j < |pools| ==> pools[i].name != pools[j].name
  }

  /** Gardener admits a Shoot only when its worker names are unique. */
  ghost predicate DistinctWorkers(workers: seq<Worker>) {
    forall i, j :: 0 <= i < j < |workers| ==> workers[i].name != workers[j].name
  }

  lemma SamePool(pools: seq<WorkerPool>, i: nat, j: nat)
    requires DistinctPools(pools) && i < |pools| && j < |pools| && pools[i].name == pools[j].name
    ensures i == j
  {}
}
