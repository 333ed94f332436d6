/** Patches as the controllers send them: the difference between a baseline and a modified copy,
    applied to whatever the server holds by then. Nothing compares resource versions.

    A patch replaces a field as a whole, annotations merge by key and workers by name. */
module Patch {
  import opened ApiTypes
  import opened Sync

  function Pick<T(==)>(base: T, modified: T, current: T): T {
    if base == modified then current else modified
  }

  predicate KeyUnchanged(base: Annotations, modified: Annotations, key: string) {
    (key in base <==> key in modified) && (key in base ==> base[key] == modified[key])
  }

  function PatchAnnotations(base: Annotations, modified: Annotations, current: Annotations): Annotations {
    map key | key in modified.Keys + current.Keys
      && (if KeyUnchanged(base, modified, key) then key in current else key in modified)
      :: if KeyUnchanged(base, modified, key) then current[key] else modified[key]
  }

  function PatchProvider(base: Provider, modified: Provider, current: Provider): Provider {
    Provider(
      providerType := Pick(base.providerType, modified.providerType, current.providerType),
      controlPlaneConfig := Pick(base.controlPlaneConfig, modified.controlPlaneConfig, current.controlPlaneConfig),
      infrastructureConfig := Pick(base.infrastructureConfig, modified.infrastructureConfig, current.infrastructureConfig),
      workersSettings := Pick(base.workersSettings, modified.workersSettings, current.workersSettings))
  }

  function PatchShootSpec(base: ShootSpec, modified: ShootSpec, current: ShootSpec): ShootSpec {
    ShootSpec(
      provider := PatchProvider(base.provider, modified.provider, current.provider),
      addons := Pick(base.addons, modified.addons, current.addons),
      dns := Pick(base.dns, modified.dns, current.dns),
      extensions := Pick(base.extensions, modified.extensions, current.extensions),
      hibernation := Pick(base.hibernation, modified.hibernation, current.hibernation),
      kubernetes := Pick(base.kubernetes, modified.kubernetes, current.kubernetes),
      networking := Pick(base.networking, modified.networking, current.networking),
      maintenance := Pick(base.maintenance, modified.maintenance, current.maintenance),
      monitoring := Pick(base.monitoring, modified.monitoring, current.monitoring),
      purpose := Pick(base.purpose, modified.purpose, current.purpose),
      region := Pick(base.region, modified.region, current.region),
      secretBindingName := Pick(base.secretBindingName, modified.secretBindingName, current.secretBindingName),
      seedName := Pick(base.seedName, modified.seedName, current.seedName),
      seedSelector := Pick(base.seedSelector, modified.seedSelector, current.seedSelector),
      resources := Pick(base.resources, modified.resources, current.resources),
      tolerations := Pick(base.tolerations, modified.tolerations, current.tolerations),
      exposureClassName := Pick(base.exposureClassName, modified.exposureClassName, current.exposureClassName),
      systemComponents := Pick(base.systemComponents, modified.systemComponents, current.systemComponents),
      controlPlane := Pick(base.controlPlane, modified.controlPlane, current.controlPlane),
      schedulerName := Pick(base.schedulerName, modified.schedulerName, current.schedulerName),
      cloudProfile := Pick(base.cloudProfile, modified.cloudProfile, current.cloudProfile),
      credentialsBindingName := Pick(base.credentialsBindingName, modified.credentialsBindingName, current.credentialsBindingName),
      accessRestrictions := Pick(base.accessRestrictions, modified.accessRestrictions, current.accessRestrictions))
  }

  function PatchControlPlaneSpec(base: ControlPlaneSpec, modified: ControlPlaneSpec, current: ControlPlaneSpec): ControlPlaneSpec {
    ControlPlaneSpec(
      provider := PatchProvider(base.provider, modified.provider, current.provider),
      controlPlaneEndpoint := Pick(base.controlPlaneEndpoint, modified.controlPlaneEndpoint, current.controlPlaneEndpoint),
      version := Pick(base.version, modified.version, current.version),
      projectNamespace := Pick(base.projectNamespace, modified.projectNamespace, current.projectNamespace),
      workerless := Pick(base.workerless, modified.workerless, current.workerless),
      addons := Pick(base.addons, modified.addons, current.addons),
      cloudProfileName := Pick(base.cloudProfileName, modified.cloudProfileName, current.cloudProfileName),
      dns := Pick(base.dns, modified.dns, current.dns),
      extensions := Pick(base.extensions, modified.extensions, current.extensions),
      kubernetes := Pick(base.kubernetes, modified.kubernetes, current.kubernetes),
      networking := Pick(base.networking, modified.networking, current.networking),
      monitoring := Pick(base.monitoring, modified.monitoring, current.monitoring),
      purpose := Pick(base.purpose, modified.purpose, current.purpose),
      secretBindingName := Pick(base.secretBindingName, modified.secretBindingName, current.secretBindingName),
      resources := Pick(base.resources, modified.resources, current.resources),
      tolerations := Pick(base.tolerations, modified.tolerations, current.tolerations),
      exposureClassName := Pick(base.exposureClassName, modified.exposureClassName, current.exposureClassName),
      systemComponents := Pick(base.systemComponents, modified.systemComponents, current.systemComponents),
      controlPlane := Pick(base.controlPlane, modified.controlPlane, current.controlPlane),
      schedulerName := Pick(base.schedulerName, modified.schedulerName, current.schedulerName),
      cloudProfile := Pick(base.cloudProfile, modified.cloudProfile, current.cloudProfile),
      credentialsBindingName := Pick(base.credentialsBindingName, modified.credentialsBindingName, current.credentialsBindingName),
      accessRestrictions := Pick(base.accessRestrictions, modified.accessRestrictions, current.accessRestrictions))
  }

  function PatchInfra(base: InfraSpec, modified: InfraSpec, current: InfraSpec): InfraSpec {
    InfraSpec(
      hibernation := Pick(base.hibernation, modified.hibernation, current.hibernation),
      maintenance := Pick(base.maintenance, modified.maintenance, current.maintenance),
      region := Pick(base.region, modified.region, current.region),
      seedName := Pick(base.seedName, modified.seedName, current.seedName),
      seedSelector := Pick(base.seedSelector, modified.seedSelector, current.seedSelector))
  }

  function PatchWorker(base: Worker, modified: Worker, current: Worker): Worker {
    Worker(
      name := Pick(base.name, modified.name, current.name),
      annotations := Pick(base.annotations, modified.annotations, current.annotations),
      caBundle := Pick(base.caBundle, modified.caBundle, current.caBundle),
      cri := Pick(base.cri, modified.cri, current.cri),
      kubernetes := Pick(base.kubernetes, modified.kubernetes, current.kubernetes),
      labels := Pick(base.labels, modified.labels, current.labels),
      machine := Pick(base.machine, modified.machine, current.machine),
      maximum := Pick(base.maximum, modified.maximum, current.maximum),
      minimum := Pick(base.minimum, modified.minimum, current.minimum),
      maxSurge := Pick(base.maxSurge, modified.maxSurge, current.maxSurge),
      maxUnavailable := Pick(base.maxUnavailable, modified.maxUnavailable, current.maxUnavailable),
      providerConfig := Pick(base.providerConfig, modified.providerConfig, current.providerConfig),
      taints := Pick(base.taints, modified.taints, current.taints),
      volume := Pick(base.volume, modified.volume, current.volume),
      dataVolumes := Pick(base.dataVolumes, modified.dataVolumes, current.dataVolumes),
      kubeletDataVolumeName := Pick(base.kubeletDataVolumeName, modified.kubeletDataVolumeName, current.kubeletDataVolumeName),
      zones := Pick(base.zones, modified.zones, current.zones),
      systemComponents := Pick(base.systemComponents, modified.systemComponents, current.systemComponents),
      machineControllerManagerSettings := Pick(base.machineControllerManagerSettings, modified.machineControllerManagerSettings, current.machineControllerManagerSettings),
      sysctls := Pick(base.sysctls, modified.sysctls, current.sysctls),
      clusterAutoscaler := Pick(base.clusterAutoscaler, modified.clusterAutoscaler, current.clusterAutoscaler),
      priority := Pick(base.priority, modified.priority, current.priority),
      updateStrategy := Pick(base.updateStrategy, modified.updateStrategy, current.updateStrategy),
      controlPlane := Pick(base.controlPlane, modified.controlPlane, current.controlPlane))
  }

  function PatchPoolSpec(base: WorkerPoolSpec, modified: WorkerPoolSpec, current: WorkerPoolSpec): WorkerPoolSpec {
    WorkerPoolSpec(
      providerIDList := Pick(base.providerIDList, modified.providerIDList, current.providerIDList),
      annotations := Pick(base.annotations, modified.annotations, current.annotations),
      caBundle := Pick(base.caBundle, modified.caBundle, current.caBundle),
      cri := Pick(base.cri, modified.cri, current.cri),
      kubernetes := Pick(base.kubernetes, modified.kubernetes, current.kubernetes),
      labels := Pick(base.labels, modified.labels, current.labels),
      machine := Pick(base.machine, modified.machine, current.machine),
      maximum := Pick(base.maximum, modified.maximum, current.maximum),
      minimum := Pick(base.minimum, modified.minimum, current.minimum),
      maxSurge := Pick(base.maxSurge, modified.maxSurge, current.maxSurge),
      maxUnavailable := Pick(base.maxUnavailable, modified.maxUnavailable, current.maxUnavailable),
      providerConfig := Pick(base.providerConfig, modified.providerConfig, current.providerConfig),
      taints := Pick(base.taints, modified.taints, current.taints),
      volume := Pick(base.volume, modified.volume, current.volume),
      dataVolumes := Pick(base.dataVolumes, modified.dataVolumes, current.dataVolumes),
      kubeletDataVolumeName := Pick(base.kubeletDataVolumeName, modified.kubeletDataVolumeName, current.kubeletDataVolumeName),
      zones := Pick(base.zones, modified.zones, current.zones),
      systemComponents := Pick(base.systemComponents, modified.systemComponents, current.systemComponents),
      machineControllerManagerSettings := Pick(base.machineControllerManagerSettings, modified.machineControllerManagerSettings, current.machineControllerManagerSettings),
      sysctls := Pick(base.sysctls, modified.sysctls, current.sysctls),
      clusterAutoscaler := Pick(base.clusterAutoscaler, modified.clusterAutoscaler, current.clusterAutoscaler),
      priority := Pick(base.priority, modified.priority, current.priority),
      updateStrategy := Pick(base.updateStrategy, modified.updateStrategy, current.updateStrategy),
      controlPlane := Pick(base.controlPlane, modified.controlPlane, current.controlPlane))
  }

  function PatchPool(base: WorkerPool, modified: WorkerPool, current: WorkerPool): WorkerPool {
    current.(spec := PatchPoolSpec(base.spec, modified.spec, current.spec))
  }

  /** The first position of a worker name, or the length. */
  function Position(workers: seq<Worker>, name: string): (i: nat)
    ensures i <= |workers|
    ensures i < |workers| ==> workers[i].name == name
    ensures forall j :: 0 <= j < i ==> workers[j].name != name
  {
    if workers == [] then 0
    else if workers[0].name == name then 0
    else 1 + Position(workers[1..], name)
  }

  /** Worker entries merge by name. */
  function PatchWorkers(base: seq<Worker>, modified: seq<Worker>, current: seq<Worker>): (result: seq<Worker>)
    ensures |result| == |current|
  {
    seq(|current|, i requires 0 <= i < |current| =>
      var b, m := Position(base, current[i].name), Position(modified, current[i].name);
      if b < |base| && m < |modified| then PatchWorker(base[b], modified[m], current[i]) else current[i])
  }

  function PatchShoot(base: Shoot, modified: Shoot, current: Shoot): Shoot {
    Shoot(
      PatchAnnotations(base.annotations, modified.annotations, current.annotations),
      PatchShootSpec(base.spec, modified.spec, current.spec),
      PatchWorkers(base.workers, modified.workers, current.workers))
  }

  function PatchControlPlane(base: ControlPlane, modified: ControlPlane, current: ControlPlane): ControlPlane {
    ControlPlane(
      PatchAnnotations(base.annotations, modified.annotations, current.annotations),
      PatchControlPlaneSpec(base.spec, modified.spec, current.spec))
  }

  // ---------------------------------------------------------------------------
  // A patch without a difference does nothing, a patch to the baseline gives the modified object
  // ---------------------------------------------------------------------------

  lemma AnnotationPatch(base: Annotations, modified: Annotations, current: Annotations)
    ensures PatchAnnotations(base, base, current) == current
    ensures PatchAnnotations(base, modified, base) == modified
  {}

  lemma UniquePosition(workers: seq<Worker>, i: nat)
    requires DistinctWorkers(workers) && i < |workers|
    ensures Position(workers, workers[i].name) == i
  {}

  lemma NamesAt(a: seq<Worker>, b: seq<Worker>, i: nat)
    requires WorkerNames(a) == WorkerNames(b) && i < |a|
    ensures |a| == |b| && a[i].name == b[i].name
  {}

  lemma SameNamesDistinct(a: seq<Worker>, b: seq<Worker>)
    requires WorkerNames(a) == WorkerNames(b) && DistinctWorkers(a)
    ensures |a| == |b| && DistinctWorkers(b)
  {}

  /** With unique, unchanged names, merging by name is merging entry by entry. */
  lemma WorkerPatch(base: seq<Worker>, modified: seq<Worker>, current: seq<Worker>)
    requires WorkerNames(base) == WorkerNames(modified) == WorkerNames(current) && DistinctWorkers(base)
    ensures |base| == |modified| == |current|
    ensures forall i :: 0 <= i < |current| ==> PatchWorkers(base, modified, current)[i] == PatchWorker(base[i], modified[i], current[i])
  {
    SameNamesDistinct(base, modified);
    SameNamesDistinct(base, current);
    forall i | 0 <= i < |current|
      ensures PatchWorkers(base, modified, current)[i] == PatchWorker(base[i], modified[i], current[i])
    {
      NamesAt(base, current, i);
      NamesAt(base, modified, i);
      UniquePosition(base, i);
      UniquePosition(modified, i);
    }
  }

  lemma EmptyPatch(base: Shoot, current: Shoot)
    ensures PatchShoot(base, base, current) == current
  {}

  lemma FreshPatch(base: Shoot, modified: Shoot)
    requires WorkerNames(base.workers) == WorkerNames(modified.workers) && DistinctWorkers(base.workers)
    ensures PatchShoot(base, modified, base) == modified
  {
    AnnotationPatch(base.annotations, modified.annotations, base.annotations);
    WorkerPatch(base.workers, modified.workers, base.workers);
    assert PatchWorkers(base.workers, modified.workers, base.workers) == modified.workers;
  }

  lemma ControlPlanePatch(base: ControlPlane, modified: ControlPlane, current: ControlPlane)
    ensures PatchControlPlane(base, base, current) == current
    ensures PatchControlPlane(base, modified, base) == modified
  {}

  lemma PoolPatch(base: WorkerPool, modified: WorkerPool, current: WorkerPool)
    ensures PatchPool(base, base, current) == current
    ensures base.name == modified.name ==> PatchPool(base, modified, base) == modified
  {}

  // ---------------------------------------------------------------------------
  // A patch writes exactly what differs, whatever the server holds
  // ---------------------------------------------------------------------------

  /** A field on which baseline and modified object differ has the modified value afterwards, any other
      field the server's. */
  ghost predicate Lands<T(!new)>(base: T, modified: T, current: T, result: T) {
    if base != modified then result == modified else result == current
  }

  ghost predicate KeyLands(base: Annotations, modified: Annotations, current: Annotations, result: Annotations, key: string) {
    if AgreeOnKey(base, modified, key) then AgreeOnKey(result, current, key) else AgreeOnKey(result, modified, key)
  }

  ghost predicate ProviderLands(base: Provider, modified: Provider, current: Provider, result: Provider) {
    && Lands(base.providerType, modified.providerType, current.providerType, result.providerType)
    && Lands(base.controlPlaneConfig, modified.controlPlaneConfig, current.controlPlaneConfig, result.controlPlaneConfig)
    && Lands(base.infrastructureConfig, modified.infrastructureConfig, current.infrastructureConfig, result.infrastructureConfig)
    && Lands(base.workersSettings, modified.workersSettings, current.workersSettings, result.workersSettings)
  }

  ghost predicate ShootSpecLands(base: ShootSpec, modified: ShootSpec, current: ShootSpec, result: ShootSpec) {
    && Lands(base.addons, modified.addons, current.addons, result.addons)
    && Lands(base.dns, modified.dns, current.dns, result.dns)
    && Lands(base.extensions, modified.extensions, current.extensions, result.extensions)
    && Lands(base.hibernation, modified.hibernation, current.hibernation, result.hibernation)
    && Lands(base.kubernetes, modified.kubernetes, current.kubernetes, result.kubernetes)
    && Lands(base.networking, modified.networking, current.networking, result.networking)
    && Lands(base.maintenance, modified.maintenance, current.maintenance, result.maintenance)
    && Lands(base.monitoring, modified.monitoring, current.monitoring, result.monitoring)
    && ProviderLands(base.provider, modified.provider, current.provider, result.provider)
    && Lands(base.purpose, modified.purpose, current.purpose, result.purpose)
    && Lands(base.region, modified.region, current.region, result.region)
    && Lands(base.secretBindingName, modified.secretBindingName, current.secretBindingName, result.secretBindingName)
    && Lands(base.seedName, modified.seedName, current.seedName, result.seedName)
    && Lands(base.seedSelector, modified.seedSelector, current.seedSelector, result.seedSelector)
    && Lands(base.resources, modified.resources, current.resources, result.resources)
    && Lands(base.tolerations, modified.tolerations, current.tolerations, result.tolerations)
    && Lands(base.exposureClassName, modified.exposureClassName, current.exposureClassName, result.exposureClassName)
    && Lands(base.systemComponents, modified.systemComponents, current.systemComponents, result.systemComponents)
    && Lands(base.controlPlane, modified.controlPlane, current.controlPlane, result.controlPlane)
    && Lands(base.schedulerName, modified.schedulerName, current.schedulerName, result.schedulerName)
    && Lands(base.cloudProfile, modified.cloudProfile, current.cloudProfile, result.cloudProfile)
    && Lands(base.credentialsBindingName, modified.credentialsBindingName, current.credentialsBindingName, result.credentialsBindingName)
    && Lands(base.accessRestrictions, modified.accessRestrictions, current.accessRestrictions, result.accessRestrictions)
  }

  ghost predicate ControlPlaneSpecLands(base: ControlPlaneSpec, modified: ControlPlaneSpec, current: ControlPlaneSpec, result: ControlPlaneSpec) {
    && Lands(base.controlPlaneEndpoint, modified.controlPlaneEndpoint, current.controlPlaneEndpoint, result.controlPlaneEndpoint)
    && Lands(base.version, modified.version, current.version, result.version)
    && Lands(base.projectNamespace, modified.projectNamespace, current.projectNamespace, result.projectNamespace)
    && Lands(base.workerless, modified.workerless, current.workerless, result.workerless)
    && Lands(base.addons, modified.addons, current.addons, result.addons)
    && Lands(base.cloudProfileName, modified.cloudProfileName, current.cloudProfileName, result.cloudProfileName)
    && Lands(base.dns, modified.dns, current.dns, result.dns)
    && Lands(base.extensions, modified.extensions, current.extensions, result.extensions)
    && Lands(base.kubernetes, modified.kubernetes, current.kubernetes, result.kubernetes)
    && Lands(base.networking, modified.networking, current.networking, result.networking)
    && Lands(base.monitoring, modified.monitoring, current.monitoring, result.monitoring)
    && ProviderLands(base.provider, modified.provider, current.provider, result.provider)
    && Lands(base.purpose, modified.purpose, current.purpose, result.purpose)
    && Lands(base.secretBindingName, modified.secretBindingName, current.secretBindingName, result.secretBindingName)
    && Lands(base.resources, modified.resources, current.resources, result.resources)
    && Lands(base.tolerations, modified.tolerations, current.tolerations, result.tolerations)
    && Lands(base.exposureClassName, modified.exposureClassName, current.exposureClassName, result.exposureClassName)
    && Lands(base.systemComponents, modified.systemComponents, current.systemComponents, result.systemComponents)
    && Lands(base.controlPlane, modified.controlPlane, current.controlPlane, result.controlPlane)
    && Lands(base.schedulerName, modified.schedulerName, current.schedulerName, result.schedulerName)
    && Lands(base.cloudProfile, modified.cloudProfile, current.cloudProfile, result.cloudProfile)
    && Lands(base.credentialsBindingName, modified.credentialsBindingName, current.credentialsBindingName, result.credentialsBindingName)
    && Lands(base.accessRestrictions, modified.accessRestrictions, current.accessRestrictions, result.accessRestrictions)
  }

  ghost predicate InfraLands(base: InfraSpec, modified: InfraSpec, current: InfraSpec, result: InfraSpec) {
    && Lands(base.hibernation, modified.hibernation, current.hibernation, result.hibernation)
    && Lands(base.maintenance, modified.maintenance, current.maintenance, result.maintenance)
    && Lands(base.region, modified.region, current.region, result.region)
    && Lands(base.seedName, modified.seedName, current.seedName, result.seedName)
    && Lands(base.seedSelector, modified.seedSelector, current.seedSelector, result.seedSelector)
  }

  ghost predicate WorkerLands(base: Worker, modified: Worker, current: Worker, result: Worker) {
    && Lands(base.name, modified.name, current.name, result.name)
    && Lands(base.annotations, modified.annotations, current.annotations, result.annotations)
    && Lands(base.caBundle, modified.caBundle, current.caBundle, result.caBundle)
    && Lands(base.cri, modified.cri, current.cri, result.cri)
    && Lands(base.kubernetes, modified.kubernetes, current.kubernetes, result.kubernetes)
    && Lands(base.labels, modified.labels, current.labels, result.labels)
    && Lands(base.machine, modified.machine, current.machine, result.machine)
    && Lands(base.maximum, modified.maximum, current.maximum, result.maximum)
    && Lands(base.minimum, modified.minimum, current.minimum, result.minimum)
    && Lands(base.maxSurge, modified.maxSurge, current.maxSurge, result.maxSurge)
    && Lands(base.maxUnavailable, modified.maxUnavailable, current.maxUnavailable, result.maxUnavailable)
    && Lands(base.providerConfig, modified.providerConfig, current.providerConfig, result.providerConfig)
    && Lands(base.taints, modified.taints, current.taints, result.taints)
    && Lands(base.volume, modified.volume, current.volume, result.volume)
    && Lands(base.dataVolumes, modified.dataVolumes, current.dataVolumes, result.dataVolumes)
    && Lands(base.kubeletDataVolumeName, modified.kubeletDataVolumeName, current.kubeletDataVolumeName, result.kubeletDataVolumeName)
    && Lands(base.zones, modified.zones, current.zones, result.zones)
    && Lands(base.systemComponents, modified.systemComponents, current.systemComponents, result.systemComponents)
    && Lands(base.machineControllerManagerSettings, modified.machineControllerManagerSettings, current.machineControllerManagerSettings, result.machineControllerManagerSettings)
    && Lands(base.sysctls, modified.sysctls, current.sysctls, result.sysctls)
    && Lands(base.clusterAutoscaler, modified.clusterAutoscaler, current.clusterAutoscaler, result.clusterAutoscaler)
    && Lands(base.priority, modified.priority, current.priority, result.priority)
    && Lands(base.updateStrategy, modified.updateStrategy, current.updateStrategy, result.updateStrategy)
    && Lands(base.controlPlane, modified.controlPlane, current.controlPlane, result.controlPlane)
  }

  ghost predicate PoolSpecLands(base: WorkerPoolSpec, modified: WorkerPoolSpec, current: WorkerPoolSpec, result: WorkerPoolSpec) {
    && Lands(base.providerIDList, modified.providerIDList, current.providerIDList, result.providerIDList)
    && Lands(base.annotations, modified.annotations, current.annotations, result.annotations)
    && Lands(base.caBundle, modified.caBundle, current.caBundle, result.caBundle)
    && Lands(base.cri, modified.cri, current.cri, result.cri)
    && Lands(base.kubernetes, modified.kubernetes, current.kubernetes, result.kubernetes)
    && Lands(base.labels, modified.labels, current.labels, result.labels)
    && Lands(base.machine, modified.machine, current.machine, result.machine)
    && Lands(base.maximum, modified.maximum, current.maximum, result.maximum)
    && Lands(base.minimum, modified.minimum, current.minimum, result.minimum)
    && Lands(base.maxSurge, modified.maxSurge, current.maxSurge, result.maxSurge)
    && Lands(base.maxUnavailable, modified.maxUnavailable, current.maxUnavailable, result.maxUnavailable)
    && Lands(base.providerConfig, modified.providerConfig, current.providerConfig, result.providerConfig)
    && Lands(base.taints, modified.taints, current.taints, result.taints)
    && Lands(base.volume, modified.volume, current.volume, result.volume)
    && Lands(base.dataVolumes, modified.dataVolumes, current.dataVolumes, result.dataVolumes)
    && Lands(base.kubeletDataVolumeName, modified.kubeletDataVolumeName, current.kubeletDataVolumeName, result.kubeletDataVolumeName)
    && Lands(base.zones, modified.zones, current.zones, result.zones)
    && Lands(base.systemComponents, modified.systemComponents, current.systemComponents, result.systemComponents)
    && Lands(base.machineControllerManagerSettings, modified.machineControllerManagerSettings, current.machineControllerManagerSettings, result.machineControllerManagerSettings)
    && Lands(base.sysctls, modified.sysctls, current.sysctls, result.sysctls)
    && Lands(base.clusterAutoscaler, modified.clusterAutoscaler, current.clusterAutoscaler, result.clusterAutoscaler)
    && Lands(base.priority, modified.priority, current.priority, result.priority)
    && Lands(base.updateStrategy, modified.updateStrategy, current.updateStrategy, result.updateStrategy)
    && Lands(base.controlPlane, modified.controlPlane, current.controlPlane, result.controlPlane)
  }

  ghost predicate FirstNamed(workers: seq<Worker>, name: string, i: nat) {
    && i < |workers| && workers[i].name == name
    && forall j :: 0 <= j < i ==> workers[j].name != name
  }

  /** The entry of each name is merged with the entries of that name; without one on both sides of the
      difference it stays. */
  ghost predicate WorkersLand(base: seq<Worker>, modified: seq<Worker>, current: seq<Worker>, result: seq<Worker>) {
    && |result| == |current|
    && forall i :: 0 <= i < |current| ==>
         && (forall b: nat, m: nat :: FirstNamed(base, current[i].name, b) && FirstNamed(modified, current[i].name, m) ==>
               WorkerLands(base[b], modified[m], current[i], result[i]))
         && ((forall b: nat :: !FirstNamed(base, current[i].name, b)) || (forall m: nat :: !FirstNamed(modified, current[i].name, m)) ==>
               result[i] == current[i])
  }

  lemma AnnotationPatchLands(base: Annotations, modified: Annotations, current: Annotations)
    ensures forall key :: KeyLands(base, modified, current, PatchAnnotations(base, modified, current), key)
  {}

  lemma WorkerPatchLands(base: Worker, modified: Worker, current: Worker)
    ensures WorkerLands(base, modified, current, PatchWorker(base, modified, current))
  {}

  lemma PositionIsFirst(workers: seq<Worker>, name: string)
    ensures forall i: nat :: FirstNamed(workers, name, i) <==> i == Position(workers, name) && i < |workers|
  {}

  lemma WorkersPatchLands(base: seq<Worker>, modified: seq<Worker>, current: seq<Worker>)
    ensures WorkersLand(base, modified, current, PatchWorkers(base, modified, current))
  {
    var result := PatchWorkers(base, modified, current);
    forall i | 0 <= i < |current|
      ensures forall b: nat, m: nat :: FirstNamed(base, current[i].name, b) && FirstNamed(modified, current[i].name, m) ==>
                WorkerLands(base[b], modified[m], current[i], result[i])
      ensures (forall b: nat :: !FirstNamed(base, current[i].name, b)) || (forall m: nat :: !FirstNamed(modified, current[i].name, m)) ==>
                result[i] == current[i]
    {
      var name := current[i].name;
      PositionIsFirst(base, name);
      PositionIsFirst(modified, name);
      var b, m := Position(base, name), Position(modified, name);
      if b < |base| && m < |modified| {
        assert FirstNamed(base, name, b) && FirstNamed(modified, name, m);
        WorkerPatchLands(base[b], modified[m], current[i]);
      }
    }
  }

  /** Main result: every field, annotation and worker entry of a Shoot. */
  lemma {:induction false} ShootPatchLands(base: Shoot, modified: Shoot, current: Shoot)
    ensures var result := PatchShoot(base, modified, current);
      && ShootSpecLands(base.spec, modified.spec, current.spec, result.spec)
      && WorkersLand(base.workers, modified.workers, current.workers, result.workers)
      && forall key :: KeyLands(base.annotations, modified.annotations, current.annotations, result.annotations, key)
  {
    AnnotationPatchLands(base.annotations, modified.annotations, current.annotations);
    WorkersPatchLands(base.workers, modified.workers, current.workers);
  }

  lemma {:induction false} ControlPlanePatchLands(base: ControlPlane, modified: ControlPlane, current: ControlPlane)
    ensures var result := PatchControlPlane(base, modified, current);
      && ControlPlaneSpecLands(base.spec, modified.spec, current.spec, result.spec)
      && forall key :: KeyLands(base.annotations, modified.annotations, current.annotations, result.annotations, key)
  {
    AnnotationPatchLands(base.annotations, modified.annotations, current.annotations);
  }

  lemma InfraPatchLands(base: InfraSpec, modified: InfraSpec, current: InfraSpec)
    ensures InfraLands(base, modified, current, PatchInfra(base, modified, current))
  {}

  /** A pool keeps its name. */
  lemma PoolPatchLands(base: WorkerPool, modified: WorkerPool, current: WorkerPool)
    ensures var result := PatchPool(base, modified, current);
      PoolSpecLands(base.spec, modified.spec, current.spec, result.spec) && result.name == current.name
  {}
}
