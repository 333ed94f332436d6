/** Creating the Shoot: gathering the worker pools of a cluster and building the Shoot from the
    CAPI objects, and how the result relates to what the sync reconcilers expect. */
module Creation {
  import opened Wrappers

  import opened ApiTypes
  import opened Sync
  import opened Convergence

  /** `refersToWorkerPool`: the infrastructure reference has the GardenerWorkerPool group and kind. */
  datatype MachinePool = MachinePool(clusterName: string, refersToWorkerPool: bool, poolName: string)

  /** What a Get by name answers; a name without an entry is not found. */
  datatype Lookup = Found(spec: WorkerPoolSpec) | Broken

  predicate Matches(machinePool: MachinePool, cluster: string) {
    machinePool.clusterName == cluster && machinePool.refersToWorkerPool
  }

  /** The pools behind the matching machine pools, in order, without those not found; nothing if a
      lookup breaks. */
  function PoolsOf(machinePools: seq<MachinePool>, cluster: string, stored: map<string, Lookup>): Option<seq<WorkerPool>> {
    if machinePools == [] then Some([])
    else
      var last, rest := machinePools[|machinePools| - 1], PoolsOf(machinePools[..|machinePools| - 1], cluster, stored);
      if rest.None? || !Matches(last, cluster) || last.poolName !in stored then rest
      else match stored[last.poolName]
        case Broken => None
        case Found(spec) => Some(rest.value + [WorkerPool(last.poolName, spec)])
  }

  lemma {:induction false} BrokenStays(machinePools: seq<MachinePool>, n: nat, cluster: string, stored: map<string, Lookup>)
    requires n <= |machinePools| && PoolsOf(machinePools[..n], cluster, stored).None?
    ensures PoolsOf(machinePools, cluster, stored).None?
    decreases |machinePools|
  {
    if n < |machinePools| {
      var shorter := machinePools[..|machinePools| - 1];
      assert shorter[..n] == machinePools[..n];
      BrokenStays(shorter, n, cluster, stored);
    } else {
      assert machinePools[..n] == machinePools;
    }
  }

  method GetWorkerPoolsForCluster(machinePools: seq<MachinePool>, cluster: string, stored: map<string, Lookup>)
    returns (pools: Option<seq<WorkerPool>>)
    ensures pools == PoolsOf(machinePools, cluster, stored)
  {
    var workers: seq<WorkerPool> := [];
    var i := 0;
    while i < |machinePools|
      invariant 0 <= i <= |machinePools|
      invariant PoolsOf(machinePools[..i], cluster, stored) == Some(workers)
    {
      var machinePool := machinePools[i];
      assert machinePools[..i + 1][..i] == machinePools[..i];
      i := i + 1;
      if machinePool.clusterName != cluster {
        continue;
      }
      if !machinePool.refersToWorkerPool {
        continue;
      }
      if machinePool.poolName !in stored {
        continue;
      }
      var answer := stored[machinePool.poolName];
      if answer.Broken? {
        BrokenStays(machinePools, i, cluster, stored);
        return None;
      }
      workers := workers + [WorkerPool(machinePool.poolName, answer.spec)];
    }
    assert machinePools[..i] == machinePools;
    return Some(workers);
  }

  /** Every gathered pool is a stored one under its own name. */
  lemma {:induction false} GatheredPoolsAreStored(machinePools: seq<MachinePool>, cluster: string, stored: map<string, Lookup>)
    requires PoolsOf(machinePools, cluster, stored).Some?
    ensures var pools := PoolsOf(machinePools, cluster, stored).value;
      forall pool :: pool in pools <==>
        pool.name in stored && stored[pool.name] == Found(pool.spec)
        && exists m :: m in machinePools && Matches(m, cluster) && m.poolName == pool.name
  {
    var pools := PoolsOf(machinePools, cluster, stored).value;
    if machinePools != [] {
      var n := |machinePools| - 1;
      GatheredPoolsAreStored(machinePools[..n], cluster, stored);
      assert forall m :: m in machinePools <==> m in machinePools[..n] || m == machinePools[n];
    }
  }

  /** A machine pool of the cluster whose worker pool is there. */
  ghost predicate Gathers(machinePool: MachinePool, cluster: string, stored: map<string, Lookup>, pool: WorkerPool) {
    && machinePool.clusterName == cluster && machinePool.refersToWorkerPool && machinePool.poolName == pool.name
    && pool.name in stored && stored[pool.name] == Found(pool.spec)
  }

  /** Gathering fails exactly if a lookup that matters breaks. */
  lemma {:induction false} GatheringFails(machinePools: seq<MachinePool>, cluster: string, stored: map<string, Lookup>)
    ensures PoolsOf(machinePools, cluster, stored).None? <==>
      exists m :: m in machinePools && BreaksAt(m, cluster, stored)
    decreases |machinePools|
  {
    if machinePools != [] {
      var n := |machinePools| - 1;
      var last := machinePools[n];
      GatheringFails(machinePools[..n], cluster, stored);
      assert forall m :: m in machinePools <==> m in machinePools[..n] || m == last;
      if PoolsOf(machinePools[..n], cluster, stored).None? {
        var m :| m in machinePools[..n] && BreaksAt(m, cluster, stored);
        assert m in machinePools;
      } else {
        assert PoolsOf(machinePools, cluster, stored).None? <==> BreaksAt(last, cluster, stored);
        assert last in machinePools;
      }
    }
  }

  /** Each pool comes from the machine pool at its position, in order, and none that matters is left out. */
  ghost predicate InOrder(machinePools: seq<MachinePool>, cluster: string, stored: map<string, Lookup>,
                          pools: seq<WorkerPool>, positions: seq<nat>)
  {
    && |positions| == |pools|
    && (forall k :: 0 <= k < |pools| ==>
          positions[k] < |machinePools| && Gathers(machinePools[positions[k]], cluster, stored, pools[k]))
    && (forall j, k :: 0 <= j < k < |positions| ==> positions[j] < positions[k])
    && (forall i: nat :: i < |machinePools| && LeadsToAPool(machinePools[i], cluster, stored) ==> i in positions)
  }

  lemma InOrderKept(machinePools: seq<MachinePool>, cluster: string, stored: map<string, Lookup>,
                    pools: seq<WorkerPool>, positions: seq<nat>)
    requires machinePools != []
    requires InOrder(machinePools[..|machinePools| - 1], cluster, stored, pools, positions)
    requires !LeadsToAPool(machinePools[|machinePools| - 1], cluster, stored)
    ensures InOrder(machinePools, cluster, stored, pools, positions)
  {
    var n := |machinePools| - 1;
    forall i: nat | i < |machinePools| && LeadsToAPool(machinePools[i], cluster, stored) ensures i in positions {
      assert i < n && machinePools[..n][i] == machinePools[i];
    }
  }

  lemma InOrderExtended(machinePools: seq<MachinePool>, cluster: string, stored: map<string, Lookup>,
                        pools: seq<WorkerPool>, positions: seq<nat>, pool: WorkerPool)
    requires machinePools != []
    requires InOrder(machinePools[..|machinePools| - 1], cluster, stored, pools, positions)
    requires Gathers(machinePools[|machinePools| - 1], cluster, stored, pool)
    ensures InOrder(machinePools, cluster, stored, pools + [pool], positions + [|machinePools| - 1])
  {
    var n := |machinePools| - 1;
    forall i: nat | i < |machinePools| && LeadsToAPool(machinePools[i], cluster, stored) ensures i in positions + [n] {
      assert i < n ==> machinePools[..n][i] == machinePools[i];
    }
  }

  /** The gathered pools are an increasing choice of machine pools, leaving out none that leads to one;
      and gathering fails exactly if a lookup breaks. */
  lemma {:induction false} PoolsComeInOrder(machinePools: seq<MachinePool>, cluster: string, stored: map<string, Lookup>)
    returns (positions: seq<nat>)
    ensures PoolsOf(machinePools, cluster, stored).None? <==>
      exists m :: m in machinePools && BreaksAt(m, cluster, stored)
    ensures PoolsOf(machinePools, cluster, stored).Some? ==>
      InOrder(machinePools, cluster, stored, PoolsOf(machinePools, cluster, stored).value, positions)
    decreases |machinePools|
  {
    GatheringFails(machinePools, cluster, stored);
    positions := [];
    if machinePools != [] && PoolsOf(machinePools, cluster, stored).Some? {
      var n := |machinePools| - 1;
      var last, before := machinePools[n], PoolsOf(machinePools[..n], cluster, stored).value;
      positions := PoolsComeInOrder(machinePools[..n], cluster, stored);
      if LeadsToAPool(last, cluster, stored) {
        var pool := WorkerPool(last.poolName, stored[last.poolName].spec);
        InOrderExtended(machinePools, cluster, stored, before, positions, pool);
        positions := positions + [n];
      } else {
        InOrderKept(machinePools, cluster, stored, before, positions);
      }
    }
  }

  ghost predicate LeadsToAPool(machinePool: MachinePool, cluster: string, stored: map<string, Lookup>) {
    machinePool.clusterName == cluster && machinePool.refersToWorkerPool && machinePool.poolName in stored
  }

  ghost predicate BreaksAt(machinePool: MachinePool, cluster: string, stored: map<string, Lookup>) {
    LeadsToAPool(machinePool, cluster, stored) && stored[machinePool.poolName].Broken?
  }

  function ShootFromCapi(cp: ControlPlane, infra: InfraSpec, pools: seq<WorkerPool>): Shoot {
    Shoot(
      map[],
      ShootSpec(
        provider := cp.spec.provider,
        addons := cp.spec.addons,
        dns := cp.spec.dns,
        extensions := cp.spec.extensions,
        kubernetes := cp.spec.kubernetes,
        networking := cp.spec.networking,
        monitoring := cp.spec.monitoring,
        purpose := cp.spec.purpose,
        secretBindingName := cp.spec.secretBindingName,
        resources := cp.spec.resources,
        tolerations := cp.spec.tolerations,
        exposureClassName := cp.spec.exposureClassName,
        systemComponents := cp.spec.systemComponents,
        controlPlane := cp.spec.controlPlane,
        schedulerName := cp.spec.schedulerName,
        cloudProfile := cp.spec.cloudProfile,
        credentialsBindingName := cp.spec.credentialsBindingName,
        accessRestrictions := cp.spec.accessRestrictions,
        hibernation := infra.hibernation,
        maintenance := infra.maintenance,
        region := infra.region,
        seedName := infra.seedName,
        seedSelector := infra.seedSelector),
      seq(|pools|, i requires 0 <= i < |pools| => WorkerFromPool(pools[i])))
  }

  /** The Shoot says what the CAPI objects say, with one worker for each pool, in the pools' order. */
  ghost predicate BuiltFrom(shoot: Shoot, cp: ControlPlane, infra: InfraSpec, pools: seq<WorkerPool>) {
    && shoot.annotations == map[]
    && shoot.spec.provider.providerType == cp.spec.provider.providerType
    && shoot.spec.provider.controlPlaneConfig == cp.spec.provider.controlPlaneConfig
    && shoot.spec.provider.infrastructureConfig == cp.spec.provider.infrastructureConfig
    && shoot.spec.provider.workersSettings == cp.spec.provider.workersSettings
    && shoot.spec.addons == cp.spec.addons
    && shoot.spec.dns == cp.spec.dns
    && shoot.spec.extensions == cp.spec.extensions
    && shoot.spec.kubernetes == cp.spec.kubernetes
    && shoot.spec.networking == cp.spec.networking
    && shoot.spec.monitoring == cp.spec.monitoring
    && shoot.spec.purpose == cp.spec.purpose
    && shoot.spec.secretBindingName == cp.spec.secretBindingName
    && shoot.spec.resources == cp.spec.resources
    && shoot.spec.tolerations == cp.spec.tolerations
    && shoot.spec.exposureClassName == cp.spec.exposureClassName
    && shoot.spec.systemComponents == cp.spec.systemComponents
    && shoot.spec.controlPlane == cp.spec.controlPlane
    && shoot.spec.schedulerName == cp.spec.schedulerName
    && shoot.spec.cloudProfile == cp.spec.cloudProfile
    && shoot.spec.credentialsBindingName == cp.spec.credentialsBindingName
    && shoot.spec.accessRestrictions == cp.spec.accessRestrictions
    && shoot.spec.hibernation == infra.hibernation
    && shoot.spec.maintenance == infra.maintenance
    && shoot.spec.region == infra.region
    && shoot.spec.seedName == infra.seedName
    && shoot.spec.seedSelector == infra.seedSelector
    && |shoot.workers| == |pools|
    && forall i :: 0 <= i < |pools| ==> WorkerMatches(pools[i], shoot.workers[i])
  }

  lemma BuiltFromIsExact(shoot: Shoot, cp: ControlPlane, infra: InfraSpec, pools: seq<WorkerPool>)
    ensures BuiltFrom(shoot, cp, infra, pools) <==> shoot == ShootFromCapi(cp, infra, pools)
  {
    var built := ShootFromCapi(cp, infra, pools);
    forall i | 0 <= i < |pools| ensures WorkerMatches(pools[i], built.workers[i]) {
      WorkerPoolFields(pools[i], built.workers[i]);
    }
    if BuiltFrom(shoot, cp, infra, pools) {
      forall i | 0 <= i < |pools| ensures shoot.workers[i] == built.workers[i] {
        WorkerPoolFields(pools[i], shoot.workers[i]);
      }
      assert shoot.workers == built.workers;
    }
  }

  datatype NamespacedName = NamespacedName(name: string, namespace: string)

  /** The Shoot is called like the Cluster and lives in the namespace of the Gardener project. */
  function ShootNameFromCapiResources(cluster: string, cp: ControlPlane): NamespacedName {
    NamespacedName(cluster, cp.spec.projectNamespace)
  }

  method ShootFromCapiResources(cluster: string, cp: ControlPlane, infra: InfraSpec, pools: seq<WorkerPool>)
    returns (id: NamespacedName, shoot: Shoot)
    ensures id.name == cluster && id.namespace == cp.spec.projectNamespace
    ensures BuiltFrom(shoot, cp, infra, pools)
  {
    id := ShootNameFromCapiResources(cluster, cp);
    var workers: seq<Worker> := [];
    for i := 0 to |pools|
      invariant |workers| == i && forall j :: 0 <= j < i ==> workers[j] == WorkerFromPool(pools[j])
    {
      workers := workers + [WorkerFromPool(pools[i])];
    }
    var spec := cp.spec;
    var provider := Provider(
      spec.provider.providerType,
      spec.provider.controlPlaneConfig,
      spec.provider.infrastructureConfig,
      spec.provider.workersSettings);
    shoot := Shoot(
      map[],
      ShootSpec(
        provider := provider,
        addons := spec.addons,
        dns := spec.dns,
        extensions := spec.extensions,
        hibernation := infra.hibernation,
        kubernetes := spec.kubernetes,
        networking := spec.networking,
        maintenance := infra.maintenance,
        monitoring := spec.monitoring,
        purpose := spec.purpose,
        region := infra.region,
        secretBindingName := spec.secretBindingName,
        seedName := infra.seedName,
        seedSelector := infra.seedSelector,
        resources := spec.resources,
        tolerations := spec.tolerations,
        exposureClassName := spec.exposureClassName,
        systemComponents := spec.systemComponents,
        controlPlane := spec.controlPlane,
        schedulerName := spec.schedulerName,
        cloudProfile := spec.cloudProfile,
        credentialsBindingName := spec.credentialsBindingName,
        accessRestrictions := spec.accessRestrictions),
      workers);
    forall i | 0 <= i < |pools| ensures WorkerMatches(pools[i], shoot.workers[i]) {
      WorkerPoolFields(pools[i], shoot.workers[i]);
    }
  }

  datatype Outcome = Created(id: NamespacedName, shoot: Shoot) | Incomplete | Failed

  /** `infra` is the referenced infra cluster, if it is found. */
  method CreateShoot(cp: ControlPlane, infra: Option<InfraSpec>, cluster: string,
                     machinePools: seq<MachinePool>, stored: map<string, Lookup>)
    returns (outcome: Outcome)
    ensures outcome.Created? <==>
      && infra.Some?
      && PoolsOf(machinePools, cluster, stored).Some?
      && (cp.spec.workerless || PoolsOf(machinePools, cluster, stored).value != [])
    ensures outcome.Incomplete? <==> infra.Some? && !cp.spec.workerless && PoolsOf(machinePools, cluster, stored) == Some([])
    ensures outcome.Created? ==>
      && outcome.id == NamespacedName(cluster, cp.spec.projectNamespace)
      && BuiltFrom(outcome.shoot, cp, infra.value,
           if cp.spec.workerless then [] else PoolsOf(machinePools, cluster, stored).value)
      && (outcome.shoot.workers == [] <==> cp.spec.workerless)
  {
    if infra.None? {
      return Failed;
    }
    var workers := GetWorkerPoolsForCluster(machinePools, cluster, stored);
    if workers.None? {
      return Failed;
    }
    if !cp.spec.workerless && |workers.value| == 0 {
      return Incomplete;
    }
    var id, shoot := ShootFromCapiResources(cluster, cp, infra.value, if cp.spec.workerless then [] else workers.value);
    return Created(id, shoot);
  }

  /** Main result: in the state right after creation no reconcile, in either direction, has anything
      to do, for any pools around, exactly if the control plane carries no operation annotation. If
      it does, the annotation has not been handed to the Shoot. The cloud profile, which no sync ever
      copies, is taken over. */
  lemma CreationAgreesWithSync(cp: ControlPlane, infra: InfraSpec, used: seq<WorkerPool>, pools: seq<WorkerPool>)
    requires DistinctPools(pools) && forall pool :: pool in used ==> pool in pools
    ensures var w := World(ShootFromCapi(cp, infra, used), cp, infra, pools);
      && (GARDENER_OPERATION !in cp.annotations <==> Settled(w))
      && (GARDENER_OPERATION !in cp.annotations <==> forall a: Action :: Step(w, a) == w)
      && (GARDENER_OPERATION in cp.annotations ==> ForwardPanics(w.shoot, cp))
      && w.shoot.spec.cloudProfile == cp.spec.cloudProfile
  {
    var shoot := ShootFromCapi(cp, infra, used);
    var w := World(shoot, cp, infra, pools);
    assert forall key :: key in ANNOTATION_ALLOW_LIST <==> key == GARDENER_OPERATION;
    forall j | 0 <= j < |pools| ensures PoolAgrees(shoot.workers, pools[j]) {
      forall i | 0 <= i < |shoot.workers| && shoot.workers[i].name == pools[j].name
        ensures shoot.workers[i] == WorkerFromPool(pools[j])
      {
        assert used[i] in pools;
        var k :| 0 <= k < |pools| && pools[k] == used[i];
        SamePool(pools, j, k);
      }
    }
    if GARDENER_OPERATION in cp.annotations {
      assert !AgreeOnKey(shoot.annotations, cp.annotations, GARDENER_OPERATION);
      assert AgreeOn(shoot.annotations, cp.annotations, ANNOTATION_ALLOW_LIST) ==>
          AgreeOnKey(shoot.annotations, cp.annotations, GARDENER_OPERATION);
    } else {
      forall key | key in ANNOTATION_ALLOW_LIST ensures AgreeOnKey(shoot.annotations, cp.annotations, key) {}
    }
    SettledIffQuiet(w);
  }
}
