/** The reconcile methods of the deletion protocol in their imperative form, each proved to be the
    uninterrupted run of its API calls, and what rounds of such reconciles achieve once a Cluster
    is deleted. */
module DeletionProgress {
  import opened Wrappers
  import opened Deletion

  datatype Result = Done | Requeue | Failed

  // ---------------------------------------------------------------------------
  // Uninterrupted reconciles
  // ---------------------------------------------------------------------------

  function CallsLeft(pc: ControlPlanePc): nat {
    match pc
    case Idle => 0
    case FindOwner(_) => 10
    case AddFinalizer(_) => 9
    case GetShoot(_) => 8
    case GetInfra => 3
    case ReadPools => 2
    case CreateShoot => 1
    case WriteStatus(_) => 7
    case SyncSpecs => 6
    case GetSecret => 5
    case CreateSecret => 4
    case RequestKubeconfig => 3
    case UpdateSecret => 2
    case PatchEndpoint => 1
    case DeleteSecret(_) => 5
    case GetShootForDelete(_) => 4
    case UpdateStatus(_, _) => 3
    case ConfirmDeletion => 2
    case DeleteShoot => 1
    case RemoveFinalizer(_) => 1
  }

  function Finish(s: Server, who: Which, pc: ControlPlanePc, f: Findings): Server
    decreases CallsLeft(pc)
  {
    if pc == Idle then s
    else
      var (next, pc') := ControlPlaneCall(s, who, pc, f);
      Finish(next, who, pc', f)
  }

  function ReconcileControlPlane(s: Server, who: Which, f: Findings): Server {
    if s.gscp.None? then s else Finish(s, who, FindOwner(s.gscp.value), f)
  }

  lemma LastCall(s: Server, who: Which, pc: ControlPlanePc, f: Findings)
    requires pc != Idle && ControlPlaneCall(s, who, pc, f).1 == Idle
    ensures Finish(s, who, pc, f) == ControlPlaneCall(s, who, pc, f).0
  {}

  function InfraCallsLeft(pc: InfraPc): nat {
    match pc
    case InfraIdle => 0
    case InfraFindOwner(_) => 2
    case _ => 1
  }

  function InfraFinish(s: Server, pc: InfraPc): Server
    decreases InfraCallsLeft(pc)
  {
    if pc == InfraIdle then s
    else
      var (next, pc') := InfraCallOf(s, pc);
      InfraFinish(next, pc')
  }

  function ReconcileInfra(s: Server): Server {
    if s.gsc.None? then s else InfraFinish(s, InfraFindOwner(s.gsc.value))
  }

  function ClusterCallsLeft(pc: ClusterPc): nat {
    match pc
    case Resting => 0
    case AddClusterFinalizer(_) => 8
    case GetGscp => 7
    case DeleteGscp => 6
    case GetGsc(_) => 5
    case DeleteGsc => 4
    case RemoveClusterFinalizer => 4
    case OwnGscp => 3
    case OwnGsc => 2
  }

  function ClusterFinish(s: Server, pc: ClusterPc): Server
    decreases ClusterCallsLeft(pc)
  {
    if pc == Resting then s
    else
      var (next, pc') := ClusterCall(s, pc);
      ClusterFinish(next, pc')
  }

  lemma LastClusterCall(s: Server, pc: ClusterPc)
    requires pc != Resting && ClusterCall(s, pc).1 == Resting
    ensures ClusterFinish(s, pc) == ClusterCall(s, pc).0
  {}

  function ReconcileCluster(s: Server): Server {
    if s.cluster.None? then s else ClusterFinish(s, AddClusterFinalizer(s.cluster.value))
  }

  /** Once the control plane is initialized, the Secret is there when the access reconcile is over. */
  lemma AccessLeavesASecret(s: Server, who: Which, f: Findings)
    requires s.shoot.Some?
    ensures Finish(s, who, GetSecret, f) == s.(secret := true)
  {
    var s1 := s.(secret := true);
    LastCall(s1, who, PatchEndpoint, f);
    assert Finish(s1, who, RequestKubeconfig, f) == Finish(s1, who, UpdateSecret, f) == s1;
    if s.secret {
      assert s1 == s;
    } else {
      assert Finish(s, who, GetSecret, f) == Finish(s, who, CreateSecret, f) == Finish(s1, who, RequestKubeconfig, f);
    }
  }

  /** The status update of the prioritized controller meets the GSCP it has. */
  lemma ReachesSync(s: Server, who: Which, f: Findings)
    requires s.gscp.Some? && s.shoot.Some?
    ensures Finish(s, who, GetShoot(s.gscp.value), f) == Finish(s, who, SyncSpecs, f)
  {
    var local := s.gscp.value;
    if who == Prioritized {
      assert Finish(s, who, GetShoot(local), f) == Finish(s, who, WriteStatus(local), f);
      assert Finish(s, who, WriteStatus(local), f) == Finish(s, who, SyncSpecs, f);
    }
  }

  lemma FinishWithShoot(s: Server, who: Which, f: Findings)
    requires s.shoot.Some?
    ensures Finish(s, who, ConfirmDeletion, f) == s.(shoot := Some(s.shoot.value.(confirmed := true, deleting := true)))
  {
    var s1 := s.(shoot := Some(s.shoot.value.(confirmed := true)));
    assert Finish(s, who, ConfirmDeletion, f) == Finish(s1, who, DeleteShoot, f);
    LastCall(s1, who, DeleteShoot, f);
  }

  lemma FinishWithoutShoot(s: Server, who: Which, local: Object, f: Findings)
    requires s.gscp == Some(local)
    ensures Finish(s, who, UpdateStatus(local, false), f) == s.(gscp := if local.finalizer then WithoutFinalizer(s.gscp) else s.gscp)
  {
    assert Finish(s, who, UpdateStatus(local, false), f) == Finish(s, who, RemoveFinalizer(local), f);
    LastCall(s, who, RemoveFinalizer(local), f);
  }

  lemma OneCallLess(s: Server, who: Which, pc: ControlPlanePc, f: Findings, next: Server, pc': ControlPlanePc)
    requires pc != Idle && ControlPlaneCall(s, who, pc, f) == (next, pc')
    ensures Finish(s, who, pc, f) == Finish(next, who, pc', f)
  {}

  lemma FinishAsFound(s: Server, who: Which, local: Object, f: Findings)
    requires s.gscp == Some(local)
    ensures var s1 := s.(secret := false);
      Finish(s, who, DeleteSecret(local), f) == Finish(s1, who, if s.shoot.Some? then ConfirmDeletion else UpdateStatus(local, false), f)
  {
    var s1 := s.(secret := false);
    OneCallLess(s, who, DeleteSecret(local), f, s1, GetShootForDelete(local));
    OneCallLess(s1, who, GetShootForDelete(local), f, s1, UpdateStatus(local, s.shoot.Some?));
    if s.shoot.Some? {
      OneCallLess(s1, who, UpdateStatus(local, true), f, s1, ConfirmDeletion);
    }
  }

  /** A delete reconcile, from the Secret on. */
  lemma FinishDeletion(s: Server, who: Which, local: Object, f: Findings)
    requires s.gscp == Some(local)
    ensures Finish(s, who, DeleteSecret(local), f) ==
      if s.shoot.Some? then s.(secret := false, shoot := Some(s.shoot.value.(confirmed := true, deleting := true)))
      else s.(secret := false, gscp := if local.finalizer then WithoutFinalizer(s.gscp) else s.gscp)
  {
    FinishAsFound(s, who, local, f);
    if s.shoot.Some? {
      FinishWithShoot(s.(secret := false), who, f);
    } else {
      FinishWithoutShoot(s.(secret := false), who, local, f);
    }
  }

  lemma LastInfraCall(s: Server, pc: InfraPc)
    requires pc != InfraIdle && InfraCallOf(s, pc).1 == InfraIdle
    ensures InfraFinish(s, pc) == InfraCallOf(s, pc).0
  {}

  lemma InfraReconcile(s: Server)
    ensures ReconcileInfra(s) ==
      if s.gsc.None? || !s.gsc.value.owned || s.cluster.None? || s.paused then s
      else if s.gsc.value.deleting then (if s.gsc.value.finalizer then s.(gsc := None) else s)
      else s.(gsc := WithFinalizer(s.gsc))
  {
    if s.gsc.Some? {
      var local := s.gsc.value;
      if !local.owned || s.cluster.None? || s.paused {
        LastInfraCall(s, InfraFindOwner(local));
      } else if local.deleting {
        assert ReconcileInfra(s) == InfraFinish(s, InfraRemoveFinalizer(local));
        LastInfraCall(s, InfraRemoveFinalizer(local));
      } else {
        assert ReconcileInfra(s) == InfraFinish(s, InfraAddFinalizer(local));
        LastInfraCall(s, InfraAddFinalizer(local));
        assert local.finalizer ==> WithFinalizer(s.gsc) == s.gsc;
      }
    }
  }

  // ---------------------------------------------------------------------------
  // Which calls a reconcile makes, in which order
  // ---------------------------------------------------------------------------

  function Trace(s: Server, who: Which, pc: ControlPlanePc, f: Findings): seq<ControlPlanePc>
    decreases CallsLeft(pc)
  {
    if pc == Idle then []
    else
      var (next, pc') := ControlPlaneCall(s, who, pc, f);
      [pc] + Trace(next, who, pc', f)
  }

  lemma OneCall(s: Server, who: Which, pc: ControlPlanePc, f: Findings, next: Server, pc': ControlPlanePc)
    requires pc != Idle && ControlPlaneCall(s, who, pc, f) == (next, pc')
    ensures Trace(s, who, pc, f) == [pc] + Trace(next, who, pc', f)
  {}

  lemma NoCall(s: Server, who: Which, f: Findings)
    ensures Trace(s, who, Idle, f) == []
  {}

  /** The Secret is created empty if it is missing, and filled unless it holds a kubeconfig to keep. */
  function AccessCalls(s: Server, f: Findings): seq<ControlPlanePc> {
    [GetSecret]
    + (if s.secret then [] else [CreateSecret])
    + (if s.secret && f.kubeconfigValid then [] else [RequestKubeconfig, UpdateSecret])
    + [PatchEndpoint]
  }

  lemma RenewalTrace(s: Server, who: Which, f: Findings)
    requires s.shoot.Some? && s.secret
    ensures Trace(s, who, RequestKubeconfig, f) == [RequestKubeconfig, UpdateSecret, PatchEndpoint]
  {
    OneCall(s, who, RequestKubeconfig, f, s, UpdateSecret);
    OneCall(s, who, UpdateSecret, f, s, PatchEndpoint);
    OneCall(s, who, PatchEndpoint, f, s, Idle);
    NoCall(s, who, f);
  }

  lemma AccessTrace(s: Server, who: Which, f: Findings)
    requires s.shoot.Some?
    ensures Trace(s, who, GetSecret, f) == AccessCalls(s, f)
  {
    var s1 := s.(secret := true);
    RenewalTrace(s1, who, f);
    if !s.secret {
      OneCall(s, who, GetSecret, f, s, CreateSecret);
      OneCall(s, who, CreateSecret, f, s1, RequestKubeconfig);
    } else if f.kubeconfigValid {
      OneCall(s, who, GetSecret, f, s, PatchEndpoint);
      OneCall(s, who, PatchEndpoint, f, s, Idle);
      NoCall(s, who, f);
    } else {
      assert s1 == s;
      OneCall(s, who, GetSecret, f, s, RequestKubeconfig);
    }
  }

  /** Without a Shoot: GSC, worker pools, Shoot, as far as they are there. */
  function CreationCalls(s: Server, f: Findings): seq<ControlPlanePc> {
    [GetInfra] + if s.gsc.None? then [] else [ReadPools] + if f.poolsFound then [CreateShoot] else []
  }

  lemma CreationTrace(s: Server, who: Which, f: Findings)
    ensures s.shoot.None? ==> Trace(s, who, GetInfra, f) == CreationCalls(s, f)
  {
    if s.shoot.None? {
      OneCall(s, who, GetInfra, f, s, if s.gsc.None? then Idle else ReadPools);
      OneCall(s, who, ReadPools, f, s, if f.poolsFound then CreateShoot else Idle);
      var created := s.(shoot := Some(ShootState(true, false, false, f.teardown)));
      OneCall(s, who, CreateShoot, f, created, Idle);
      NoCall(s, who, f);
      NoCall(created, who, f);
    }
  }

  /** With a Shoot: the status if it is this controller's to write, the specs, and the access of an
      initialized control plane. */
  function SyncCalls(s: Server, who: Which, local: Object, f: Findings): seq<ControlPlanePc> {
    (if who == Prioritized then [WriteStatus(local)] else [])
    + [SyncSpecs]
    + (if f.initialized then AccessCalls(s, f) else [])
  }

  lemma SpecsTrace(s: Server, who: Which, f: Findings)
    requires s.shoot.Some?
    ensures Trace(s, who, SyncSpecs, f) == [SyncSpecs] + (if f.initialized then AccessCalls(s, f) else [])
  {
    OneCall(s, who, SyncSpecs, f, s, if f.initialized then GetSecret else Idle);
    AccessTrace(s, who, f);
    NoCall(s, who, f);
  }

  lemma SyncTrace(s: Server, who: Which, f: Findings)
    requires s.shoot.Some? && s.gscp.Some?
    ensures Trace(s, who, GetShoot(s.gscp.value), f) == [GetShoot(s.gscp.value)] + SyncCalls(s, who, s.gscp.value, f)
  {
    var local := s.gscp.value;
    SpecsTrace(s, who, f);
    if who == Prioritized {
      OneCall(s, who, GetShoot(local), f, s, WriteStatus(local));
      OneCall(s, who, WriteStatus(local), f, s, SyncSpecs);
    } else {
      OneCall(s, who, GetShoot(local), f, s, SyncSpecs);
    }
  }

  function DeletionCalls(s: Server, local: Object): seq<ControlPlanePc> {
    [DeleteSecret(local), GetShootForDelete(local), UpdateStatus(local, s.shoot.Some?)]
    + if s.shoot.Some? then [ConfirmDeletion, DeleteShoot] else [RemoveFinalizer(local)]
  }

  lemma DeletionTrace(s: Server, who: Which, f: Findings)
    requires s.gscp.Some?
    ensures Trace(s, who, DeleteSecret(s.gscp.value), f) == DeletionCalls(s, s.gscp.value)
  {
    var local, s1 := s.gscp.value, s.(secret := false);
    OneCall(s, who, DeleteSecret(local), f, s1, GetShootForDelete(local));
    OneCall(s1, who, GetShootForDelete(local), f, s1, UpdateStatus(local, s.shoot.Some?));
    LastDeletionCalls(s1, who, f);
    ThreeAnd(DeleteSecret(local), GetShootForDelete(local), UpdateStatus(local, s.shoot.Some?),
             if s.shoot.Some? then [ConfirmDeletion, DeleteShoot] else [RemoveFinalizer(local)]);
  }

  lemma CallsWithShoot(s: Server, who: Which, f: Findings)
    requires s.shoot.Some?
    ensures Trace(s, who, ConfirmDeletion, f) == [ConfirmDeletion, DeleteShoot]
  {
    var s1 := s.(shoot := Some(s.shoot.value.(confirmed := true)));
    var s2 := s1.(shoot := Some(s1.shoot.value.(deleting := true)));
    OneCall(s, who, ConfirmDeletion, f, s1, DeleteShoot);
    OneCall(s1, who, DeleteShoot, f, s2, Idle);
    NoCall(s2, who, f);
  }

  lemma LastDeletionCalls(s: Server, who: Which, f: Findings)
    requires s.gscp.Some?
    ensures var local := s.gscp.value;
      Trace(s, who, UpdateStatus(local, s.shoot.Some?), f) ==
        [UpdateStatus(local, s.shoot.Some?)] + if s.shoot.Some? then [ConfirmDeletion, DeleteShoot] else [RemoveFinalizer(local)]
  {
    var local := s.gscp.value;
    if s.shoot.Some? {
      OneCall(s, who, UpdateStatus(local, true), f, s, ConfirmDeletion);
      CallsWithShoot(s, who, f);
    } else {
      var after := if local.finalizer then s.(gscp := WithoutFinalizer(s.gscp)) else s;
      OneCall(s, who, UpdateStatus(local, false), f, s, RemoveFinalizer(local));
      OneCall(s, who, RemoveFinalizer(local), f, after, Idle);
      NoCall(after, who, f);
    }
  }

  /** Main result: the calls of an undisturbed GSCP reconcile, in their order, in every case. */
  lemma {:induction false} ReconcileTrace(s: Server, who: Which, f: Findings)
    requires s.gscp.Some?
    ensures var local := s.gscp.value;
      Trace(s, who, FindOwner(local), f) ==
        if !local.owned || s.cluster.None? || s.paused then [FindOwner(local)]
        else if local.deleting then [FindOwner(local)] + DeletionCalls(s, local)
        else
          var held := Object(true, false, true);
          [FindOwner(local), AddFinalizer(local), GetShoot(held)]
          + if s.shoot.Some? then SyncCalls(s, who, held, f) else CreationCalls(s, f)
  {
    var local := s.gscp.value;
    if !local.owned || s.cluster.None? || s.paused {
      OneCall(s, who, FindOwner(local), f, s, Idle);
      NoCall(s, who, f);
    } else if local.deleting {
      OneCall(s, who, FindOwner(local), f, s, DeleteSecret(local));
      DeletionTrace(s, who, f);
    } else {
      NormalTrace(s, who, f);
    }
  }

  lemma ShootTrace(s: Server, who: Which, f: Findings)
    requires s.gscp.Some?
    ensures Trace(s, who, GetShoot(s.gscp.value), f) ==
      [GetShoot(s.gscp.value)] + if s.shoot.Some? then SyncCalls(s, who, s.gscp.value, f) else CreationCalls(s, f)
  {
    if s.shoot.Some? {
      SyncTrace(s, who, f);
    } else {
      CreationTrace(s, who, f);
      OneCall(s, who, GetShoot(s.gscp.value), f, s, GetInfra);
    }
  }

  lemma ThreeAnd<T>(a: T, b: T, c: T, rest: seq<T>)
    ensures [a] + ([b] + ([c] + rest)) == [a, b, c] + rest
  {}

  lemma SameCalls(s: Server, t: Server, who: Which, local: Object, f: Findings)
    requires t == s.(gscp := t.gscp)
    ensures SyncCalls(t, who, local, f) == SyncCalls(s, who, local, f) && CreationCalls(t, f) == CreationCalls(s, f)
  {}

  lemma NormalTrace(s: Server, who: Which, f: Findings)
    requires s.gscp.Some? && !s.gscp.value.deleting && s.gscp.value.owned && s.cluster.Some? && !s.paused
    ensures var held := Object(true, false, true);
      Trace(s, who, FindOwner(s.gscp.value), f) ==
        [FindOwner(s.gscp.value), AddFinalizer(s.gscp.value), GetShoot(held)]
        + if s.shoot.Some? then SyncCalls(s, who, held, f) else CreationCalls(s, f)
  {
    var local, held := s.gscp.value, Object(true, false, true);
    var s1 := if local.finalizer then s else s.(gscp := Some(held));
    OneCall(s, who, FindOwner(local), f, s, AddFinalizer(local));
    OneCall(s, who, AddFinalizer(local), f, s1, GetShoot(held));
    ShootTrace(s1, who, f);
    SameCalls(s, s1, who, held, f);
    ThreeAnd(FindOwner(local), AddFinalizer(local), GetShoot(held),
             if s.shoot.Some? then SyncCalls(s, who, held, f) else CreationCalls(s, f));
  }

  /** A read that fails while a Cluster is going never lets the Cluster go in that reconcile. */
  lemma FailedReadsKeepTheCluster(s: Server, pc: ClusterPc)
    requires pc == GetGscp || pc.GetGsc?
    ensures ClusterFinish(s, ClusterReadFailed(pc)).cluster == s.cluster
  {
    OwnersKeepTheCluster(s);
    if pc == GetGscp {
      OwnersKeepTheCluster(s.(gsc := Deleted(s.gsc)));
    }
  }

  lemma OwnersKeepTheCluster(s: Server)
    ensures ClusterFinish(s, OwnGscp).cluster == s.cluster
  {}

  /** The API servers as the controllers call them. */
  class ApiServer {
    var state: Server

    constructor (state: Server)
      ensures this.state == state
    {
      this.state := state;
    }

    method PatchGscpFinalizer(add: bool) returns (ok: bool)
      modifies this
      ensures ok <==> if add then CanCarryFinalizer(old(state).gscp) else old(state).gscp.Some?
      ensures state == if !ok then old(state)
                       else old(state).(gscp := if add then WithFinalizer(old(state).gscp) else WithoutFinalizer(old(state).gscp))
    {
      ok := if add then CanCarryFinalizer(state.gscp) else state.gscp.Some?;
      if ok {
        state := state.(gscp := if add then WithFinalizer(state.gscp) else WithoutFinalizer(state.gscp));
      }
    }

    method PatchGscFinalizer(add: bool) returns (ok: bool)
      modifies this
      ensures ok <==> if add then CanCarryFinalizer(old(state).gsc) else old(state).gsc.Some?
      ensures state == if !ok then old(state)
                       else old(state).(gsc := if add then WithFinalizer(old(state).gsc) else WithoutFinalizer(old(state).gsc))
    {
      ok := if add then CanCarryFinalizer(state.gsc) else state.gsc.Some?;
      if ok {
        state := state.(gsc := if add then WithFinalizer(state.gsc) else WithoutFinalizer(state.gsc));
      }
    }

    method PatchShootConfirmation()
      modifies this
      ensures state == if old(state).shoot.None? then old(state)
                       else old(state).(shoot := Some(old(state).shoot.value.(confirmed := true)))
    {
      if state.shoot.Some? {
        state := state.(shoot := Some(state.shoot.value.(confirmed := true)));
      }
    }

    /** Gardener refuses to delete a Shoot without the confirmation annotation. */
    method DeleteTheShoot() returns (ok: bool)
      modifies this
      ensures ok <==> old(state).shoot.None? || old(state).shoot.value.confirmed
      ensures state == if old(state).shoot.Some? && ok then old(state).(shoot := Some(old(state).shoot.value.(deleting := true)))
                       else old(state)
    {
      ok := state.shoot.None? || state.shoot.value.confirmed;
      if state.shoot.Some? && ok {
        state := state.(shoot := Some(state.shoot.value.(deleting := true)));
      }
    }

    method CreateTheShoot(teardown: nat) returns (ok: bool)
      modifies this
      ensures ok <==> old(state).shoot.None?
      ensures state == if ok then old(state).(shoot := Some(ShootState(true, false, false, teardown))) else old(state)
    {
      ok := state.shoot.None?;
      if ok {
        state := state.(shoot := Some(ShootState(true, false, false, teardown)));
      }
    }

    method CreateTheSecret() returns (ok: bool)
      modifies this
      ensures ok <==> !old(state).secret
      ensures state == old(state).(secret := true)
    {
      ok := !state.secret;
      state := state.(secret := true);
    }
  }

  /** What one undisturbed GSCP reconcile leaves and asks for, in every case. */
  ghost predicate ControlPlaneDone(s: Server, f: Findings, next: Server, result: Result) {
    if s.gscp.None? then result == Done && next == s
    else if !s.gscp.value.owned then result == Requeue && next == s
    else if s.cluster.None? then result == Failed && next == s
    else if s.paused then result == Done && next == s
    else if s.gscp.value.deleting then DeletionDone(s, next, result)
    else SyncDone(s.(gscp := Some(Object(true, false, true))), f, next, result)
  }

  /** The Secret goes first; the GSCP stays finalized until the Shoot, confirmed and deleted, is gone. */
  ghost predicate DeletionDone(s: Server, next: Server, result: Result)
    requires s.gscp.Some?
  {
    if s.shoot.Some? then
      && result == Requeue
      && next == s.(secret := false, shoot := Some(ShootState(s.shoot.value.byController, true, true, s.shoot.value.teardown)))
    else result == Done && next == s.(secret := false, gscp := if s.gscp.value.finalizer then None else s.gscp)
  }

  /** Without a Shoot one is created if GSC and worker pools are there; with one, and an initialized
      control plane, there is a Secret afterwards. */
  ghost predicate SyncDone(held: Server, f: Findings, next: Server, result: Result) {
    if held.shoot.None? then
      if held.gsc.None? then result == Failed && next == held
      else if !f.poolsFound then result == Requeue && next == held
      else result == Done && next == held.(shoot := Some(ShootState(true, false, false, f.teardown)))
    else if !f.initialized then result == Requeue && next == held
    else result == (if f.ready then Done else Requeue) && next == held.(secret := true)
  }

  /** Reconcile and reconcile of the GSCP controller, as far as deletion goes. */
  method Reconcile(api: ApiServer, who: Which, f: Findings) returns (result: Result)
    modifies api
    ensures api.state == ReconcileControlPlane(old(api.state), who, f)
    ensures ControlPlaneDone(old(api.state), f, api.state, result)
  {
    ghost var s := api.state;
    if api.state.gscp.None? {
      return Done;
    }
    var controlPlane := api.state.gscp.value;
    if !controlPlane.owned || api.state.cluster.None? || api.state.paused {
      LastCall(s, who, FindOwner(controlPlane), f);
      return if !controlPlane.owned then Requeue else if api.state.cluster.None? then Failed else Done;
    }
    if controlPlane.deleting {
      assert ReconcileControlPlane(s, who, f) == Finish(s, who, DeleteSecret(controlPlane), f);
      result := ReconcileDelete(api, who, controlPlane, f);
    } else {
      assert ReconcileControlPlane(s, who, f) == Finish(s, who, AddFinalizer(controlPlane), f);
      result := ReconcileNormal(api, who, controlPlane, f);
    }
  }

  method ReconcileNormal(api: ApiServer, who: Which, controlPlane: Object, f: Findings) returns (result: Result)
    requires api.state.gscp == Some(controlPlane) && !controlPlane.deleting
    modifies api
    ensures api.state == Finish(old(api.state), who, AddFinalizer(controlPlane), f)
    ensures SyncDone(old(api.state).(gscp := Some(controlPlane.(finalizer := true))), f, api.state, result)
  {
    ghost var s := api.state;
    var local := controlPlane;
    if !controlPlane.finalizer {
      var ok := api.PatchGscpFinalizer(true);
      if !ok {
        LastCall(s, who, AddFinalizer(controlPlane), f);
        return Failed;
      }
      local := api.state.gscp.value;
    }
    assert Finish(s, who, AddFinalizer(controlPlane), f) == Finish(api.state, who, GetShoot(local), f);
    if api.state.shoot.None? {
      assert Finish(api.state, who, GetShoot(local), f) == Finish(api.state, who, GetInfra, f);
      result := CreateShootIfComplete(api, who, f);
      return;
    }
    ReachesSync(api.state, who, f);
    result := SyncAndAccess(api, who, f);
  }

  method SyncAndAccess(api: ApiServer, who: Which, f: Findings) returns (result: Result)
    requires api.state.shoot.Some?
    modifies api
    ensures api.state == Finish(old(api.state), who, SyncSpecs, f)
    ensures SyncDone(old(api.state), f, api.state, result)
  {
    if !f.initialized {
      LastCall(api.state, who, SyncSpecs, f);
      return Requeue;
    }
    assert Finish(api.state, who, SyncSpecs, f) == Finish(api.state, who, GetSecret, f);
    AccessLeavesASecret(api.state, who, f);
    if !api.state.secret {
      var created := api.CreateTheSecret();
    }
    return if f.ready then Done else Requeue;
  }

  method CreateShootIfComplete(api: ApiServer, who: Which, f: Findings) returns (result: Result)
    requires api.state.shoot.None?
    modifies api
    ensures api.state == Finish(old(api.state), who, GetInfra, f)
    ensures SyncDone(old(api.state), f, api.state, result)
  {
    if api.state.gsc.None? {
      LastCall(api.state, who, GetInfra, f);
      return Failed;
    }
    assert Finish(api.state, who, GetInfra, f) == Finish(api.state, who, ReadPools, f);
    if !f.poolsFound {
      LastCall(api.state, who, ReadPools, f);
      return Requeue;
    }
    assert Finish(api.state, who, ReadPools, f) == Finish(api.state, who, CreateShoot, f);
    LastCall(api.state, who, CreateShoot, f);
    var ok := api.CreateTheShoot(f.teardown);
    return if ok then Done else Failed;
  }

  method ReconcileDelete(api: ApiServer, who: Which, controlPlane: Object, ghost f: Findings) returns (result: Result)
    requires api.state.gscp == Some(controlPlane) && controlPlane.deleting
    modifies api
    ensures api.state == Finish(old(api.state), who, DeleteSecret(controlPlane), f)
    ensures DeletionDone(old(api.state), api.state, result)
  {
    FinishDeletion(api.state, who, controlPlane, f);
    api.state := api.state.(secret := false);
    var found := api.state.shoot.Some?;
    if found {
      api.PatchShootConfirmation();
      var ok := api.DeleteTheShoot();
      return if ok then Requeue else Failed;
    }
    if controlPlane.finalizer {
      var ok := api.PatchGscpFinalizer(false);
      return if ok then Done else Failed;
    }
    return Done;
  }

  ghost predicate InfraDone(s: Server, next: Server, result: Result) {
    if s.gsc.None? || !s.gsc.value.owned then result == Done && next == s
    else if s.cluster.None? then result == Failed && next == s
    else if s.paused then result == Done && next == s
    else
      && result == Done
      && next.cluster == s.cluster && next.gscp == s.gscp && next.shoot == s.shoot && next.secret == s.secret && next.paused == s.paused
      && if !s.gsc.value.deleting then next.gsc == Some(Object(true, false, true))
         else if s.gsc.value.finalizer then next.gsc == None
         else next.gsc == s.gsc
  }

  /** Reconcile, reconcile and reconcileDelete of the GSC controller, as far as deletion goes. */
  method ReconcileTheInfra(api: ApiServer) returns (result: Result)
    modifies api
    ensures api.state == ReconcileInfra(old(api.state))
    ensures InfraDone(old(api.state), api.state, result)
  {
    InfraReconcile(api.state);
    if api.state.gsc.None? {
      return Done;
    }
    var infra := api.state.gsc.value;
    if !infra.owned || api.state.cluster.None? || api.state.paused {
      return if infra.owned && api.state.cluster.None? then Failed else Done;
    }
    if infra.finalizer == infra.deleting {
      var ok := api.PatchGscFinalizer(!infra.deleting);
      return if ok then Done else Failed;
    }
    return Done;
  }

  /** A deleted object without finalizer is gone. */
  ghost predicate IsDeleted(before: Option<Object>, after: Option<Object>) {
    if before.Some? && before.value.finalizer then after == Some(Object(true, true, before.value.owned)) else after == None
  }

  ghost predicate IsOwned(before: Option<Object>, after: Option<Object>) {
    if before.Some? then after == Some(Object(before.value.finalizer, before.value.deleting, true)) else after == None
  }

  /** What one undisturbed Cluster reconcile leaves and asks for, in every case. */
  ghost predicate ClusterDone(s: Server, next: Server, result: Result) {
    && next.shoot == s.shoot && next.secret == s.secret && next.paused == s.paused
    && if s.cluster.None? then result == Done && next == s
       else if !s.cluster.value.deleting then
         && next.cluster == Some(Object(true, false, s.cluster.value.owned))
         && OwnersSet(s, next, result)
       else if !s.cluster.value.finalizer then result == Failed && next == s
       else if s.gscp.None? && s.gsc.None? then result == Requeue && next == s.(cluster := None)
       else
         && next.cluster == s.cluster
         && exists gscp, gsc :: IsDeleted(s.gscp, gscp) && IsDeleted(s.gsc, gsc) && OwnersSet(s.(gscp := gscp, gsc := gsc), next, result)
  }

  /** The GSC gets its owner only if there is a GSCP. */
  ghost predicate OwnersSet(s: Server, next: Server, result: Result) {
    && result == (if s.gscp.Some? && s.gsc.Some? then Done else Requeue)
    && IsOwned(s.gscp, next.gscp)
    && if s.gscp.Some? then IsOwned(s.gsc, next.gsc) else next.gsc == s.gsc
  }

  /** Reconcile of the Cluster controller, as far as deletion and ownership go. */
  method ReconcileTheCluster(api: ApiServer) returns (result: Result)
    modifies api
    ensures api.state == ReconcileCluster(old(api.state))
    ensures ClusterDone(old(api.state), api.state, result)
  {
    ghost var s := api.state;
    if api.state.cluster.None? {
      return Done;
    }
    var cluster := api.state.cluster.value;
    if !cluster.finalizer {
      if !CanCarryFinalizer(api.state.cluster) {
        LastClusterCall(s, AddClusterFinalizer(cluster));
        return Failed;
      }
      api.state := api.state.(cluster := WithFinalizer(api.state.cluster));
    }
    assert ReconcileCluster(s) == ClusterFinish(api.state, if cluster.deleting then GetGscp else OwnGscp);
    if cluster.deleting {
      var gscpGone := api.state.gscp.None?;
      if !gscpGone {
        api.state := api.state.(gscp := Deleted(api.state.gscp));
      }
      assert ReconcileCluster(s) == ClusterFinish(api.state, GetGsc(gscpGone));
      var gscGone := api.state.gsc.None?;
      if !gscGone {
        api.state := api.state.(gsc := Deleted(api.state.gsc));
      }
      if gscpGone && gscGone {
        api.state := api.state.(cluster := WithoutFinalizer(api.state.cluster));
      }
    }
    assert ReconcileCluster(s) == ClusterFinish(api.state, OwnGscp);
    result := SetOwners(api);
  }

  method SetOwners(api: ApiServer) returns (result: Result)
    modifies api
    ensures api.state == ClusterFinish(old(api.state), OwnGscp)
    ensures OwnersSet(old(api.state), api.state, result)
    ensures api.state == old(api.state).(gscp := api.state.gscp, gsc := api.state.gsc)
  {
    if api.state.gscp.None? {
      LastClusterCall(api.state, OwnGscp);
      return Requeue;
    }
    ghost var s := api.state;
    api.state := api.state.(gscp := Owned(api.state.gscp));
    assert ClusterFinish(s, OwnGscp) == ClusterFinish(api.state, OwnGsc);
    LastClusterCall(api.state, OwnGsc);
    if api.state.gsc.None? {
      return Requeue;
    }
    api.state := api.state.(gsc := Owned(api.state.gsc));
    return Done;
  }

  // ---------------------------------------------------------------------------
  // What single reconciles do
  // ---------------------------------------------------------------------------

  lemma BlockedReconcile(s: Server, who: Which, f: Findings)
    requires s.gscp.Some? && (!s.gscp.value.owned || s.cluster.None? || s.paused)
    ensures ReconcileControlPlane(s, who, f) == s
  {
    LastCall(s, who, FindOwner(s.gscp.value), f);
  }

  lemma DeletionReconcile(s: Server, who: Which, f: Findings)
    requires s.gscp.Some? && s.gscp.value.deleting && s.gscp.value.owned && s.cluster.Some? && !s.paused
    ensures ReconcileControlPlane(s, who, f) ==
      if s.shoot.Some? then s.(secret := false, shoot := Some(s.shoot.value.(confirmed := true, deleting := true)))
      else s.(secret := false, gscp := if s.gscp.value.finalizer then None else s.gscp)
  {
    assert ReconcileControlPlane(s, who, f) == Finish(s, who, DeleteSecret(s.gscp.value), f);
    FinishDeletion(s, who, s.gscp.value, f);
  }

  lemma FinishCreation(s: Server, who: Which, f: Findings)
    requires s.shoot.None?
    ensures Finish(s, who, GetInfra, f) ==
      if s.gsc.Some? && f.poolsFound then s.(shoot := Some(ShootState(true, false, false, f.teardown))) else s
  {
    OneCallLess(s, who, GetInfra, f, s, if s.gsc.None? then Idle else ReadPools);
    OneCallLess(s, who, ReadPools, f, s, if f.poolsFound then CreateShoot else Idle);
    OneCallLess(s, who, CreateShoot, f, s.(shoot := Some(ShootState(true, false, false, f.teardown))), Idle);
  }

  lemma FinishFromGetShoot(s: Server, who: Which, f: Findings)
    requires s.gscp.Some?
    ensures Finish(s, who, GetShoot(s.gscp.value), f) ==
      if s.shoot.None? then
        if s.gsc.Some? && f.poolsFound then s.(shoot := Some(ShootState(true, false, false, f.teardown))) else s
      else if f.initialized then s.(secret := true) else s
  {
    if s.shoot.None? {
      OneCallLess(s, who, GetShoot(s.gscp.value), f, s, GetInfra);
      FinishCreation(s, who, f);
    } else {
      ReachesSync(s, who, f);
      AccessLeavesASecret(s, who, f);
    }
  }

  lemma NormalReconcile(s: Server, who: Which, f: Findings)
    requires s.gscp.Some? && !s.gscp.value.deleting && s.gscp.value.owned && s.cluster.Some? && !s.paused
    ensures var held := WithFinalizer(s.gscp);
      ReconcileControlPlane(s, who, f) == Finish(s.(gscp := held), who, GetShoot(held.value), f)
  {
    var local, held := s.gscp.value, WithFinalizer(s.gscp);
    assert ReconcileControlPlane(s, who, f) == Finish(s, who, AddFinalizer(local), f);
    assert local.finalizer ==> held == s.gscp;
  }

  lemma DeletingClusterReconcile(s: Server)
    requires HeldInDeletion(s.cluster)
    ensures ReconcileCluster(s) ==
      if s.gscp.None? && s.gsc.None? then s.(cluster := None)
      else
        var gscp, gsc := Deleted(s.gscp), Deleted(s.gsc);
        if gscp.None? then s.(gscp := gscp, gsc := gsc)
        else s.(gscp := Owned(gscp), gsc := if gsc.None? then gsc else Owned(gsc))
  {
    assert ReconcileCluster(s) == ClusterFinish(s, GetGscp);
    var s1 := s.(gscp := Deleted(s.gscp));
    assert ClusterFinish(s, GetGscp) == ClusterFinish(s1, GetGsc(s.gscp.None?));
    var s2 := s1.(gsc := Deleted(s.gsc));
    if s.gscp.None? && s.gsc.None? {
      assert ClusterFinish(s1, GetGsc(true)) == ClusterFinish(s1.(cluster := None), OwnGscp);
    } else {
      assert ClusterFinish(s1, GetGsc(s.gscp.None?)) == ClusterFinish(s2, OwnGscp);
    }
  }

  lemma NormalClusterReconcile(s: Server)
    requires s.cluster.Some? && !s.cluster.value.deleting
    ensures ReconcileCluster(s) ==
      var s1 := s.(cluster := WithFinalizer(s.cluster));
      if s.gscp.None? then s1
      else s1.(gscp := Owned(s.gscp), gsc := if s.gsc.None? then s.gsc else Owned(s.gsc))
  {
    var s1 := s.(cluster := WithFinalizer(s.cluster));
    assert ReconcileCluster(s) == ClusterFinish(s1, OwnGscp);
    if s.gscp.Some? {
      LastClusterCall(s1.(gscp := Owned(s.gscp)), OwnGsc);
    } else {
      LastClusterCall(s1, OwnGscp);
    }
  }

  lemma UnfinalizedClusterReconcile(s: Server)
    requires s.cluster.Some? && s.cluster.value.deleting && !s.cluster.value.finalizer
    ensures ReconcileCluster(s) == s
  {
    LastClusterCall(s, AddClusterFinalizer(s.cluster.value));
  }

  // ---------------------------------------------------------------------------
  // Turns
  // ---------------------------------------------------------------------------

  datatype Actor = ClusterActor | ControlPlaneActor | InfraActor | GardenerActor

  /** An uninterrupted reconcile, or one step of Gardener's. */
  datatype Turn = Turn(actor: Actor, who: Which, findings: Findings)

  function Take(s: Server, t: Turn): Server {
    match t.actor
    case ClusterActor => ReconcileCluster(s)
    case ControlPlaneActor => ReconcileControlPlane(s, t.who, t.findings)
    case InfraActor => ReconcileInfra(s)
    case GardenerActor => GardenerStep(s)
  }

  function TakeAll(s: Server, turns: seq<Turn>): Server
    decreases |turns|
  {
    if turns == [] then s else TakeAll(Take(s, turns[0]), turns[1..])
  }

  ghost predicate Gone(s: Server) {
    s.cluster.None? && s.gscp.None? && s.gsc.None? && s.shoot.None? && !s.secret
  }

  /** Everything that is left is on its way out and has somebody to see to it. */
  ghost predicate Draining(s: Server) {
    && (s.cluster.Some? ==> HeldInDeletion(s.cluster))
    && (s.gscp.Some? ==> s.gscp.value == Object(true, true, true) && s.cluster.Some? && !s.paused)
    && (s.gsc.Some? ==> s.gsc.value == Object(true, true, true) && s.cluster.Some? && !s.paused)
    && (s.secret ==> s.gscp.Some?)
    && (s.shoot.Some? && !s.shoot.value.deleting ==> s.gscp.Some?)
  }

  /** Something is left that nobody will ever see to. */
  ghost predicate Blocked(s: Server) {
    || (s.gscp.None? && Held(s.gsc) && !s.gsc.value.owned)
    || (s.gscp.None? && s.secret)
    || (s.gscp.None? && s.shoot.Some? && !s.shoot.value.deleting)
    || (s.paused && (Held(s.gscp) || Held(s.gsc)))
  }

  /** What the server must hold when the Cluster controller first reconciles a deleted Cluster. */
  predicate Completes(s: Server) {
    && (Held(s.gsc) && !s.gsc.value.owned ==> Held(s.gscp))
    && (s.secret ==> Held(s.gscp))
    && (s.shoot.Some? && !s.shoot.value.deleting ==> Held(s.gscp))
    && (s.paused ==> !Held(s.gscp) && !Held(s.gsc))
  }

  /** The first reconcile of a deleted Cluster decides. */
  lemma {:induction false} FirstClusterTurn(s: Server, t: Turn)
    requires HeldInDeletion(s.cluster) && t.actor == ClusterActor
    ensures if Completes(s) then Draining(Take(s, t)) else Blocked(Take(s, t))
    ensures Take(s, t).shoot == s.shoot
  {
    DeletingClusterReconcile(s);
  }

  // ---------------------------------------------------------------------------
  // Blocked for ever
  // ---------------------------------------------------------------------------

  lemma ClusterKeepsBlocked(s: Server)
    requires Blocked(s)
    ensures Blocked(ReconcileCluster(s))
  {
    if s.cluster.Some? {
      if !s.cluster.value.deleting {
        NormalClusterReconcile(s);
      } else if s.cluster.value.finalizer {
        DeletingClusterReconcile(s);
      } else {
        UnfinalizedClusterReconcile(s);
      }
    }
  }

  lemma ControlPlaneKeepsBlocked(s: Server, who: Which, f: Findings)
    requires Blocked(s)
    ensures Blocked(ReconcileControlPlane(s, who, f))
  {
    if s.gscp.Some? {
      BlockedReconcile(s, who, f);
    }
  }

  lemma {:induction false} BlockedForever(s: Server, turns: seq<Turn>)
    requires Blocked(s)
    ensures Blocked(TakeAll(s, turns)) && !Gone(TakeAll(s, turns))
    decreases |turns|
  {
    if turns != [] {
      match turns[0].actor {
        case ClusterActor => ClusterKeepsBlocked(s);
        case ControlPlaneActor => ControlPlaneKeepsBlocked(s, turns[0].who, turns[0].findings);
        case InfraActor => InfraReconcile(s);
        case GardenerActor =>
      }
      BlockedForever(Take(s, turns[0]), turns[1..]);
    }
  }

  // ---------------------------------------------------------------------------
  // Draining ends
  // ---------------------------------------------------------------------------

  function Flag(b: bool): nat {
    if b then 1 else 0
  }

  function Rank(s: Server): nat {
    Flag(s.cluster.Some?) + Flag(s.gscp.Some?) + Flag(s.gsc.Some?) + Flag(s.secret)
    + if s.shoot.None? then 0 else 1 + s.shoot.value.teardown + Flag(!s.shoot.value.confirmed) + Flag(!s.shoot.value.deleting)
  }

  /** While draining, every turn changes nothing or makes something go away. */
  lemma {:induction false} DrainingShrinks(s: Server, t: Turn)
    requires Draining(s)
    ensures Draining(Take(s, t))
    ensures Take(s, t) == s || Rank(Take(s, t)) < Rank(s)
  {
    match t.actor
    case ClusterActor => if s.cluster.Some? { DeletingClusterReconcile(s); }
    case ControlPlaneActor => if s.gscp.Some? { DeletionReconcile(s, t.who, t.findings); }
    case InfraActor => InfraReconcile(s);
    case GardenerActor =>
  }

  /** Unless all is gone there is an actor whose turn does something. */
  lemma SomeoneCanMove(s: Server) returns (actor: Actor)
    requires Draining(s) && !Gone(s)
    ensures forall t: Turn :: t.actor == actor ==> Take(s, t) != s
  {
    actor :=
      if s.gsc.Some? then InfraActor
      else if s.gscp.None? && s.cluster.Some? then ClusterActor
      else if s.shoot.Some? && s.shoot.value.deleting then GardenerActor
      else ControlPlaneActor;
    forall t: Turn | t.actor == actor ensures Take(s, t) != s {
      if actor == ClusterActor {
        DeletingClusterReconcile(s);
      } else if actor == ControlPlaneActor {
        DeletionReconcile(s, t.who, t.findings);
      } else if actor == InfraActor {
        InfraReconcile(s);
      }
    }
  }

  /** Everyone gets at least one turn, in any order. */
  ghost predicate FairRound(turns: seq<Turn>) {
    forall actor: Actor :: HasTurn(turns, actor)
  }

  ghost predicate HasTurn(turns: seq<Turn>, actor: Actor) {
    exists t :: t in turns && t.actor == actor
  }

  lemma {:induction false} DrainingOn(s: Server, turns: seq<Turn>)
    requires Draining(s)
    ensures Draining(TakeAll(s, turns)) && Rank(TakeAll(s, turns)) <= Rank(s)
    decreases |turns|
  {
    if turns != [] {
      DrainingShrinks(s, turns[0]);
      DrainingOn(Take(s, turns[0]), turns[1..]);
    }
  }

  lemma {:induction false} MoverMoves(s: Server, turns: seq<Turn>, t: Turn)
    requires Draining(s) && t in turns && Take(s, t) != s
    ensures Draining(TakeAll(s, turns)) && Rank(TakeAll(s, turns)) < Rank(s)
    decreases |turns|
  {
    DrainingShrinks(s, turns[0]);
    var next := Take(s, turns[0]);
    if next == s {
      assert t in turns[1..];
      MoverMoves(s, turns[1..], t);
    } else {
      DrainingOn(next, turns[1..]);
    }
  }

  lemma RoundShrinks(s: Server, turns: seq<Turn>)
    requires Draining(s) && FairRound(turns)
    ensures Draining(TakeAll(s, turns))
    ensures Rank(TakeAll(s, turns)) <= if Gone(s) then 0 else Rank(s) - 1
  {
    DrainingOn(s, turns);
    if !Gone(s) {
      var actor := SomeoneCanMove(s);
      assert HasTurn(turns, actor);
      var t :| t in turns && t.actor == actor;
      MoverMoves(s, turns, t);
    }
  }

  function Rounds(s: Server, rounds: seq<seq<Turn>>): Server
    decreases |rounds|
  {
    if rounds == [] then s else Rounds(TakeAll(s, rounds[0]), rounds[1..])
  }

  lemma {:induction false} RoundsDrain(s: Server, rounds: seq<seq<Turn>>)
    requires Draining(s) && forall i :: 0 <= i < |rounds| ==> FairRound(rounds[i])
    requires |rounds| >= Rank(s)
    ensures Gone(Rounds(s, rounds))
    decreases |rounds|
  {
    if rounds != [] {
      assert FairRound(rounds[0]);
      RoundShrinks(s, rounds[0]);
      RoundsDrain(TakeAll(s, rounds[0]), rounds[1..]);
    }
  }

  lemma {:induction false} RoundsStayBlocked(s: Server, rounds: seq<seq<Turn>>)
    requires Blocked(s)
    ensures !Gone(Rounds(s, rounds))
    decreases |rounds|
  {
    if rounds != [] {
      BlockedForever(s, rounds[0]);
      RoundsStayBlocked(TakeAll(s, rounds[0]), rounds[1..]);
    }
  }

  /** A turn of the Cluster controller and then fair rounds, enough of them: Gardener's remaining
      teardown steps plus seven. */
  ghost predicate LongEnough(s: Server, first: Turn, rounds: seq<seq<Turn>>) {
    && first.actor == ClusterActor
    && (forall i :: 0 <= i < |rounds| ==> FairRound(rounds[i]))
    && |rounds| >= 7 + if s.shoot.None? then 0 else s.shoot.value.teardown
  }

  /** Main result: once a Cluster is deleted, fair rounds remove Shoot, Secret, GSCP, GSC and Cluster
      exactly if the server is in order when the Cluster controller first turns to it. Otherwise no
      number of turns does. */
  lemma {:induction false} DeletionCompletes(s: Server, first: Turn, rounds: seq<seq<Turn>>)
    requires HeldInDeletion(s.cluster) && LongEnough(s, first, rounds)
    ensures Gone(Rounds(Take(s, first), rounds)) <==> Completes(s)
  {
    FirstClusterTurn(s, first);
    if Completes(s) {
      RoundsDrain(Take(s, first), rounds);
    } else {
      RoundsStayBlocked(Take(s, first), rounds);
    }
  }

  // ---------------------------------------------------------------------------
  // From the beginning to the end
  // ---------------------------------------------------------------------------

  /** What uninterrupted reconciles never break: a finalized GSC is owned, and what the controllers
      made is guarded. An empty server is sound. */
  ghost predicate Sound(s: Server) {
    && ShootIsGuarded(s)
    && (Held(s.gsc) ==> s.gsc.value.owned)
  }

  /** A reconcile or a Gardener step, or anything users do. */
  datatype Move = Reconciles(turn: Turn) | Users(event: Event)

  function Apply(s: Server, m: Move): Server {
    match m
    case Reconciles(turn) => Take(s, turn)
    case Users(event) => Outside(s, event)
  }

  function ApplyAll(s: Server, moves: seq<Move>): Server
    decreases |moves|
  {
    if moves == [] then s else ApplyAll(Apply(s, moves[0]), moves[1..])
  }

  lemma {:induction false} MovesAreMadeInOrder(s: Server, moves: seq<Move>, last: Move)
    ensures ApplyAll(s, []) == s
    ensures ApplyAll(s, moves + [last]) == Apply(ApplyAll(s, moves), last)
    decreases |moves|
  {
    if moves == [] {
      assert ApplyAll(s, [last]) == ApplyAll(Apply(s, last), []);
    } else {
      assert (moves + [last])[1..] == moves[1..] + [last];
      MovesAreMadeInOrder(Apply(s, moves[0]), moves[1..], last);
    }
  }

  lemma SoundClusterTurn(s: Server)
    requires Sound(s)
    ensures Sound(ReconcileCluster(s))
  {
    if s.cluster.Some? {
      if !s.cluster.value.deleting {
        NormalClusterReconcile(s);
      } else if s.cluster.value.finalizer {
        DeletingClusterReconcile(s);
      } else {
        UnfinalizedClusterReconcile(s);
      }
    }
  }

  lemma SoundControlPlaneTurn(s: Server, who: Which, f: Findings)
    requires Sound(s)
    ensures Sound(ReconcileControlPlane(s, who, f))
  {
    if s.gscp.Some? {
      if !s.gscp.value.owned || s.cluster.None? || s.paused {
        BlockedReconcile(s, who, f);
      } else if s.gscp.value.deleting {
        DeletionReconcile(s, who, f);
      } else {
        NormalReconcile(s, who, f);
        FinishFromGetShoot(s.(gscp := WithFinalizer(s.gscp)), who, f);
      }
    }
  }

  lemma {:induction false} SoundKept(s: Server, m: Move)
    requires Sound(s)
    ensures Sound(Apply(s, m))
  {
    match m
    case Users(e) =>
    case Reconciles(t) =>
      match t.actor
      case ClusterActor => SoundClusterTurn(s);
      case ControlPlaneActor => SoundControlPlaneTurn(s, t.who, t.findings);
      case InfraActor => InfraReconcile(s);
      case GardenerActor =>
  }

  lemma {:induction false} SoundAlong(s: Server, moves: seq<Move>)
    requires Sound(s)
    ensures Sound(ApplyAll(s, moves))
    decreases |moves|
  {
    if moves != [] {
      SoundKept(s, moves[0]);
      SoundAlong(Apply(s, moves[0]), moves[1..]);
    }
  }

  /** Main result: from a sound server through any mix of reconciles and user actions to a Cluster
      in deletion; from there fair rounds remove everything, exactly if the pause flag holds up no
      finalizer and nobody put up a Shoot of their own in the place of the one a held GSCP would
      delete. */
  lemma {:induction false} FromSoundToGone(start: Server, moves: seq<Move>, first: Turn, rounds: seq<seq<Turn>>)
    requires Sound(start)
    requires HeldInDeletion(ApplyAll(start, moves).cluster) && LongEnough(ApplyAll(start, moves), first, rounds)
    ensures var s := ApplyAll(start, moves);
      Gone(Rounds(Take(s, first), rounds)) <==>
        && (s.paused ==> !Held(s.gscp) && !Held(s.gsc))
        && (s.shoot.Some? && !s.shoot.value.byController && !s.shoot.value.deleting ==> Held(s.gscp))
  {
    SoundAlong(start, moves);
    DeletionCompletes(ApplyAll(start, moves), first, rounds);
  }

  // ---------------------------------------------------------------------------
  // An interrupted reconcile can leave a server on which deletion never completes
  // ---------------------------------------------------------------------------

  lemma InfraReachesPatch(c: Config)
    requires c == Quiet(PROVISIONING)
    ensures Step(Step(c, InfraCall(Forward)), InfraCall(Forward)) == c.(infraForward := InfraAddFinalizer(PROVISIONING.gsc.value))
  {
    assert Step(c, InfraCall(Forward)) == c.(infraForward := InfraFindOwner(PROVISIONING.gsc.value));
  }

  const UNOWNED_INFRA := PROVISIONING.(gsc := Some(Object(true, false, false)))

  lemma StaleFinalizer(c: Config, d: Config)
    requires c == Quiet(PROVISIONING).(infraForward := InfraAddFinalizer(PROVISIONING.gsc.value))
    requires Reaches(Quiet(UNOWNED_INFRA), d)
    ensures Reaches(c, d)
  {
    var c1 := Step(c, UserDeletesGsc);
    var c2 := Step(c1, UserCreatesGsc);
    assert Step(c2, InfraCall(Forward)) == Quiet(UNOWNED_INFRA);
    ReachesBy(c2, InfraCall(Forward), d);
    ReachesBy(c1, UserCreatesGsc, d);
    ReachesBy(c, UserDeletesGsc, d);
  }

  const STUCK := UNOWNED_INFRA.(cluster := Some(Object(true, true, false)), gscp := None)

  lemma DeletionLeavesItStuck()
    ensures Reaches(Quiet(UNOWNED_INFRA), Quiet(STUCK))
  {
    var c := Quiet(UNOWNED_INFRA);
    var c1 := Step(c, UserDeletesGscp);
    assert Step(c1, UserDeletesCluster) == Quiet(STUCK);
    ReachesItself(Quiet(STUCK));
    ReachesBy(c1, UserDeletesCluster, Quiet(STUCK));
    ReachesBy(c, UserDeletesGscp, Quiet(STUCK));
  }

  /** A GSC is replaced between the read of its reconcile and the finalizer patch: the patch finalizes
      the unowned newcomer. If the GSCP is gone when the Cluster is deleted, the newcomer's controller
      waits for an owner and the Cluster controller returns before it sets one, whatever the turns. */
  lemma {:induction false} UnownedInfraIsStuck()
    ensures exists c, d :: Start(c) && Reaches(c, d) && d == Quiet(d.server) && HeldInDeletion(d.server.cluster)
              && forall turns :: !Gone(TakeAll(d.server, turns))
  {
    var c := Quiet(PROVISIONING);
    var c1 := Step(c, InfraCall(Forward));
    InfraReachesPatch(c);
    var d := Quiet(STUCK);
    DeletionLeavesItStuck();
    StaleFinalizer(Step(c1, InfraCall(Forward)), d);
    ReachesBy(c1, InfraCall(Forward), d);
    ReachesBy(c, InfraCall(Forward), d);
    assert Start(c);
    forall turns ensures !Gone(TakeAll(d.server, turns)) {
      BlockedForever(d.server, turns);
    }
  }
}
