/** Finalizers and deletion, one API call at a time.

    Two controllers reconcile the GardenerShootControlPlane (GSCP), two the GardenerShootCluster
    (GSC), one the Cluster. Between any two of their calls users, Gardener and the other
    controllers may act, and a controller may stop (a failed call, a version conflict or a
    restart). Users create, delete and pause; they do not edit finalizers or owner references. */
module Deletion {
  import opened Wrappers

  // ---------------------------------------------------------------------------
  // Stored objects and the API server's rules
  // ---------------------------------------------------------------------------

  /** `finalizer` is cluster.cluster.x-k8s.io, `owned` an owner reference to the Cluster. */
  datatype Object = Object(finalizer: bool, deleting: bool, owned: bool)

  /** `teardown` counts the steps Gardener still needs once the Shoot is deleted. */
  datatype ShootState = ShootState(byController: bool, confirmed: bool, deleting: bool, teardown: nat)

  datatype Server = Server(
    cluster: Option<Object>,
    gscp: Option<Object>,
    gsc: Option<Object>,
    shoot: Option<ShootState>,
    secret: bool,
    paused: bool)

  const NEW_OBJECT := Object(false, false, false)

  /** DELETE: an object with a finalizer only gets a deletion timestamp. */
  function Deleted(o: Option<Object>): Option<Object> {
    if o.Some? && o.value.finalizer then Some(o.value.(deleting := true)) else None
  }

  /** The last finalizer of a deleted object takes the object with it. */
  function WithoutFinalizer(o: Option<Object>): Option<Object> {
    if o.Some? && !o.value.deleting then Some(o.value.(finalizer := false)) else None
  }

  /** A missing object cannot be patched, and a deleted one gets no new finalizer. */
  predicate CanCarryFinalizer(o: Option<Object>) {
    o.Some? && (o.value.finalizer || !o.value.deleting)
  }

  function WithFinalizer(o: Option<Object>): Option<Object>
    requires CanCarryFinalizer(o)
  {
    Some(o.value.(finalizer := true))
  }

  function Owned(o: Option<Object>): Option<Object>
    requires o.Some?
  {
    Some(o.value.(owned := true))
  }

  predicate Held(o: Option<Object>) {
    o.Some? && o.value.finalizer
  }

  predicate HeldInDeletion(o: Option<Object>) {
    Held(o) && o.value.deleting
  }

  // ---------------------------------------------------------------------------
  // The GSCP controllers
  // ---------------------------------------------------------------------------

  /** The next API call of a reconcile, with the copy of the GSCP it works on. */
  datatype ControlPlanePc =
    | Idle
    | FindOwner(local: Object)
    | AddFinalizer(local: Object)
    | GetShoot(local: Object)
    | GetInfra
    | ReadPools
    | CreateShoot
    | WriteStatus(local: Object)
    | SyncSpecs
    | GetSecret
    | CreateSecret
    | RequestKubeconfig
    | UpdateSecret
    | PatchEndpoint
    | DeleteSecret(local: Object)
    | GetShootForDelete(local: Object)
    | UpdateStatus(local: Object, found: bool)
    | ConfirmDeletion
    | DeleteShoot
    | RemoveFinalizer(local: Object)

  /** What a call finds in parts of the world that are not modelled: worker pools (or none needed),
      an initialized and a ready control plane, a kubeconfig to keep; and the teardown a new Shoot will
      need. */
  datatype Findings = Findings(poolsFound: bool, initialized: bool, ready: bool, kubeconfigValid: bool, teardown: nat)

  /** The two controllers: from the GSCP to the Shoot, and the other way round. */
  datatype Which = Forward | Prioritized

  /** One call. Status and spec writes change nothing that is modelled here, but a status update is
      version-checked: outside deletion only the prioritized controller makes one, and it goes on only
      if the GSCP is still as it has it. */
  function ControlPlaneCall(s: Server, who: Which, pc: ControlPlanePc, f: Findings): (Server, ControlPlanePc) {
    match pc
    case Idle => (s, if s.gscp.None? then Idle else FindOwner(s.gscp.value))
    case FindOwner(local) =>
      (s, if !local.owned || s.cluster.None? || s.paused then Idle
          else if local.deleting then DeleteSecret(local)
          else AddFinalizer(local))
    case AddFinalizer(local) =>
      if local.finalizer then (s, GetShoot(local))
      else if CanCarryFinalizer(s.gscp) then (s.(gscp := WithFinalizer(s.gscp)), GetShoot(WithFinalizer(s.gscp).value))
      else (s, Idle)
    case GetShoot(local) => (s, if s.shoot.None? then GetInfra else if who == Prioritized then WriteStatus(local) else SyncSpecs)
    case GetInfra => (s, if s.gsc.None? then Idle else ReadPools)
    case ReadPools => (s, if f.poolsFound then CreateShoot else Idle)
    case CreateShoot =>
      (if s.shoot.None? then s.(shoot := Some(ShootState(true, false, false, f.teardown))) else s, Idle)
    case WriteStatus(local) => (s, if s.gscp == Some(local) then SyncSpecs else Idle)
    case SyncSpecs => (s, if f.initialized then GetSecret else Idle)
    case GetSecret => (s, if !s.secret then CreateSecret else if f.kubeconfigValid then PatchEndpoint else RequestKubeconfig)
    case CreateSecret => if s.secret then (s, Idle) else (s.(secret := true), RequestKubeconfig)
    case RequestKubeconfig => (s, if s.shoot.None? then Idle else UpdateSecret)
    case UpdateSecret => (s, if s.secret then PatchEndpoint else Idle)
    case PatchEndpoint => (s, Idle)
    case DeleteSecret(local) => (s.(secret := false), GetShootForDelete(local))
    case GetShootForDelete(local) => (s, UpdateStatus(local, s.shoot.Some?))
    case UpdateStatus(local, found) =>
      (s, if s.gscp.Some? && s.gscp.value != local then Idle
          else if found then ConfirmDeletion
          else RemoveFinalizer(local))
    case ConfirmDeletion =>
      (if s.shoot.Some? then s.(shoot := Some(s.shoot.value.(confirmed := true))) else s, DeleteShoot)
    case DeleteShoot =>
      (if s.shoot.Some? && s.shoot.value.confirmed then s.(shoot := Some(s.shoot.value.(deleting := true))) else s, Idle)
    case RemoveFinalizer(local) =>
      (if local.finalizer && s.gscp.Some? then s.(gscp := WithoutFinalizer(s.gscp)) else s, Idle)
  }

  // ---------------------------------------------------------------------------
  // The GSC controllers
  // ---------------------------------------------------------------------------

  datatype InfraPc =
    | InfraIdle
    | InfraFindOwner(local: Object)
    | InfraAddFinalizer(local: Object)
    | InfraRemoveFinalizer(local: Object)

  /** One call; the spec sync and the status patch that follow the finalizer change nothing here. */
  function InfraCallOf(s: Server, pc: InfraPc): (Server, InfraPc) {
    match pc
    case InfraIdle => (s, if s.gsc.None? then InfraIdle else InfraFindOwner(s.gsc.value))
    case InfraFindOwner(local) =>
      (s, if !local.owned || s.cluster.None? || s.paused then InfraIdle
          else if local.deleting then InfraRemoveFinalizer(local)
          else InfraAddFinalizer(local))
    case InfraAddFinalizer(local) =>
      (if !local.finalizer && CanCarryFinalizer(s.gsc) then s.(gsc := WithFinalizer(s.gsc)) else s, InfraIdle)
    case InfraRemoveFinalizer(local) =>
      (if local.finalizer && s.gsc.Some? then s.(gsc := WithoutFinalizer(s.gsc)) else s, InfraIdle)
  }

  // ---------------------------------------------------------------------------
  // The Cluster controller (KCP mode)
  // ---------------------------------------------------------------------------

  /** `OwnGscp` and `OwnGsc` are a read and a version-checked update that fails if anything came between. */
  datatype ClusterPc =
    | Resting
    | AddClusterFinalizer(local: Object)
    | GetGscp
    | DeleteGscp
    | GetGsc(gscpGone: bool)
    | DeleteGsc
    | RemoveClusterFinalizer
    | OwnGscp
    | OwnGsc

  function ClusterCall(s: Server, pc: ClusterPc): (Server, ClusterPc) {
    match pc
    case Resting => (s, if s.cluster.None? then Resting else AddClusterFinalizer(s.cluster.value))
    case AddClusterFinalizer(local) =>
      if local.finalizer then (s, if local.deleting then GetGscp else OwnGscp)
      else if CanCarryFinalizer(s.cluster) then
        (s.(cluster := WithFinalizer(s.cluster)), if s.cluster.value.deleting then GetGscp else OwnGscp)
      else (s, Resting)
    case GetGscp => (s, if s.gscp.Some? then DeleteGscp else GetGsc(true))
    case DeleteGscp => if s.gscp.None? then (s, Resting) else (s.(gscp := Deleted(s.gscp)), GetGsc(false))
    case GetGsc(gscpGone) => (s, if s.gsc.Some? then DeleteGsc else if gscpGone then RemoveClusterFinalizer else OwnGscp)
    case DeleteGsc => if s.gsc.None? then (s, Resting) else (s.(gsc := Deleted(s.gsc)), OwnGscp)
    case RemoveClusterFinalizer =>
      if s.cluster.None? then (s, Resting) else (s.(cluster := WithoutFinalizer(s.cluster)), OwnGscp)
    case OwnGscp => if s.gscp.None? then (s, Resting) else (s.(gscp := Owned(s.gscp)), OwnGsc)
    case OwnGsc => (if s.gsc.None? then s else s.(gsc := Owned(s.gsc)), Resting)
  }

  /** A deleted Cluster's reconcile goes on when it cannot read the GSCP or the GSC. */
  function ClusterReadFailed(pc: ClusterPc): ClusterPc {
    match pc
    case GetGscp => GetGsc(false)
    case GetGsc(_) => OwnGscp
    case _ => Resting
  }

  /** Gardener works on a deleted Shoot until it is gone. */
  function GardenerStep(s: Server): Server {
    if s.shoot.None? || !s.shoot.value.deleting then s
    else if s.shoot.value.teardown == 0 then s.(shoot := None)
    else s.(shoot := Some(s.shoot.value.(teardown := s.shoot.value.teardown - 1)))
  }

  // ---------------------------------------------------------------------------
  // Runs
  // ---------------------------------------------------------------------------

  datatype Config = Config(
    server: Server,
    forward: ControlPlanePc,
    prioritized: ControlPlanePc,
    infraForward: InfraPc,
    infraPrioritized: InfraPc,
    cluster: ClusterPc)

  datatype Event =
    | Call(who: Which, findings: Findings)
    | Crash(who: Which)
    | InfraCall(who: Which)
    | InfraCrash(who: Which)
    | CallOfCluster
    | ClusterReadFails
    | CrashOfCluster
    | GardenerWorks
    | UserCreatesCluster | UserDeletesCluster
    | UserCreatesGscp | UserDeletesGscp
    | UserCreatesGsc | UserDeletesGsc
    | UserCreatesShoot(teardown: nat) | UserDeletesShoot
    | UserPauses(pause: bool)

  function PcOf(c: Config, who: Which): ControlPlanePc {
    if who == Forward then c.forward else c.prioritized
  }

  function WithPc(c: Config, who: Which, pc: ControlPlanePc): Config {
    if who == Forward then c.(forward := pc) else c.(prioritized := pc)
  }

  function InfraPcOf(c: Config, who: Which): InfraPc {
    if who == Forward then c.infraForward else c.infraPrioritized
  }

  function WithInfraPc(c: Config, who: Which, pc: InfraPc): Config {
    if who == Forward then c.(infraForward := pc) else c.(infraPrioritized := pc)
  }

  function Other(who: Which): Which {
    if who == Forward then Prioritized else Forward
  }

  /** What users and Gardener do to the server. */
  function Outside(s: Server, e: Event): Server {
    match e
    case GardenerWorks => GardenerStep(s)
    case UserCreatesCluster => if s.cluster.None? then s.(cluster := Some(NEW_OBJECT)) else s
    case UserDeletesCluster => s.(cluster := Deleted(s.cluster))
    case UserCreatesGscp => if s.gscp.None? then s.(gscp := Some(NEW_OBJECT)) else s
    case UserDeletesGscp => s.(gscp := Deleted(s.gscp))
    case UserCreatesGsc => if s.gsc.None? then s.(gsc := Some(NEW_OBJECT)) else s
    case UserDeletesGsc => s.(gsc := Deleted(s.gsc))
    case UserCreatesShoot(teardown) =>
      if s.shoot.None? then s.(shoot := Some(ShootState(false, false, false, teardown))) else s
    case UserDeletesShoot =>
      if s.shoot.None? then s else s.(shoot := Some(s.shoot.value.(confirmed := true, deleting := true)))
    case UserPauses(pause) => s.(paused := pause)
    case _ => s
  }

  function Step(c: Config, e: Event): Config {
    match e
    case Call(who, findings) =>
      var (next, pc) := ControlPlaneCall(c.server, who, PcOf(c, who), findings);
      WithPc(c.(server := next), who, pc)
    case Crash(who) => WithPc(c, who, Idle)
    case InfraCall(who) =>
      var (next, pc) := InfraCallOf(c.server, InfraPcOf(c, who));
      WithInfraPc(c.(server := next), who, pc)
    case InfraCrash(who) => WithInfraPc(c, who, InfraIdle)
    case CallOfCluster => var (next, pc) := ClusterCall(c.server, c.cluster); c.(server := next, cluster := pc)
    case ClusterReadFails => c.(cluster := ClusterReadFailed(c.cluster))
    case CrashOfCluster => c.(cluster := Resting)
    case _ => c.(server := Outside(c.server, e))
  }

  function Run(c: Config, events: seq<Event>): Config
    decreases |events|
  {
    if events == [] then c else Run(Step(c, events[0]), events[1..])
  }

  // ---------------------------------------------------------------------------
  // What the servers grant and refuse
  // ---------------------------------------------------------------------------

  /** Deleting, finalizing and owning an object, and dropping its finalizer. */
  lemma ApiServerRules(finalizer: bool, deleting: bool, owned: bool)
    ensures var o := Some(Object(finalizer, deleting, owned));
      && Deleted(o) == (if finalizer then Some(Object(true, true, owned)) else None)
      && WithoutFinalizer(o) == (if deleting then None else Some(Object(false, false, owned)))
      && (CanCarryFinalizer(o) <==> finalizer || !deleting)
      && (CanCarryFinalizer(o) ==> WithFinalizer(o) == Some(Object(true, deleting, owned)))
      && Owned(o) == Some(Object(finalizer, deleting, true))
    ensures Deleted(None) == None && WithoutFinalizer(None) == None && !CanCarryFinalizer(None)
  {}

  ghost predicate Unfinalizable(o: Option<Object>) {
    o == None || (o.value.deleting && !o.value.finalizer)
  }

  /** The server answers that the object is missing, is there already, is going, or has changed. */
  ghost predicate Refused(s: Server, pc: ControlPlanePc) {
    match pc
    case AddFinalizer(local) => !local.finalizer && Unfinalizable(s.gscp)
    case GetInfra => s.gsc == None
    case CreateShoot => s.shoot != None
    case WriteStatus(local) => s.gscp != Some(local)
    case CreateSecret => s.secret
    case RequestKubeconfig => s.shoot == None
    case UpdateSecret => !s.secret
    case UpdateStatus(local, _) => s.gscp != None && s.gscp != Some(local)
    case RemoveFinalizer(_) => s.gscp == None
    case _ => false
  }

  /** A refused call changes nothing and ends its reconcile. */
  lemma {:induction false} RefusedCallsEndTheReconcile(s: Server, who: Which, pc: ControlPlanePc, f: Findings)
    requires Refused(s, pc)
    ensures ControlPlaneCall(s, who, pc, f) == (s, Idle)
  {}

  lemma RefusedInfraCalls(s: Server, local: Object)
    ensures !local.finalizer && Unfinalizable(s.gsc) ==> InfraCallOf(s, InfraAddFinalizer(local)) == (s, InfraIdle)
    ensures local.finalizer || s.gsc == None ==> InfraCallOf(s, InfraAddFinalizer(local)).0 == s
    ensures !local.finalizer || s.gsc == None ==> InfraCallOf(s, InfraRemoveFinalizer(local)) == (s, InfraIdle)
  {}

  ghost predicate RefusedToCluster(s: Server, pc: ClusterPc) {
    match pc
    case AddClusterFinalizer(local) => !local.finalizer && Unfinalizable(s.cluster)
    case DeleteGscp => s.gscp == None
    case DeleteGsc => s.gsc == None
    case RemoveClusterFinalizer => s.cluster == None
    case OwnGscp => s.gscp == None
    case OwnGsc => s.gsc == None
    case _ => false
  }

  lemma {:induction false} RefusedClusterCallsEndTheReconcile(s: Server, pc: ClusterPc)
    requires RefusedToCluster(s, pc)
    ensures ClusterCall(s, pc) == (s, Resting)
  {}

  /** Whether a Cluster is going is known from the copy that carries the finalizer: the one read, or the
      answer to the patch. */
  lemma ClusterReconcileStarts(s: Server, local: Object)
    requires local.finalizer || !Unfinalizable(s.cluster)
    ensures var (next, pc) := ClusterCall(s, AddClusterFinalizer(local));
      && next == (if local.finalizer then s
                  else s.(cluster := Some(Object(true, s.cluster.value.deleting, s.cluster.value.owned))))
      && pc == if (if local.finalizer then local.deleting else s.cluster.value.deleting) then GetGscp else OwnGscp
  {}

  /** A stopped reconcile leaves the servers and everybody else as they are; a Cluster reconcile that
      cannot read goes on as if the object were there, but deletes nothing. */
  lemma StopsAndFailedReads(c: Config, who: Which)
    ensures var d := Step(c, Crash(who));
      PcOf(d, who) == Idle && d == WithPc(c, who, PcOf(d, who)) && PcOf(d, Other(who)) == PcOf(c, Other(who)) && d.server == c.server
    ensures var d := Step(c, InfraCrash(who));
      InfraPcOf(d, who) == InfraIdle && d == WithInfraPc(c, who, InfraPcOf(d, who)) && InfraPcOf(d, Other(who)) == InfraPcOf(c, Other(who))
    ensures Step(c, CrashOfCluster) == Config(c.server, c.forward, c.prioritized, c.infraForward, c.infraPrioritized, Resting)
    ensures var d := Step(c, ClusterReadFails);
      && d == Config(c.server, c.forward, c.prioritized, c.infraForward, c.infraPrioritized, d.cluster)
      && d.cluster == if c.cluster == GetGscp then GetGsc(false) else if c.cluster.GetGsc? then OwnGscp else Resting
  {}

  /** What users can do to the Shoot. */
  lemma UsersAndTheShoot(s: Server, teardown: nat)
    ensures Outside(s, UserCreatesShoot(teardown)) ==
      if s.shoot == None then s.(shoot := Some(ShootState(false, false, false, teardown))) else s
    ensures Outside(s, UserDeletesShoot) ==
      if s.shoot == None then s
      else s.(shoot := Some(ShootState(s.shoot.value.byController, true, true, s.shoot.value.teardown)))
    ensures Outside(s, CrashOfCluster) == s
  {}

  function GardenerSteps(s: Server, n: nat): Server
    decreases n
  {
    if n == 0 then s else GardenerSteps(GardenerStep(s), n - 1)
  }

  /** Gardener removes a deleted Shoot in exactly its remaining teardown steps and one more, and leaves
      any other alone. */
  lemma {:induction false} TeardownTakesItsSteps(s: Server, n: nat)
    requires s.shoot.Some?
    ensures GardenerSteps(s, n) ==
      if !s.shoot.value.deleting then s
      else if n <= s.shoot.value.teardown then s.(shoot := Some(s.shoot.value.(teardown := s.shoot.value.teardown - n)))
      else s.(shoot := None)
    decreases n
  {
    if n > 0 && s.shoot.value.deleting && s.shoot.value.teardown > 0 {
      TeardownTakesItsSteps(GardenerStep(s), n - 1);
    } else if n > 0 && s.shoot.value.deleting {
      NothingToTearDown(GardenerStep(s), n - 1);
    } else if n > 0 {
      TeardownTakesItsSteps(s, n - 1);
    }
  }

  lemma {:induction false} NothingToTearDown(s: Server, n: nat)
    requires s.shoot.None?
    ensures GardenerSteps(s, n) == s
  {
    if n > 0 {
      NothingToTearDown(s, n - 1);
    }
  }

  // ---------------------------------------------------------------------------
  // Reachable configurations
  // ---------------------------------------------------------------------------

  ghost predicate Reaches(c: Config, d: Config) {
    exists events :: Run(c, events) == d
  }

  lemma ReachesItself(c: Config)
    ensures Reaches(c, c)
  {
    assert Run(c, []) == c;
  }

  lemma ReachesBy(c: Config, e: Event, d: Config)
    requires Reaches(Step(c, e), d)
    ensures Reaches(c, d)
  {
    var events :| Run(Step(c, e), events) == d;
    assert ([e] + events)[1..] == events;
    assert Run(c, [e] + events) == d;
  }

  /** Every controller is between reconciles, and the server is in order. */
  ghost predicate Start(c: Config) {
    && c == Quiet(c.server)
    && ShootIsGuarded(c.server)
    && OwnedImpliesCluster(c.server)
    && (c.server.cluster.Some? && c.server.cluster.value.deleting ==> c.server.cluster.value.finalizer)
  }

  function Quiet(s: Server): Config {
    Config(s, Idle, Idle, InfraIdle, InfraIdle, Resting)
  }

  // ---------------------------------------------------------------------------
  // A Shoot made by the controller has a GSCP that holds on to it
  // ---------------------------------------------------------------------------

  predicate ControllerShoot(s: Server) {
    s.shoot.Some? && s.shoot.value.byController
  }

  /** What the controllers made, Shoot and access Secret, is guarded by the GSCP's finalizer. */
  predicate ShootIsGuarded(s: Server) {
    ControllerShoot(s) || s.secret ==> Held(s.gscp)
  }

  /** The reconcile is past asking for the finalizer, or needs not ask, and may still create. */
  predicate Committed(pc: ControlPlanePc) {
    match pc
    case FindOwner(local) => local == Object(true, false, true)
    case AddFinalizer(local) => local.finalizer
    case GetShoot(_) => true
    case GetInfra => true
    case ReadPools => true
    case CreateShoot => true
    case SyncSpecs => true
    case GetSecret => true
    case CreateSecret => true
    case _ => false
  }

  /** The call takes the finalizer off a GSCP while a Shoot or Secret is there or the other
      controller is committed to creating one. */
  predicate Hazard(c: Config, e: Event) {
    && e.Call?
    && PcOf(c, e.who).RemoveFinalizer?
    && PcOf(c, e.who).local.finalizer
    && Held(c.server.gscp)
    && (ControllerShoot(c.server) || c.server.secret || Committed(PcOf(c, Other(e.who))))
  }

  predicate CarefulRun(c: Config, events: seq<Event>)
    decreases |events|
  {
    events == [] || (!Hazard(c, events[0]) && CarefulRun(Step(c, events[0]), events[1..]))
  }

  /** A committed reconcile has a finalized GSCP, and so has one that a status update lets go on. */
  ghost predicate CarefulPc(s: Server, pc: ControlPlanePc) {
    && (Committed(pc) ==> Held(s.gscp))
    && (pc.GetShoot? || pc.WriteStatus? ==> pc.local.finalizer)
  }

  ghost predicate CarefulInvariant(c: Config) {
    ShootIsGuarded(c.server) && CarefulPc(c.server, c.forward) && CarefulPc(c.server, c.prioritized)
  }

  lemma CallKeepsGuard(s: Server, who: Which, pc: ControlPlanePc, f: Findings)
    requires ShootIsGuarded(s) && CarefulPc(s, pc)
    ensures var (next, pc') := ControlPlaneCall(s, who, pc, f);
      || (pc.RemoveFinalizer? && pc.local.finalizer && Held(s.gscp))
      || (ShootIsGuarded(next) && CarefulPc(next, pc') && (Held(s.gscp) ==> Held(next.gscp)))
  {}

  /** Nobody else takes a finalizer from a GSCP, makes Secrets or makes Shoots in the controllers' name. */
  lemma OthersKeepHold(s: Server, e: Event)
    ensures Held(s.gscp) ==> Held(Outside(s, e).gscp)
    ensures Outside(s, e).secret == s.secret
    ensures ControllerShoot(Outside(s, e)) ==> ControllerShoot(s)
  {}

  lemma ClusterKeepsHold(s: Server, pc: ClusterPc)
    ensures var next := ClusterCall(s, pc).0;
      next.shoot == s.shoot && next.secret == s.secret && (Held(s.gscp) ==> Held(next.gscp))
  {}

  lemma CarefulCallKept(c: Config, who: Which, f: Findings)
    requires CarefulInvariant(c) && !Hazard(c, Call(who, f))
    ensures CarefulInvariant(Step(c, Call(who, f)))
  {
    CallKeepsGuard(c.server, who, PcOf(c, who), f);
  }

  lemma {:induction false} CarefulKept(c: Config, e: Event)
    requires CarefulInvariant(c) && !Hazard(c, e)
    ensures CarefulInvariant(Step(c, e))
  {
    match e
    case Call(who, findings) => CarefulCallKept(c, who, findings);
    case CallOfCluster => ClusterKeepsHold(c.server, c.cluster);
    case Crash(_) =>
    case InfraCall(_) =>
    case InfraCrash(_) =>
    case ClusterReadFails =>
    case CrashOfCluster =>
    case _ => OthersKeepHold(c.server, e);
  }

  lemma {:induction false} CarefulHolds(c: Config, events: seq<Event>)
    requires CarefulInvariant(c) && CarefulRun(c, events)
    ensures CarefulInvariant(Run(c, events))
    decreases |events|
  {
    if events != [] {
      CarefulKept(c, events[0]);
      CarefulHolds(Step(c, events[0]), events[1..]);
    }
  }

  /** Main result: whatever users, Gardener, the other controllers and crashes do, a Shoot or Secret
      made by a controller never outlives its finalized GSCP, as long as no finalizer is dropped
      while one is there or the other GSCP controller is committed to creating one. */
  lemma {:induction false} ShootSafety(c: Config, events: seq<Event>)
    requires Start(c) && CarefulRun(c, events)
    ensures ShootIsGuarded(Run(c, events).server)
  {
    CarefulHolds(c, events);
  }

  /** From here a Shoot or Secret can be orphaned without any further hazard. */
  ghost predicate Orphans(c: Config) {
    exists events :: CarefulRun(c, events) && !ShootIsGuarded(Run(c, events).server)
  }

  lemma OrphansNow(c: Config)
    requires !ShootIsGuarded(c.server)
    ensures Orphans(c)
  {
    assert CarefulRun(c, []) && Run(c, []) == c;
  }

  lemma OrphansAfter(c: Config, e: Event)
    requires !Hazard(c, e) && Orphans(Step(c, e))
    ensures Orphans(c)
  {
    var events :| CarefulRun(Step(c, e), events) && !ShootIsGuarded(Run(Step(c, e), events).server);
    assert ([e] + events)[1..] == events;
    assert CarefulRun(c, [e] + events) && Run(c, [e] + events) == Run(Step(c, e), events);
  }

  const ALL_FOUND := Findings(true, true, true, true, 0)

  /** How far a committed reconcile is from creating something, if it finds no Shoot on the way. */
  function Distance(pc: ControlPlanePc): nat {
    match pc
    case FindOwner(_) => 6
    case AddFinalizer(_) => 5
    case GetShoot(_) => 4
    case GetInfra => 3
    case ReadPools => 2
    case SyncSpecs => 3
    case GetSecret => 2
    case _ => 1
  }

  /** Nothing keeps a committed reconcile from its next call. */
  ghost predicate Unhindered(s: Server) {
    s.cluster.Some? && s.gsc.Some? && !s.paused && s.shoot.None?
  }

  lemma {:induction false} CommittedOrphans(c: Config, who: Which)
    requires Committed(PcOf(c, who)) && !Held(c.server.gscp) && Unhindered(c.server)
    ensures Orphans(c)
    decreases Distance(PcOf(c, who))
  {
    var call, pc := Call(who, ALL_FOUND), PcOf(c, who);
    if !ShootIsGuarded(c.server) {
      OrphansNow(c);
    } else {
      if pc == CreateShoot || pc == CreateSecret {
        OrphansNow(Step(c, call));
      } else {
        assert Committed(ControlPlaneCall(c.server, who, pc, ALL_FOUND).1);
        CommittedOrphans(Step(c, call), who);
      }
      OrphansAfter(c, call);
    }
  }

  /** A Shoot that is not the controllers' own can be gone before the next call. */
  lemma {:induction false} ForeignShootGoes(c: Config, who: Which)
    requires Committed(PcOf(c, who)) && !Held(c.server.gscp)
    requires c.server.cluster.Some? && c.server.gsc.Some? && !c.server.paused
    requires c.server.shoot.Some? ==> c.server.shoot.value.deleting
    ensures Orphans(c)
    decreases if c.server.shoot.Some? then 1 + c.server.shoot.value.teardown else 0
  {
    if c.server.shoot.None? {
      CommittedOrphans(c, who);
    } else if ControllerShoot(c.server) {
      OrphansNow(c);
    } else {
      ForeignShootGoes(Step(c, GardenerWorks), who);
      OrphansAfter(c, GardenerWorks);
    }
  }

  /** Users can clear the way for any reconcile. */
  lemma UsersClearTheWay(c: Config, who: Which)
    requires Committed(PcOf(c, who)) && !Held(c.server.gscp)
    ensures Orphans(c)
  {
    var c1 := Step(c, UserCreatesCluster);
    var c2 := Step(c1, UserCreatesGsc);
    var c3 := Step(c2, UserPauses(false));
    ForeignShootGoes(Step(c3, UserDeletesShoot), who);
    OrphansAfter(c3, UserDeletesShoot);
    OrphansAfter(c2, UserPauses(false));
    OrphansAfter(c1, UserCreatesGsc);
    OrphansAfter(c, UserCreatesCluster);
  }

  /** The condition is exact, step by step: a careful run can be continued carefully into an orphan
      after a hazardous call, and after no other event. */
  lemma {:induction false} HazardIsExact(c: Config, e: Event)
    requires CarefulInvariant(c)
    ensures Hazard(c, e) <==> Orphans(Step(c, e))
  {
    if Hazard(c, e) {
      var next := Step(c, e);
      assert !Held(next.server.gscp);
      if ShootIsGuarded(next.server) {
        UsersClearTheWay(next, Other(e.who));
      } else {
        OrphansNow(next);
      }
    } else {
      CarefulKept(c, e);
      forall events | CarefulRun(Step(c, e), events) ensures ShootIsGuarded(Run(Step(c, e), events).server) {
        CarefulHolds(Step(c, e), events);
      }
    }
  }

  // ---------------------------------------------------------------------------
  // Reconciles of one kind may overlap
  // ---------------------------------------------------------------------------

  /** The reconcile read the GSCP before its deletion ... */
  predicate Live(pc: ControlPlanePc) {
    match pc
    case Idle => false
    case FindOwner(local) => !local.deleting
    case _ => !Going(pc)
  }

  /** ... or after it. */
  predicate Going(pc: ControlPlanePc) {
    match pc
    case FindOwner(local) => local.deleting
    case DeleteSecret(_) => true
    case GetShootForDelete(_) => true
    case UpdateStatus(_, _) => true
    case ConfirmDeletion => true
    case DeleteShoot => true
    case RemoveFinalizer(_) => true
    case _ => false
  }

  predicate Apart(c: Config) {
    !(Live(c.forward) && Going(c.prioritized)) && !(Going(c.forward) && Live(c.prioritized))
  }

  /** Which calls belong to which kind, and what it takes to keep them apart. */
  lemma KindsOfReconcile(c: Config, pc: ControlPlanePc)
    ensures Going(pc) <==>
      || (pc.FindOwner? && pc.local.deleting) || pc.DeleteSecret? || pc.GetShootForDelete? || pc.UpdateStatus?
      || pc.ConfirmDeletion? || pc.DeleteShoot? || pc.RemoveFinalizer?
    ensures Live(pc) <==> pc != Idle && !Going(pc)
    ensures Apart(c) <==> (!Going(c.forward) && !Going(c.prioritized)) || (!Live(c.forward) && !Live(c.prioritized))
                          || c.forward == Idle || c.prioritized == Idle
  {}

  predicate ApartRun(c: Config, events: seq<Event>)
    decreases |events|
  {
    events == [] || (Apart(Step(c, events[0])) && ApartRun(Step(c, events[0]), events[1..]))
  }

  ghost predicate GoingFacts(s: Server, pc: ControlPlanePc) {
    match pc
    case GetShootForDelete(_) => !s.secret
    case UpdateStatus(_, found) => !s.secret && (ControllerShoot(s) ==> found)
    case RemoveFinalizer(_) => !s.secret && !ControllerShoot(s)
    case _ => true
  }

  ghost predicate ApartInvariant(c: Config) {
    CarefulInvariant(c) && Apart(c) && GoingFacts(c.server, c.forward) && GoingFacts(c.server, c.prioritized)
  }

  lemma ApartCallKept(c: Config, who: Which, f: Findings)
    requires ApartInvariant(c) && Apart(Step(c, Call(who, f)))
    ensures GoingFacts(Step(c, Call(who, f)).server, PcOf(Step(c, Call(who, f)), who))
    ensures GoingFacts(Step(c, Call(who, f)).server, PcOf(c, Other(who)))
  {}

  lemma ApartWithoutCall(c: Config, e: Event)
    requires ApartInvariant(c) && !e.Call?
    ensures GoingFacts(Step(c, e).server, Step(c, e).forward) && GoingFacts(Step(c, e).server, Step(c, e).prioritized)
  {
    ClusterKeepsHold(c.server, c.cluster);
    OthersKeepHold(c.server, e);
  }

  lemma {:induction false} ApartKept(c: Config, e: Event)
    requires ApartInvariant(c) && Apart(Step(c, e))
    ensures !Hazard(c, e) && ApartInvariant(Step(c, e))
  {
    assert !Hazard(c, e);
    CarefulKept(c, e);
    if e.Call? {
      ApartCallKept(c, e.who, e.findings);
    } else {
      ApartWithoutCall(c, e);
    }
  }

  lemma {:induction false} ApartIsCareful(c: Config, events: seq<Event>)
    requires ApartInvariant(c) && ApartRun(c, events)
    ensures CarefulRun(c, events)
    decreases |events|
  {
    if events != [] {
      ApartKept(c, events[0]);
      ApartIsCareful(Step(c, events[0]), events[1..]);
    }
  }

  /** Main result: two syncs may overlap, and so may two deletions. Only a reconcile that read the
      GSCP before its deletion must be over before one that read it afterwards starts. */
  lemma {:induction false} OverlappingSyncsAreSafe(c: Config, events: seq<Event>)
    requires Start(c) && ApartRun(c, events)
    ensures ShootIsGuarded(Run(c, events).server)
  {
    ApartIsCareful(c, events);
    ShootSafety(c, events);
  }

  // ---------------------------------------------------------------------------
  // An owned GSCP has a Cluster that holds on to it
  // ---------------------------------------------------------------------------

  predicate OwnedImpliesCluster(s: Server) {
    s.gscp.Some? && s.gscp.value.owned ==> Held(s.cluster)
  }

  /** A GSC controller still holds a copy that lets it take the finalizer away. */
  predicate MayRelease(pc: InfraPc) {
    match pc
    case InfraFindOwner(local) => local == Object(true, true, true)
    case InfraRemoveFinalizer(local) => local.finalizer
    case _ => false
  }

  /** The GSC waits on a finalizer that nobody will take away. */
  predicate StuckGsc(c: Config) {
    Held(c.server.gsc) && !c.server.gsc.value.owned && !MayRelease(c.infraForward) && !MayRelease(c.infraPrioritized)
  }

  /** The Cluster controller has seen that there is no GSCP, and will let the Cluster go or has done so. */
  predicate Window(c: Config) {
    match c.cluster
    case GetGsc(gscpGone) => gscpGone && !StuckGsc(c)
    case RemoveClusterFinalizer => true
    case OwnGscp => !Held(c.server.cluster)
    case _ => false
  }

  /** Users add no GSCP while the Cluster controller would not look for it any more. */
  predicate Orderly(c: Config, e: Event) {
    e == UserCreatesGscp && c.server.gscp.None? ==> !Window(c)
  }

  predicate OrderlyRun(c: Config, events: seq<Event>)
    decreases |events|
  {
    events == [] || (Orderly(c, events[0]) && OrderlyRun(Step(c, events[0]), events[1..]))
  }

  ghost predicate ClusterPcOk(c: Config) {
    var s := c.server;
    match c.cluster
    case Resting => true
    case AddClusterFinalizer(local) => (local.finalizer ==> Held(s.cluster)) && (local.deleting ==> HeldInDeletion(s.cluster))
    case GetGscp => HeldInDeletion(s.cluster)
    case DeleteGscp => HeldInDeletion(s.cluster)
    case GetGsc(gscpGone) => HeldInDeletion(s.cluster) && (gscpGone ==> s.gscp.None? || StuckGsc(c))
    case DeleteGsc => HeldInDeletion(s.cluster)
    case RemoveClusterFinalizer => HeldInDeletion(s.cluster) && s.gscp.None?
    case OwnGscp => Held(s.cluster) || s.gscp.None?
    case OwnGsc => Held(s.cluster)
  }

  ghost predicate ClusterInvariant(c: Config) {
    && OwnedImpliesCluster(c.server)
    && (c.server.cluster.Some? && c.server.cluster.value.deleting ==> c.server.cluster.value.finalizer)
    && ClusterPcOk(c)
  }

  lemma ControlPlaneCallKeepsOwner(s: Server, who: Which, pc: ControlPlanePc, f: Findings)
    ensures var next := ControlPlaneCall(s, who, pc, f).0;
      && next.cluster == s.cluster && next.gsc == s.gsc
      && (next.gscp.Some? ==> s.gscp.Some? && next.gscp.value.owned == s.gscp.value.owned)
  {}

  lemma InfraCallKeepsStuck(c: Config, who: Which)
    requires StuckGsc(c)
    ensures StuckGsc(Step(c, InfraCall(who)))
  {}

  lemma {:induction false} ClusterCallKept(c: Config)
    requires ClusterInvariant(c)
    ensures ClusterInvariant(Step(c, CallOfCluster))
  {}

  lemma InfraCallKeepsCluster(c: Config, who: Which)
    requires ClusterInvariant(c)
    ensures ClusterInvariant(Step(c, InfraCall(who)))
  {
    if StuckGsc(c) {
      InfraCallKeepsStuck(c, who);
    }
  }

  lemma OutsideKeepsCluster(c: Config, e: Event)
    requires ClusterInvariant(c) && Orderly(c, e)
    ensures ClusterInvariant(c.(server := Outside(c.server, e)))
  {}

  lemma ControlPlaneKeepsCluster(c: Config, who: Which, f: Findings)
    requires ClusterInvariant(c)
    ensures ClusterInvariant(Step(c, Call(who, f)))
  {
    ControlPlaneCallKeepsOwner(c.server, who, PcOf(c, who), f);
  }

  lemma {:induction false} ClusterInvariantKept(c: Config, e: Event)
    requires ClusterInvariant(c) && Orderly(c, e)
    ensures ClusterInvariant(Step(c, e))
  {
    match e
    case Call(who, findings) => ControlPlaneKeepsCluster(c, who, findings);
    case Crash(_) =>
    case InfraCall(who) => InfraCallKeepsCluster(c, who);
    case InfraCrash(_) =>
    case CallOfCluster => ClusterCallKept(c);
    case ClusterReadFails =>
    case CrashOfCluster =>
    case _ => OutsideKeepsCluster(c, e);
  }

  lemma {:induction false} ClusterInvariantHolds(c: Config, events: seq<Event>)
    requires ClusterInvariant(c) && OrderlyRun(c, events)
    ensures ClusterInvariant(Run(c, events))
    decreases |events|
  {
    if events != [] {
      ClusterInvariantKept(c, events[0]);
      ClusterInvariantHolds(Step(c, events[0]), events[1..]);
    }
  }

  /** Main result: while an owned GSCP exists, so does its Cluster, finalizer and all. GSCPs may be
      created before their Cluster and while it is going, only not in the window; the GSCP
      controllers may overlap as they like. */
  lemma {:induction false} ClusterSafety(c: Config, events: seq<Event>)
    requires Start(c) && OrderlyRun(c, events)
    ensures OwnedImpliesCluster(Run(c, events).server)
  {
    ClusterInvariantHolds(c, events);
  }

  /** From here an owned GSCP can lose its Cluster without any further GSCP created in the window. */
  ghost predicate LosesCluster(c: Config) {
    exists events :: OrderlyRun(c, events) && !OwnedImpliesCluster(Run(c, events).server)
  }

  lemma LosesClusterNow(c: Config)
    requires !OwnedImpliesCluster(c.server)
    ensures LosesCluster(c)
  {
    assert OrderlyRun(c, []) && Run(c, []) == c;
  }

  lemma LosesClusterAfter(c: Config, e: Event)
    requires Orderly(c, e) && LosesCluster(Step(c, e))
    ensures LosesCluster(c)
  {
    var events :| OrderlyRun(Step(c, e), events) && !OwnedImpliesCluster(Run(Step(c, e), events).server);
    assert ([e] + events)[1..] == events;
    assert OrderlyRun(c, [e] + events) && Run(c, [e] + events) == Run(Step(c, e), events);
  }

  lemma LostAtOwnGscp(c: Config)
    requires c.cluster == OwnGscp && c.server.gscp.Some? && !Held(c.server.cluster)
    ensures LosesCluster(c)
  {
    LosesClusterNow(Step(c, CallOfCluster));
    LosesClusterAfter(c, CallOfCluster);
  }

  lemma LostAtRemoval(c: Config)
    requires c.cluster == RemoveClusterFinalizer && c.server.gscp.Some? && HeldInDeletion(c.server.cluster)
    ensures LosesCluster(c)
  {
    LostAtOwnGscp(Step(c, CallOfCluster));
    LosesClusterAfter(c, CallOfCluster);
  }

  lemma LostWithoutGsc(c: Config)
    requires c.cluster == GetGsc(true) && c.server.gscp.Some? && HeldInDeletion(c.server.cluster) && c.server.gsc.None?
    ensures LosesCluster(c)
  {
    LostAtRemoval(Step(c, CallOfCluster));
    LosesClusterAfter(c, CallOfCluster);
  }

  /** The Cluster controller saw no GSCP, one is there now, and the GSC is on its way out. */
  ghost predicate AtGetGsc(c: Config) {
    && c.cluster == GetGsc(true) && c.server.gscp.Some? && HeldInDeletion(c.server.cluster)
    && c.server.gsc.Some? && c.server.gsc.value.deleting && !c.server.paused
  }

  lemma LostOnRelease(c: Config, who: Which)
    requires AtGetGsc(c) && MayRelease(InfraPcOf(c, who))
    ensures LosesCluster(c)
    decreases InfraPcOf(c, who).InfraFindOwner?
  {
    var next := Step(c, InfraCall(who));
    if InfraPcOf(c, who).InfraRemoveFinalizer? {
      LostWithoutGsc(next);
    } else {
      LostOnRelease(next, who);
    }
    LosesClusterAfter(c, InfraCall(who));
  }

  lemma LostWhenOwned(c: Config)
    requires AtGetGsc(c) && Held(c.server.gsc) && c.server.gsc.value.owned
    ensures LosesCluster(c)
  {
    var c1 := Step(c, InfraCrash(Forward));
    var c2 := Step(c1, InfraCall(Forward));
    LostOnRelease(c2, Forward);
    LosesClusterAfter(c1, InfraCall(Forward));
    LosesClusterAfter(c, InfraCrash(Forward));
  }

  lemma LostAtGetGsc(c: Config)
    requires c.cluster == GetGsc(true) && c.server.gscp.Some? && HeldInDeletion(c.server.cluster) && !StuckGsc(c)
    ensures LosesCluster(c)
  {
    if c.server.gsc.None? {
      LostWithoutGsc(c);
    } else {
      var c1 := Step(c, UserPauses(false));
      var c2 := Step(c1, UserDeletesGsc);
      if !Held(c.server.gsc) {
        LostWithoutGsc(c2);
      } else if c.server.gsc.value.owned {
        LostWhenOwned(c2);
      } else {
        LostOnRelease(c2, if MayRelease(c.infraForward) then Forward else Prioritized);
      }
      LosesClusterAfter(c1, UserDeletesGsc);
      LosesClusterAfter(c, UserPauses(false));
    }
  }

  /** The window is exact: from any state of an orderly run, a GSCP created in it, and only there,
      can be left with an owner that is gone. */
  lemma {:induction false} WindowIsExact(c: Config)
    requires ClusterInvariant(c) && c.server.gscp.None?
    ensures Window(c) <==> LosesCluster(Step(c, UserCreatesGscp))
  {
    var next := Step(c, UserCreatesGscp);
    if Window(c) {
      match c.cluster
      case OwnGscp => LostAtOwnGscp(next);
      case RemoveClusterFinalizer => LostAtRemoval(next);
      case GetGsc(_) => LostAtGetGsc(next);
    } else {
      ClusterInvariantKept(c, UserCreatesGscp);
      forall events | OrderlyRun(next, events) ensures OwnedImpliesCluster(Run(next, events).server) {
        ClusterInvariantHolds(next, events);
      }
    }
  }

  // ---------------------------------------------------------------------------
  // Runs in which the properties fail
  // ---------------------------------------------------------------------------

  const PROVISIONING := Server(
    cluster := Some(Object(true, false, false)),
    gscp := Some(Object(false, false, true)),
    gsc := Some(Object(false, false, true)),
    shoot := None,
    secret := false,
    paused := false)

  function CallTimes(c: Config, who: Which, n: nat): Config
    decreases n
  {
    if n == 0 then c else CallTimes(Step(c, Call(who, ALL_FOUND)), who, n - 1)
  }

  lemma {:induction false} ReachesByCalls(c: Config, who: Which, n: nat, d: Config)
    requires Reaches(CallTimes(c, who, n), d)
    ensures Reaches(c, d)
    decreases n
  {
    if n > 0 {
      ReachesByCalls(Step(c, Call(who, ALL_FOUND)), who, n - 1, d);
      ReachesBy(c, Call(who, ALL_FOUND), d);
    }
  }

  lemma ForwardReachesCreate(c: Config)
    requires c == Quiet(PROVISIONING)
    ensures CallTimes(c, Forward, 6) == c.(server := PROVISIONING.(gscp := Some(Object(true, false, true))), forward := CreateShoot)
  {
    var held := PROVISIONING.(gscp := Some(Object(true, false, true)));
    var c1 := Step(c, Call(Forward, ALL_FOUND));
    assert c1 == c.(forward := FindOwner(PROVISIONING.gscp.value));
    var c2 := Step(c1, Call(Forward, ALL_FOUND));
    assert c2 == c.(forward := AddFinalizer(PROVISIONING.gscp.value));
    var c3 := Step(c2, Call(Forward, ALL_FOUND));
    assert c3 == c.(server := held, forward := GetShoot(held.gscp.value));
    var c4 := Step(c3, Call(Forward, ALL_FOUND));
    assert c4 == c.(server := held, forward := GetInfra);
  }

  lemma PrioritizedStartsDeleting(c: Config)
    requires c.prioritized == Idle && c.server == PROVISIONING.(gscp := Some(Object(true, true, true)))
    ensures CallTimes(c, Prioritized, 3) == c.(prioritized := GetShootForDelete(Object(true, true, true)))
  {
    var c1 := Step(c, Call(Prioritized, ALL_FOUND));
    assert c1 == c.(prioritized := FindOwner(Object(true, true, true)));
    var c2 := Step(c1, Call(Prioritized, ALL_FOUND));
    assert c2 == c.(prioritized := DeleteSecret(Object(true, true, true)));
  }

  lemma PrioritizedDropsFinalizer(c: Config)
    requires c.server == PROVISIONING.(gscp := Some(Object(true, true, true)))
    requires c.prioritized == GetShootForDelete(Object(true, true, true))
    ensures CallTimes(c, Prioritized, 3) == c.(server := PROVISIONING.(gscp := None), prioritized := Idle)
  {
    var c1 := Step(c, Call(Prioritized, ALL_FOUND));
    assert c1 == c.(prioritized := UpdateStatus(Object(true, true, true), false));
    var c2 := Step(c1, Call(Prioritized, ALL_FOUND));
    assert c2 == c.(prioritized := RemoveFinalizer(Object(true, true, true)));
  }

  lemma PrioritizedServesDeletion(c: Config, d: Config)
    requires c.prioritized == Idle && c.server == PROVISIONING.(gscp := Some(Object(true, true, true)))
    requires Reaches(c.(server := PROVISIONING.(gscp := None)), d)
    ensures Reaches(c, d)
  {
    PrioritizedStartsDeleting(c);
    var c1 := c.(prioritized := GetShootForDelete(Object(true, true, true)));
    PrioritizedDropsFinalizer(c1);
    ReachesByCalls(c1, Prioritized, 3, d);
    ReachesByCalls(c, Prioritized, 3, d);
  }

  /** One controller is about to create the Shoot while the other, serving a delete, finds no Shoot
      and lets the GSCP go. The Shoot is then created for nobody. */
  lemma {:induction false} InterleavedControllersOrphanAShoot()
    ensures exists c, d :: Start(c) && Reaches(c, d) && ControllerShoot(d.server) && d.server.gscp.None?
  {
    var c := Quiet(PROVISIONING);
    var held := PROVISIONING.(gscp := Some(Object(true, false, true)));
    var c1 := c.(server := held, forward := CreateShoot);
    ForwardReachesCreate(c);
    var c2 := Step(c1, UserDeletesGscp);
    var c3 := c2.(server := PROVISIONING.(gscp := None));
    var c4 := Step(c3, Call(Forward, ALL_FOUND));
    ReachesItself(c4);
    ReachesBy(c3, Call(Forward, ALL_FOUND), c4);
    PrioritizedServesDeletion(c2, c4);
    ReachesBy(c1, UserDeletesGscp, c4);
    ReachesByCalls(c, Forward, 6, c4);
    assert Start(c);
  }

  function ClusterCallTimes(c: Config, n: nat): Config
    decreases n
  {
    if n == 0 then c else ClusterCallTimes(Step(c, CallOfCluster), n - 1)
  }

  lemma {:induction false} ReachesByClusterCalls(c: Config, n: nat, d: Config)
    requires Reaches(ClusterCallTimes(c, n), d)
    ensures Reaches(c, d)
    decreases n
  {
    if n > 0 {
      ReachesByClusterCalls(Step(c, CallOfCluster), n - 1, d);
      ReachesBy(c, CallOfCluster, d);
    }
  }

  const EMPTY_AND_GOING := Server(
    cluster := Some(Object(true, true, false)),
    gscp := None,
    gsc := None,
    shoot := None,
    secret := false,
    paused := false)

  lemma ClusterLetsGo(c: Config)
    requires c == Quiet(EMPTY_AND_GOING)
    ensures ClusterCallTimes(c, 5) == c.(server := EMPTY_AND_GOING.(cluster := None), cluster := OwnGscp)
  {
    var c1 := Step(c, CallOfCluster);
    assert c1 == c.(cluster := AddClusterFinalizer(Object(true, true, false)));
    var c2 := Step(c1, CallOfCluster);
    assert c2 == c.(cluster := GetGscp);
    var c3 := Step(c2, CallOfCluster);
    assert c3 == c.(cluster := GetGsc(true));
    var c4 := Step(c3, CallOfCluster);
    assert c4 == c.(cluster := RemoveClusterFinalizer);
  }

  lemma LateOwner(c: Config, clusterIsBack: bool)
    requires c.server == EMPTY_AND_GOING.(cluster := None) && c.cluster == OwnGscp
    ensures exists d :: Reaches(c, d) && d.server.gscp.Some? && d.server.gscp.value.owned
              && d.server.cluster == if clusterIsBack then Some(NEW_OBJECT) else None
  {
    var e := if clusterIsBack then UserCreatesCluster else UserPauses(false);
    var c1 := Step(c, e);
    var c2 := Step(c1, UserCreatesGscp);
    var c3 := Step(c2, CallOfCluster);
    ReachesItself(c3);
    ReachesBy(c2, CallOfCluster, c3);
    ReachesBy(c1, UserCreatesGscp, c3);
    ReachesBy(c, e, c3);
  }

  /** A GSCP created after the Cluster controller saw none is given an owner that is gone, whether or
      not a Cluster of the same name has come back by then. */
  lemma {:induction false} LateGscpIsOwnedByNobody(clusterIsBack: bool)
    ensures exists c, d :: Start(c) && Reaches(c, d) && d.server.gscp.Some? && d.server.gscp.value.owned
              && d.server.cluster == if clusterIsBack then Some(NEW_OBJECT) else None
  {
    var c := Quiet(EMPTY_AND_GOING);
    var c1 := ClusterCallTimes(c, 5);
    ClusterLetsGo(c);
    LateOwner(c1, clusterIsBack);
    var d :| Reaches(c1, d) && d.server.gscp.Some? && d.server.gscp.value.owned
              && d.server.cluster == if clusterIsBack then Some(NEW_OBJECT) else None;
    ReachesByClusterCalls(c, 5, d);
    assert Start(c);
  }
}
