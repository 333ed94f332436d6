/** The `Initialized` status flag of a GardenerShootControlPlane and the control plane endpoint,
    under reconciles that work on copies of any age.

    Status updates carry the resource version they were computed from and fail on a newer object;
    patches carry none. */
module Initialized {
  import opened Wrappers

  datatype Condition = Condition(conditionType: string, status: string)

  const CONTROL_PLANE_HEALTHY := "ControlPlaneHealthy"

  ghost predicate Healthy(conditions: seq<Condition>) {
    exists i :: 0 <= i < |conditions| && conditions[i] == Condition(CONTROL_PLANE_HEALTHY, "True")
  }

  method ControlPlaneReady(conditions: seq<Condition>) returns (ready: bool)
    ensures ready <==> Healthy(conditions)
  {
    for i := 0 to |conditions|
      invariant forall j :: 0 <= j < i ==> conditions[j] != Condition(CONTROL_PLANE_HEALTHY, "True")
    {
      if conditions[i].conditionType != CONTROL_PLANE_HEALTHY {
        continue;
      }
      if conditions[i].status == "True" {
        return true;
      }
    }
    return false;
  }

  /** The flag as updateStatus computes it: once set it is kept without a look at the conditions. */
  method ComputeInitialized(initialized: bool, conditions: seq<Condition>) returns (result: bool)
    ensures result <==> initialized || Healthy(conditions)
  {
    result := initialized;
    if !result {
      result := ControlPlaneReady(conditions);
    }
  }

  /** `endpoint` is the host of the control plane endpoint. */
  datatype Object = Object(version: nat, initialized: bool, endpoint: Option<string>)

  /** How far a reconcile has come: status written (or not its job), then initialization checked. */
  datatype Stage = Loaded | StatusDone | KnownInitialized

  /** A forward sync writes no status, a prioritized one does; a deletion writes it and sets no endpoint. */
  datatype Kind = Forward | Prioritized | Deletion

  /** `address` is the one read from the Shoot, once it has been read. */
  datatype Flight = Flight(kind: Kind, local: Object, address: Option<string>, stage: Stage)

  /** `possible`: the addresses the Shoot may advertise in the course of the run, now `advertised`. */
  datatype Config = Config(stored: Object, flights: map<nat, Flight>, advertised: string, possible: set<string>)

  datatype Event =
    | Read(id: nat, kind: Kind)
    | ReadShoot(id: nat)
    | UpdateStatus(id: nat, conditions: seq<Condition>)
    | SkipStatus(id: nat)
    | PatchFinalizerOrSpec(id: nat)
    | CheckInitialized(id: nat)
    | PatchEndpoint(id: nat)
    | Stop(id: nat)
    | ExternalEdit
    | Recreate
    | Advertise(address: string)

  ghost function Step(c: Config, e: Event): Config {
    match e
    case ExternalEdit => c.(stored := c.stored.(version := c.stored.version + 1))
    case Recreate => c.(stored := Object(c.stored.version + 1, false, None))
    case Advertise(address) => if address in c.possible then c.(advertised := address) else c
    case Read(id, kind) => c.(flights := c.flights[id := Flight(kind, c.stored, None, Loaded)])
    case _ => if e.id in c.flights then FlightStep(c, e, c.flights[e.id]) else c
  }

  /** A successful write refreshes the sender's copy from the response. The endpoint patch is the
      difference to the copy: nothing, if the copy already carries the address. */
  ghost function FlightStep(c: Config, e: Event, f: Flight): Config
    requires !e.ExternalEdit? && !e.Recreate? && !e.Advertise?
  {
    var next := c.stored.(version := c.stored.version + 1);
    var landed := c.flights - {e.id};
    match e
    case ReadShoot(id) =>
      if f.stage == Loaded && f.address.None? then c.(flights := c.flights[id := f.(address := Some(c.advertised))]) else c
    case UpdateStatus(id, conditions) =>
      if f.stage != Loaded || f.kind == Forward || (f.kind == Prioritized && f.address.None?) then c
      else if f.local.version != c.stored.version then c.(flights := landed)
      else
        var written := next.(initialized := f.local.initialized || Healthy(conditions));
        c.(stored := written,
           flights := if f.kind == Deletion then landed else c.flights[id := f.(local := written, stage := StatusDone)])
    case SkipStatus(id) =>
      if f.stage == Loaded && f.kind == Forward && f.address.Some? then c.(flights := c.flights[id := f.(stage := StatusDone)])
      else c
    case PatchFinalizerOrSpec(id) =>
      if f.stage == KnownInitialized then c else c.(stored := next, flights := c.flights[id := f.(local := next)])
    case CheckInitialized(id) =>
      if f.stage != StatusDone then c
      else if f.local.initialized then c.(flights := c.flights[id := f.(stage := KnownInitialized)])
      else c.(flights := landed)
    case PatchEndpoint(id) =>
      if f.stage != KnownInitialized then c
      else c.(stored := if f.local.endpoint == f.address then c.stored else next.(endpoint := f.address), flights := landed)
    case _ => c.(flights := landed)
  }

  ghost function Run(c: Config, events: seq<Event>): Config
    decreases |events|
  {
    if events == [] then c else Run(Step(c, events[0]), events[1..])
  }

  /** The copy does not carry the address the reconcile has read or may yet read. */
  ghost predicate MaySend(f: Flight, possible: set<string>) {
    if f.address.Some? then f.local.endpoint != f.address else exists a :: a in possible && f.local.endpoint != Some(a)
  }

  /** The reconcile may still set the endpoint on the strength of its copy: no version-checked status
      update stands between, and there is an endpoint to set. */
  ghost predicate Trusting(f: Flight, possible: set<string>) {
    f.local.initialized && (f.kind == Forward || (f.kind == Prioritized && f.stage != Loaded)) && MaySend(f, possible)
  }

  ghost predicate CopyOk(c: Config, f: Flight) {
    && f.local.version <= c.stored.version
    && (f.local.version == c.stored.version ==> f.local.initialized == c.stored.initialized)
    && (Trusting(f, c.possible) ==> c.stored.initialized)
    && (f.kind == Deletion ==> f.stage == Loaded)
    && (f.stage != Loaded ==> f.address.Some?)
    && (f.stage == KnownInitialized ==> f.local.initialized)
  }

  /** An endpoint is only there on an initialized control plane, and no copy that matters says more. */
  ghost predicate Valid(c: Config) {
    && (c.stored.endpoint.Some? ==> c.stored.initialized)
    && c.advertised in c.possible
    && forall id :: id in c.flights ==> CopyOk(c, c.flights[id])
  }

  ghost predicate SomeoneTrusts(c: Config) {
    exists id :: id in c.flights && Trusting(c.flights[id], c.possible)
  }

  /** The object is replaced only while nobody can set an endpoint on the strength of the old one. */
  ghost predicate QuietRun(c: Config, events: seq<Event>)
    decreases |events|
  {
    events == [] || ((events[0] == Recreate ==> !SomeoneTrusts(c)) && QuietRun(Step(c, events[0]), events[1..]))
  }

  lemma StepKeepsValid(c: Config, e: Event)
    requires Valid(c) && (e == Recreate ==> !SomeoneTrusts(c))
    ensures Valid(Step(c, e))
    ensures e != Recreate && c.stored.initialized ==> Step(c, e).stored.initialized
  {}

  /** Main result: whatever the ages of the copies, and however often the object is replaced while no
      endpoint is about to be set on the strength of the old one, an endpoint implies an initialized
      control plane. */
  lemma {:induction false} EndpointImpliesInitialized(c: Config, events: seq<Event>)
    requires Valid(c) && QuietRun(c, events)
    ensures Valid(Run(c, events))
    ensures Run(c, events).stored.endpoint.Some? ==> Run(c, events).stored.initialized
    decreases |events|
  {
    if events != [] {
      StepKeepsValid(c, events[0]);
      EndpointImpliesInitialized(Step(c, events[0]), events[1..]);
    }
  }

  /** Over the life of one object the flag never goes back. */
  lemma {:induction false} InitializedIsForever(c: Config, events: seq<Event>)
    requires Valid(c) && Recreate !in events && c.stored.initialized
    ensures Run(c, events).stored.initialized
    decreases |events|
  {
    if events != [] {
      StepKeepsValid(c, events[0]);
      InitializedIsForever(Step(c, events[0]), events[1..]);
    }
  }

  /** From here an uninitialized object can get an endpoint without any further such replacement. */
  ghost predicate Breaks(c: Config) {
    exists events :: QuietRun(c, events) && Run(c, events).stored.endpoint.Some? && !Run(c, events).stored.initialized
  }

  lemma BreaksNow(c: Config)
    requires c.stored.endpoint.Some? && !c.stored.initialized
    ensures Breaks(c)
  {
    assert QuietRun(c, []) && Run(c, []) == c;
  }

  lemma BreaksAfter(c: Config, e: Event)
    requires e != Recreate && Breaks(Step(c, e))
    ensures Breaks(c)
  {
    var next := Step(c, e);
    var events :| QuietRun(next, events) && Run(next, events).stored.endpoint.Some? && !Run(next, events).stored.initialized;
    assert ([e] + events)[1..] == events;
    assert QuietRun(c, [e] + events) && Run(c, [e] + events) == Run(next, events);
  }

  lemma {:induction false} TrustBreaks(c: Config, id: nat)
    requires id in c.flights && Trusting(c.flights[id], c.possible) && !c.stored.initialized
    requires c.flights[id].stage != Loaded ==> c.flights[id].address.Some?
    ensures Breaks(c)
    decreases c.flights[id].address.None?, match c.flights[id].stage case Loaded => 2 case StatusDone => 1 case KnownInitialized => 0
  {
    var f := c.flights[id];
    if f.address.None? {
      var a :| a in c.possible && f.local.endpoint != Some(a);
      var next := Step(c, Advertise(a));
      TrustBreaks(Step(next, ReadShoot(id)), id);
      BreaksAfter(next, ReadShoot(id));
      BreaksAfter(c, Advertise(a));
    } else {
      var e := match f.stage case Loaded => SkipStatus(id) case StatusDone => CheckInitialized(id) case KnownInitialized => PatchEndpoint(id);
      if e.PatchEndpoint? {
        BreaksNow(Step(c, e));
      } else {
        TrustBreaks(Step(c, e), id);
      }
      BreaksAfter(c, e);
    }
  }

  /** Patches do not notice that the object was replaced. A replacement lets an uninitialized object
      get an endpoint exactly if it comes while a reconcile may set one on the strength of the old. */
  lemma {:induction false} RecreationIsExact(c: Config)
    requires Valid(c)
    ensures SomeoneTrusts(c) <==> Breaks(Step(c, Recreate))
  {
    var next := Step(c, Recreate);
    if SomeoneTrusts(c) {
      var id :| id in c.flights && Trusting(c.flights[id], c.possible);
      TrustBreaks(next, id);
    } else {
      StepKeepsValid(c, Recreate);
      forall events | QuietRun(next, events) ensures Valid(Run(next, events)) {
        EndpointImpliesInitialized(next, events);
      }
    }
  }

  /** For a forward sync that has just read an initialized control plane: replacing the object is
      harmless exactly if the object carries the one address that the Shoot will advertise. */
  lemma {:induction false} ReplacementDuringForwardSync(stored: Object, advertised: string, possible: set<string>)
    requires stored.initialized && advertised in possible
    ensures var c := Step(Config(stored, map[], advertised, possible), Read(0, Forward));
      Breaks(Step(c, Recreate)) <==> !(possible == {advertised} && stored.endpoint == Some(advertised))
  {
    var c := Step(Config(stored, map[], advertised, possible), Read(0, Forward));
    RecreationIsExact(c);
    if MaySend(c.flights[0], possible) {
      assert SomeoneTrusts(c);
    }
    if stored.endpoint == Some(advertised) && possible != {advertised} {
      var a :| a in possible && a != advertised;
      assert stored.endpoint != Some(a);
    }
  }

  // ---------------------------------------------------------------------------
  // When the flag and the endpoint are set
  // ---------------------------------------------------------------------------

  /** The reconcile is about to write the status. */
  ghost predicate WritesStatus(c: Config, id: nat) {
    id in c.flights && c.flights[id].stage == Loaded
    && (c.flights[id].kind == Deletion || (c.flights[id].kind == Prioritized && c.flights[id].address.Some?))
  }

  /** A status update is accepted exactly if the copy is current, and then the flag is set exactly if it
      was set or the conditions report a healthy control plane. */
  lemma {:induction false} StatusUpdateSetsTheFlag(c: Config, id: nat, conditions: seq<Condition>)
    requires Valid(c) && WritesStatus(c, id)
    ensures var next := Step(c, UpdateStatus(id, conditions));
      if c.flights[id].local.version == c.stored.version then
        && (next.stored.initialized <==> c.stored.initialized || Healthy(conditions))
        && next.stored.endpoint == c.stored.endpoint && next.stored.version > c.stored.version
        && (c.flights[id].kind == Prioritized ==> id in next.flights && next.flights[id].local == next.stored)
      else next.stored == c.stored && id !in next.flights
  {
    assert CopyOk(c, c.flights[id]);
  }

  ghost predicate SetsTheFlag(c: Config, e: Event) {
    && e.UpdateStatus? && WritesStatus(c, e.id) && c.flights[e.id].local.version == c.stored.version
    && Healthy(e.conditions)
  }

  lemma OnlyUpdatesSetTheFlag(c: Config, e: Event)
    requires Valid(c) && !c.stored.initialized
    ensures Step(c, e).stored.initialized <==> SetsTheFlag(c, e)
  {
    if e.UpdateStatus? && WritesStatus(c, e.id) {
      StatusUpdateSetsTheFlag(c, e.id, e.conditions);
    }
  }

  /** Main result: in the life of one object the flag is set exactly by the first accepted status update
      that reports a healthy control plane, and stays. */
  lemma {:induction false} FlagIsSetByAHealthyUpdate(c: Config, events: seq<Event>)
    requires Valid(c) && Recreate !in events && !c.stored.initialized
    ensures Run(c, events).stored.initialized <==> SomeUpdateSetsIt(c, events)
    decreases |events|
  {
    if events != [] {
      var next := Step(c, events[0]);
      OnlyUpdatesSetTheFlag(c, events[0]);
      StepKeepsValid(c, events[0]);
      if next.stored.initialized {
        InitializedIsForever(next, events[1..]);
      } else {
        FlagIsSetByAHealthyUpdate(next, events[1..]);
      }
    }
  }

  ghost predicate SomeUpdateSetsIt(c: Config, events: seq<Event>)
    decreases |events|
  {
    events != [] && (SetsTheFlag(c, events[0]) || SomeUpdateSetsIt(Step(c, events[0]), events[1..]))
  }

  /** The endpoint patch leaves the address that was read, unless the copy already had it, and changes
      nothing else. */
  lemma EndpointPatchSetsTheAddress(c: Config, id: nat)
    requires Valid(c) && id in c.flights && c.flights[id].stage == KnownInitialized
    ensures var f, next := c.flights[id], Step(c, PatchEndpoint(id));
      && f.address.Some? && id !in next.flights
      && next.stored.initialized == c.stored.initialized
      && (f.local.endpoint != f.address ==> next.stored.endpoint == f.address && next.stored.version > c.stored.version)
      && (f.local.endpoint == f.address ==> next.stored == c.stored)
  {
    assert CopyOk(c, c.flights[id]);
  }

  ghost predicate AddressesArePossible(c: Config) {
    && c.advertised in c.possible
    && (c.stored.endpoint.Some? ==> c.stored.endpoint.value in c.possible)
    && forall id :: id in c.flights && c.flights[id].address.Some? ==> c.flights[id].address.value in c.possible
  }

  /** The endpoint is always an address that the Shoot has advertised. */
  lemma {:induction false} EndpointWasAdvertised(c: Config, events: seq<Event>)
    requires AddressesArePossible(c)
    ensures AddressesArePossible(Run(c, events))
    decreases |events|
  {
    if events != [] {
      assert AddressesArePossible(Step(c, events[0]));
      EndpointWasAdvertised(Step(c, events[0]), events[1..]);
    }
  }

  /** The calls of one prioritized reconcile up to the check of the flag. */
  ghost function AfterStatus(c: Config, id: nat, conditions: seq<Condition>): Config {
    var c1 := Step(Step(Step(c, Read(id, Prioritized)), PatchFinalizerOrSpec(id)), ReadShoot(id));
    Step(Step(c1, UpdateStatus(id, conditions)), PatchFinalizerOrSpec(id))
  }

  /** Main result: an undisturbed prioritized reconcile that finds a healthy Shoot takes any GSCP to the
      initialized state and to the endpoint that the Shoot advertises; one that does not leaves both as
      they were. */
  lemma {:induction false} HealthyShootGetsItsEndpoint(c: Config, id: nat, conditions: seq<Condition>)
    ensures var c1 := AfterStatus(c, id, conditions);
      var after := Step(Step(c1, CheckInitialized(id)), PatchEndpoint(id)).stored;
      && (after.initialized <==> c.stored.initialized || Healthy(conditions))
      && after.endpoint == if after.initialized then Some(c.advertised) else c.stored.endpoint
  {
    var c1 := Step(Step(Step(c, Read(id, Prioritized)), PatchFinalizerOrSpec(id)), ReadShoot(id));
    assert c1.flights[id] == Flight(Prioritized, c1.stored, Some(c.advertised), Loaded);
    var c2 := AfterStatus(c, id, conditions);
    assert c2.flights[id] == Flight(Prioritized, c2.stored, Some(c.advertised), StatusDone);
  }

  /** So does a forward reconcile of a control plane that is initialized; of another it changes nothing. */
  lemma {:induction false} ForwardReconcileSetsTheEndpoint(c: Config, id: nat)
    ensures var c1 := Step(Step(Step(c, Read(id, Forward)), PatchFinalizerOrSpec(id)), ReadShoot(id));
      var after := Step(Step(Step(c1, SkipStatus(id)), CheckInitialized(id)), PatchEndpoint(id)).stored;
      && after.initialized == c.stored.initialized
      && after.endpoint == if c.stored.initialized then Some(c.advertised) else c.stored.endpoint
  {
    var c1 := Step(Step(Step(c, Read(id, Forward)), PatchFinalizerOrSpec(id)), ReadShoot(id));
    assert c1.flights[id] == Flight(Forward, c1.stored, Some(c.advertised), Loaded);
  }

  /** The event writes the object. */
  ghost predicate Writes(c: Config, e: Event) {
    || e.ExternalEdit? || e.Recreate?
    || (e.PatchFinalizerOrSpec? && e.id in c.flights && c.flights[e.id].stage != KnownInitialized)
    || (e.PatchEndpoint? && e.id in c.flights && c.flights[e.id].stage == KnownInitialized
        && c.flights[e.id].local.endpoint != c.flights[e.id].address)
    || (e.UpdateStatus? && WritesStatus(c, e.id) && c.flights[e.id].local.version == c.stored.version)
  }

  /** Exactly the writes raise the version, so they put every other copy out of date; the writer's own
      copy is the new object, if its reconcile goes on. */
  lemma {:induction false} WritesPutCopiesOutOfDate(c: Config, e: Event, id: nat)
    requires Valid(c) && id in Step(c, e).flights && !e.Read?
    ensures var next := Step(c, e);
      if Writes(c, e) then
        && next.stored.version > c.stored.version
        && (if (e.PatchFinalizerOrSpec? || e.UpdateStatus?) && e.id == id then next.flights[id].local == next.stored
            else next.flights[id].local.version < next.stored.version)
      else next.stored == c.stored && id in c.flights && next.flights[id].local == c.flights[id].local
  {
    assert id in c.flights ==> CopyOk(c, c.flights[id]);
  }

  /** A reconcile is over when it finds the control plane uninitialized, has set the endpoint, has
      written the status of a deleted object, or stops. */
  lemma ReconcilesEnd(c: Config, id: nat, conditions: seq<Condition>)
    requires id in c.flights
    ensures var f := c.flights[id];
      && id !in Step(c, Stop(id)).flights
      && (f.stage == StatusDone && !f.local.initialized ==> Step(c, CheckInitialized(id)) == c.(flights := c.flights - {id}))
      && (f.stage == KnownInitialized ==> id !in Step(c, PatchEndpoint(id)).flights)
      && (f.stage == Loaded && f.kind == Deletion ==> id !in Step(c, UpdateStatus(id, conditions)).flights)
  {}
}
