/** The six spec-sync steps together: three pairs of reconcilers copying between one Shoot and the
    CAPI objects in opposite directions, each step an uninterrupted reconcile on fresh reads.

    Whole reconciles do not chase each other: few patches are ever sent, any two rounds settle
    everything, and the first writer of a pair decides what the pair agrees on. `Overlap` says when
    reconciles that overlap between their reads and patches still do the same. */
module Convergence {
  import opened ApiTypes
  import opened Sync

  datatype World = World(shoot: Shoot, cp: ControlPlane, infra: InfraSpec, pools: seq<WorkerPool>)

  datatype Action =
    | ControlPlaneToShoot | ShootToControlPlane
    | InfraToShoot | ShootToInfra
    | PoolToShoot(index: nat) | ShootToPool(index: nat)

  datatype Pair = ControlPlanes | Infras | Pools(index: nat)

  function PairOf(a: Action): Pair {
    match a
    case ControlPlaneToShoot => ControlPlanes
    case ShootToControlPlane => ControlPlanes
    case InfraToShoot => Infras
    case ShootToInfra => Infras
    case PoolToShoot(i) => Pools(i)
    case ShootToPool(i) => Pools(i)
  }

  /** One reconcile. A panic in the annotation sync ends it without a patch. */
  function Step(w: World, a: Action): World {
    match a
    case ControlPlaneToShoot => if ForwardPanics(w.shoot, w.cp) then w else w.(shoot := ShootFromControlPlane(w.shoot, w.cp))
    case ShootToControlPlane => if BackwardPanics(w.shoot, w.cp) then w else w.(cp := ControlPlaneFromShoot(w.shoot, w.cp))
    case InfraToShoot => w.(shoot := ShootFromInfra(w.shoot, w.infra))
    case ShootToInfra => w.(infra := InfraFromShoot(w.shoot, w.infra))
    case PoolToShoot(i) =>
      if i < |w.pools| then w.(shoot := w.shoot.(workers := WorkersFromPool(w.shoot.workers, w.pools[i]))) else w
    case ShootToPool(i) =>
      if i < |w.pools| then w.(pools := w.pools[i := PoolFromWorkers(w.shoot.workers, w.pools[i])]) else w
  }

  function Run(w: World, actions: seq<Action>): World
    decreases |actions|
  {
    if actions == [] then w else Run(Step(w, actions[0]), actions[1..])
  }

  /** A reconcile sends a patch exactly when the sync changes something. */
  function Patches(w: World, actions: seq<Action>): nat
    decreases |actions|
  {
    if actions == [] then 0
    else (if Step(w, actions[0]) != w then 1 else 0) + Patches(Step(w, actions[0]), actions[1..])
  }

  function PatchesOf(w: World, actions: seq<Action>, pair: Pair): nat
    decreases |actions|
  {
    if actions == [] then 0
    else
      (if PairOf(actions[0]) == pair && Step(w, actions[0]) != w then 1 else 0)
      + PatchesOf(Step(w, actions[0]), actions[1..], pair)
  }

  // ---------------------------------------------------------------------------
  // What the steps of one pair leave alone
  // ---------------------------------------------------------------------------

  /** The workers of one name are the same, in the same places. */
  ghost predicate SameNamed(a: seq<Worker>, b: seq<Worker>, name: string) {
    && |a| == |b|
    && forall i :: 0 <= i < |a| ==> (a[i].name == name <==> b[i].name == name) && (a[i].name == name ==> a[i] == b[i])
  }

  ghost predicate SameFor(a: World, b: World, pair: Pair) {
    match pair
    case ControlPlanes =>
      && a.cp == b.cp && a.shoot.annotations == b.shoot.annotations && SameControlPlanePart(a.shoot, b.shoot)
      && a.shoot.spec.credentialsBindingName == b.shoot.spec.credentialsBindingName
      && a.shoot.spec.accessRestrictions == b.shoot.spec.accessRestrictions
    case Infras => a.infra == b.infra && SameInfra(a.shoot, b.shoot)
    case Pools(i) =>
      |a.pools| == |b.pools| && (i < |a.pools| ==>
        a.pools[i] == b.pools[i] && SameNamed(a.shoot.workers, b.shoot.workers, a.pools[i].name))
  }

  ghost predicate SamePoolNames(a: World, b: World) {
    |a.pools| == |b.pools| && forall i :: 0 <= i < |a.pools| ==> a.pools[i].name == b.pools[i].name
  }

  lemma StepKeepsNames(w: World, a: Action)
    ensures SamePoolNames(Step(w, a), w)
    ensures DistinctPools(w.pools) ==> DistinctPools(Step(w, a).pools)
    ensures WorkerNames(Step(w, a).shoot.workers) == WorkerNames(w.shoot.workers)
  {
    match a
    case PoolToShoot(i) => if i < |w.pools| { PoolForward(w.shoot.workers, w.pools[i]); }
    case ShootToPool(i) => if i < |w.pools| { BackwardPicksTheLast(w.shoot.workers, w.pools[i]); }
    case _ =>
  }

  lemma SameForItself(w: World, pair: Pair)
    ensures SameFor(w, w, pair)
  {}

  lemma SameForTransitive(a: World, b: World, c: World, pair: Pair)
    requires SameFor(a, b, pair) && SameFor(b, c, pair)
    ensures SameFor(a, c, pair)
  {}

  /** Pairs are independent: a step leaves everything the other pairs look at unchanged. */
  lemma PairsAreIndependent(w: World, a: Action, pair: Pair)
    requires DistinctPools(w.pools) && PairOf(a) != pair
    ensures SameFor(Step(w, a), w, pair)
  {}

  // ---------------------------------------------------------------------------
  // A decreasing measure
  // ---------------------------------------------------------------------------

  /** How many patches a pair can still send. */
  ghost function Cost(w: World, pair: Pair): nat {
    match pair
    case ControlPlanes =>
      if !ControlPlaneAgrees(w.shoot, w.cp) then 2 else if !ShootOnlyFieldsAgree(w.shoot, w.cp) then 1 else 0
    case Infras => if InfraAgrees(w.shoot, w.infra) then 0 else 1
    case Pools(i) => if i < |w.pools| then PoolCost(w.shoot.workers, w.pools[i]) else 0
  }

  ghost function PoolCost(workers: seq<Worker>, pool: WorkerPool): nat {
    if PoolAgrees(workers, pool) then 0
    else if UniformWorkers(workers, pool.name) || PoolFromWorkers(workers, pool) == pool then 1
    else 2
  }

  lemma {:induction false} SameNamedSamePool(a: seq<Worker>, b: seq<Worker>, pool: WorkerPool)
    requires SameNamed(a, b, pool.name)
    ensures PoolFromWorkers(a, pool) == PoolFromWorkers(b, pool)
    ensures PoolAgrees(a, pool) <==> PoolAgrees(b, pool)
    ensures UniformWorkers(a, pool.name) <==> UniformWorkers(b, pool.name)
  {
    if a != [] && a[|a| - 1].name != pool.name {
      SameNamedSamePool(a[..|a| - 1], b[..|b| - 1], pool);
    }
  }

  lemma SameForSameCost(a: World, b: World, pair: Pair)
    requires SameFor(a, b, pair)
    ensures Cost(a, pair) == Cost(b, pair)
  {
    match pair
    case Pools(i) => if i < |a.pools| { SameNamedSamePool(a.shoot.workers, b.shoot.workers, a.pools[i]); }
    case ControlPlanes =>
      assert ControlPlaneAgrees(a.shoot, a.cp) <==> ControlPlaneAgrees(b.shoot, b.cp);
    case Infras =>
  }

  /** A step either changes nothing or lowers its own pair's cost. */
  lemma {:induction false} OwnCost(w: World, a: Action)
    ensures Step(w, a) == w || Cost(Step(w, a), PairOf(a)) < Cost(w, PairOf(a))
  {
    match a
    case ControlPlaneToShoot => ControlPlaneForward(w.shoot, w.cp);
    case ShootToControlPlane => ControlPlaneBackward(w.shoot, w.cp);
    case InfraToShoot => InfraPair(w.shoot, w.infra);
    case ShootToInfra => InfraPair(w.shoot, w.infra);
    case PoolToShoot(i) => if i < |w.pools| { PoolForward(w.shoot.workers, w.pools[i]); }
    case ShootToPool(i) =>
      if i < |w.pools| {
        BackwardCost(w.shoot.workers, w.pools[i]);
        assert w.pools[i := w.pools[i]] == w.pools;
      }
  }

  lemma {:induction false} BackwardCost(workers: seq<Worker>, pool: WorkerPool)
    ensures var back := PoolFromWorkers(workers, pool);
      back == pool || PoolCost(workers, back) < PoolCost(workers, pool)
  {
    PoolBackward(workers, pool);
    BackwardPicksTheLast(workers, pool);
  }

  ghost function PoolsCost(w: World, n: nat): nat {
    if n == 0 then 0 else Cost(w, Pools(n - 1)) + PoolsCost(w, n - 1)
  }

  ghost function TotalCost(w: World): nat {
    Cost(w, ControlPlanes) + Cost(w, Infras) + PoolsCost(w, |w.pools|)
  }

  lemma {:induction false} PoolsCostStep(w: World, a: Action, n: nat)
    requires DistinctPools(w.pools)
    ensures PoolsCost(Step(w, a), n) <= PoolsCost(w, n)
    ensures Step(w, a) != w && PairOf(a).Pools? && PairOf(a).index < n ==> PoolsCost(Step(w, a), n) < PoolsCost(w, n)
  {
    if n > 0 {
      PoolsCostStep(w, a, n - 1);
      OwnCost(w, a);
      if PairOf(a) != Pools(n - 1) {
        PairsAreIndependent(w, a, Pools(n - 1));
        SameForSameCost(Step(w, a), w, Pools(n - 1));
      }
    }
  }

  lemma TotalCostStep(w: World, a: Action)
    requires DistinctPools(w.pools)
    ensures Step(w, a) == w || TotalCost(Step(w, a)) < TotalCost(w)
  {
    StepKeepsNames(w, a);
    PoolsCostStep(w, a, |w.pools|);
    OwnCost(w, a);
    if PairOf(a) != ControlPlanes {
      PairsAreIndependent(w, a, ControlPlanes);
      SameForSameCost(Step(w, a), w, ControlPlanes);
    }
    if PairOf(a) != Infras {
      PairsAreIndependent(w, a, Infras);
      SameForSameCost(Step(w, a), w, Infras);
    }
  }

  lemma {:induction false} PatchesPayCost(w: World, actions: seq<Action>)
    requires DistinctPools(w.pools)
    ensures Patches(w, actions) + TotalCost(Run(w, actions)) <= TotalCost(w)
    decreases |actions|
  {
    if actions != [] {
      StepKeepsNames(w, actions[0]);
      TotalCostStep(w, actions[0]);
      PatchesPayCost(Step(w, actions[0]), actions[1..]);
    }
  }

  lemma {:induction false} PairPaysItsCost(w: World, actions: seq<Action>, pair: Pair)
    requires DistinctPools(w.pools)
    ensures PatchesOf(w, actions, pair) + Cost(Run(w, actions), pair) <= Cost(w, pair)
    decreases |actions|
  {
    if actions != [] {
      var next := Step(w, actions[0]);
      StepKeepsNames(w, actions[0]);
      OwnCost(w, actions[0]);
      if PairOf(actions[0]) != pair {
        PairsAreIndependent(w, actions[0], pair);
        SameForSameCost(next, w, pair);
      }
      PairPaysItsCost(next, actions[1..], pair);
    }
  }

  lemma {:induction false} PoolsCostBound(w: World, n: nat)
    requires n <= |w.pools|
    ensures PoolsCost(w, n) <= 2 * n
    ensures (forall i :: 0 <= i < |w.pools| ==> UniformWorkers(w.shoot.workers, w.pools[i].name)) ==> PoolsCost(w, n) <= n
  {
    if n > 0 {
      PoolsCostBound(w, n - 1);
    }
  }

  /** Main result: in any run of any length the control plane pair sends at most two patches, the
      infra pair at most one, and a pool pair at most one, or two if the Shoot holds different
      workers of that name. */
  lemma {:induction false} NoPingPong(w: World, actions: seq<Action>)
    requires DistinctPools(w.pools)
    ensures PatchesOf(w, actions, ControlPlanes) <= 2
    ensures PatchesOf(w, actions, Infras) <= 1
    ensures forall i: nat :: PatchesOf(w, actions, Pools(i)) <= 2
    ensures forall i: nat :: i < |w.pools| && UniformWorkers(w.shoot.workers, w.pools[i].name) ==> PatchesOf(w, actions, Pools(i)) <= 1
    ensures Patches(w, actions) <= 3 + 2 * |w.pools|
    ensures DistinctWorkers(w.shoot.workers) ==> Patches(w, actions) <= 3 + |w.pools|
  {
    PatchesPayCost(w, actions);
    PoolsCostBound(w, |w.pools|);
    PairPaysItsCost(w, actions, ControlPlanes);
    PairPaysItsCost(w, actions, Infras);
    forall i: nat
      ensures PatchesOf(w, actions, Pools(i)) <= 2
      ensures i < |w.pools| && UniformWorkers(w.shoot.workers, w.pools[i].name) ==> PatchesOf(w, actions, Pools(i)) <= 1
    {
      PairPaysItsCost(w, actions, Pools(i));
      PoolCostBound(w, i);
    }
    if DistinctWorkers(w.shoot.workers) {
      forall i | 0 <= i < |w.pools| ensures UniformWorkers(w.shoot.workers, w.pools[i].name) {
        DistinctIsUniform(w.shoot.workers, w.pools[i].name);
      }
    }
  }

  lemma PoolCostBound(w: World, i: nat)
    ensures Cost(w, Pools(i)) <= 2
    ensures i < |w.pools| && UniformWorkers(w.shoot.workers, w.pools[i].name) ==> Cost(w, Pools(i)) <= 1
  {}

  lemma DistinctIsUniform(workers: seq<Worker>, name: string)
    requires DistinctWorkers(workers)
    ensures UniformWorkers(workers, name)
  {}

  // ---------------------------------------------------------------------------
  // Two rounds settle everything
  // ---------------------------------------------------------------------------

  ghost predicate Settled(w: World) {
    && ControlPlaneAgrees(w.shoot, w.cp) && ShootOnlyFieldsAgree(w.shoot, w.cp)
    && InfraAgrees(w.shoot, w.infra)
    && forall i :: 0 <= i < |w.pools| ==> PoolAgrees(w.shoot.workers, w.pools[i])
  }

  lemma SettledIffQuiet(w: World)
    ensures Settled(w) <==> forall a: Action :: Step(w, a) == w
  {
    ControlPlaneForward(w.shoot, w.cp);
    ControlPlaneBackward(w.shoot, w.cp);
    InfraPair(w.shoot, w.infra);
    if Settled(w) {
      forall a: Action ensures Step(w, a) == w {
        OwnCost(w, a);
        assert Cost(w, PairOf(a)) == 0;
      }
    }
    if forall a: Action :: Step(w, a) == w {
      assert Step(w, ControlPlaneToShoot) == w && Step(w, ShootToControlPlane) == w && Step(w, InfraToShoot) == w;
      NeverBothPanic(w.shoot, w.cp);
      QuietControlPlane(w);
      forall i | 0 <= i < |w.pools| ensures PoolAgrees(w.shoot.workers, w.pools[i]) {
        assert Step(w, PoolToShoot(i)) == w;
        PoolForward(w.shoot.workers, w.pools[i]);
      }
    }
  }

  /** A pair blocked in one direction still moves in the other, so quiet means agreement. */
  lemma QuietControlPlane(w: World)
    requires Step(w, ControlPlaneToShoot) == w && Step(w, ShootToControlPlane) == w
    ensures ControlPlaneAgrees(w.shoot, w.cp) && ShootOnlyFieldsAgree(w.shoot, w.cp)
  {}

  ghost predicate Round(w: World, actions: seq<Action>) {
    forall a: Action :: (PairOf(a).Pools? ==> PairOf(a).index < |w.pools|) ==> a in actions
  }

  lemma {:induction false} RunConcat(w: World, one: seq<Action>, two: seq<Action>)
    ensures Run(w, one + two) == Run(Run(w, one), two)
    decreases |one|
  {
    if one == [] {
      assert one + two == two;
    } else {
      assert (one + two)[1..] == one[1..] + two;
      RunConcat(Step(w, one[0]), one[1..], two);
    }
  }

  lemma {:induction false} RunKeepsNames(w: World, actions: seq<Action>)
    requires DistinctPools(w.pools)
    ensures DistinctPools(Run(w, actions).pools) && SamePoolNames(Run(w, actions), w)
    decreases |actions|
  {
    if actions != [] {
      StepKeepsNames(w, actions[0]);
      RunKeepsNames(Step(w, actions[0]), actions[1..]);
    }
  }

  /** After the given step the pair has nothing left to send. */
  ghost predicate Settles(w: World, a: Action) {
    Cost(Step(w, a), PairOf(a)) == 0
  }

  /** If a step settles its pair from every state it can reach, any run containing it does. */
  lemma {:induction false} SettledByRun(w: World, actions: seq<Action>, a: Action)
    requires DistinctPools(w.pools) && a in actions
    requires a == ShootToControlPlane ==> !BackwardPanics(w.shoot, w.cp)
    requires a != ControlPlaneToShoot && !a.ShootToPool?
    ensures Cost(Run(w, actions), PairOf(a)) == 0
    decreases |actions|
  {
    var next := Step(w, actions[0]);
    StepKeepsNames(w, actions[0]);
    if actions[0] == a {
      StepSettles(w, a);
      PairPaysItsCost(next, actions[1..], PairOf(a));
    } else {
      assert a in actions[1..];
      UnblockedStays(w, actions[0]);
      SettledByRun(next, actions[1..], a);
    }
  }

  lemma StepSettles(w: World, a: Action)
    requires a == ShootToControlPlane ==> !BackwardPanics(w.shoot, w.cp)
    requires a != ControlPlaneToShoot && !a.ShootToPool?
    ensures Settles(w, a)
  {}

  lemma UnblockedStays(w: World, a: Action)
    ensures !BackwardPanics(w.shoot, w.cp) ==> !BackwardPanics(Step(w, a).shoot, Step(w, a).cp)
    ensures a == ControlPlaneToShoot ==> !BackwardPanics(Step(w, a).shoot, Step(w, a).cp)
  {}

  lemma {:induction false} ForwardUnblocks(w: World, actions: seq<Action>)
    requires ControlPlaneToShoot in actions || !BackwardPanics(w.shoot, w.cp)
    ensures !BackwardPanics(Run(w, actions).shoot, Run(w, actions).cp)
    decreases |actions|
  {
    if actions != [] {
      UnblockedStays(w, actions[0]);
      if actions[0] != ControlPlaneToShoot && ControlPlaneToShoot in actions {
        assert ControlPlaneToShoot in actions[1..];
      }
      ForwardUnblocks(Step(w, actions[0]), actions[1..]);
    }
  }

  /** A round settles everything, whatever its order, unless the annotation sync into the control
      plane panics at the start. */
  lemma {:induction false} OneRound(w: World, actions: seq<Action>)
    requires DistinctPools(w.pools) && Round(w, actions) && !BackwardPanics(w.shoot, w.cp)
    ensures Settled(Run(w, actions))
  {
    var after := Run(w, actions);
    RunKeepsNames(w, actions);
    SettledByRun(w, actions, ShootToControlPlane);
    SettledByRun(w, actions, InfraToShoot);
    forall i | 0 <= i < |after.pools| ensures PoolAgrees(after.shoot.workers, after.pools[i]) {
      assert PairOf(PoolToShoot(i)) == Pools(i);
      SettledByRun(w, actions, PoolToShoot(i));
    }
  }

  /** Main result: from any state, two rounds in any order leave nothing to do in either direction. */
  lemma {:induction false} TwoRounds(w: World, one: seq<Action>, two: seq<Action>)
    requires DistinctPools(w.pools) && Round(w, one) && Round(w, two)
    ensures var after := Run(w, one + two);
      Settled(after) && forall a: Action :: Step(after, a) == after
  {
    RunConcat(w, one, two);
    RunKeepsNames(w, one);
    assert PairOf(ControlPlaneToShoot) == ControlPlanes;
    ForwardUnblocks(w, one);
    OneRound(Run(w, one), two);
    SettledIffQuiet(Run(w, one + two));
  }

  // ---------------------------------------------------------------------------
  // The first writer wins
  // ---------------------------------------------------------------------------

  /** The first reconcile of a pair that does not panic, or the length of the run. */
  function FirstOf(w: World, actions: seq<Action>, pair: Pair): (k: nat)
    ensures k <= |actions|
    ensures k < |actions| ==> PairOf(actions[k]) == pair
    decreases |actions|
  {
    if actions == [] then 0
    else if PairOf(actions[0]) == pair && !Panics(w, actions[0]) then 0
    else 1 + FirstOf(w, actions[1..], pair)
  }

  predicate Panics(w: World, a: Action) {
    || (a == ControlPlaneToShoot && ForwardPanics(w.shoot, w.cp))
    || (a == ShootToControlPlane && BackwardPanics(w.shoot, w.cp))
  }

  lemma {:induction false} FirstOfSame(a: World, b: World, actions: seq<Action>, pair: Pair)
    requires SameFor(a, b, ControlPlanes) || pair != ControlPlanes
    ensures FirstOf(a, actions, pair) == FirstOf(b, actions, pair)
    decreases |actions|
  {
    if actions != [] {
      FirstOfSame(a, b, actions[1..], pair);
    }
  }

  /** Up to the first reconcile of a pair, the pair's objects stay as they were. */
  lemma {:induction false} UnchangedBeforeFirst(w: World, actions: seq<Action>, pair: Pair)
    requires DistinctPools(w.pools)
    ensures SameFor(Run(w, actions[..FirstOf(w, actions, pair)]), w, pair)
    decreases |actions|
  {
    var k := FirstOf(w, actions, pair);
    if k == 0 {
      SameForItself(w, pair);
    } else {
      var next := Step(w, actions[0]);
      StepKeepsNames(w, actions[0]);
      if PairOf(actions[0]) == pair {
        SameForItself(w, pair);
      } else {
        PairsAreIndependent(w, actions[0], pair);
      }
      FirstOfSame(next, w, actions[1..], pair);
      UnchangedBeforeFirst(next, actions[1..], pair);
      assert actions[..k][1..] == actions[1..][..k - 1];
      SameForTransitive(Run(next, actions[1..][..k - 1]), next, w, pair);
    }
  }

  /** A pair with no cost left never changes again. */
  lemma {:induction false} SettledPairStays(w: World, actions: seq<Action>, pair: Pair)
    requires DistinctPools(w.pools) && Cost(w, pair) == 0
    ensures SameFor(Run(w, actions), w, pair)
    decreases |actions|
  {
    if actions == [] {
      SameForItself(w, pair);
    } else {
      var next := Step(w, actions[0]);
      StepKeepsNames(w, actions[0]);
      if PairOf(actions[0]) == pair {
        OwnCost(w, actions[0]);
        SameForItself(w, pair);
      } else {
        PairsAreIndependent(w, actions[0], pair);
        SameForSameCost(next, w, pair);
      }
      SettledPairStays(next, actions[1..], pair);
      SameForTransitive(Run(next, actions[1..]), next, w, pair);
    }
  }

  lemma RunSplit(w: World, actions: seq<Action>, k: nat)
    requires k < |actions|
    ensures Run(w, actions) == Run(Step(Run(w, actions[..k]), actions[k]), actions[k + 1..])
  {
    assert actions == actions[..k] + actions[k..];
    RunConcat(w, actions[..k], actions[k..]);
    assert actions[k..][0] == actions[k] && actions[k..][1..] == actions[k + 1..];
  }

  lemma {:induction false} InfraFirstWriterWins(w: World, actions: seq<Action>)
    requires DistinctPools(w.pools)
    ensures var k, after := FirstOf(w, actions, Infras), Run(w, actions);
      if k == |actions| then after.infra == w.infra && SameInfra(after.shoot, w.shoot)
      else if actions[k] == InfraToShoot then after.infra == w.infra && InfraAgrees(after.shoot, w.infra)
      else InfraAgrees(w.shoot, after.infra) && SameInfra(after.shoot, w.shoot)
  {
    var k := FirstOf(w, actions, Infras);
    UnchangedBeforeFirst(w, actions, Infras);
    assert actions[..|actions|] == actions;
    if k < |actions| {
      RunSplit(w, actions, k);
      RunKeepsNames(w, actions[..k]);
      var before := Run(w, actions[..k]);
      StepKeepsNames(before, actions[k]);
      InfraPair(before.shoot, before.infra);
      SettledPairStays(Step(before, actions[k]), actions[k + 1..], Infras);
    }
  }

  /** If the Shoot speaks first its values win. If the control plane speaks first its values win,
      except that a later sync still takes over the two fields only the Shoot decides. */
  lemma {:induction false} ControlPlaneFirstWriterWins(w: World, actions: seq<Action>)
    requires DistinctPools(w.pools)
    ensures var k, after := FirstOf(w, actions, ControlPlanes), Run(w, actions);
      if k == |actions| then after.cp == w.cp && SameControlPlanePart(after.shoot, w.shoot)
      else if actions[k] == ShootToControlPlane then
        after.cp == ControlPlaneFromShoot(w.shoot, w.cp) && SameControlPlanePart(after.shoot, w.shoot)
      else
        && ControlPlaneAgrees(after.shoot, w.cp)
        && after.cp == if ShootToControlPlane in actions[k + 1..]
                       then w.cp.(spec := w.cp.spec.(
                              credentialsBindingName := w.shoot.spec.credentialsBindingName,
                              accessRestrictions := w.shoot.spec.accessRestrictions))
                       else w.cp
  {
    var k := FirstOf(w, actions, ControlPlanes);
    UnchangedBeforeFirst(w, actions, ControlPlanes);
    assert actions[..|actions|] == actions;
    if k < |actions| {
      RunSplit(w, actions, k);
      RunKeepsNames(w, actions[..k]);
      var before := Run(w, actions[..k]);
      var next := Step(before, actions[k]);
      StepKeepsNames(before, actions[k]);
      FirstDoesNotPanic(w, actions, ControlPlanes);
      if actions[k] == ShootToControlPlane {
        ControlPlaneBackward(before.shoot, before.cp);
        SettledPairStays(next, actions[k + 1..], ControlPlanes);
        SameShootPartSameControlPlane(before.shoot, w.shoot, w.cp);
        SameForTransitive(Run(w, actions), next, next, ControlPlanes) by { SameForItself(next, ControlPlanes); }
        ChainControlPlanePart(Run(w, actions).shoot, next.shoot, w.shoot);
      } else {
        ControlPlaneForward(before.shoot, before.cp);
        AfterForward(next, actions[k + 1..]);
        assert next.shoot.spec.credentialsBindingName == w.shoot.spec.credentialsBindingName;
      }
    }
  }

  lemma FirstDoesNotPanic(w: World, actions: seq<Action>, pair: Pair)
    requires FirstOf(w, actions, pair) < |actions|
    ensures !Panics(w, actions[FirstOf(w, actions, pair)])
    decreases |actions|
  {
    if FirstOf(w, actions, pair) > 0 {
      FirstDoesNotPanic(w, actions[1..], pair);
    }
  }

  lemma SameShootPartSameControlPlane(a: Shoot, b: Shoot, cp: ControlPlane)
    requires SameControlPlanePart(a, b) && a.annotations == b.annotations
    requires a.spec.credentialsBindingName == b.spec.credentialsBindingName && a.spec.accessRestrictions == b.spec.accessRestrictions
    ensures ControlPlaneFromShoot(a, cp) == ControlPlaneFromShoot(b, cp)
  {}

  lemma ChainControlPlanePart(a: Shoot, b: Shoot, c: Shoot)
    requires SameControlPlanePart(a, b) && SameControlPlanePart(b, c)
    ensures SameControlPlanePart(a, c)
  {}

  /** Once the control plane part agrees, the only thing left is to copy the Shoot-only fields. */
  lemma {:induction false} AfterForward(w: World, actions: seq<Action>)
    requires DistinctPools(w.pools) && ControlPlaneAgrees(w.shoot, w.cp)
    ensures ControlPlaneAgrees(Run(w, actions).shoot, w.cp)
    ensures Run(w, actions).cp == if ShootToControlPlane in actions
              then w.cp.(spec := w.cp.spec.(
                credentialsBindingName := w.shoot.spec.credentialsBindingName,
                accessRestrictions := w.shoot.spec.accessRestrictions))
              else w.cp
    decreases |actions|
  {
    if actions != [] {
      var a, next := actions[0], Step(w, actions[0]);
      StepKeepsNames(w, a);
      ControlPlaneForward(w.shoot, w.cp);
      AgreementDoesNotPanic(w.shoot, w.cp);
      ControlPlaneRoundTrips(w.shoot, w.cp);
      if PairOf(a) != ControlPlanes {
        PairsAreIndependent(w, a, ControlPlanes);
      }
      assert ShootToControlPlane in actions <==> a == ShootToControlPlane || ShootToControlPlane in actions[1..];
      AfterForward(next, actions[1..]);
    }
  }

  /** A pool that took over the last worker of its name stays; at most its workers are made equal to it. */
  lemma {:induction false} AfterBackward(w: World, actions: seq<Action>, i: nat)
    requires DistinctPools(w.pools) && i < |w.pools|
    requires PoolFromWorkers(w.shoot.workers, w.pools[i]) == w.pools[i]
    ensures var after := Run(w, actions);
      && |after.pools| == |w.pools| && after.pools[i] == w.pools[i]
      && if PoolToShoot(i) in actions then PoolAgrees(after.shoot.workers, w.pools[i])
         else SameNamed(after.shoot.workers, w.shoot.workers, w.pools[i].name)
    decreases |actions|
  {
    if actions != [] {
      var a, next := actions[0], Step(w, actions[0]);
      StepKeepsNames(w, a);
      if a == PoolToShoot(i) {
        PoolForward(w.shoot.workers, w.pools[i]);
        SettledPairStays(next, actions[1..], Pools(i));
        SameNamedSamePool(Run(w, actions).shoot.workers, next.shoot.workers, w.pools[i]);
      } else {
        if a != ShootToPool(i) {
          PairsAreIndependent(w, a, Pools(i));
        }
        SameNamedSamePool(next.shoot.workers, w.shoot.workers, w.pools[i]);
        assert PoolToShoot(i) in actions <==> PoolToShoot(i) in actions[1..];
        AfterBackward(next, actions[1..], i);
      }
    }
  }

  /** A pool that speaks first overwrites its workers. If the Shoot speaks first the pool takes over
      the last worker of its name, and a later sync makes all of them equal to that one. */
  lemma {:induction false} PoolFirstWriterWins(w: World, actions: seq<Action>, i: nat)
    requires DistinctPools(w.pools) && i < |w.pools|
    ensures var k, after, pool := FirstOf(w, actions, Pools(i)), Run(w, actions), w.pools[i];
      && |after.pools| == |w.pools|
      && if k == |actions| then after.pools[i] == pool && SameNamed(after.shoot.workers, w.shoot.workers, pool.name)
         else if actions[k] == PoolToShoot(i) then after.pools[i] == pool && PoolAgrees(after.shoot.workers, pool)
         else
           && after.pools[i] == PoolFromWorkers(w.shoot.workers, pool)
           && if PoolToShoot(i) in actions[k + 1..] then PoolAgrees(after.shoot.workers, after.pools[i])
              else SameNamed(after.shoot.workers, w.shoot.workers, pool.name)
  {
    var k := FirstOf(w, actions, Pools(i));
    UnchangedBeforeFirst(w, actions, Pools(i));
    assert actions[..|actions|] == actions;
    if k < |actions| {
      RunSplit(w, actions, k);
      RunKeepsNames(w, actions[..k]);
      var before := Run(w, actions[..k]);
      SameNamedSamePool(before.shoot.workers, w.shoot.workers, w.pools[i]);
      PoolFirstStep(before, actions[k], actions[k + 1..], i);
    }
  }

  lemma PoolFirstStep(w: World, a: Action, rest: seq<Action>, i: nat)
    requires DistinctPools(w.pools) && i < |w.pools| && PairOf(a) == Pools(i)
    ensures var after, pool := Run(Step(w, a), rest), w.pools[i];
      && |after.pools| == |w.pools|
      && if a == PoolToShoot(i) then after.pools[i] == pool && PoolAgrees(after.shoot.workers, pool)
         else
           && after.pools[i] == PoolFromWorkers(w.shoot.workers, pool)
           && if PoolToShoot(i) in rest then PoolAgrees(after.shoot.workers, after.pools[i])
              else SameNamed(after.shoot.workers, w.shoot.workers, pool.name)
  {
    StepKeepsNames(w, a);
    if a == PoolToShoot(i) {
      PoolForward(w.shoot.workers, w.pools[i]);
      SettledPairStays(Step(w, a), rest, Pools(i));
      SameNamedSamePool(Run(Step(w, a), rest).shoot.workers, Step(w, a).shoot.workers, w.pools[i]);
    } else {
      PoolBackward(w.shoot.workers, w.pools[i]);
      BackwardPicksTheLast(w.shoot.workers, w.pools[i]);
      AfterBackward(Step(w, a), rest, i);
    }
  }
}
