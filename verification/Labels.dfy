/** The labels that lead from a Shoot back to the CAPI objects it was made from: written when the
    Shoot is created, read when a Shoot event is mapped to reconcile requests. */
module Labels {
  import opened Wrappers

  const GSCP_NAMESPACE_KEY := "controlplane.cluster.x-k8s.io/gscp_namespace"
  const GSCP_NAME_KEY := "controlplane.cluster.x-k8s.io/gscp_name"
  const GSCP_CLUSTER_KEY := "controlplane.cluster.x-k8s.io/gscp_cluster"
  const GSC_NAMESPACE_KEY := "infrastructure.cluster.x-k8s.io/gsc_namespace"
  const GSC_NAME_KEY := "infrastructure.cluster.x-k8s.io/gsc_name"
  const GSC_CLUSTER_KEY := "controlplane.cluster.x-k8s.io/gsc_cluster"
  const GSW_NAMESPACE_KEY := "infrastructure.cluster.x-k8s.io/gsw_namespace"
  const GSW_NAME_PREFIX := "infrastructure.cluster.x-k8s.io/gsw_name-"
  const GSW_CLUSTER_KEY := "infrastructure.cluster.x-k8s.io/gsw_cluster"
  const GSW_TRUE := "true"

  type LabelMap = map<string, string>

  datatype Ref = Ref(name: string, namespace: string)

  datatype Request = Request(name: string, namespace: string, cluster: string)

  // ---------------------------------------------------------------------------
  // Writing
  // ---------------------------------------------------------------------------

  function FixedLabels(cp: Ref, infra: Ref, isKcp: bool, cluster: string): LabelMap {
    var names := map[
      GSCP_NAME_KEY := cp.name,
      GSCP_NAMESPACE_KEY := cp.namespace,
      GSC_NAME_KEY := infra.name,
      GSC_NAMESPACE_KEY := infra.namespace];
    if isKcp then names[GSCP_CLUSTER_KEY := cluster][GSC_CLUSTER_KEY := cluster][GSW_CLUSTER_KEY := cluster] else names
  }

  function PoolKey(name: string): string {
    GSW_NAME_PREFIX + name
  }

  function PoolKeys(pools: seq<Ref>): set<string> {
    set pool | pool in pools :: PoolKey(pool.name)
  }

  /** One key per pool name; all pools share one namespace label, the last pool's. */
  function PoolLabels(pools: seq<Ref>): LabelMap {
    var names := map key | key in PoolKeys(pools) :: GSW_TRUE;
    if pools == [] then names else names[GSW_NAMESPACE_KEY := pools[|pools| - 1].namespace]
  }

  ghost predicate IsFixedKey(key: string) {
    || key == GSCP_NAME_KEY || key == GSCP_NAMESPACE_KEY || key == GSCP_CLUSTER_KEY
    || key == GSC_NAME_KEY || key == GSC_NAMESPACE_KEY || key == GSC_CLUSTER_KEY
    || key == GSW_NAMESPACE_KEY || key == GSW_CLUSTER_KEY
  }

  ghost predicate Says(labels: LabelMap, key: string, value: string) {
    key in labels && labels[key] == value
  }

  /** The labels name GSCP, GSC, the KCP cluster if there is one, and every pool; any other label is as
      it was. */
  ghost predicate Referenced(before: LabelMap, after: LabelMap, cp: Ref, infra: Ref, pools: seq<Ref>, isKcp: bool, cluster: string) {
    && Says(after, GSCP_NAME_KEY, cp.name) && Says(after, GSCP_NAMESPACE_KEY, cp.namespace)
    && Says(after, GSC_NAME_KEY, infra.name) && Says(after, GSC_NAMESPACE_KEY, infra.namespace)
    && (if isKcp then Says(after, GSCP_CLUSTER_KEY, cluster) && Says(after, GSC_CLUSTER_KEY, cluster) && Says(after, GSW_CLUSTER_KEY, cluster)
        else SameLabel(before, after, GSCP_CLUSTER_KEY) && SameLabel(before, after, GSC_CLUSTER_KEY) && SameLabel(before, after, GSW_CLUSTER_KEY))
    && (forall pool :: pool in pools ==> Says(after, GSW_NAME_PREFIX + pool.name, "true"))
    && (if pools == [] then SameLabel(before, after, GSW_NAMESPACE_KEY)
        else Says(after, GSW_NAMESPACE_KEY, pools[|pools| - 1].namespace))
    && (forall key :: !IsFixedKey(key) && (forall pool :: pool in pools ==> key != GSW_NAME_PREFIX + pool.name)
          ==> SameLabel(before, after, key))
  }

  ghost predicate SameLabel(before: LabelMap, after: LabelMap, key: string) {
    (key in before <==> key in after) && (key in before ==> before[key] == after[key])
  }

  class ShootMeta {
    var labels: LabelMap

    constructor (labels: LabelMap)
      ensures this.labels == labels
    {
      this.labels := labels;
    }

    /** The reference labels are added to whatever labels there are. */
    method InjectReferenceLabels(cp: Ref, infra: Ref, pools: seq<Ref>, isKcp: bool, cluster: string)
      modifies this
      ensures labels == old(labels) + (FixedLabels(cp, infra, isKcp, cluster) + PoolLabels(pools))
      ensures Referenced(old(labels), labels, cp, infra, pools, isKcp, cluster)
    {
      LabelsReference(labels, cp, infra, pools, isKcp, cluster);
      var fixed := map[
        GSCP_NAME_KEY := cp.name,
        GSCP_NAMESPACE_KEY := cp.namespace,
        GSC_NAME_KEY := infra.name,
        GSC_NAMESPACE_KEY := infra.namespace];
      if isKcp {
        fixed := fixed[GSCP_CLUSTER_KEY := cluster];
        fixed := fixed[GSC_CLUSTER_KEY := cluster];
        fixed := fixed[GSW_CLUSTER_KEY := cluster];
      }
      assert fixed == FixedLabels(cp, infra, isKcp, cluster);
      var all := WithPoolLabels(fixed, pools);
      Merge(all);
    }

    method Merge(all: LabelMap)
      modifies this
      ensures labels == old(labels) + all
    {
      var todo := all.Keys;
      assert all - todo == map[];
      while todo != {}
        invariant todo <= all.Keys
        invariant labels == old(labels) + (all - todo)
        decreases todo
      {
        var key :| key in todo;
        labels := labels[key := all[key]];
        todo := todo - {key};
      }
    }
  }

  method WithPoolLabels(start: LabelMap, pools: seq<Ref>) returns (all: LabelMap)
    ensures all == start + PoolLabels(pools)
  {
    all := start;
    assert PoolLabels(pools[..0]) == map[];
    for i := 0 to |pools|
      invariant all == start + PoolLabels(pools[..i])
    {
      OneMorePool(start, pools, i);
      all := all[PoolKey(pools[i].name) := GSW_TRUE];
      all := all[GSW_NAMESPACE_KEY := pools[i].namespace];
    }
    assert pools[..|pools|] == pools;
  }

  lemma OneMorePool(start: LabelMap, pools: seq<Ref>, i: nat)
    requires i < |pools|
    ensures start + PoolLabels(pools[..i + 1])
         == (start + PoolLabels(pools[..i]))[PoolKey(pools[i].name) := GSW_TRUE][GSW_NAMESPACE_KEY := pools[i].namespace]
  {}

  // ---------------------------------------------------------------------------
  // Reading
  // ---------------------------------------------------------------------------

  predicate HasPrefix(key: string) {
    GSW_NAME_PREFIX <= key
  }

  function LabelOr(labels: LabelMap, key: string): string {
    if key in labels then labels[key] else ""
  }

  predicate NamesPool(labels: LabelMap, key: string) {
    key in labels && HasPrefix(key) && labels[key] == GSW_TRUE && |key| > |GSW_NAME_PREFIX|
  }

  function PoolRequests(labels: LabelMap, isKcp: bool): set<Request> {
    if GSW_NAMESPACE_KEY !in labels then {}
    else
      set key | key in labels && NamesPool(labels, key) ::
        Request(key[|GSW_NAME_PREFIX|..], labels[GSW_NAMESPACE_KEY], if isKcp then LabelOr(labels, GSW_CLUSTER_KEY) else "")
  }

  /** A label with the prefix, a name behind it and the value "true" stands for a request. */
  ghost predicate Requested(labels: LabelMap, isKcp: bool, r: Request) {
    && r.name != "" && Says(labels, GSW_NAME_PREFIX + r.name, "true")
    && Says(labels, GSW_NAMESPACE_KEY, r.namespace)
    && r.cluster == if isKcp && GSW_CLUSTER_KEY in labels then labels[GSW_CLUSTER_KEY] else ""
  }

  lemma RequestsAreRequested(labels: LabelMap, isKcp: bool, r: Request)
    ensures r in PoolRequests(labels, isKcp) <==> Requested(labels, isKcp, r)
  {
    var key := GSW_NAME_PREFIX + r.name;
    assert key[|GSW_NAME_PREFIX|..] == r.name;
    if r in PoolRequests(labels, isKcp) {
      var other :| other in labels && NamesPool(labels, other) && other[|GSW_NAME_PREFIX|..] == r.name;
      assert other == key;
    }
    if Requested(labels, isKcp, r) {
      assert key in labels && NamesPool(labels, key);
    }
  }

  ghost predicate NoDuplicates(requests: seq<Request>) {
    forall i, j :: 0 <= i < j < |requests| ==> requests[i] != requests[j]
  }

  /** The keys come in any order; the requests are the same set, each listed once. */
  method MapShootToPools(labels: LabelMap, isKcp: bool) returns (requests: seq<Request>)
    ensures forall r :: r in requests <==> r in PoolRequests(labels, isKcp)
    ensures forall r :: r in requests <==> Requested(labels, isKcp, r)
    ensures NoDuplicates(requests)
  {
    if GSW_NAMESPACE_KEY !in labels {
      requests := [];
      return;
    }
    var namespace := labels[GSW_NAMESPACE_KEY];
    var cluster := "";
    if isKcp && GSW_CLUSTER_KEY in labels {
      cluster := labels[GSW_CLUSTER_KEY];
    }
    requests := [];
    var todo := labels.Keys;
    while todo != {}
      invariant todo <= labels.Keys
      invariant forall r :: r in requests ==> r.namespace == namespace && r.cluster == cluster
      invariant forall r :: r in requests ==>
        PoolKey(r.name) in labels.Keys - todo && NamesPool(labels, PoolKey(r.name))
      invariant forall key :: key in labels.Keys - todo && NamesPool(labels, key) ==>
        Request(key[|GSW_NAME_PREFIX|..], namespace, cluster) in requests
      invariant NoDuplicates(requests)
      decreases todo
    {
      var key :| key in todo;
      todo := todo - {key};
      if !HasPrefix(key) {
        continue;
      }
      if labels[key] != GSW_TRUE {
        continue;
      }
      var name := key[|GSW_NAME_PREFIX|..];
      assert key == PoolKey(name);
      if name == "" {
        continue;
      }
      requests := requests + [Request(name, namespace, cluster)];
    }
    forall r ensures r in PoolRequests(labels, isKcp) <==> Requested(labels, isKcp, r) {
      RequestsAreRequested(labels, isKcp, r);
    }
    forall r ensures r in requests <==> r in PoolRequests(labels, isKcp) {
      if r in requests {
        assert PoolKey(r.name)[|GSW_NAME_PREFIX|..] == r.name;
      }
    }
  }

  /** The single request for the object behind a namespace, a name and a cluster label. */
  function SingleRequest(labels: LabelMap, namespaceKey: string, nameKey: string, clusterKey: string, isKcp: bool): Option<Request> {
    if namespaceKey !in labels then None
    else Some(Request(LabelOr(labels, nameKey), labels[namespaceKey], if isKcp then LabelOr(labels, clusterKey) else ""))
  }

  function MapShootToControlPlane(labels: LabelMap, isKcp: bool): Option<Request> {
    SingleRequest(labels, GSCP_NAMESPACE_KEY, GSCP_NAME_KEY, GSCP_CLUSTER_KEY, isKcp)
  }

  function MapShootToInfra(labels: LabelMap, isKcp: bool): Option<Request> {
    SingleRequest(labels, GSC_NAMESPACE_KEY, GSC_NAME_KEY, GSC_CLUSTER_KEY, isKcp)
  }

  /** Any labels: without a namespace there is no request, and what else is missing is left empty. */
  ghost predicate SingleRequested(labels: LabelMap, namespaceKey: string, nameKey: string, clusterKey: string, isKcp: bool, r: Option<Request>) {
    if r.None? then namespaceKey !in labels
    else
      && Says(labels, namespaceKey, r.value.namespace)
      && (if nameKey in labels then Says(labels, nameKey, r.value.name) else r.value.name == "")
      && (if isKcp && clusterKey in labels then Says(labels, clusterKey, r.value.cluster) else r.value.cluster == "")
  }

  lemma SingleRequests(labels: LabelMap, isKcp: bool)
    ensures SingleRequested(labels, GSCP_NAMESPACE_KEY, GSCP_NAME_KEY, GSCP_CLUSTER_KEY, isKcp, MapShootToControlPlane(labels, isKcp))
    ensures SingleRequested(labels, GSC_NAMESPACE_KEY, GSC_NAME_KEY, GSC_CLUSTER_KEY, isKcp, MapShootToInfra(labels, isKcp))
  {}

  // ---------------------------------------------------------------------------
  // Round trip
  // ---------------------------------------------------------------------------

  /** No fixed key looks like a pool key, not even the pool namespace key, which shares all but one
      character of the prefix. */
  lemma KeysAreApart()
    ensures !HasPrefix(GSCP_NAMESPACE_KEY) && !HasPrefix(GSCP_NAME_KEY) && !HasPrefix(GSCP_CLUSTER_KEY)
    ensures !HasPrefix(GSC_NAMESPACE_KEY) && !HasPrefix(GSC_NAME_KEY) && !HasPrefix(GSC_CLUSTER_KEY)
    ensures !HasPrefix(GSW_NAMESPACE_KEY) && !HasPrefix(GSW_CLUSTER_KEY)
  {
    assert GSW_NAME_PREFIX[0] == 'i' && GSCP_NAMESPACE_KEY[0] == 'c' && GSCP_NAME_KEY[0] == 'c'
        && GSCP_CLUSTER_KEY[0] == 'c' && GSC_CLUSTER_KEY[0] == 'c';
    assert GSW_NAME_PREFIX[34] == 'w' && GSC_NAMESPACE_KEY[34] == 'c';
    assert GSW_NAME_PREFIX[40] == '-' && GSW_NAMESPACE_KEY[40] == 's';
    assert GSW_NAME_PREFIX[36] == 'n' && GSW_CLUSTER_KEY[36] == 'c';
    assert |GSC_NAME_KEY| < |GSW_NAME_PREFIX|;
  }

  /** The fixed keys are distinct: by length, or by a character in the group or the suffix. */
  lemma FixedKeysAreDistinct()
    ensures |{GSCP_NAMESPACE_KEY, GSCP_NAME_KEY, GSCP_CLUSTER_KEY, GSC_CLUSTER_KEY}| == 4
    ensures |{GSC_NAMESPACE_KEY, GSC_NAME_KEY, GSW_NAMESPACE_KEY, GSW_CLUSTER_KEY}| == 4
    ensures {GSCP_NAMESPACE_KEY, GSCP_NAME_KEY, GSCP_CLUSTER_KEY, GSC_CLUSTER_KEY}
         !! {GSC_NAMESPACE_KEY, GSC_NAME_KEY, GSW_NAMESPACE_KEY, GSW_CLUSTER_KEY}
  {}

  lemma FixedKeys(cp: Ref, infra: Ref, isKcp: bool, cluster: string)
    ensures var fixed := FixedLabels(cp, infra, isKcp, cluster);
      && GSW_NAMESPACE_KEY !in fixed
      && (forall key :: key in fixed ==> !HasPrefix(key))
      && LabelOr(fixed, GSW_CLUSTER_KEY) == (if isKcp then cluster else "")
      && MapShootToControlPlane(fixed, isKcp) == Some(Request(cp.name, cp.namespace, if isKcp then cluster else ""))
      && MapShootToInfra(fixed, isKcp) == Some(Request(infra.name, infra.namespace, if isKcp then cluster else ""))
  {
    KeysAreApart();
    FixedKeysAreDistinct();
  }

  /** The labels a map gains when others are laid over it. */
  lemma Overlaid(before: LabelMap, fixed: LabelMap, named: LabelMap, key: string)
    ensures var after := before + (fixed + named);
      if key in named then Says(after, key, named[key])
      else if key in fixed then Says(after, key, fixed[key])
      else SameLabel(before, after, key)
  {}

  lemma FixedIsNotNamed(pools: seq<Ref>, key: string)
    requires IsFixedKey(key) && key != GSW_NAMESPACE_KEY
    ensures key !in PoolLabels(pools)
  {
    KeysAreApart();
    PoolLabelKeys(pools, key);
  }

  lemma FixedValues(cp: Ref, infra: Ref, isKcp: bool, cluster: string)
    ensures var fixed := FixedLabels(cp, infra, isKcp, cluster);
      && Says(fixed, GSCP_NAME_KEY, cp.name) && Says(fixed, GSCP_NAMESPACE_KEY, cp.namespace)
      && Says(fixed, GSC_NAME_KEY, infra.name) && Says(fixed, GSC_NAMESPACE_KEY, infra.namespace)
  {
    FixedKeysAreDistinct();
  }

  lemma ClusterValues(cp: Ref, infra: Ref, isKcp: bool, cluster: string)
    ensures var fixed := FixedLabels(cp, infra, isKcp, cluster);
      && (if isKcp then Says(fixed, GSCP_CLUSTER_KEY, cluster) && Says(fixed, GSC_CLUSTER_KEY, cluster) && Says(fixed, GSW_CLUSTER_KEY, cluster)
          else GSCP_CLUSTER_KEY !in fixed && GSC_CLUSTER_KEY !in fixed && GSW_CLUSTER_KEY !in fixed)
      && GSW_NAMESPACE_KEY !in fixed
  {
    FixedKeysAreDistinct();
  }

  lemma OnlyFixedKeys(cp: Ref, infra: Ref, isKcp: bool, cluster: string, key: string)
    ensures key in FixedLabels(cp, infra, isKcp, cluster) ==> IsFixedKey(key)
  {}

  lemma NamedValues(pools: seq<Ref>)
    ensures forall pool :: pool in pools ==> Says(PoolLabels(pools), GSW_NAME_PREFIX + pool.name, "true")
    ensures pools != [] ==> Says(PoolLabels(pools), GSW_NAMESPACE_KEY, pools[|pools| - 1].namespace)
    ensures pools == [] ==> GSW_NAMESPACE_KEY !in PoolLabels(pools)
  {
    KeysAreApart();
    forall pool | pool in pools ensures Says(PoolLabels(pools), GSW_NAME_PREFIX + pool.name, "true") {
      assert PoolKey(pool.name) in PoolKeys(pools);
      PoolLabelKeys(pools, PoolKey(pool.name));
    }
    PoolLabelKeys(pools, GSW_NAMESPACE_KEY);
  }

  lemma OnlyNamedKeys(pools: seq<Ref>, key: string)
    requires !IsFixedKey(key) && forall pool :: pool in pools ==> key != GSW_NAME_PREFIX + pool.name
    ensures key !in PoolLabels(pools)
  {
    PoolLabelKeys(pools, key);
  }

  lemma FixedOverlaid(before: LabelMap, cp: Ref, infra: Ref, pools: seq<Ref>, isKcp: bool, cluster: string, key: string)
    requires IsFixedKey(key) && key != GSW_NAMESPACE_KEY
    ensures var fixed := FixedLabels(cp, infra, isKcp, cluster);
      var after := before + (fixed + PoolLabels(pools));
      if key in fixed then Says(after, key, fixed[key]) else SameLabel(before, after, key)
  {
    FixedIsNotNamed(pools, key);
    Overlaid(before, FixedLabels(cp, infra, isKcp, cluster), PoolLabels(pools), key);
  }

  lemma FixedReferenced(before: LabelMap, cp: Ref, infra: Ref, pools: seq<Ref>, isKcp: bool, cluster: string)
    ensures var after := before + (FixedLabels(cp, infra, isKcp, cluster) + PoolLabels(pools));
      && Says(after, GSCP_NAME_KEY, cp.name) && Says(after, GSCP_NAMESPACE_KEY, cp.namespace)
      && Says(after, GSC_NAME_KEY, infra.name) && Says(after, GSC_NAMESPACE_KEY, infra.namespace)
  {
    FixedValues(cp, infra, isKcp, cluster);
    FixedKeysAreDistinct();
    FixedOverlaid(before, cp, infra, pools, isKcp, cluster, GSCP_NAME_KEY);
    FixedOverlaid(before, cp, infra, pools, isKcp, cluster, GSCP_NAMESPACE_KEY);
    FixedOverlaid(before, cp, infra, pools, isKcp, cluster, GSC_NAME_KEY);
    FixedOverlaid(before, cp, infra, pools, isKcp, cluster, GSC_NAMESPACE_KEY);
  }

  lemma ClusterReferenced(before: LabelMap, cp: Ref, infra: Ref, pools: seq<Ref>, isKcp: bool, cluster: string)
    ensures var after := before + (FixedLabels(cp, infra, isKcp, cluster) + PoolLabels(pools));
      if isKcp then Says(after, GSCP_CLUSTER_KEY, cluster) && Says(after, GSC_CLUSTER_KEY, cluster) && Says(after, GSW_CLUSTER_KEY, cluster)
      else SameLabel(before, after, GSCP_CLUSTER_KEY) && SameLabel(before, after, GSC_CLUSTER_KEY) && SameLabel(before, after, GSW_CLUSTER_KEY)
  {
    ClusterValues(cp, infra, isKcp, cluster);
    FixedKeysAreDistinct();
    FixedOverlaid(before, cp, infra, pools, isKcp, cluster, GSCP_CLUSTER_KEY);
    FixedOverlaid(before, cp, infra, pools, isKcp, cluster, GSC_CLUSTER_KEY);
    FixedOverlaid(before, cp, infra, pools, isKcp, cluster, GSW_CLUSTER_KEY);
  }

  lemma PoolsReferenced(before: LabelMap, fixed: LabelMap, pools: seq<Ref>)
    requires GSW_NAMESPACE_KEY !in fixed
    ensures var after := before + (fixed + PoolLabels(pools));
      && (forall pool :: pool in pools ==> Says(after, GSW_NAME_PREFIX + pool.name, "true"))
      && (if pools == [] then SameLabel(before, after, GSW_NAMESPACE_KEY)
          else Says(after, GSW_NAMESPACE_KEY, pools[|pools| - 1].namespace))
  {
    NamedValues(pools);
    forall pool | pool in pools ensures Says(before + (fixed + PoolLabels(pools)), GSW_NAME_PREFIX + pool.name, "true") {
      Overlaid(before, fixed, PoolLabels(pools), GSW_NAME_PREFIX + pool.name);
    }
    Overlaid(before, fixed, PoolLabels(pools), GSW_NAMESPACE_KEY);
  }

  lemma {:induction false} LabelsReference(before: LabelMap, cp: Ref, infra: Ref, pools: seq<Ref>, isKcp: bool, cluster: string)
    ensures Referenced(before, before + (FixedLabels(cp, infra, isKcp, cluster) + PoolLabels(pools)), cp, infra, pools, isKcp, cluster)
  {
    var fixed := FixedLabels(cp, infra, isKcp, cluster);
    FixedReferenced(before, cp, infra, pools, isKcp, cluster);
    ClusterReferenced(before, cp, infra, pools, isKcp, cluster);
    ClusterValues(cp, infra, isKcp, cluster);
    PoolsReferenced(before, fixed, pools);
    forall key | !IsFixedKey(key) && (forall pool :: pool in pools ==> key != GSW_NAME_PREFIX + pool.name)
      ensures SameLabel(before, before + (fixed + PoolLabels(pools)), key)
    {
      OnlyFixedKeys(cp, infra, isKcp, cluster, key);
      OnlyNamedKeys(pools, key);
      Overlaid(before, fixed, PoolLabels(pools), key);
    }
  }

  /** The pool labels hide no label without the prefix but the pool namespace. */
  lemma PoolLabelKeys(pools: seq<Ref>, key: string)
    ensures key in PoolLabels(pools) <==> (key == GSW_NAMESPACE_KEY && pools != []) || key in PoolKeys(pools)
    ensures key in PoolKeys(pools) ==> HasPrefix(key) && PoolLabels(pools)[key] == GSW_TRUE
    ensures pools != [] ==> PoolLabels(pools)[GSW_NAMESPACE_KEY] == pools[|pools| - 1].namespace
  {
    KeysAreApart();
  }

  lemma SingleRequestsKept(fixed: LabelMap, pools: seq<Ref>, isKcp: bool)
    ensures MapShootToControlPlane(fixed + PoolLabels(pools), isKcp) == MapShootToControlPlane(fixed, isKcp)
    ensures MapShootToInfra(fixed + PoolLabels(pools), isKcp) == MapShootToInfra(fixed, isKcp)
    ensures LabelOr(fixed + PoolLabels(pools), GSW_CLUSTER_KEY) == LabelOr(fixed, GSW_CLUSTER_KEY)
  {
    KeysAreApart();
    FixedKeysAreDistinct();
    PoolLabelKeys(pools, GSCP_NAMESPACE_KEY);
    PoolLabelKeys(pools, GSCP_NAME_KEY);
    PoolLabelKeys(pools, GSCP_CLUSTER_KEY);
    PoolLabelKeys(pools, GSC_NAMESPACE_KEY);
    PoolLabelKeys(pools, GSC_NAME_KEY);
    PoolLabelKeys(pools, GSC_CLUSTER_KEY);
    PoolLabelKeys(pools, GSW_CLUSTER_KEY);
  }

  /** One request per named pool, for the namespace of the last one. */
  function PoolRequestsOf(pools: seq<Ref>, cluster: string): set<Request> {
    set pool | pool in pools && pool.name != "" :: Request(pool.name, pools[|pools| - 1].namespace, cluster)
  }

  lemma NamedPools(fixed: LabelMap, pools: seq<Ref>, key: string)
    requires forall k :: k in fixed ==> !HasPrefix(k)
    ensures NamesPool(fixed + PoolLabels(pools), key) <==> key in PoolKeys(pools) && |key| > |GSW_NAME_PREFIX|
  {
    PoolLabelKeys(pools, key);
    KeysAreApart();
  }

  lemma PoolRequestsRecovered(fixed: LabelMap, pools: seq<Ref>, isKcp: bool)
    requires GSW_NAMESPACE_KEY !in fixed && forall key :: key in fixed ==> !HasPrefix(key)
    ensures PoolRequests(fixed + PoolLabels(pools), isKcp)
         == PoolRequestsOf(pools, if isKcp then LabelOr(fixed, GSW_CLUSTER_KEY) else "")
  {
    var labels, cluster := fixed + PoolLabels(pools), if isKcp then LabelOr(fixed, GSW_CLUSTER_KEY) else "";
    PoolLabelKeys(pools, GSW_NAMESPACE_KEY);
    KeysAreApart();
    SingleRequestsKept(fixed, pools, isKcp);
    if pools != [] {
      var namespace := pools[|pools| - 1].namespace;
      forall r ensures r in PoolRequests(labels, isKcp) <==> r in PoolRequestsOf(pools, cluster) {
        if r in PoolRequestsOf(pools, cluster) {
          var pool :| pool in pools && pool.name != "" && r == Request(pool.name, namespace, cluster);
          var key := PoolKey(pool.name);
          NamedPools(fixed, pools, key);
          assert key in PoolKeys(pools) && key[|GSW_NAME_PREFIX|..] == pool.name;
        }
        if r in PoolRequests(labels, isKcp) {
          var key :| key in labels && NamesPool(labels, key) && r == Request(key[|GSW_NAME_PREFIX|..], namespace, cluster);
          NamedPools(fixed, pools, key);
          var pool :| pool in pools && key == PoolKey(pool.name);
          assert key[|GSW_NAME_PREFIX|..] == pool.name;
        }
      }
    }
  }

  /** Main result: mapping the labelled Shoot back gives the requests for the control plane, the
      infra cluster and exactly the named pools. */
  lemma LabelRoundTrip(cp: Ref, infra: Ref, pools: seq<Ref>, isKcp: bool, cluster: string)
    ensures var labels, kcp := FixedLabels(cp, infra, isKcp, cluster) + PoolLabels(pools), if isKcp then cluster else "";
      && MapShootToControlPlane(labels, isKcp) == Some(Request(cp.name, cp.namespace, kcp))
      && MapShootToInfra(labels, isKcp) == Some(Request(infra.name, infra.namespace, kcp))
      && PoolRequests(labels, isKcp) == PoolRequestsOf(pools, kcp)
  {
    var fixed := FixedLabels(cp, infra, isKcp, cluster);
    FixedKeys(cp, infra, isKcp, cluster);
    SingleRequestsKept(fixed, pools, isKcp);
    PoolRequestsRecovered(fixed, pools, isKcp);
  }

  /** For pools of one namespace these are exactly the pools' own keys. */
  lemma OneNamespace(pools: seq<Ref>, cluster: string)
    requires forall i, j :: 0 <= i < |pools| && 0 <= j < |pools| ==> pools[i].namespace == pools[j].namespace
    ensures PoolRequestsOf(pools, cluster)
         == (set pool | pool in pools && pool.name != "" :: Request(pool.name, pool.namespace, cluster))
  {}
}
