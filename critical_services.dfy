/** The instance correlator: for a critical service, the pods of its namespace that it owns,
    how many of them run, and the zone of the node each one is scheduled on; and the shape of
    the registry record read from the config map. */
module CriticalServices {
  import opened Values
  import opened Dicts
  import opened K8sZones

  const Unknown := "unknown"
  /** The text of the `AttributeError` raised by `nodes_data.items()` when the node mapper
      returned its "unconfigured" sentinel string. */
  const NoItemsOnStr := "'str' object has no attribute 'items'"
  const FetchFailedPrefix := "Failed to fetch ConfigMap: "

  datatype OwnerRef = OwnerRef(kind: string, name: string)

  /** A pod of the namespace listing: name, phase, the node it is scheduled on (if any) and
      its owner references (a missing list is the empty one). */
  datatype Pod = Pod(name: string, phase: string, nodeName: Option<string>, owners: seq<OwnerRef>)

  /** One element of the result: "Name", "Status", "Node" and "Zone". */
  datatype PodInfo = PodInfo(name: string, status: string, node: Option<string>, zone: string)

  /** A registry entry: the service's namespace and its workload type. */
  datatype ServiceDef = ServiceDef(namespace: string, kind: string)

  /** What `get_namespaced_pods` does: return an `{"error": msg}` record, raise, or return the
      pods with the number of running ones. */
  datatype PodsResult = PodsError(msg: string) | PodsRaised(reason: string) | Pods(pods: seq<PodInfo>, running: nat)

  /** Python's `isDeploy`: pods of a Deployment are owned by its ReplicaSet. */
  function IsDeploy(resourceType: string): (r: string)
    ensures r != "Deployment"
    ensures r == "ReplicaSet" <==> resourceType == "Deployment" || resourceType == "ReplicaSet"
    ensures resourceType != "Deployment" ==> r == resourceType
  {
    if resourceType == "Deployment" then "ReplicaSet" else resourceType
  }

  function NodeNamesOf(records: seq<NodeRecord>): set<string> {
    set r | r in records :: r.name
  }

  predicate HoldsNode(zn: ZoneNodes, n: string) {
    n in NodeNamesOf(zn.masters + zn.workers)
  }

  /** The `node_zone_map` comprehension: every master and worker name to its zone; a name
      listed under several zones keeps the last one. Storage nodes are not part of it. */
  function ZoneIndex(zones: K8sZoneMap): map<string, string> {
    if zones == [] then map[]
    else
      var last := zones[|zones| - 1];
      ZoneIndex(zones[..|zones| - 1]) + map n | n in NodeNamesOf(last.1.masters + last.1.workers) :: last.0
  }

  /** Adding the last zone: its names now map to it, other names keep their zone. */
  lemma ZoneIndexStep(zones: K8sZoneMap, n: string)
    requires zones != []
    ensures var init := zones[..|zones| - 1];
            var last := zones[|zones| - 1];
            && (n in ZoneIndex(zones) <==> n in ZoneIndex(init) || HoldsNode(last.1, n))
            && (HoldsNode(last.1, n) ==> ZoneIndex(zones)[n] == last.0)
            && (!HoldsNode(last.1, n) && n in ZoneIndex(init) ==> ZoneIndex(zones)[n] == ZoneIndex(init)[n])
  {
  }

  /** The index answers exactly for the names some zone lists. */
  lemma {:induction false} ZoneIndexDomain(zones: K8sZoneMap, n: string)
    ensures n in ZoneIndex(zones) <==> exists i :: 0 <= i < |zones| && HoldsNode(zones[i].1, n)
  {
    if zones != [] {
      var k := |zones| - 1;
      var init := zones[..k];
      ZoneIndexStep(zones, n);
      ZoneIndexDomain(init, n);
      if exists i :: 0 <= i < |init| && HoldsNode(init[i].1, n) {
        var i :| 0 <= i < |init| && HoldsNode(init[i].1, n);
        assert zones[i] == init[i];
      }
      if exists i :: 0 <= i < |zones| && HoldsNode(zones[i].1, n) {
        var i :| 0 <= i < |zones| && HoldsNode(zones[i].1, n);
        assert i < k ==> init[i] == zones[i];
      }
    }
  }

  /** A name in the index maps to the last zone that lists it. */
  lemma {:induction false} ZoneIndexZone(zones: K8sZoneMap, n: string)
    requires n in ZoneIndex(zones)
    ensures exists i :: 0 <= i < |zones| && HoldsNode(zones[i].1, n) && ZoneIndex(zones)[n] == zones[i].0
                        && forall j :: i < j < |zones| ==> !HoldsNode(zones[j].1, n)
  {
    var k := |zones| - 1;
    var init := zones[..k];
    ZoneIndexStep(zones, n);
    if !HoldsNode(zones[k].1, n) {
      ZoneIndexZone(init, n);
      var i :| 0 <= i < |init| && HoldsNode(init[i].1, n) && ZoneIndex(init)[n] == init[i].0
               && forall j :: i < j < |init| ==> !HoldsNode(init[j].1, n);
      assert zones[i] == init[i];
      forall j | i < j < |zones| ensures !HoldsNode(zones[j].1, n) {
        if j < k {
          assert zones[j] == init[j];
        }
      }
    }
  }

  /** The index answers exactly for the names the zones list, with the last zone listing it. */
  lemma ZoneIndexLookup(zones: K8sZoneMap, n: string)
    ensures n !in ZoneIndex(zones) <==> forall i :: 0 <= i < |zones| ==> !HoldsNode(zones[i].1, n)
    ensures n in ZoneIndex(zones) ==> exists i :: 0 <= i < |zones| && HoldsNode(zones[i].1, n) && ZoneIndex(zones)[n] == zones[i].0
                                                 && forall j :: i < j < |zones| ==> !HoldsNode(zones[j].1, n)
  {
    ZoneIndexDomain(zones, n);
    if n in ZoneIndex(zones) {
      ZoneIndexZone(zones, n);
    }
  }

  /** A pod the service owns: it has owner references, and one of them has the owner kind of
      the service's type and a name that starts with the service name. */
  predicate Owned(pod: Pod, resourceType: string, serviceName: string) {
    |pod.owners| > 0
    && exists o :: o in pod.owners && o.kind == IsDeploy(resourceType) && StartsWith(o.name, serviceName)
  }

  /** The zone of the node a pod runs on, or "unknown". */
  function PodZone(pod: Pod, index: map<string, string>): string {
    match pod.nodeName
    case Some(n) => if n in index then index[n] else Unknown
    case None => Unknown
  }

  function PodInfoOf(pod: Pod, index: map<string, string>): PodInfo {
    PodInfo(pod.name, pod.phase, pod.nodeName, PodZone(pod, index))
  }

  /** The owned pods, in listing order. */
  function OwnedPods(pods: seq<Pod>, resourceType: string, serviceName: string, index: map<string, string>): (r: seq<PodInfo>)
    ensures |r| <= |pods|
  {
    if pods == [] then []
    else
      var pod := pods[|pods| - 1];
      OwnedPods(pods[..|pods| - 1], resourceType, serviceName, index)
      + if Owned(pod, resourceType, serviceName) then [PodInfoOf(pod, index)] else []
  }

  /** The number of pods in the "Running" phase. */
  function CountRunning(infos: seq<PodInfo>): (n: nat)
    ensures n <= |infos|
  {
    if infos == [] then 0
    else CountRunning(infos[..|infos| - 1]) + if infos[|infos| - 1].status == "Running" then 1 else 0
  }

  /** What `get_namespaced_pods` produces from the node mapper's answer and the pod listing. */
  function NamespacedPods(info: ServiceDef, serviceName: string, nodesData: Source<K8sZoneMap>,
                          podList: ApiResult<seq<Pod>>): PodsResult {
    match nodesData
    case Failed(msg) => PodsError(msg)
    case Unconfigured(_) => PodsRaised(NoItemsOnStr)
    case Configured(zones) =>
      match podList
      case ApiFault(reason) => PodsRaised(reason)
      case ApiOk(pods) =>
        var owned := OwnedPods(pods, info.kind, serviceName, ZoneIndex(zones));
        Pods(owned, CountRunning(owned))
  }

  /** The sum of the counters of a `zone_pod_count` dict. */
  function SumCounts(d: Dict<nat>): nat {
    if d == [] then 0 else d[0].1 + SumCounts(d[1..])
  }

  /** `d[k] = d.get(k, 0) + 1` raises the sum of the counters by one. */
  lemma {:induction false} SumCountsIncrement(d: Dict<nat>, k: string)
    ensures SumCounts(Put(d, k, Get(d, k).GetOr(0) + 1)) == SumCounts(d) + 1
  {
    if d != [] && d[0].0 != k {
      SumCountsIncrement(d[1..], k);
      assert Put(d, k, Get(d, k).GetOr(0) + 1)[1..] == Put(d[1..], k, Get(d[1..], k).GetOr(0) + 1);
    }
  }

  /** Python's `get_namespaced_pods`. The `zone_pod_count` dict it fills and then drops is the
      ghost `zoneCount`: its counters add up to the number of pods returned. */
  method GetNamespacedPods(info: ServiceDef, serviceName: string, nodesData: Source<K8sZoneMap>,
                           podList: ApiResult<seq<Pod>>) returns (r: PodsResult, ghost zoneCount: Dict<nat>)
    ensures r == NamespacedPods(info, serviceName, nodesData, podList)
    ensures r.Pods? ==> SumCounts(zoneCount) == |r.pods|
  {
    zoneCount := [];
    if nodesData.Failed? {
      r := PodsError(nodesData.msg);
      return;
    }
    if nodesData.Unconfigured? {
      r := PodsRaised(NoItemsOnStr);
      return;
    }
    var nodeZoneMap := ZoneIndex(nodesData.data);
    if podList.ApiFault? {
      r := PodsRaised(podList.reason);
      return;
    }
    var result, runningPods;
    result, runningPods, zoneCount := CollectPods(podList.value, info.kind, serviceName, nodeZoneMap);
    r := Pods(result, runningPods);
  }

  lemma OwnedPodsStep(pods: seq<Pod>, i: int, resourceType: string, serviceName: string, index: map<string, string>)
    requires 0 <= i < |pods|
    ensures OwnedPods(pods[..i + 1], resourceType, serviceName, index)
            == OwnedPods(pods[..i], resourceType, serviceName, index)
               + if Owned(pods[i], resourceType, serviceName) then [PodInfoOf(pods[i], index)] else []
  {
    assert pods[..i + 1][..i] == pods[..i];
  }

  lemma CountRunningSnoc(infos: seq<PodInfo>, e: PodInfo)
    ensures CountRunning(infos + [e]) == CountRunning(infos) + if e.status == "Running" then 1 else 0
  {
    assert (infos + [e])[..|infos|] == infos;
  }

  /** The loop of `get_namespaced_pods` over the pod listing: the owned pods, the running
      count, and the per-zone counters. */
  method CollectPods(pods: seq<Pod>, resourceType: string, serviceName: string, nodeZoneMap: map<string, string>)
    returns (result: seq<PodInfo>, runningPods: nat, ghost zoneCount: Dict<nat>)
    ensures result == OwnedPods(pods, resourceType, serviceName, nodeZoneMap)
    ensures runningPods == CountRunning(result)
    ensures SumCounts(zoneCount) == |result|
  {
    zoneCount := [];
    runningPods := 0;
    result := [];
    for i := 0 to |pods|
      invariant result == OwnedPods(pods[..i], resourceType, serviceName, nodeZoneMap)
      invariant runningPods == CountRunning(result)
      invariant SumCounts(zoneCount) == |result|
    {
      var pod := pods[i];
      OwnedPodsStep(pods, i, resourceType, serviceName, nodeZoneMap);
      if Owned(pod, resourceType, serviceName) {
        var podStatus := pod.phase;
        if podStatus == "Running" {
          runningPods := runningPods + 1;
        }
        var zone := PodZone(pod, nodeZoneMap);
        SumCountsIncrement(zoneCount, zone);
        zoneCount := Put(zoneCount, zone, Get(zoneCount, zone).GetOr(0) + 1);
        var entry := PodInfo(pod.name, podStatus, pod.nodeName, zone);
        CountRunningSnoc(result, entry);
        result := result + [entry];
      }
    }
    assert pods[..|pods|] == pods;
  }

  /** The result holds exactly the owned pods of the listing, each with its own name, phase,
      node and zone. */
  lemma {:induction false} OwnedPodsMembers(pods: seq<Pod>, resourceType: string, serviceName: string,
                                            index: map<string, string>, p: PodInfo)
    ensures p in OwnedPods(pods, resourceType, serviceName, index)
            <==> exists i :: 0 <= i < |pods| && Owned(pods[i], resourceType, serviceName) && p == PodInfoOf(pods[i], index)
  {
    if pods != [] {
      var init := pods[..|pods| - 1];
      OwnedPodsMembers(init, resourceType, serviceName, index, p);
      if exists i :: 0 <= i < |pods| && Owned(pods[i], resourceType, serviceName) && p == PodInfoOf(pods[i], index) {
        var i :| 0 <= i < |pods| && Owned(pods[i], resourceType, serviceName) && p == PodInfoOf(pods[i], index);
        if i < |init| {
          assert init[i] == pods[i];
        }
      }
      if p in OwnedPods(init, resourceType, serviceName, index) {
        var i :| 0 <= i < |init| && Owned(init[i], resourceType, serviceName) && p == PodInfoOf(init[i], index);
        assert pods[i] == init[i];
      }
    }
  }

  /** The result keeps listing order: it distributes over a split of the listing. */
  lemma {:induction false} OwnedPodsAppend(a: seq<Pod>, b: seq<Pod>, resourceType: string, serviceName: string,
                                           index: map<string, string>)
    ensures OwnedPods(a + b, resourceType, serviceName, index)
            == OwnedPods(a, resourceType, serviceName, index) + OwnedPods(b, resourceType, serviceName, index)
  {
    if b == [] {
      assert a + b == a;
    } else {
      var b' := b[..|b| - 1];
      assert (a + b)[..|a + b| - 1] == a + b';
      assert (a + b)[|a + b| - 1] == b[|b| - 1];
      OwnedPodsAppend(a, b', resourceType, serviceName, index);
    }
  }

  /** A pod's zone is the zone whose masters or workers list its node (the last such zone),
      and "unknown" when it has no node or no zone lists it. */
  lemma PodZoneFromMapping(pod: Pod, zones: K8sZoneMap)
    ensures (pod.nodeName.None? || forall i :: 0 <= i < |zones| ==> !HoldsNode(zones[i].1, pod.nodeName.value))
            ==> PodZone(pod, ZoneIndex(zones)) == Unknown
    ensures pod.nodeName.Some? && PodZone(pod, ZoneIndex(zones)) != Unknown
            ==> exists i :: 0 <= i < |zones| && HoldsNode(zones[i].1, pod.nodeName.value)
                            && PodZone(pod, ZoneIndex(zones)) == zones[i].0
  {
    if pod.nodeName.Some? {
      ZoneIndexLookup(zones, pod.nodeName.value);
    }
  }

  /** The registry record as read from the config map: an `{"error": msg}` record, or a
      record whose "critical-services" object may be missing. */
  datatype ConfigRecord<V> = RecordError(msg: string) | RecordBody(services: Option<Dict<V>>)

  /** Python's `get_configmap`, with the config map read as an input and JSON parsing as a
      parameter (`None` when the stored text is not JSON, which raises). */
  function GetConfigmap<V>(read: ApiResult<map<string, string>>, key: string,
                           parse: string -> Option<ConfigRecord<V>>): Option<ConfigRecord<V>> {
    match read
    case ApiFault(reason) => Some(RecordError(FetchFailedPrefix + reason))
    case ApiOk(data) => if key in data then parse(data[key]) else Some(RecordBody(Some([])))
  }

  /** `record.get("critical-services", {})`: an error record and a record without the
      object both give the empty registry. */
  function ServicesOf<V>(record: ConfigRecord<V>): Dict<V> {
    match record
    case RecordError(_) => []
    case RecordBody(services) => services.GetOr([])
  }

  /** The registry callers see: empty when the config map cannot be read or lacks the key,
      the stored services otherwise. A failed read reports its error and never raises. */
  lemma ConfigmapServices<V>(read: ApiResult<map<string, string>>, key: string, parse: string -> Option<ConfigRecord<V>>)
    ensures read.ApiFault? ==> GetConfigmap(read, key, parse).Some?
                               && GetConfigmap(read, key, parse).value.RecordError?
                               && StartsWith(GetConfigmap(read, key, parse).value.msg, FetchFailedPrefix)
                               && ServicesOf(GetConfigmap(read, key, parse).value) == []
    ensures read.ApiOk? && key !in read.value ==> ServicesOf(GetConfigmap(read, key, parse).value) == []
    ensures read.ApiOk? && key in read.value ==> GetConfigmap(read, key, parse) == parse(read.value[key])
  {
    if read.ApiFault? {
      var msg := FetchFailedPrefix + read.reason;
      assert msg[..|FetchFailedPrefix|] == FetchFailedPrefix;
    }
  }

  /** `get_namespaced_pods` applies the same `"error" in` test to the node mapping, so when a
      zone is labelled "error" it returns `{"error": <that zone's entry>}` instead of the pods.
      With the mapping below the test fires, while the intended answer gives the owned pod,
      placed in zone "error". */
  lemma PodsZoneNamedError(info: ServiceDef, serviceName: string, pod: Pod, m: NodeRecord)
    requires Owned(pod, info.kind, serviceName) && pod.nodeName == Some(m.name)
    ensures var nodes: Source<K8sZoneMap> := Configured([("error", ZoneNodes([m], []))]);
            && LooksLikeErrorAsWritten(nodes)
            && NamespacedPods(info, serviceName, nodes, ApiOk([pod]))
               == Pods([PodInfo(pod.name, pod.phase, pod.nodeName, "error")], if pod.phase == "Running" then 1 else 0)
  {
    var zones: K8sZoneMap := [("error", ZoneNodes([m], []))];
    assert Keys(zones)[0] == "error";
    assert NodeNamesOf(zones[0].1.masters + zones[0].1.workers) == {m.name};
    assert ZoneIndex(zones) == map[m.name := "error"];
    assert [pod][..0] == [];
    var infos := OwnedPods([pod], info.kind, serviceName, ZoneIndex(zones));
    assert infos == [PodInfo(pod.name, pod.phase, pod.nodeName, "error")];
    assert infos[..0] == [];
  }
}
