/** The zone detail (`GET /zones/<zone_name>`): counts, node lists with their readiness, and
    for each storage host its OSD names grouped by OSD status. */
module ZoneDescribe {
  import opened Values
  import opened Dicts
  import opened Grouping
  import opened K8sZones
  import opened CephZones
  import opened ZoneList

  const ZoneNotFound := "Zone not found"
  const K8sZoneType := "Kubernetes Topology Zone"
  const CephZoneType := "CEPH Zone"

  datatype NodeDetail = NodeDetail(name: string, status: string)
  /** A "Management Master" or "Management Worker" object: its "Type" and "Nodes". */
  datatype NodeSection = NodeSection(kind: string, nodes: seq<NodeDetail>)
  /** One storage host: "Name", "Status" and "OSDs", the OSD names by status. */
  datatype StorageDetail = StorageDetail(name: string, status: string, osds: Dict<seq<string>>)
  datatype StorageSection = StorageSection(kind: string, nodes: seq<StorageDetail>)

  /** The zone record: the three counts, then the sections that apply. */
  datatype ZoneDetail = ZoneDetail(name: string, masterCount: nat, workerCount: nat, storageCount: nat,
                                   master: Option<NodeSection>, worker: Option<NodeSection>,
                                   storage: Option<StorageSection>)

  /** The response body: an `{"error": msg}` record, the `zoneExist` listing, or the zone record. */
  datatype ZoneInfo = InfoError(msg: string) | NoZones(information: string) | Info(detail: ZoneDetail)

  function ReadinessText(s: Readiness): string {
    match s
    case Ready => "Ready"
    case NotReady => "NotReady"
  }

  function NodeDetails(records: seq<NodeRecord>): (d: seq<NodeDetail>)
    ensures |d| == |records|
  {
    seq(|records|, i requires 0 <= i < |records| => NodeDetail(records[i].name, ReadinessText(records[i].status)))
  }

  function StatusKey(o: Osd): Option<string> {
    Some(o.status)
  }

  function OsdName(o: Osd): string {
    o.name
  }

  /** The `osd_status_map` of a storage host: its OSD names under their status. */
  function OsdStatusMap(osds: seq<Osd>): Dict<seq<string>> {
    Grouped(osds, StatusKey, OsdName)
  }

  /** The inner loop of the storage section: `osd_status_map.setdefault(status, []).append(name)`
      for each OSD in turn. */
  method GroupOsdsByStatus(osds: seq<Osd>) returns (m: Dict<seq<string>>)
    ensures m == OsdStatusMap(osds)
  {
    m := [];
    for i := 0 to |osds|
      invariant m == Grouped(osds[..i], StatusKey, OsdName)
    {
      var osd := osds[i];
      assert osds[..i + 1] == osds[..i] + [osd];
      if osd.status !in Keys(m) {
        GroupedStepNew(osds[..i], osd, StatusKey, OsdName, osd.status);
        m := m + [(osd.status, [])];
      } else {
        GroupedStepOld(osds[..i], osd, StatusKey, OsdName, osd.status);
      }
      m := Put(m, osd.status, Get(m, osd.status).value + [osd.name]);
    }
    assert osds[..|osds|] == osds;
  }

  /** Every OSD status appears once as a key; every OSD name is listed under its own status,
      the names under a status keep input order, and the lists together hold one name per OSD. */
  lemma OsdStatusMapProperties(osds: seq<Osd>)
    ensures Distinct(Keys(OsdStatusMap(osds)))
    ensures forall s :: s in Keys(OsdStatusMap(osds)) <==> exists i :: 0 <= i < |osds| && osds[i].status == s
    ensures forall s :: Get(OsdStatusMap(osds), s).Some? ==> Get(OsdStatusMap(osds), s).value == GroupOf(osds, StatusKey, OsdName, s)
    ensures forall i :: 0 <= i < |osds|
                        ==> Get(OsdStatusMap(osds), osds[i].status).Some? && osds[i].name in Get(OsdStatusMap(osds), osds[i].status).value
    ensures Total(OsdStatusMap(osds)) == |osds|
  {
    FirstSeenDistinct(osds, StatusKey);
    FirstSeenMembers(osds, StatusKey);
    forall s ensures Get(OsdStatusMap(osds), s) == if s in FirstSeen(osds, StatusKey) then Some(GroupOf(osds, StatusKey, OsdName, s)) else None {
      GetGrouped(osds, StatusKey, OsdName, s);
    }
    forall i | 0 <= i < |osds| ensures osds[i].name in GroupOf(osds, StatusKey, OsdName, osds[i].status) {
      InOwnGroup(osds, StatusKey, OsdName, i);
    }
    GroupedTotal(osds, StatusKey, OsdName);
    CountKeyedAll(osds, StatusKey);
  }

  function StorageDetailOf(n: StorageNode): StorageDetail {
    StorageDetail(n.name, n.status, OsdStatusMap(n.osds))
  }

  /** Python's `get_zone_info`: errors first (node topology, then storage), then the
      `zoneExist` listing for an unconfigured side, then "Zone not found" when the zone has no
      master, worker or storage node, else the zone record. */
  method GetZoneInfo(zoneName: string, k8s: Source<K8sZoneMap>, ceph: Source<CephZoneMap>) returns (r: ZoneInfo)
    ensures k8s.Failed? ==> r == InfoError(k8s.msg)
    ensures !k8s.Failed? && ceph.Failed? ==> r == InfoError(ceph.msg)
    ensures !k8s.Failed? && !ceph.Failed? && (k8s.Unconfigured? || ceph.Unconfigured?)
            ==> r == NoZones(ZoneExist(k8s, ceph).value)
    ensures k8s.Configured? && ceph.Configured? && zoneName !in Keys(k8s.data) && zoneName !in Keys(ceph.data)
            ==> r == InfoError(ZoneNotFound)
    ensures k8s.Configured? && ceph.Configured? ==>
              var zn := Get(k8s.data, zoneName).GetOr(NoNodes);
              var storage := Get(ceph.data, zoneName).GetOr([]);
              if zn.masters == [] && zn.workers == [] && storage == [] then r == InfoError(ZoneNotFound)
              else
                && r.Info? && r.detail.name == zoneName
                && r.detail.masterCount == |zn.masters| && r.detail.workerCount == |zn.workers|
                && r.detail.storageCount == |storage|
                && (r.detail.master.Some? <==> zn.masters != [])
                && (r.detail.master.Some? ==> r.detail.master.value == NodeSection(K8sZoneType, NodeDetails(zn.masters)))
                && (r.detail.worker.Some? <==> zn.workers != [])
                && (r.detail.worker.Some? ==> r.detail.worker.value == NodeSection(K8sZoneType, NodeDetails(zn.workers)))
                && (r.detail.storage.Some? <==> storage != [])
                && (r.detail.storage.Some? ==>
                      && r.detail.storage.value.kind == CephZoneType
                      && |r.detail.storage.value.nodes| == |storage|
                      && forall i :: 0 <= i < |storage| ==> r.detail.storage.value.nodes[i] == StorageDetailOf(storage[i]))
  {
    if k8s.Failed? {
      return InfoError(k8s.msg);
    }
    if ceph.Failed? {
      return InfoError(ceph.msg);
    }
    if k8s.Unconfigured? || ceph.Unconfigured? {
      return NoZones(ZoneExist(k8s, ceph).value);
    }
    var zn := Get(k8s.data, zoneName).GetOr(NoNodes);
    var masters, workers := zn.masters, zn.workers;
    var storage := Get(ceph.data, zoneName).GetOr([]);
    if !(masters != [] || workers != [] || storage != []) {
      return InfoError(ZoneNotFound);
    }
    var detail := ZoneDetail(zoneName, |masters|, |workers|, |storage|, None, None, None);
    if masters != [] {
      detail := detail.(master := Some(NodeSection(K8sZoneType, NodeDetails(masters))));
    }
    if workers != [] {
      detail := detail.(worker := Some(NodeSection(K8sZoneType, NodeDetails(workers))));
    }
    if storage != [] {
      var nodes: seq<StorageDetail> := [];
      for i := 0 to |storage|
        invariant |nodes| == i
        invariant forall j :: 0 <= j < i ==> nodes[j] == StorageDetailOf(storage[j])
      {
        var osdMap := GroupOsdsByStatus(storage[i].osds);
        nodes := nodes + [StorageDetail(storage[i].name, storage[i].status, osdMap)];
      }
      detail := detail.(storage := Some(StorageSection(CephZoneType, nodes)));
    }
    r := Info(detail);
  }

  /** `get_zone_info` applies the same `"error" in` test to both mappings, so a zone labelled
      "error" is answered with `{"error": <that zone's entry>}`. The input below is a
      configured mapping whose "error" zone holds a master: the test reads it as a failure,
      while the intended answer, the one GetZoneInfo gives, is that zone's record. */
  method DescribeZoneNamedError(m: NodeRecord) returns (asWritten: bool, r: ZoneInfo)
    ensures asWritten
    ensures r.Info? && r.detail.name == "error" && r.detail.masterCount == 1 && r.detail.workerCount == 0
  {
    var k8s: Source<K8sZoneMap> := Configured([("error", ZoneNodes([m], []))]);
    assert Keys(k8s.data)[0] == "error";
    asWritten := LooksLikeErrorAsWritten(k8s);
    r := GetZoneInfo("error", k8s, Configured([]));
  }
}
