/** The zone summary (`GET /zones`): the node-topology mapping and the storage mapping are
    fused into one names-only entry per zone that either side knows. */
module ZoneList {
  import opened Values
  import opened Dicts
  import opened Grouping
  import opened K8sZones
  import opened CephZones

  const NoZonesAtAll := "No zones (K8s topology and Ceph) configured"
  const NoK8sZonesConfigured := "No K8s topology zones configured"
  const NoCephZonesConfigured := "No CEPH zones configured"

  /** The "Kubernetes Topology Zone" object: each key is present only with a non-empty list. */
  datatype K8sSection = K8sSection(masters: Option<seq<string>>, workers: Option<seq<string>>)

  /** One element of "Zones": the zone name, then the optional node-topology and storage parts. */
  datatype ZoneSummary = ZoneSummary(name: string, k8s: Option<K8sSection>, ceph: Option<seq<string>>)

  /** The response body: an `{"error": msg}` record, or "Zones" with an optional "Information". */
  datatype ZoneListing = ListError(msg: string) | Listing(zones: seq<ZoneSummary>, information: Option<string>)

  /** Python's `zoneExist`: the "Information" text when at least one side is the unconfigured
      sentinel, and `None` (Python's implicit `None`) otherwise. */
  function ZoneExist<A, B>(k8s: Source<A>, ceph: Source<B>): (r: Option<string>)
    ensures r.Some? <==> k8s.Unconfigured? || ceph.Unconfigured?
    ensures r == Some(NoZonesAtAll) <==> k8s.Unconfigured? && ceph.Unconfigured?
    ensures r == Some(NoK8sZonesConfigured) <==> k8s.Unconfigured? && !ceph.Unconfigured?
    ensures r == Some(NoCephZonesConfigured) <==> !k8s.Unconfigured? && ceph.Unconfigured?
  {
    if k8s.Unconfigured? && ceph.Unconfigured? then Some(NoZonesAtAll)
    else if k8s.Unconfigured? then Some(NoK8sZonesConfigured)
    else if ceph.Unconfigured? then Some(NoCephZonesConfigured)
    else None
  }

  /** Python's `get_node_name`: the name of each node that has one, in order. */
  function NodeNames<T>(nodes: seq<T>, name: T -> Option<string>): (r: seq<string>)
    ensures |r| <= |nodes|
    ensures (forall i :: 0 <= i < |nodes| ==> name(nodes[i]).Some?)
            ==> |r| == |nodes| && forall i :: 0 <= i < |nodes| ==> r[i] == name(nodes[i]).value
  {
    if nodes == [] then []
    else
      var init := nodes[..|nodes| - 1];
      assert forall i :: 0 <= i < |init| ==> init[i] == nodes[i];
      NodeNames(init, name) + match name(nodes[|nodes| - 1]) case Some(n) => [n] case None => []
  }

  /** The names `get_node_name` returns are exactly the names the nodes carry. */
  lemma {:induction false} NodeNamesMembers<T>(nodes: seq<T>, name: T -> Option<string>, n: string)
    ensures n in NodeNames(nodes, name) <==> exists i :: 0 <= i < |nodes| && name(nodes[i]) == Some(n)
  {
    if nodes != [] {
      var init := nodes[..|nodes| - 1];
      NodeNamesMembers(init, name, n);
      if exists i :: 0 <= i < |nodes| && name(nodes[i]) == Some(n) {
        var i :| 0 <= i < |nodes| && name(nodes[i]) == Some(n);
        if i < |init| {
          assert init[i] == nodes[i];
        }
      }
      if n in NodeNames(init, name) {
        var i :| 0 <= i < |init| && name(init[i]) == Some(n);
        assert nodes[i] == init[i];
      }
    }
  }

  /** Every record the two mappers build carries a "name". */
  function RecordName(r: NodeRecord): Option<string> {
    Some(r.name)
  }

  function StorageName(s: StorageNode): Option<string> {
    Some(s.name)
  }

  const NoNodes := ZoneNodes([], [])

  /** The zones either mapping knows: `set(k8s.keys()) | set(ceph.keys())`. */
  function ZoneNames(k8s: K8sZoneMap, ceph: CephZoneMap): set<string> {
    (set i | 0 <= i < |k8s| :: k8s[i].0) + (set i | 0 <= i < |ceph| :: ceph[i].0)
  }

  /** The entry for one zone of the union. */
  function ZoneSummaryOf(k8s: K8sZoneMap, ceph: CephZoneMap, z: string): ZoneSummary {
    var zn := Get(k8s, z).GetOr(NoNodes);
    var masters := NodeNames(zn.masters, RecordName);
    var workers := NodeNames(zn.workers, RecordName);
    var storage := NodeNames(Get(ceph, z).GetOr([]), StorageName);
    ZoneSummary(z,
                if masters != [] || workers != []
                then Some(K8sSection(if masters != [] then Some(masters) else None,
                                     if workers != [] then Some(workers) else None))
                else None,
                if storage != [] then Some(storage) else None)
  }

  /** `zones` lists each zone of `done` exactly once, with its summary, and nothing else. */
  predicate ListsEachOnce(zones: seq<ZoneSummary>, k8s: K8sZoneMap, ceph: CephZoneMap, done: set<string>) {
    && (forall i :: 0 <= i < |zones| ==> zones[i].name in done && zones[i] == ZoneSummaryOf(k8s, ceph, zones[i].name))
    && (forall z :: z in done ==> exists i :: 0 <= i < |zones| && zones[i].name == z)
    && (forall i, j :: 0 <= i < j < |zones| ==> zones[i].name != zones[j].name)
  }

  lemma ListsEachOnceStep(zones: seq<ZoneSummary>, k8s: K8sZoneMap, ceph: CephZoneMap, done: set<string>, z: string)
    requires ListsEachOnce(zones, k8s, ceph, done) && z !in done
    ensures ListsEachOnce(zones + [ZoneSummaryOf(k8s, ceph, z)], k8s, ceph, done + {z})
  {
    var zones' := zones + [ZoneSummaryOf(k8s, ceph, z)];
    forall y | y in done + {z} ensures exists i :: 0 <= i < |zones'| && zones'[i].name == y {
      if y in done {
        var i :| 0 <= i < |zones| && zones[i].name == y;
        assert zones'[i] == zones[i];
      } else {
        assert zones'[|zones|].name == y;
      }
    }
  }

  /** The body of `map_zones`'s loop: the entry of one zone, built key by key. */
  method SummarizeZone(k8s: K8sZoneMap, ceph: CephZoneMap, z: string) returns (e: ZoneSummary)
    ensures e == ZoneSummaryOf(k8s, ceph, z)
  {
    var masters := NodeNames(Get(k8s, z).GetOr(NoNodes).masters, RecordName);
    var workers := NodeNames(Get(k8s, z).GetOr(NoNodes).workers, RecordName);
    var storage := NodeNames(Get(ceph, z).GetOr([]), StorageName);
    var section: Option<K8sSection> := None;
    if masters != [] || workers != [] {
      section := Some(K8sSection(None, None));
      if masters != [] {
        section := Some(section.value.(masters := Some(masters)));
      }
      if workers != [] {
        section := Some(section.value.(workers := Some(workers)));
      }
    }
    var cephPart: Option<seq<string>> := None;
    if storage != [] {
      cephPart := Some(storage);
    }
    e := ZoneSummary(z, section, cephPart);
  }

  /** Python's `map_zones`: a node-topology error is reported before a storage error; an
      unconfigured side gives the `zoneExist` listing; otherwise every zone of the union is
      listed exactly once (in the unspecified order of set iteration), with its summary. */
  method MapZones(k8s: Source<K8sZoneMap>, ceph: Source<CephZoneMap>) returns (r: ZoneListing)
    ensures k8s.Failed? ==> r == ListError(k8s.msg)
    ensures !k8s.Failed? && ceph.Failed? ==> r == ListError(ceph.msg)
    ensures !k8s.Failed? && !ceph.Failed? && (k8s.Unconfigured? || ceph.Unconfigured?)
            ==> r == Listing([], ZoneExist(k8s, ceph))
    ensures k8s.Configured? && ceph.Configured?
            ==> r.Listing? && r.information == None && |r.zones| == |ZoneNames(k8s.data, ceph.data)|
                && ListsEachOnce(r.zones, k8s.data, ceph.data, ZoneNames(k8s.data, ceph.data))
  {
    if k8s.Failed? {
      return ListError(k8s.msg);
    }
    if ceph.Failed? {
      return ListError(ceph.msg);
    }
    if k8s.Unconfigured? || ceph.Unconfigured? {
      return Listing([], ZoneExist(k8s, ceph));
    }
    var zones := SummarizeZones(k8s.data, ceph.data, ZoneNames(k8s.data, ceph.data));
    r := Listing(zones, None);
  }

  /** The loop of `map_zones` over `all_zone_names`: one entry per zone of `names`, taken in
      whatever order the set yields them. */
  method SummarizeZones(k8s: K8sZoneMap, ceph: CephZoneMap, names: set<string>) returns (zones: seq<ZoneSummary>)
    ensures |zones| == |names|
    ensures ListsEachOnce(zones, k8s, ceph, names)
  {
    var remaining := names;
    ghost var done: set<string> := {};
    zones := [];
    while remaining != {}
      invariant done + remaining == names && done !! remaining
      invariant ListsEachOnce(zones, k8s, ceph, done)
      decreases remaining
    {
      var z :| z in remaining;
      var entry := SummarizeZone(k8s, ceph, z);
      ListsEachOnceStep(zones, k8s, ceph, done, z);
      zones := zones + [entry];
      done := done + {z};
      remaining := remaining - {z};
    }
    ListsEachOnceSize(zones, k8s, ceph, names);
  }

  /** A listing that holds each zone of `done` exactly once has one entry per zone. */
  lemma ListsEachOnceSize(zones: seq<ZoneSummary>, k8s: K8sZoneMap, ceph: CephZoneMap, done: set<string>)
    requires ListsEachOnce(zones, k8s, ceph, done)
    ensures |zones| == |done|
  {
    var names := seq(|zones|, i requires 0 <= i < |zones| => zones[i].name);
    forall y ensures y in done <==> y in names {
      if y in names {
        var i :| 0 <= i < |names| && names[i] == y;
        assert zones[i].name == y;
      }
      if y in done {
        var i :| 0 <= i < |zones| && zones[i].name == y;
        assert names[i] == y;
      }
    }
    DistinctCount(names, done);
  }

  /** A sequence without repeats whose elements are exactly `done` has one position per element. */
  lemma {:induction false} DistinctCount(names: seq<string>, done: set<string>)
    requires Distinct(names)
    requires forall y :: y in done <==> y in names
    ensures |names| == |done|
  {
    if names == [] {
      assert forall y :: y !in done;
      assert done == {};
    } else {
      var n := |names| - 1;
      var init := names[..n];
      var rest := done - {names[n]};
      forall y ensures y in rest <==> y in init {
        if y in init {
          var i :| 0 <= i < n && init[i] == y;
          assert names[i] == y;
        }
        if y in names && y != names[n] {
          var i :| 0 <= i < |names| && names[i] == y;
          assert i != n && init[i] == y;
        }
      }
      DistinctCount(init, rest);
      assert done == rest + {names[n]};
    }
  }

  /** The "Kubernetes Topology Zone" part of a zone's entry is present exactly when some node
      labelled with that zone is a master ("ncn-m…") or a worker ("ncn-w…"). */
  lemma SummaryK8sSection(nodes: seq<K8sNode>, ceph: CephZoneMap, z: string)
    ensures ZoneSummaryOf(ZoneMapping(nodes), ceph, z).k8s.Some?
            <==> exists i :: 0 <= i < |nodes| && ZoneOf(nodes[i]) == Some(z)
                             && (StartsWith(nodes[i].name, MasterPrefix) || StartsWith(nodes[i].name, WorkerPrefix))
  {
    ZoneMappingLookup(nodes, z);
    FirstSeenMembers(nodes, ZoneOf);
    var masters := Masters(nodes, z);
    var workers := Workers(nodes, z);
    if z in FirstSeen(nodes, ZoneOf) {
      assert Get(ZoneMapping(nodes), z).GetOr(NoNodes) == ZoneNodes(masters, workers);
      if masters != [] {
        MasterRecordOrigin(nodes, z, masters[0]);
      } else if workers != [] {
        WorkerRecordOrigin(nodes, z, workers[0]);
      }
      if exists i :: 0 <= i < |nodes| && ZoneOf(nodes[i]) == Some(z)
                     && (StartsWith(nodes[i].name, MasterPrefix) || StartsWith(nodes[i].name, WorkerPrefix)) {
        var i :| 0 <= i < |nodes| && ZoneOf(nodes[i]) == Some(z)
                 && (StartsWith(nodes[i].name, MasterPrefix) || StartsWith(nodes[i].name, WorkerPrefix));
        ClassifiedNode(nodes, i, z);
      }
    }
  }

  /** Inside "Kubernetes Topology Zone", "masters" is present exactly when some node labelled
      with the zone is an "ncn-m…" node, and "workers" exactly when some such node is an
      "ncn-w…" node that is not also a master. */
  lemma SummaryK8sSubKeys(nodes: seq<K8sNode>, ceph: CephZoneMap, z: string)
    ensures var s := ZoneSummaryOf(ZoneMapping(nodes), ceph, z);
            s.k8s.Some? ==>
              && (s.k8s.value.masters.Some?
                  <==> exists i :: 0 <= i < |nodes| && ZoneOf(nodes[i]) == Some(z) && StartsWith(nodes[i].name, MasterPrefix))
              && (s.k8s.value.workers.Some?
                  <==> exists i :: 0 <= i < |nodes| && ZoneOf(nodes[i]) == Some(z)
                                   && StartsWith(nodes[i].name, WorkerPrefix) && !StartsWith(nodes[i].name, MasterPrefix))
  {
    ZoneMappingLookup(nodes, z);
    FirstSeenMembers(nodes, ZoneOf);
    var masters := Masters(nodes, z);
    var workers := Workers(nodes, z);
    if z in FirstSeen(nodes, ZoneOf) {
      assert Get(ZoneMapping(nodes), z).GetOr(NoNodes) == ZoneNodes(masters, workers);
      if masters != [] {
        MasterRecordOrigin(nodes, z, masters[0]);
      }
      if workers != [] {
        WorkerRecordOrigin(nodes, z, workers[0]);
      }
      forall i | 0 <= i < |nodes| && ZoneOf(nodes[i]) == Some(z)
        ensures StartsWith(nodes[i].name, MasterPrefix) ==> masters != []
        ensures StartsWith(nodes[i].name, WorkerPrefix) ==> workers != []
      {
        ClassifiedNode(nodes, i, z);
      }
    }
  }

  /** The "CEPH Zone" part of a zone's entry is present exactly when the zone is a rack of the
      tree and one of the children of its last "rack" node resolves to a storage host. */
  lemma SummaryCephSection(k8s: K8sZoneMap, tree: seq<TreeNode>, statusMap: map<string, string>, z: string)
    ensures ZoneSummaryOf(k8s, CephMapping(tree, statusMap), z).ceph.Some?
            <==> exists i :: IsLastRack(tree, i, z)
                             && exists j :: 0 <= j < |tree[i].children| && StorageNodeOf(tree, statusMap, tree[i].children[j]).Some?
  {
    var ceph := CephMapping(tree, statusMap);
    if z in RackNames(tree) {
      RackEntry(tree, statusMap, z);
      var i :| IsLastRack(tree, i, z) && Get(ceph, z) == Some(RackStorage(tree, statusMap, tree[i].children));
      RackStorageNonEmpty(tree, statusMap, tree[i].children);
      forall i' | IsLastRack(tree, i', z) ensures i' == i {
        LastRackUnique(tree, z, i, i');
      }
    } else {
      CephMappingKeys(tree, statusMap);
      forall i | 0 <= i < |tree| ensures !IsLastRack(tree, i, z) {
        assert tree[i].kind == "rack" ==> tree[i].name in Keys(ceph);
      }
    }
  }

  /** A zone that only carries unprefixed nodes and is no rack is still listed, with its
      name alone. */
  lemma BareZoneEntry(nodes: seq<K8sNode>, ceph: CephZoneMap, i: int)
    requires 0 <= i < |nodes| && ZoneOf(nodes[i]).Some?
    requires forall j :: 0 <= j < |nodes| && ZoneOf(nodes[j]) == ZoneOf(nodes[i])
                         ==> !StartsWith(nodes[j].name, MasterPrefix) && !StartsWith(nodes[j].name, WorkerPrefix)
    requires ZoneOf(nodes[i]).value !in Keys(ceph)
    ensures ZoneOf(nodes[i]).value in ZoneNames(ZoneMapping(nodes), ceph)
    ensures ZoneSummaryOf(ZoneMapping(nodes), ceph, ZoneOf(nodes[i]).value) == ZoneSummary(ZoneOf(nodes[i]).value, None, None)
  {
    var z := ZoneOf(nodes[i]).value;
    var m := ZoneMapping(nodes);
    ZoneMappingKeys(nodes);
    var j :| 0 <= j < |m| && m[j].0 == z;
    assert z == m[j].0;
    SummaryK8sSection(nodes, ceph, z);
  }

  /** A mapping whose one zone is labelled "error" is a configured mapping, yet the source's
      test reads it as an error record (and `map_zones` would answer `{"error": <that zone>}`). */
  lemma ZoneNamedErrorMisread()
    ensures var s: Source<K8sZoneMap> := Configured([("error", NoNodes)]);
            s.Configured? && LooksLikeErrorAsWritten(s)
  {
    var s: Source<K8sZoneMap> := Configured([("error", NoNodes)]);
    assert Keys(s.data)[0] == "error";
  }
}
