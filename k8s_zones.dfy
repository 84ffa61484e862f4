/** Node Topology Mapper (`get_k8s_nodes_data`): groups the cluster's nodes by their zone
    label into master and worker lists, recognising the role by the node name's prefix. */
module K8sZones {
  import opened Values
  import opened Dicts
  import opened Grouping

  const ZoneLabel := "topology.kubernetes.io/zone"
  const MasterPrefix := "ncn-m"
  const WorkerPrefix := "ncn-w"
  const NoK8sZones := "No K8s topology zone present"

  /** A node as the node listing returns it: its name, its labels, and the status strings of
      its conditions in listing order. */
  datatype K8sNode = K8sNode(name: string, labels: map<string, string>, conditions: seq<string>)

  datatype Readiness = Ready | NotReady

  /** `{"name": ..., "status": ...}` */
  datatype NodeRecord = NodeRecord(name: string, status: Readiness)

  /** `{'masters': [...], 'workers': [...]}` */
  datatype ZoneNodes = ZoneNodes(masters: seq<NodeRecord>, workers: seq<NodeRecord>)

  type K8sZoneMap = Dict<ZoneNodes>

  /** Ready exactly when the last condition's status is the string "True"; a node without
      conditions starts as 'Unknown' and so ends up NotReady. */
  function NodeStatus(n: K8sNode): Readiness {
    if |n.conditions| > 0 && n.conditions[|n.conditions| - 1] == "True" then Ready else NotReady
  }

  /** The zone label, when present and non-empty (an empty label is falsy in `if node_zone:`). */
  function ZoneOf(n: K8sNode): Option<string> {
    if ZoneLabel in n.labels && n.labels[ZoneLabel] != "" then Some(n.labels[ZoneLabel]) else None
  }

  function Record(n: K8sNode): NodeRecord {
    NodeRecord(n.name, NodeStatus(n))
  }

  /** The zone whose master list the node joins, if any. */
  function MasterZone(n: K8sNode): Option<string> {
    if StartsWith(n.name, MasterPrefix) then ZoneOf(n) else None
  }

  /** The zone whose worker list the node joins, if any (the `elif` branch). */
  function WorkerZone(n: K8sNode): Option<string> {
    if !StartsWith(n.name, MasterPrefix) && StartsWith(n.name, WorkerPrefix) then ZoneOf(n) else None
  }

  function Masters(nodes: seq<K8sNode>, z: string): seq<NodeRecord> {
    GroupOf(nodes, MasterZone, Record, z)
  }

  function Workers(nodes: seq<K8sNode>, z: string): seq<NodeRecord> {
    GroupOf(nodes, WorkerZone, Record, z)
  }

  /** The zones `zs`, in that order, each with the masters and workers `nodes` place in it. */
  function Layout(zs: seq<string>, nodes: seq<K8sNode>): (m: K8sZoneMap)
    ensures Keys(m) == zs
  {
    seq(|zs|, i requires 0 <= i < |zs| => (zs[i], ZoneNodes(Masters(nodes, zs[i]), Workers(nodes, zs[i]))))
  }

  /** Reference definition of the mapping: one entry per distinct zone label in order of first
      appearance; its lists hold, in input order, the records of the nodes of that zone whose
      names carry the master (resp. worker) prefix. */
  function ZoneMapping(nodes: seq<K8sNode>): K8sZoneMap {
    Layout(FirstSeen(nodes, ZoneOf), nodes)
  }

  lemma RoleZoneIsZone(nodes: seq<K8sNode>, z: string)
    requires z !in FirstSeen(nodes, ZoneOf)
    ensures Masters(nodes, z) == [] && Workers(nodes, z) == []
  {
    FirstSeenMembers(nodes, ZoneOf);
    FirstSeenMembers(nodes, MasterZone);
    FirstSeenMembers(nodes, WorkerZone);
    GroupOfAbsent(nodes, MasterZone, Record, z);
    GroupOfAbsent(nodes, WorkerZone, Record, z);
  }

  /** `zone_mapping[z] = {'masters': [], 'workers': []}` for a zone no earlier node carried. */
  lemma LayoutNewZone(zs: seq<string>, nodes: seq<K8sNode>, z: string)
    requires z !in FirstSeen(nodes, ZoneOf)
    ensures Layout(zs, nodes) + [(z, ZoneNodes([], []))] == Layout(zs + [z], nodes)
  {
    RoleZoneIsZone(nodes, z);
  }

  lemma ListsSnoc(nodes: seq<K8sNode>, n: K8sNode, z: string)
    ensures Masters(nodes + [n], z) == Masters(nodes, z) + (if MasterZone(n) == Some(z) then [Record(n)] else [])
    ensures Workers(nodes + [n], z) == Workers(nodes, z) + (if WorkerZone(n) == Some(z) then [Record(n)] else [])
  {
    GroupOfSnoc(nodes, n, MasterZone, Record, z);
    GroupOfSnoc(nodes, n, WorkerZone, Record, z);
  }

  /** A node without a zone label changes no list. */
  lemma LayoutSkip(zs: seq<string>, nodes: seq<K8sNode>, n: K8sNode)
    requires ZoneOf(n) == None
    ensures Layout(zs, nodes + [n]) == Layout(zs, nodes)
  {
    var a, b := Layout(zs, nodes + [n]), Layout(zs, nodes);
    forall i | 0 <= i < |zs| ensures a[i] == b[i] {
      ListsSnoc(nodes, n, zs[i]);
      assert Masters(nodes + [n], zs[i]) == Masters(nodes, zs[i]);
      assert Workers(nodes + [n], zs[i]) == Workers(nodes, zs[i]);
    }
  }

  /** A node with zone label `z` changes no zone but `z`. */
  lemma LayoutOnlyZone(zs: seq<string>, nodes: seq<K8sNode>, n: K8sNode, z: string, j: int)
    requires Distinct(zs) && 0 <= j < |zs| && zs[j] == z && ZoneOf(n) == Some(z)
    ensures Layout(zs, nodes + [n])
            == Layout(zs, nodes)[j := (z, ZoneNodes(Masters(nodes + [n], z), Workers(nodes + [n], z)))]
  {
    var m := Layout(zs, nodes);
    var m' := Layout(zs, nodes + [n]);
    var v := (z, ZoneNodes(Masters(nodes + [n], z), Workers(nodes + [n], z)));
    forall i | 0 <= i < |m'| ensures m'[i] == m[j := v][i] {
      if i != j {
        assert zs[i] != z;
        ListsSnoc(nodes, n, zs[i]);
        assert MasterZone(n) != Some(zs[i]) && WorkerZone(n) != Some(zs[i]);
        assert Masters(nodes + [n], zs[i]) == Masters(nodes, zs[i]);
        assert Workers(nodes + [n], zs[i]) == Workers(nodes, zs[i]);
      }
    }
  }

  /** A node with zone label `z` is appended to the master or worker list of `z`, or to neither. */
  lemma LayoutAddNode(zs: seq<string>, nodes: seq<K8sNode>, n: K8sNode, z: string)
    requires Distinct(zs) && z in zs && ZoneOf(n) == Some(z)
    ensures var m := Layout(zs, nodes);
            var zn := Get(m, z).value;
            Layout(zs, nodes + [n])
            == if StartsWith(n.name, MasterPrefix) then Put(m, z, zn.(masters := zn.masters + [Record(n)]))
               else if StartsWith(n.name, WorkerPrefix) then Put(m, z, zn.(workers := zn.workers + [Record(n)]))
               else m
  {
    var m := Layout(zs, nodes);
    var j :| 0 <= j < |zs| && zs[j] == z;
    GetAt(m, j);
    var zn := Get(m, z).value;
    assert zn == ZoneNodes(Masters(nodes, z), Workers(nodes, z));
    LayoutOnlyZone(zs, nodes, n, z, j);
    ListsSnoc(nodes, n, z);
    var v := ZoneNodes(Masters(nodes + [n], z), Workers(nodes + [n], z));
    PutAt(m, j, v);
    if StartsWith(n.name, MasterPrefix) {
      assert MasterZone(n) == Some(z) && WorkerZone(n) == None;
      assert Workers(nodes + [n], z) == Workers(nodes, z);
      assert v == zn.(masters := zn.masters + [Record(n)]);
    } else if StartsWith(n.name, WorkerPrefix) {
      assert MasterZone(n) == None && WorkerZone(n) == Some(z);
      assert Masters(nodes + [n], z) == Masters(nodes, z);
      assert v == zn.(workers := zn.workers + [Record(n)]);
    } else {
      assert MasterZone(n) == None && WorkerZone(n) == None;
      assert Masters(nodes + [n], z) == Masters(nodes, z) && Workers(nodes + [n], z) == Workers(nodes, z);
      assert m[j := (z, v)] == m;
    }
  }

  /** get_k8s_nodes_data, with the node listing (or the listing's failure) as input. */
  method GetK8sNodesData(listing: ApiResult<seq<K8sNode>>) returns (r: Source<K8sZoneMap>)
    ensures listing.ApiFault? ==> r == Failed(listing.reason)
    ensures listing.ApiOk? && FirstSeen(listing.value, ZoneOf) == [] ==> r == Unconfigured(NoK8sZones)
    ensures listing.ApiOk? && FirstSeen(listing.value, ZoneOf) != [] ==> r == Configured(ZoneMapping(listing.value))
  {
    if listing.ApiFault? {
      return Failed(listing.reason);
    }
    var nodes := listing.value;
    var zoneMapping: K8sZoneMap := [];
    for i := 0 to |nodes|
      invariant zoneMapping == ZoneMapping(nodes[..i])
    {
      var node := nodes[i];
      assert nodes[..i + 1] == nodes[..i] + [node];
      FirstSeenSnoc(nodes[..i], node, ZoneOf);
      FirstSeenDistinct(nodes[..i + 1], ZoneOf);
      var nodeStatus := if |node.conditions| > 0 && node.conditions[|node.conditions| - 1] == "True" then Ready else NotReady;
      var nodeZone := ZoneOf(node);
      if nodeZone.Some? {
        var z := nodeZone.value;
        if z !in Keys(zoneMapping) {
          LayoutNewZone(FirstSeen(nodes[..i], ZoneOf), nodes[..i], z);
          zoneMapping := zoneMapping + [(z, ZoneNodes([], []))];
        }
        LayoutAddNode(FirstSeen(nodes[..i + 1], ZoneOf), nodes[..i], node, z);
        var zn := Get(zoneMapping, z).value;
        if StartsWith(node.name, MasterPrefix) {
          zoneMapping := Put(zoneMapping, z, zn.(masters := zn.masters + [NodeRecord(node.name, nodeStatus)]));
        } else if StartsWith(node.name, WorkerPrefix) {
          zoneMapping := Put(zoneMapping, z, zn.(workers := zn.workers + [NodeRecord(node.name, nodeStatus)]));
        }
      } else {
        LayoutSkip(FirstSeen(nodes[..i], ZoneOf), nodes[..i], node);
      }
    }
    assert nodes[..|nodes|] == nodes;
    if zoneMapping == [] {
      return Unconfigured(NoK8sZones);
    }
    return Configured(zoneMapping);
  }

  /** The mapping's keys are exactly the distinct non-empty zone labels of the listed nodes,
      each once; a zone is present even when none of its nodes is a master or a worker. */
  lemma ZoneMappingKeys(nodes: seq<K8sNode>)
    ensures Distinct(Keys(ZoneMapping(nodes)))
    ensures forall z :: z in Keys(ZoneMapping(nodes)) <==> exists i :: 0 <= i < |nodes| && ZoneOf(nodes[i]) == Some(z)
  {
    FirstSeenDistinct(nodes, ZoneOf);
    FirstSeenMembers(nodes, ZoneOf);
  }

  /** Looking a zone up in the mapping gives its master and worker lists. */
  lemma ZoneMappingLookup(nodes: seq<K8sNode>, z: string)
    ensures Get(ZoneMapping(nodes), z)
            == if z in FirstSeen(nodes, ZoneOf) then Some(ZoneNodes(Masters(nodes, z), Workers(nodes, z))) else None
  {
    var m := ZoneMapping(nodes);
    FirstSeenDistinct(nodes, ZoneOf);
    if z in FirstSeen(nodes, ZoneOf) {
      var j :| 0 <= j < |m| && m[j].0 == z;
      GetAt(m, j);
    }
  }

  /** The "unconfigured" sentinel is returned exactly when no node carries a non-empty zone label. */
  lemma NoZonesIffNoLabels(nodes: seq<K8sNode>)
    ensures FirstSeen(nodes, ZoneOf) == [] <==> forall i :: 0 <= i < |nodes| ==> ZoneOf(nodes[i]) == None
  {
    FirstSeenMembers(nodes, ZoneOf);
    if FirstSeen(nodes, ZoneOf) != [] {
      assert FirstSeen(nodes, ZoneOf)[0] in FirstSeen(nodes, ZoneOf);
    }
  }

  /** Classification, forwards: a node labelled with zone `z` is listed under `z` as a master
      when its name starts with "ncn-m", as a worker when it starts with "ncn-w". */
  lemma ClassifiedNode(nodes: seq<K8sNode>, i: int, z: string)
    requires 0 <= i < |nodes| && ZoneOf(nodes[i]) == Some(z)
    ensures StartsWith(nodes[i].name, MasterPrefix) ==> Record(nodes[i]) in Masters(nodes, z)
    ensures StartsWith(nodes[i].name, WorkerPrefix) ==> Record(nodes[i]) in Workers(nodes, z)
  {
    if StartsWith(nodes[i].name, MasterPrefix) {
      InOwnGroup(nodes, MasterZone, Record, i);
    } else if StartsWith(nodes[i].name, WorkerPrefix) {
      InOwnGroup(nodes, WorkerZone, Record, i);
    }
  }

  /** Classification, backwards: every record in a zone's master list comes from a node with
      that zone label whose name starts with "ncn-m", and carries that node's name and
      readiness (Ready exactly when its last condition is "True"); nodes without a zone label
      and nodes with neither prefix are in no list. */
  lemma MasterRecordOrigin(nodes: seq<K8sNode>, z: string, r: NodeRecord)
    requires r in Masters(nodes, z)
    ensures exists i :: 0 <= i < |nodes| && ZoneOf(nodes[i]) == Some(z) && StartsWith(nodes[i].name, MasterPrefix)
                        && r.name == nodes[i].name
                        && (r.status == Ready <==> |nodes[i].conditions| > 0 && nodes[i].conditions[|nodes[i].conditions| - 1] == "True")
  {
    GroupOfMembers(nodes, MasterZone, Record, z, r);
  }

  /** As MasterRecordOrigin, for the worker list: its nodes start with "ncn-w" and not "ncn-m". */
  lemma WorkerRecordOrigin(nodes: seq<K8sNode>, z: string, r: NodeRecord)
    requires r in Workers(nodes, z)
    ensures exists i :: 0 <= i < |nodes| && ZoneOf(nodes[i]) == Some(z)
                        && StartsWith(nodes[i].name, WorkerPrefix) && !StartsWith(nodes[i].name, MasterPrefix)
                        && r.name == nodes[i].name
                        && (r.status == Ready <==> |nodes[i].conditions| > 0 && nodes[i].conditions[|nodes[i].conditions| - 1] == "True")
  {
    GroupOfMembers(nodes, WorkerZone, Record, z, r);
  }

  /** Each listed node appears once: over all zones, the master lists hold exactly one record
      per labelled "ncn-m" node and the worker lists one per labelled "ncn-w" node. */
  lemma RoleCounts(nodes: seq<K8sNode>)
    ensures SumGroups(Keys(ZoneMapping(nodes)), nodes, MasterZone, Record) == CountKeyed(nodes, MasterZone)
    ensures SumGroups(Keys(ZoneMapping(nodes)), nodes, WorkerZone, Record) == CountKeyed(nodes, WorkerZone)
  {
    var zs := FirstSeen(nodes, ZoneOf);
    FirstSeenDistinct(nodes, ZoneOf);
    FirstSeenMembers(nodes, ZoneOf);
    SumGroupsCover(zs, nodes, MasterZone, Record);
    SumGroupsCover(zs, nodes, WorkerZone, Record);
  }
}
