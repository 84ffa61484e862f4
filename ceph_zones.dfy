/** The storage side of the topology: `get_ceph_storage_nodes` walks the Ceph OSD placement
    tree (rack, then storage host, then OSD) and attaches to each storage host the status the
    orchestrator's host list reports for it. The tree and the host list are inputs. */
module CephZones {
  import opened Values
  import opened Dicts
  import opened Grouping
  import opened Assignment

  const StoragePrefix := "ncn-s"
  const NoCephZones := "No Ceph zones present"
  const NoStatus := "No Status"
  const UnknownOsdStatus := "unknown"

  /** One item of the tree's "nodes" list; a missing "children" list is the empty one, a
      missing "status" is `None`. */
  datatype TreeNode = TreeNode(id: int, kind: string, name: string, children: seq<int>, status: Option<string>)

  /** One entry of the host list. */
  datatype HostEntry = HostEntry(hostname: string, status: string)

  datatype Osd = Osd(name: string, status: string)
  datatype StorageNode = StorageNode(name: string, status: string, osds: seq<Osd>)

  /** Rack name to the storage hosts placed under it. */
  type CephZoneMap = Dict<seq<StorageNode>>

  /** The `{hostname: status}` index of the host list; a later entry for the same host
      overrides an earlier one. */
  function HostStatusMap(hosts: seq<HostEntry>): map<string, string> {
    if hosts == [] then map[]
    else
      var last := hosts[|hosts| - 1];
      HostStatusMap(hosts[..|hosts| - 1])[last.hostname := last.status]
  }

  /** The status reported for a storage host: "Ready" for "" and "online", "No Status" when
      the host list does not mention it, anything else verbatim. */
  function HostStatus(statusMap: map<string, string>, name: string): string {
    var s := if name in statusMap then statusMap[name] else NoStatus;
    if s == "" || s == "online" then "Ready" else s
  }

  /** The first tree node with the given id (Python's `next(..., None)`). */
  function FindNode(tree: seq<TreeNode>, id: int): (r: Option<TreeNode>)
    ensures r.None? ==> forall i :: 0 <= i < |tree| ==> tree[i].id != id
    ensures r.Some? ==> exists i :: 0 <= i < |tree| && tree[i] == r.value && r.value.id == id
                                    && forall j :: 0 <= j < i ==> tree[j].id != id
  {
    if tree == [] then None
    else if tree[0].id == id then Some(tree[0])
    else
      var r := FindNode(tree[1..], id);
      assert forall j :: 1 <= j < |tree| ==> tree[j] == tree[1..][j - 1];
      r
  }

  predicate IsOsdOf(x: TreeNode, ids: seq<int>) {
    x.id in ids && x.kind == "osd"
  }

  function OsdEntry(x: TreeNode): Osd {
    Osd(x.name, x.status.GetOr(UnknownOsdStatus))
  }

  /** The OSDs among `tree` whose ids are listed in `ids`, in tree order. */
  function OsdsOf(tree: seq<TreeNode>, ids: seq<int>): (r: seq<Osd>)
    ensures |r| <= |tree|
  {
    if tree == [] then []
    else
      var x := tree[|tree| - 1];
      OsdsOf(tree[..|tree| - 1], ids) + (if IsOsdOf(x, ids) then [OsdEntry(x)] else [])
  }

  /** A tree node that is a storage host: type "host" and a name starting with "ncn-s". */
  predicate IsStorageHost(h: TreeNode) {
    h.kind == "host" && StartsWith(h.name, StoragePrefix)
  }

  function StorageEntry(tree: seq<TreeNode>, statusMap: map<string, string>, h: TreeNode): StorageNode {
    StorageNode(h.name, HostStatus(statusMap, h.name), OsdsOf(tree, h.children))
  }

  /** What one child id of a rack contributes: a storage node when the id resolves to a
      storage host, nothing otherwise. */
  function StorageNodeOf(tree: seq<TreeNode>, statusMap: map<string, string>, id: int): Option<StorageNode> {
    match FindNode(tree, id)
    case Some(h) => if IsStorageHost(h) then Some(StorageEntry(tree, statusMap, h)) else None
    case None => None
  }

  /** The storage nodes of a rack with the given children, in children order. */
  function RackStorage(tree: seq<TreeNode>, statusMap: map<string, string>, children: seq<int>): (r: seq<StorageNode>)
    ensures |r| <= |children|
  {
    if children == [] then []
    else
      RackStorage(tree, statusMap, children[..|children| - 1])
      + match StorageNodeOf(tree, statusMap, children[|children| - 1])
        case Some(s) => [s]
        case None => []
  }

  function RackKey(x: TreeNode): Option<string> {
    if x.kind == "rack" then Some(x.name) else None
  }

  function RackValue(tree: seq<TreeNode>, statusMap: map<string, string>): TreeNode -> seq<StorageNode> {
    (x: TreeNode) => RackStorage(tree, statusMap, x.children)
  }

  /** The names of the racks among `items`, each once, in tree order. */
  function RackNames(items: seq<TreeNode>): seq<string> {
    FirstSeen(items, RackKey)
  }

  /** The zone mapping after the items `items` of the tree have been visited: every rack
      seen so far maps to the storage under it (a rack name that occurs twice keeps its first
      position and takes the storage of its last occurrence). */
  function CephLayout(tree: seq<TreeNode>, items: seq<TreeNode>, statusMap: map<string, string>): (m: CephZoneMap)
    ensures Keys(m) == RackNames(items)
  {
    Assigned(items, RackKey, RackValue(tree, statusMap))
  }

  function CephMapping(tree: seq<TreeNode>, statusMap: map<string, string>): CephZoneMap {
    CephLayout(tree, tree, statusMap)
  }

  lemma RackStorageSnoc(tree: seq<TreeNode>, statusMap: map<string, string>, children: seq<int>, j: int)
    requires 0 <= j < |children|
    ensures RackStorage(tree, statusMap, children[..j + 1])
            == RackStorage(tree, statusMap, children[..j])
               + match StorageNodeOf(tree, statusMap, children[j]) case Some(s) => [s] case None => []
  {
    assert children[..j + 1][..j] == children[..j];
  }

  /** Python's `get_ceph_storage_nodes`, with the two outputs of the Ceph fetch as inputs:
      an error in the tree is reported before an error in the host list, a tree without
      racks gives the "No Ceph zones present" sentinel, and otherwise the result is the
      rack-by-rack storage mapping. A fault here is a parsed reply that carries an "error"
      key; a fetch that fails outright raises, uncaught, and is not part of this model. */
  method GetCephStorageNodes(tree: ApiResult<seq<TreeNode>>, hosts: ApiResult<seq<HostEntry>>) returns (r: Source<CephZoneMap>)
    ensures tree.ApiFault? ==> r == Failed(tree.reason)
    ensures tree.ApiOk? && hosts.ApiFault? ==> r == Failed(hosts.reason)
    ensures tree.ApiOk? && hosts.ApiOk? && RackNames(tree.value) == [] ==> r == Unconfigured(NoCephZones)
    ensures tree.ApiOk? && hosts.ApiOk? && RackNames(tree.value) != []
            ==> r == Configured(CephMapping(tree.value, HostStatusMap(hosts.value)))
  {
    if tree.ApiFault? {
      return Failed(tree.reason);
    }
    if hosts.ApiFault? {
      return Failed(hosts.reason);
    }
    var nodes := tree.value;
    var statusMap := HostStatusMap(hosts.value);
    var zones: CephZoneMap := [];
    for i := 0 to |nodes|
      invariant zones == CephLayout(nodes, nodes[..i], statusMap)
    {
      var item := nodes[i];
      assert nodes[..i + 1] == nodes[..i] + [item];
      if item.kind == "rack" {
        var storage: seq<StorageNode> := [];
        for j := 0 to |item.children|
          invariant storage == RackStorage(nodes, statusMap, item.children[..j])
        {
          RackStorageSnoc(nodes, statusMap, item.children, j);
          var hostNode := FindNode(nodes, item.children[j]);
          if hostNode.Some? && hostNode.value.kind == "host" && StartsWith(hostNode.value.name, StoragePrefix) {
            var osds := OsdsOf(nodes, hostNode.value.children);
            var status := HostStatus(statusMap, hostNode.value.name);
            storage := storage + [StorageNode(hostNode.value.name, status, osds)];
          }
        }
        assert item.children[..|item.children|] == item.children;
        if item.name in RackNames(nodes[..i]) {
          AssignedStepOld(nodes[..i], item, RackKey, RackValue(nodes, statusMap), item.name);
        } else {
          AssignedStepNew(nodes[..i], item, RackKey, RackValue(nodes, statusMap), item.name);
        }
        zones := Put(zones, item.name, storage);
      } else {
        AssignedSkip(nodes[..i], item, RackKey, RackValue(nodes, statusMap));
      }
    }
    assert nodes[..|nodes|] == nodes;
    if zones == [] {
      r := Unconfigured(NoCephZones);
    } else {
      r := Configured(zones);
    }
  }

  /** The mapping's keys are exactly the names of the tree's "rack" nodes, each once. */
  lemma CephMappingKeys(tree: seq<TreeNode>, statusMap: map<string, string>)
    ensures Distinct(Keys(CephMapping(tree, statusMap)))
    ensures forall z :: z in Keys(CephMapping(tree, statusMap))
                        <==> exists i :: 0 <= i < |tree| && tree[i].kind == "rack" && tree[i].name == z
  {
    FirstSeenDistinct(tree, RackKey);
    FirstSeenMembers(tree, RackKey);
    forall z ensures (exists i :: 0 <= i < |tree| && RackKey(tree[i]) == Some(z))
                     <==> (exists i :: 0 <= i < |tree| && tree[i].kind == "rack" && tree[i].name == z) {
      if exists i :: 0 <= i < |tree| && tree[i].kind == "rack" && tree[i].name == z {
        var i :| 0 <= i < |tree| && tree[i].kind == "rack" && tree[i].name == z;
        assert RackKey(tree[i]) == Some(z);
      }
    }
  }

  /** The sentinel is returned exactly when the tree holds no "rack" node. */
  lemma NoRacksIffSentinel(tree: seq<TreeNode>)
    ensures RackNames(tree) == [] <==> forall i :: 0 <= i < |tree| ==> tree[i].kind != "rack"
  {
    FirstSeenMembers(tree, RackKey);
    if RackNames(tree) != [] {
      assert RackNames(tree)[0] in RackNames(tree);
    }
    forall i | 0 <= i < |tree| ensures tree[i].kind == "rack" ==> tree[i].name in RackNames(tree) {
      assert tree[i].kind == "rack" ==> RackKey(tree[i]) == Some(tree[i].name);
    }
  }

  /** `tree[i]` is the last "rack" node named `z`. */
  predicate IsLastRack(tree: seq<TreeNode>, i: int, z: string) {
    && 0 <= i < |tree| && tree[i].kind == "rack" && tree[i].name == z
    && forall j :: i < j < |tree| ==> !(tree[j].kind == "rack" && tree[j].name == z)
  }

  lemma LastRackUnique(tree: seq<TreeNode>, z: string, i: int, i': int)
    requires IsLastRack(tree, i, z) && IsLastRack(tree, i', z)
    ensures i == i'
  {
    assert !(i < i') && !(i' < i);
  }

  /** A rack's entry holds the storage under the children of the last "rack" node with that
      name, and is present (possibly empty) for every rack. */
  lemma RackEntry(tree: seq<TreeNode>, statusMap: map<string, string>, z: string)
    requires z in RackNames(tree)
    ensures exists i :: IsLastRack(tree, i, z)
                        && Get(CephMapping(tree, statusMap), z) == Some(RackStorage(tree, statusMap, tree[i].children))
  {
    GetAssigned(tree, RackKey, RackValue(tree, statusMap), z);
    LatestIsLast(tree, RackKey, RackValue(tree, statusMap), z);
    var i :| 0 <= i < |tree| && RackKey(tree[i]) == Some(z)
             && RackValue(tree, statusMap)(tree[i]) == Latest(tree, RackKey, RackValue(tree, statusMap), z).value
             && forall j :: i < j < |tree| ==> RackKey(tree[j]) != Some(z);
    assert tree[i].kind == "rack" && tree[i].name == z;
    forall j | i < j < |tree| ensures !(tree[j].kind == "rack" && tree[j].name == z) {
      assert RackKey(tree[j]) != Some(z);
    }
  }

  /** A rack's storage follows the order of its children: the storage of two runs of
      children is the storage of the first run followed by that of the second. */
  lemma {:induction false} RackStorageAppend(tree: seq<TreeNode>, statusMap: map<string, string>, a: seq<int>, b: seq<int>)
    ensures RackStorage(tree, statusMap, a + b) == RackStorage(tree, statusMap, a) + RackStorage(tree, statusMap, b)
  {
    if b == [] {
      assert a + b == a;
    } else {
      var b' := b[..|b| - 1];
      assert (a + b)[..|a + b| - 1] == a + b';
      assert (a + b)[|a + b| - 1] == b[|b| - 1];
      RackStorageAppend(tree, statusMap, a, b');
    }
  }

  /** A rack's storage holds exactly the nodes contributed by its children: each child that
      resolves to a storage host gives that host's node, and every node comes from such a
      child. */
  lemma RackStorageMembers(tree: seq<TreeNode>, statusMap: map<string, string>, children: seq<int>)
    ensures forall s :: s in RackStorage(tree, statusMap, children)
                        <==> exists j :: 0 <= j < |children| && StorageNodeOf(tree, statusMap, children[j]) == Some(s)
  {
    forall s ensures s in RackStorage(tree, statusMap, children)
                     <==> exists j :: 0 <= j < |children| && StorageNodeOf(tree, statusMap, children[j]) == Some(s) {
      RackStorageHas(tree, statusMap, children, s);
    }
  }

  /** A rack has storage exactly when one of its children resolves to a storage host. */
  lemma RackStorageNonEmpty(tree: seq<TreeNode>, statusMap: map<string, string>, children: seq<int>)
    ensures RackStorage(tree, statusMap, children) != []
            <==> exists j :: 0 <= j < |children| && StorageNodeOf(tree, statusMap, children[j]).Some?
  {
    var storage := RackStorage(tree, statusMap, children);
    if storage != [] {
      RackStorageHas(tree, statusMap, children, storage[0]);
    }
    if exists j :: 0 <= j < |children| && StorageNodeOf(tree, statusMap, children[j]).Some? {
      var j :| 0 <= j < |children| && StorageNodeOf(tree, statusMap, children[j]).Some?;
      RackStorageHas(tree, statusMap, children, StorageNodeOf(tree, statusMap, children[j]).value);
    }
  }

  lemma {:induction false} RackStorageHas(tree: seq<TreeNode>, statusMap: map<string, string>, children: seq<int>, s: StorageNode)
    ensures s in RackStorage(tree, statusMap, children)
            <==> exists j :: 0 <= j < |children| && StorageNodeOf(tree, statusMap, children[j]) == Some(s)
  {
    if children != [] {
      var n := |children| - 1;
      var init := children[..n];
      RackStorageHas(tree, statusMap, init, s);
      assert RackStorage(tree, statusMap, children)
             == RackStorage(tree, statusMap, init)
                + match StorageNodeOf(tree, statusMap, children[n]) case Some(s') => [s'] case None => [];
      if exists j :: 0 <= j < |children| && StorageNodeOf(tree, statusMap, children[j]) == Some(s) {
        var j :| 0 <= j < |children| && StorageNodeOf(tree, statusMap, children[j]) == Some(s);
        if j < n {
          assert init[j] == children[j];
        }
      }
      if s in RackStorage(tree, statusMap, init) {
        var j :| 0 <= j < |init| && StorageNodeOf(tree, statusMap, init[j]) == Some(s);
        assert children[j] == init[j];
      }
    }
  }

  /** A child id contributes a storage node exactly when the first tree node with that id is
      a "host" whose name starts with "ncn-s"; ids that resolve to nothing are skipped. */
  lemma StorageNodeOfResolves(tree: seq<TreeNode>, statusMap: map<string, string>, id: int)
    ensures StorageNodeOf(tree, statusMap, id).Some?
            <==> exists i :: 0 <= i < |tree| && tree[i].id == id && IsStorageHost(tree[i])
                             && forall j :: 0 <= j < i ==> tree[j].id != id
    ensures (forall i :: 0 <= i < |tree| ==> tree[i].id != id) ==> StorageNodeOf(tree, statusMap, id) == None
  {
    var r := FindNode(tree, id);
    if exists i :: 0 <= i < |tree| && tree[i].id == id && IsStorageHost(tree[i])
                   && forall j :: 0 <= j < i ==> tree[j].id != id {
      var i :| 0 <= i < |tree| && tree[i].id == id && IsStorageHost(tree[i])
               && forall j :: 0 <= j < i ==> tree[j].id != id;
      var k :| 0 <= k < |tree| && tree[k] == r.value && r.value.id == id && forall j :: 0 <= j < k ==> tree[j].id != id;
      assert !(i < k) && !(k < i);
    }
  }

  /** The OSDs of a host follow tree order: they distribute over a split of the tree. */
  lemma {:induction false} OsdsOfAppend(a: seq<TreeNode>, b: seq<TreeNode>, ids: seq<int>)
    ensures OsdsOf(a + b, ids) == OsdsOf(a, ids) + OsdsOf(b, ids)
  {
    if b == [] {
      assert a + b == a;
    } else {
      var b' := b[..|b| - 1];
      assert (a + b)[..|a + b| - 1] == a + b';
      assert (a + b)[|a + b| - 1] == b[|b| - 1];
      OsdsOfAppend(a, b', ids);
    }
  }

  /** A host's OSDs are exactly the tree nodes of type "osd" whose id is among the host's
      children, each with its status or "unknown" when it has none. */
  lemma {:induction false} OsdsOfMembers(tree: seq<TreeNode>, ids: seq<int>)
    ensures forall o :: o in OsdsOf(tree, ids)
                        <==> exists i :: 0 <= i < |tree| && tree[i].kind == "osd" && tree[i].id in ids
                                         && o == Osd(tree[i].name, tree[i].status.GetOr(UnknownOsdStatus))
  {
    if tree != [] {
      var init := tree[..|tree| - 1];
      OsdsOfMembers(init, ids);
      forall o ensures o in OsdsOf(tree, ids)
                       <==> exists i :: 0 <= i < |tree| && tree[i].kind == "osd" && tree[i].id in ids
                                        && o == Osd(tree[i].name, tree[i].status.GetOr(UnknownOsdStatus)) {
        if exists i :: 0 <= i < |tree| && tree[i].kind == "osd" && tree[i].id in ids
                       && o == Osd(tree[i].name, tree[i].status.GetOr(UnknownOsdStatus)) {
          var i :| 0 <= i < |tree| && tree[i].kind == "osd" && tree[i].id in ids
                   && o == Osd(tree[i].name, tree[i].status.GetOr(UnknownOsdStatus));
          if i < |init| {
            assert init[i] == tree[i];
          }
        }
        if o in OsdsOf(init, ids) {
          var i :| 0 <= i < |init| && init[i].kind == "osd" && init[i].id in ids
                   && o == Osd(init[i].name, init[i].status.GetOr(UnknownOsdStatus));
          assert tree[i] == init[i];
        }
      }
    }
  }

  /** The host index answers for exactly the hostnames of the list, with the status of the
      last entry for that hostname. */
  lemma {:induction false} HostStatusMapLookup(hosts: seq<HostEntry>, name: string)
    ensures name in HostStatusMap(hosts) <==> exists i :: 0 <= i < |hosts| && hosts[i].hostname == name
    ensures name in HostStatusMap(hosts)
            ==> exists i :: 0 <= i < |hosts| && hosts[i].hostname == name && HostStatusMap(hosts)[name] == hosts[i].status
                            && forall j :: i < j < |hosts| ==> hosts[j].hostname != name
  {
    if hosts != [] {
      var n := |hosts| - 1;
      var init := hosts[..n];
      HostStatusMapLookup(init, name);
      if hosts[n].hostname != name {
        if name in HostStatusMap(init) {
          var i :| 0 <= i < |init| && init[i].hostname == name && HostStatusMap(init)[name] == init[i].status
                   && forall j :: i < j < |init| ==> init[j].hostname != name;
          assert hosts[i] == init[i];
          forall j | i < j < |hosts| ensures hosts[j].hostname != name {
            if j < n {
              assert hosts[j] == init[j];
            }
          }
        }
        if exists i :: 0 <= i < |hosts| && hosts[i].hostname == name {
          var i :| 0 <= i < |hosts| && hosts[i].hostname == name;
          assert init[i] == hosts[i];
        }
      }
    }
  }

  /** A storage host the host list does not name has status "No Status". */
  lemma StorageHostUnlisted(hosts: seq<HostEntry>, name: string)
    requires forall i :: 0 <= i < |hosts| ==> hosts[i].hostname != name
    ensures HostStatus(HostStatusMap(hosts), name) == NoStatus
  {
    HostStatusMapLookup(hosts, name);
  }

  /** A storage host named by the host list takes the status of its last entry there, with
      "" and "online" reported as "Ready". */
  lemma StorageHostListed(hosts: seq<HostEntry>, name: string, i: int)
    requires 0 <= i < |hosts| && hosts[i].hostname == name
    requires forall j :: i < j < |hosts| ==> hosts[j].hostname != name
    ensures HostStatus(HostStatusMap(hosts), name)
            == if hosts[i].status == "" || hosts[i].status == "online" then "Ready" else hosts[i].status
  {
    HostStatusMapLast(hosts, name, i);
  }

  /** The index holds the status of the last entry for a hostname. */
  lemma {:induction false} HostStatusMapLast(hosts: seq<HostEntry>, name: string, i: int)
    requires 0 <= i < |hosts| && hosts[i].hostname == name
    requires forall j :: i < j < |hosts| ==> hosts[j].hostname != name
    ensures name in HostStatusMap(hosts) && HostStatusMap(hosts)[name] == hosts[i].status
  {
    var n := |hosts| - 1;
    if i < n {
      var init := hosts[..n];
      assert init[i] == hosts[i];
      assert forall j :: i < j < |init| ==> init[j] == hosts[j];
      HostStatusMapLast(init, name, i);
      assert hosts[n].hostname != name;
    }
  }
}
