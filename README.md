# Rack resiliency service: a verified model of its core

The rack resiliency service merges two views of one HPC installation into a single zone
view. It also keeps a registry of the "critical services" that must survive the loss of a
rack or a zone. The two views are:

- the Kubernetes node topology: nodes grouped by their `topology.kubernetes.io/zone` label,
  as masters (`ncn-m*`) and workers (`ncn-w*`);
- the Ceph storage topology: racks of the OSD placement tree, holding the `ncn-s*` hosts and
  their OSDs.

This project models the core in Dafny and proves properties of the model. The core covered is:

- the two topology mappers (`get_k8s_nodes_data`, `get_ceph_storage_nodes`);
- the zone summary and zone detail (`map_zones`, `zoneExist`, `get_node_name`, `get_zone_info`);
- the instance correlator (`get_namespaced_pods`, `isDeploy`, `get_configmap`);
- the service detail (`get_service_details`, `describe_service`);
- the registry merge and its request validation (`update_configmap`, `update_critical_services`);
- the status listing (`get_critical_services_status`, `get_critical_service_list`).

Modelling conventions:

- The Python "error dict / sentinel string / real dict" results become
  `Source<T> = Failed(msg) | Unconfigured(text) | Configured(data)`.
- Calls into the Kubernetes and Ceph APIs become inputs of type
  `ApiResult<T> = ApiFault(reason) | ApiOk(value)`, or function-typed parameters when they
  depend on arguments. For a Kubernetes call, `ApiFault` is the text of the exception its
  caller catches. For the Ceph tree and host list, it is a parsed reply that carries an
  "error" key.
- Insertion-ordered Python dicts become sequences of key/value pairs (`Dicts`). `Get` is
  `d.get(k)` and `Put` is `d[k] = v`.
- Three Python loop patterns have declarative reference definitions:
  - `Grouping.Grouped`: "group by key, keep input order" (`setdefault(k, []).append(v)`);
  - `Assignment.Assigned`: "assign by key, last write wins, first position kept";
  - `CriticalServiceUpdate.NewEntries`: the add-only merge.
- Each Python loop is a Dafny method proved equal to its reference definition. The
  properties the service promises are lemmas about those definitions.
- `pretty_print_error` is the identity on the error text.

Files, one module each:

- `values.dfy`, `dicts.dfy`, `grouping.dfy`, `assignment.dfy`: shared definitions.
- `k8s_zones.dfy`, `ceph_zones.dfy`, `zone_list.dfy`, `zone_describe.dfy`,
  `critical_services.dfy`, `criticalservice_describe.dfy`, `criticalservice_update.dfy`,
  `criticalservice_status_list.dfy`: one per core source file.
- `error_print.dfy`: `pretty_print_error`.

## Model

| member | source | states |
|---|---|---|
| K8sZones.GetK8sNodesData | src/server/resources/k8s_zones.py:43-71 | A listing failure is returned as the error with its message and no mapping. With no zone-labelled node the result is the sentinel "No K8s topology zone present". Otherwise it is the reference mapping `ZoneMapping`, built by the loop in place. |
| K8sZones.Layout | src/server/resources/k8s_zones.py:62-64 | The zones of the mapping are exactly the given zones, in the given order. |
| K8sZones.LayoutNewZone | src/server/resources/k8s_zones.py:63-64 | Creating a zone no earlier node carried appends it with empty master and worker lists. |
| K8sZones.LayoutSkip | src/server/resources/k8s_zones.py:55-62 | A node without a zone label changes no list. |
| K8sZones.LayoutOnlyZone | src/server/resources/k8s_zones.py:62-69 | A node labelled with zone `z` leaves the entries of every other zone unchanged. |
| K8sZones.LayoutAddNode | src/server/resources/k8s_zones.py:66-69 | A labelled node is appended to its zone's master list or worker list, or to neither. |
| K8sZones.ListsSnoc | src/server/resources/k8s_zones.py:66-69 | A node joins the end of a list of its zone, so lists keep input order. |
| K8sZones.RoleZoneIsZone | src/server/resources/k8s_zones.py:62-69 | A zone that no node is labelled with has no masters and no workers. |
| K8sZones.ZoneMappingKeys | src/server/resources/k8s_zones.py:55-64 | The keys are distinct and are exactly the non-empty zone labels of the nodes. A zone is created even when none of its nodes is a master or a worker. |
| K8sZones.ZoneMappingLookup | src/server/resources/k8s_zones.py:62-69 | Looking a zone up gives its masters and workers when it is a label of some node, and nothing otherwise. |
| K8sZones.NoZonesIffNoLabels | src/server/resources/k8s_zones.py:71 | The sentinel is returned exactly when no node carries a non-empty zone label. |
| K8sZones.ClassifiedNode | src/server/resources/k8s_zones.py:54-69 | A labelled `ncn-m*` node is among its zone's masters, and a labelled `ncn-w*` node among its workers, each with its readiness. |
| K8sZones.MasterRecordOrigin | src/server/resources/k8s_zones.py:52-69 | Every master record comes from a node of that zone with the `ncn-m` prefix and the same name. Its status is Ready exactly when the node's last condition is "True"; no conditions gives NotReady. |
| K8sZones.WorkerRecordOrigin | src/server/resources/k8s_zones.py:52-69 | Every worker record comes from a node of that zone with the `ncn-w` prefix and without the `ncn-m` prefix. Name and readiness are as for masters. |
| K8sZones.RoleCounts | src/server/resources/k8s_zones.py:52-69 | Over all zones, the master lists hold exactly one record per labelled master node, and the worker lists one per labelled worker node. |
| CephZones.GetCephStorageNodes | src/server/resources/ceph_zones.py:112-154 | A tree fault is reported before a host-list fault. A tree without racks gives "No Ceph zones present". Otherwise the result is the reference mapping `CephMapping`, built by the nested loops. |
| CephZones.FindNode | src/server/resources/ceph_zones.py:134 | The lookup finds the first tree node with the id, or reports that none has it. |
| CephZones.OsdsOf | src/server/resources/ceph_zones.py:139-140 | The OSD filter over the tree. Its meaning is stated by OsdsOfMembers and OsdsOfAppend; its own contract bounds the count by the tree size. |
| CephZones.RackStorage | src/server/resources/ceph_zones.py:133-150 | The storage hosts under a rack's children. Its meaning is stated by RackStorageHas, RackStorageMembers and RackStorageAppend; its own contract bounds the count by the number of child ids. |
| CephZones.CephLayout | src/server/resources/ceph_zones.py:126-152 | After visiting part of the tree, the keys are exactly the racks seen so far, once each, in tree order. |
| CephZones.RackStorageSnoc | src/server/resources/ceph_zones.py:133-150 | Each further child id appends its storage node, if any, at the end. |
| CephZones.CephMappingKeys | src/server/resources/ceph_zones.py:128-152 | The keys are distinct and are exactly the names of the tree's "rack" nodes. A rack without storage hosts still gets an entry. |
| CephZones.NoRacksIffSentinel | src/server/resources/ceph_zones.py:154 | The sentinel is returned exactly when the tree has no "rack" node. |
| CephZones.LastRackUnique | src/server/resources/ceph_zones.py:152 | At most one tree node is the last rack with a given name. |
| CephZones.RackEntry | src/server/resources/ceph_zones.py:129-152 | A rack's entry holds the storage under the children of the last rack node with that name. A later rack of the same name overwrites the entry. |
| CephZones.RackStorageAppend | src/server/resources/ceph_zones.py:133-150 | Storage nodes follow the order of the rack's children list. |
| CephZones.RackStorageMembers | src/server/resources/ceph_zones.py:133-150 | A rack's storage holds exactly the nodes contributed by its children. |
| CephZones.RackStorageHas | src/server/resources/ceph_zones.py:133-150 | A storage node is in a rack's storage exactly when some child id contributes it. |
| CephZones.RackStorageNonEmpty | src/server/resources/ceph_zones.py:133-136 | A rack has storage exactly when one of its children resolves to a storage host. |
| CephZones.StorageNodeOfResolves | src/server/resources/ceph_zones.py:134-136 | A child id contributes a storage node exactly when the first tree node with that id is of type "host" and named `ncn-s*`. Ids that resolve to nothing are skipped. |
| CephZones.OsdsOfAppend | src/server/resources/ceph_zones.py:139 | A host's OSDs follow tree order. |
| CephZones.OsdsOfMembers | src/server/resources/ceph_zones.py:137-140 | A host's OSDs are exactly the tree nodes of type "osd" whose id is among the host's children. Each keeps its name, and its status defaults to "unknown". |
| CephZones.HostStatusMapLookup | src/server/resources/ceph_zones.py:124 | The host index answers for exactly the listed hostnames, with the status of the last entry for each. |
| CephZones.StorageHostUnlisted | src/server/resources/ceph_zones.py:142 | A storage host absent from the host list has status "No Status". |
| CephZones.StorageHostListed | src/server/resources/ceph_zones.py:142-144 | A listed storage host has status "Ready" when its last entry is "" or "online". Any other value passes through verbatim. |
| ZoneList.ZoneExist | src/server/models/zone_list.py:29-36 | There is an "Information" text exactly when a side is unconfigured. The text names both sides, only K8s, or only CEPH, according to which sides are unconfigured. |
| ZoneList.NodeNames | src/server/models/zone_list.py:38-40 | There are no more names than nodes. When every node has a name, the result lists each node's name in order. |
| ZoneList.NodeNamesMembers | src/server/models/zone_list.py:38-40 | The names returned are exactly the names the nodes carry. |
| ZoneList.ListsEachOnceStep | src/server/models/zone_list.py:56-73 | Appending the entry of a new zone keeps the rule that every zone handled so far is listed exactly once, with its summary. |
| ZoneList.ListsEachOnceSize | src/server/models/zone_list.py:54-73 | A listing that holds each zone exactly once has as many entries as there are zones. |
| ZoneList.SummarizeZone | src/server/models/zone_list.py:57-73 | The entry built key by key equals the zone's reference summary. |
| ZoneList.SummarizeZones | src/server/models/zone_list.py:53-73 | The loop over the zone set lists every zone of the set exactly once, with its summary, and has one entry per zone. |
| ZoneList.MapZones | src/server/models/zone_list.py:42-75 | A K8s error is propagated before a Ceph error. An unconfigured side gives no zones with the `zoneExist` text. Otherwise every zone of the union of both key sets is listed exactly once, nothing else is listed, and the count equals the union's size. |
| ZoneList.SummaryK8sSection | src/server/models/zone_list.py:57-68 | "Kubernetes Topology Zone" is present exactly when some labelled node of the zone is a master or a worker. |
| ZoneList.SummaryK8sSubKeys | src/server/models/zone_list.py:63-68 | Inside that part, "masters" is present exactly when some node of the zone is an `ncn-m` node, and "workers" exactly when some node of the zone is an `ncn-w` node that is not also a master. |
| ZoneList.SummaryCephSection | src/server/models/zone_list.py:59-71 | "CEPH Zone" is present exactly when the zone is a rack and one of the last such rack's children resolves to a storage host. |
| ZoneList.BareZoneEntry | src/server/models/zone_list.py:53-73 | A labelled zone with neither masters, workers nor storage is still listed, with only its name. |
| ZoneList.ZoneNamedErrorMisread | src/server/models/zone_list.py:44-48 | As written, a configured mapping with a zone named "error" passes the error test. |
| ZoneDescribe.NodeDetails | src/server/models/zone_describe.py:58-64 | One detail per node record. Through GetZoneInfo, the "Nodes" list of each section is exactly one entry per master or worker record. |
| ZoneDescribe.GroupOsdsByStatus | src/server/models/zone_describe.py:73-75 | The `setdefault(...).append(...)` loop computes the reference OSD grouping. |
| ZoneDescribe.OsdStatusMapProperties | src/server/models/zone_describe.py:73-75 | Statuses are keys once each, and they are exactly the OSDs' statuses. Each OSD name is under its own status, names keep input order within a status, and the total equals the number of OSDs. |
| ZoneDescribe.GetZoneInfo | src/server/models/zone_describe.py:30-84 | The errors and the `zoneExist` listing come first. A zone with no masters, workers or storage is "Zone not found". Otherwise the counts equal the list lengths, and each section is present exactly when its list is non-empty. Node details copy name and readiness, and storage nodes keep count and order, each with its OSD grouping. |
| ZoneDescribe.DescribeZoneNamedError | src/server/models/zone_describe.py:32-33 | As written, a configured mapping whose zone "error" holds a master passes the error test. The corrected GetZoneInfo answers with that zone's record: one master, no workers. |
| CriticalServices.IsDeploy | src/server/resources/critical_services.py:94-96 | "Deployment" maps to "ReplicaSet" and every other type to itself, so the result is never "Deployment". |
| CriticalServices.ZoneIndexStep | src/server/resources/critical_services.py:42-47 | Adding a zone maps its master and worker names to it, and every other name keeps its zone. |
| CriticalServices.ZoneIndexDomain | src/server/resources/critical_services.py:42-47 | The index answers exactly for the names some zone lists as master or worker. |
| CriticalServices.ZoneIndexZone | src/server/resources/critical_services.py:42-47 | A name in the index maps to the last zone that lists it. |
| CriticalServices.ZoneIndexLookup | src/server/resources/critical_services.py:42-47 | The node index answers exactly for the master and worker names of the mapping, each mapped to a zone that lists it. |
| CriticalServices.OwnedPods | src/server/resources/critical_services.py:55-75 | At most one result entry per listed pod. |
| CriticalServices.CountRunning | src/server/resources/critical_services.py:60-62 | The running count is at most the number of kept pods. |
| CriticalServices.SumCountsIncrement | src/server/resources/critical_services.py:68 | `zone_pod_count[zone] = get(zone, 0) + 1` raises the sum of the counters by one. |
| CriticalServices.GetNamespacedPods | src/server/resources/critical_services.py:32-76 | A node-mapper error is returned before any pod is examined. The loop computes the reference result, and the per-zone counters add up to the result's length. |
| CriticalServices.PodsZoneNamedError | src/server/resources/critical_services.py:39-40 | As written, a node mapping with a zone "error" passes the error test. The corrected result lists the owned pod on that zone's node, placed in zone "error", with the running count. |
| CriticalServices.CollectPods | src/server/resources/critical_services.py:51-75 | The loop over the pod listing computes exactly the owned pods and their running count. Its per-zone counters add up to the number of owned pods. |
| CriticalServices.OwnedPodsMembers | src/server/resources/critical_services.py:55-75 | A result entry exists exactly for each pod with owner references, one of which has kind `isDeploy(type)` and a name starting with the service name. The entry carries that pod's name, phase, node and zone. |
| CriticalServices.OwnedPodsAppend | src/server/resources/critical_services.py:55-70 | The result keeps pod-list order. |
| CriticalServices.PodZoneFromMapping | src/server/resources/critical_services.py:42-65 | A pod's zone is "unknown" when it has no node or its node is in no master or worker list. Any other zone is one whose master or worker list holds the node, so storage nodes never resolve. |
| CriticalServices.ConfigmapServices | src/server/resources/critical_services.py:98-108 | A read fault gives an error record prefixed "Failed to fetch ConfigMap: " with no services. A missing key gives an empty registry, and a present key gives the parsed value. |
| CriticalServiceDescribe.GetServiceDetails | src/server/models/criticalservice_describe.py:34-72 | An unknown name is "Service not found". Name, namespace and type echo the entry. Running count and pods are the correlator's. Configured instances are replicas for Deployment and StatefulSet, the desired number scheduled for DaemonSet, and None otherwise. Any failure gives an error record, never a partial one. |
| CriticalServiceDescribe.NotFoundLooksNothingUp | src/server/models/criticalservice_describe.py:37-38 | An unknown name is answered without listing pods or reading a workload: the answer does not depend on them. |
| CriticalServiceDescribe.DescribeService | src/server/models/criticalservice_describe.py:74-80 | An error record, or a record without "critical-services", counts as an empty registry, so every name is "Service not found". A read that raises gives its error text. |
| CriticalServiceDescribe.FetchFailureIsNotFound | src/server/models/criticalservice_describe.py:77 | When the config map cannot be read, every service is reported as not found. |
| CriticalServiceUpdate.NewEntries | src/server/models/criticalservice_update.py:70-75 | The entries the merge adds. Its meaning is stated by MergePartition and KnownNames; its own contract bounds the count by the batch size. |
| CriticalServiceUpdate.SkippedNames | src/server/models/criticalservice_update.py:70-72 | Added and skipped together number exactly the batch entries. |
| CriticalServiceUpdate.ResponseOf | src/server/models/criticalservice_update.py:90-97 | "Update" is "Services Already Exist" exactly when something was skipped and nothing added, and "Successful" otherwise. Each list is reported exactly when it is non-empty. |
| CriticalServiceUpdate.KnownNames | src/server/models/criticalservice_update.py:70-75 | After merging part of the batch, a name is in the registry exactly when it was registered before or named by that part. |
| CriticalServiceUpdate.MergeBatch | src/server/models/criticalservice_update.py:67-76 | The loop over the batch computes the merged registry (the old one followed by the new entries), and the added and skipped names. |
| CriticalServiceUpdate.UpdateConfigmap | src/server/models/criticalservice_update.py:53-104 | The loop and the response building compute the reference outcome `ConfigmapUpdate`: result, and the registry handed to the patch call. |
| CriticalServiceUpdate.MergePartition | src/server/models/criticalservice_update.py:70-76 | Each batch name lands in exactly one list: skipped when already registered, added otherwise. |
| CriticalServiceUpdate.MergeKeepsRegistry | src/server/models/criticalservice_update.py:63-81 | Registered services are never overwritten or removed. The merged registry is the old one followed by the new entries. |
| CriticalServiceUpdate.MergeKeepsNamesDistinct | src/server/models/criticalservice_update.py:71-75 | The merged registry has distinct names whenever the old one had. |
| CriticalServiceUpdate.MergeAllKnown | src/server/models/criticalservice_update.py:70-76 | A batch of registered names adds nothing and skips every name. |
| CriticalServiceUpdate.MergeIdempotent | src/server/models/criticalservice_update.py:70-76 | Applying the same batch again skips every name, adds none, and leaves the merged registry unchanged. |
| CriticalServiceUpdate.WriteRule | src/server/models/criticalservice_update.py:59-88 | An error record is returned unchanged and nothing is written. Otherwise, with `test=False` the merged registry is written once, even when nothing was added. With `test=True` it is never written. |
| CriticalServiceUpdate.RejectedBeforeRead | src/server/models/criticalservice_update.py:113-127 | A request that is empty, lacks "from_file", is not JSON or lacks "critical-services" gets 400. The reply does not depend on the registry read or on the patch call, and nothing is written. |
| CriticalServiceUpdate.AcceptedWrites | src/server/models/criticalservice_update.py:129-131 | An accepted request gets 200, even when the result is an error record. It writes exactly when the registry record is not an error record. |
| CriticalServiceStatusList.MissingField | src/server/models/criticalservice_status_list.py:38-45 | An entry misses a field exactly when one of namespace, type, status and balanced is absent. |
| CriticalServiceStatusList.FirstMissing | src/server/models/criticalservice_status_list.py:37-45 | No field is missing exactly when every entry is complete. |
| CriticalServiceStatusList.FirstMissingPrefix | src/server/models/criticalservice_status_list.py:37-50 | Once an incomplete entry is reached, later entries do not change the error. |
| CriticalServiceStatusList.GetCriticalServicesStatus | src/server/models/criticalservice_status_list.py:33-50 | The loop computes the reference listing: the error of the first missing field, or the grouping by namespace. |
| CriticalServiceStatusList.StatusNamespaces | src/server/models/criticalservice_status_list.py:37-40 | The keys under "namespace" are distinct and are exactly the namespaces of the entries. |
| CriticalServiceStatusList.StatusLineListed | src/server/models/criticalservice_status_list.py:41-46 | Each entry is listed under its own namespace, with name, type, status and balanced copied. |
| CriticalServiceStatusList.StatusLineOrigin | src/server/models/criticalservice_status_list.py:41-46 | Every listed line comes from an entry of that namespace. |
| CriticalServiceStatusList.StatusTotal | src/server/models/criticalservice_status_list.py:37-41 | The lines number exactly the entries. |
| CriticalServiceStatusList.StatusEdgeCases | src/server/models/criticalservice_status_list.py:36-50 | An empty registry gives `{"namespace": {}}`. An incomplete entry anywhere makes the whole result an error, never a partial grouping. |
| CriticalServiceStatusList.CriticalServiceList | src/server/models/criticalservice_status_list.py:52-58 | The listing is wrapped under "critical-services". An error record, or a record without "critical-services", is listed as an empty registry. A read that raises gives its error text. |
| CriticalServiceStatusList.FetchFailureListsNothing | src/server/models/criticalservice_status_list.py:52-56 | When the config map cannot be read, the listing is an empty registry, not an error. |
| ErrorPrint.PrettyPrintErrorAsWritten | src/server/resources/error_print.py:3-12 | A string argument gives its text. An exception object makes the call raise. |
| ErrorPrint.HandlerRaisesAsWritten | src/server/resources/error_print.py:6-11 | As written, a handler passing the exception object raises instead of returning its error record. |

## Left out

- Kubernetes and Ceph I/O is not modelled. This covers `load_k8s_config`, `get_k8s_nodes`,
  `list_namespaced_pod`, `read_namespaced_*`, `read_namespaced_config_map` and
  `patch_namespaced_config_map`. Their answers are inputs; the patch is the returned `sent`
  registry.
- `fetch_ceph_data` and its commented-out variants are not modelled: they are remote
  commands run on a thread pool. The tree and the host list are inputs.
- CephZones.GetCephStorageNodes: a Ceph fetch that fails raises out of `fetch_ceph_data`.
  This covers a non-zero exit status and a reply that is not JSON. Neither
  `get_ceph_storage_nodes`, `get_zones` nor `describe_zone` catches it, so the request ends
  with an uncaught exception, not an `{"error": msg}` record. The model's `Failed` covers
  only a parsed reply that carries an "error" key.
- JSON parsing and `jsonify` are library behaviour. Parsing is a function parameter
  returning `Option`; serialisation is the identity on the model value.
- The Flask routing in `app.py` is not modelled.
- `pretty_print_error`'s unescaping and 100-column wrapping are text layout. `ErrorPrint.PrettyPrintError`
  keeps the text as it is.
- Concurrent updates of the config map (last writer wins) and retries are not modelled.
- `ZoneList.MapZones`: Python iterates a set, in an unspecified order. The contract states
  which zones are listed and how often, not their order.
- Entries with the wrong JSON shape are not modelled: non-dict payloads, a non-string
  "from_file", or nodes lacking keys the mappers index directly. A node record without
  "name" is not modelled either: the mappers always write one.
- A config map whose `data` is missing, which raises, is covered only as "the read raised".
- `CriticalServices.GetNamespacedPods`: the per-zone counters are a ghost output. Python
  computes them and then discards them.
- The second `except client.exceptions.ApiException` in `update_configmap` is not modelled:
  the `except Exception` before it catches everything it would.
- `ErrorPrint.PrettyPrintError`: every handler is modelled with the error text it evidently
  means to report (see Findings).
- Behaviour that may be unexpected but is what the code does:
  - a node without conditions is NotReady, not Unknown;
  - a zone with a label but no masters, workers or storage is still listed, with its name only;
  - the merged registry is written on every call with `test=False`, even when the batch is
    empty;
  - node names must start with `ncn-m` or `ncn-w` to be listed at all.

## Findings

| source | as written | input that shows it | evidently intended | confidence | as-written member | corrected member |
|---|---|---|---|---|---|---|
| src/server/resources/error_print.py:3-12 | Every `except Exception as e` handler calls `pretty_print_error(e)` with the exception object. `e.encode` fails and is caught, but `unescaped_message.splitlines()` then fails on the object and is not caught. | Any exception reaching such a handler, e.g. a status-list entry without "type", or a patch call that raises | Return `{"error": <text of e>}` | not executed | ErrorPrint.HandlerRaisesAsWritten | CriticalServiceStatusList.GetCriticalServicesStatus |
| src/server/models/zone_list.py:44-48 | A mapping counts as failed when `"error" in mapping`, which is also true of a configured mapping with a zone or rack named "error" | A node labelled `topology.kubernetes.io/zone=error` | Treat only the mapper's error record as a failure | not executed | ZoneList.ZoneNamedErrorMisread | ZoneList.MapZones |
| src/server/models/zone_describe.py:32-33 | The same `"error" in k8s_zones` test: a configured mapping with a zone named "error" is answered as `{"error": <that zone's entry>}` | `GET` of any zone while a node is labelled `topology.kubernetes.io/zone=error` | Treat only the mapper's error record as a failure and describe the zone | not executed | ZoneDescribe.DescribeZoneNamedError | ZoneDescribe.GetZoneInfo |
| src/server/resources/critical_services.py:39-40 | The same `"error" in nodes_data` test: the pod listing is replaced by `{"error": <that zone's entry>}`, which `get_service_details` then fails to unpack | Describing any service while a node is labelled `topology.kubernetes.io/zone=error` | List the owned pods, with the zone of each | not executed | CriticalServices.PodsZoneNamedError | CriticalServices.GetNamespacedPods |
