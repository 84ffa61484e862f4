/** The critical-service detail (`GET /criticalservices/<service_name>`): the registry entry
    of the service, its configured instance count from the Apps API, and the correlator's
    pods and running count. */
module CriticalServiceDescribe {
  import opened Values
  import opened Dicts
  import opened K8sZones
  import opened ErrorPrint
  import opened CriticalServices

  const ServiceNotFound := "Service not found"
  /** The `ValueError` of `filtered_pods, running_pods = {"error": msg}`: iterating the
      one-key error record yields a single value. */
  const UnpackError := "not enough values to unpack (expected 2, got 1)"

  /** The fields of a workload the Apps API reports: `spec.replicas` of a Deployment or a
      StatefulSet, `status.desired_number_scheduled` of a DaemonSet (`None` for JSON null). */
  datatype Workload = Workload(replicas: Option<int>, desiredNumberScheduled: Option<int>)

  /** The "Critical Service" object. */
  datatype ServiceDetail = ServiceDetail(name: string, namespace: string, kind: string,
                                         configured: Option<int>, running: nat, pods: seq<PodInfo>)

  datatype DescribeResult = DescribeError(msg: string) | Described(detail: ServiceDetail)

  /** The workload types whose configured instance count is read. */
  predicate ReadsWorkload(kind: string) {
    kind == "Deployment" || kind == "StatefulSet" || kind == "DaemonSet"
  }

  function ConfiguredInstances(kind: string, w: Workload): Option<int> {
    if kind == "Deployment" || kind == "StatefulSet" then w.replicas
    else if kind == "DaemonSet" then w.desiredNumberScheduled
    else None
  }

  /** Python's `get_service_details`. The pod listing of a namespace and the workload read
      (type, service name, namespace) are parameters; an exception caught by the handler
      becomes an `{"error": ...}` record carrying its text. */
  function GetServiceDetails(services: Dict<ServiceDef>, serviceName: string, nodesData: Source<K8sZoneMap>,
                             listPods: string -> ApiResult<seq<Pod>>,
                             readWorkload: (string, string, string) -> ApiResult<Workload>): (r: DescribeResult)
    ensures serviceName !in Keys(services) ==> r == DescribeError(ServiceNotFound)
    ensures serviceName in Keys(services) ==>
              var info := Get(services, serviceName).value;
              var pods := NamespacedPods(info, serviceName, nodesData, listPods(info.namespace));
              match pods
              case PodsError(_) => r == DescribeError(PrettyPrintError(UnpackError))
              case PodsRaised(reason) => r == DescribeError(PrettyPrintError(reason))
              case Pods(owned, running) =>
                if ReadsWorkload(info.kind) && readWorkload(info.kind, serviceName, info.namespace).ApiFault?
                then r == DescribeError(PrettyPrintError(readWorkload(info.kind, serviceName, info.namespace).reason))
                else
                  && r.Described?
                  && r.detail.name == serviceName && r.detail.namespace == info.namespace && r.detail.kind == info.kind
                  && r.detail.running == running && r.detail.pods == owned
                  && (!ReadsWorkload(info.kind) ==> r.detail.configured == None)
                  && (info.kind in {"Deployment", "StatefulSet"}
                      ==> r.detail.configured == readWorkload(info.kind, serviceName, info.namespace).value.replicas)
                  && (info.kind == "DaemonSet"
                      ==> r.detail.configured == readWorkload(info.kind, serviceName, info.namespace).value.desiredNumberScheduled)
  {
    match Get(services, serviceName)
    case None => DescribeError(ServiceNotFound)
    case Some(info) =>
      match NamespacedPods(info, serviceName, nodesData, listPods(info.namespace))
      case PodsError(_) => DescribeError(PrettyPrintError(UnpackError))
      case PodsRaised(reason) => DescribeError(PrettyPrintError(reason))
      case Pods(owned, running) =>
        var configured: ApiResult<Option<int>> :=
          if ReadsWorkload(info.kind) then
            match readWorkload(info.kind, serviceName, info.namespace)
            case ApiFault(reason) => ApiFault(reason)
            case ApiOk(w) => ApiOk(ConfiguredInstances(info.kind, w))
          else ApiOk(None);
        match configured
        case ApiOk(instances) =>
          Described(ServiceDetail(serviceName, info.namespace, info.kind, instances, running, owned))
        case ApiFault(reason) => DescribeError(PrettyPrintError(reason))
  }

  /** An unknown service name is answered before any pod listing or workload read: the
      answer is the same whatever those would return. */
  lemma NotFoundLooksNothingUp(services: Dict<ServiceDef>, serviceName: string, nodesData: Source<K8sZoneMap>,
                               listPods: string -> ApiResult<seq<Pod>>, listPods': string -> ApiResult<seq<Pod>>,
                               readWorkload: (string, string, string) -> ApiResult<Workload>,
                               readWorkload': (string, string, string) -> ApiResult<Workload>)
    requires serviceName !in Keys(services)
    ensures GetServiceDetails(services, serviceName, nodesData, listPods, readWorkload)
            == GetServiceDetails(services, serviceName, nodesData, listPods', readWorkload')
            == DescribeError(ServiceNotFound)
  {
  }

  /** Python's `describe_service`: the registry record's services (an error record or a
      record without "critical-services" counts as empty); `None` when reading the
      record raised. */
  function DescribeService(record: Option<ConfigRecord<ServiceDef>>, serviceName: string, nodesData: Source<K8sZoneMap>,
                           listPods: string -> ApiResult<seq<Pod>>,
                           readWorkload: (string, string, string) -> ApiResult<Workload>,
                           raised: string): (r: DescribeResult)
    ensures record.None? ==> r == DescribeError(PrettyPrintError(raised))
    ensures record.Some? && (record.value.RecordError? || record.value.services.None?) ==> r == DescribeError(ServiceNotFound)
    ensures record.Some? && record.value.RecordBody? && record.value.services.Some?
            ==> r == GetServiceDetails(record.value.services.value, serviceName, nodesData, listPods, readWorkload)
  {
    match record
    case None => DescribeError(PrettyPrintError(raised))
    case Some(rec) => GetServiceDetails(ServicesOf(rec), serviceName, nodesData, listPods, readWorkload)
  }

  /** When the config map cannot be read, every service is reported as not found. */
  lemma FetchFailureIsNotFound(read: ApiResult<map<string, string>>, key: string,
                               parse: string -> Option<ConfigRecord<ServiceDef>>, serviceName: string,
                               nodesData: Source<K8sZoneMap>, listPods: string -> ApiResult<seq<Pod>>,
                               readWorkload: (string, string, string) -> ApiResult<Workload>, raised: string)
    requires read.ApiFault?
    ensures DescribeService(GetConfigmap(read, key, parse), serviceName, nodesData, listPods, readWorkload, raised)
            == DescribeError(ServiceNotFound)
  {
    ConfigmapServices(read, key, parse);
  }
}
