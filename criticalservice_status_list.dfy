/** The critical-service status listing: the registry's entries regrouped by namespace. */
module CriticalServiceStatusList {
  import opened Values
  import opened Dicts
  import opened Grouping
  import opened ErrorPrint
  import opened CriticalServices

  /** A registry entry as the status monitor records it; a field the entry lacks is `None`. */
  datatype StatusEntry = StatusEntry(namespace: Option<string>, kind: Option<string>,
                                     status: Option<string>, balanced: Option<string>)

  /** One line of the listing: "name", "type", "status" and "balanced". */
  datatype StatusLine = StatusLine(name: string, kind: string, status: string, balanced: string)

  /** `{"error": ...}` or `{"namespace": {namespace: [line, ...], ...}}`. */
  datatype StatusListing = StatusError(msg: string) | ByNamespace(namespaces: Dict<seq<StatusLine>>)

  /** The first field the loop reads that the entry lacks: "namespace", then "type",
      "status" and "balanced" in the order the line is built. */
  function MissingField(e: StatusEntry): (f: Option<string>)
    ensures f.None? <==> e.namespace.Some? && e.kind.Some? && e.status.Some? && e.balanced.Some?
  {
    if e.namespace.None? then Some("namespace")
    else if e.kind.None? then Some("type")
    else if e.status.None? then Some("status")
    else if e.balanced.None? then Some("balanced")
    else None
  }

  /** The missing field the loop stops at: the first one of the first incomplete entry. */
  function FirstMissing(services: Dict<StatusEntry>): (f: Option<string>)
    ensures f.None? <==> forall i :: 0 <= i < |services| ==> MissingField(services[i].1).None?
  {
    if services == [] then None
    else
      var init := services[..|services| - 1];
      assert forall i :: 0 <= i < |init| ==> init[i] == services[i];
      if FirstMissing(init).Some? then FirstMissing(init) else MissingField(services[|services| - 1].1)
  }

  function NamespaceKey(entry: (string, StatusEntry)): Option<string> {
    entry.1.namespace
  }

  function LineOf(entry: (string, StatusEntry)): StatusLine {
    StatusLine(entry.0, entry.1.kind.GetOr(""), entry.1.status.GetOr(""), entry.1.balanced.GetOr(""))
  }

  /** What `get_critical_services_status` returns: the `KeyError` of the first missing field,
      else the lines grouped by namespace. */
  function StatusOf(services: Dict<StatusEntry>): StatusListing {
    match FirstMissing(services)
    case Some(field) => StatusError(PrettyPrintError(KeyErrorText(field)))
    case None => ByNamespace(Grouped(services, NamespaceKey, LineOf))
  }

  /** Once a prefix has an incomplete entry, the rest of the input does not matter. */
  lemma {:induction false} FirstMissingPrefix(services: Dict<StatusEntry>, n: nat)
    requires n <= |services| && FirstMissing(services[..n]).Some?
    ensures FirstMissing(services) == FirstMissing(services[..n])
  {
    if n < |services| {
      var init := services[..|services| - 1];
      assert init[..n] == services[..n];
      FirstMissingPrefix(init, n);
    } else {
      assert services[..n] == services;
    }
  }

  /** Python's `get_critical_services_status`. */
  method GetCriticalServicesStatus(services: Dict<StatusEntry>) returns (r: StatusListing)
    ensures r == StatusOf(services)
  {
    var result: Dict<seq<StatusLine>> := [];
    for i := 0 to |services|
      invariant FirstMissing(services[..i]).None?
      invariant result == Grouped(services[..i], NamespaceKey, LineOf)
    {
      var (name, details) := services[i];
      assert services[..i + 1] == services[..i] + [services[i]];
      assert services[..i + 1][..i] == services[..i];
      var missing := MissingField(details);
      if missing.Some? {
        FirstMissingPrefix(services, i + 1);
        return StatusError(PrettyPrintError(KeyErrorText(missing.value)));
      }
      var namespace := details.namespace.value;
      if namespace !in Keys(result) {
        GroupedStepNew(services[..i], services[i], NamespaceKey, LineOf, namespace);
        result := result + [(namespace, [])];
      } else {
        GroupedStepOld(services[..i], services[i], NamespaceKey, LineOf, namespace);
      }
      var line := StatusLine(name, details.kind.value, details.status.value, details.balanced.value);
      result := Put(result, namespace, Get(result, namespace).value + [line]);
    }
    assert services[..|services|] == services;
    return ByNamespace(result);
  }

  /** The namespaces listed when every entry is complete: one key per distinct namespace of
      the entries, and no other. */
  lemma StatusNamespaces(services: Dict<StatusEntry>)
    requires FirstMissing(services).None?
    ensures StatusOf(services).ByNamespace?
    ensures Distinct(Keys(StatusOf(services).namespaces))
    ensures forall ns :: ns in Keys(StatusOf(services).namespaces)
                         <==> exists i :: 0 <= i < |services| && services[i].1.namespace == Some(ns)
  {
    var d := Grouped(services, NamespaceKey, LineOf);
    GroupedKeys(services, NamespaceKey, LineOf);
    FirstSeenDistinct(services, NamespaceKey);
    FirstSeenMembers(services, NamespaceKey);
    assert forall i :: 0 <= i < |services| ==> NamespaceKey(services[i]) == services[i].1.namespace;
    assert StatusOf(services) == ByNamespace(d);
  }

  /** Each entry's line is listed under its own namespace, with name, type, status and
      balanced copied from the entry. */
  lemma StatusLineListed(services: Dict<StatusEntry>, i: int)
    requires FirstMissing(services).None? && 0 <= i < |services|
    ensures var d := StatusOf(services).namespaces;
            var e := services[i].1;
            && Get(d, e.namespace.value).Some?
            && StatusLine(services[i].0, e.kind.value, e.status.value, e.balanced.value) in Get(d, e.namespace.value).value
  {
    var ns := services[i].1.namespace.value;
    FirstSeenMembers(services, NamespaceKey);
    GetGrouped(services, NamespaceKey, LineOf, ns);
    InOwnGroup(services, NamespaceKey, LineOf, i);
  }

  /** Every listed line comes from an entry of that namespace. */
  lemma StatusLineOrigin(services: Dict<StatusEntry>, ns: string, line: StatusLine)
    requires FirstMissing(services).None?
    requires Get(StatusOf(services).namespaces, ns).Some? && line in Get(StatusOf(services).namespaces, ns).value
    ensures exists i :: 0 <= i < |services| && services[i].1.namespace == Some(ns) && LineOf(services[i]) == line
  {
    GetGrouped(services, NamespaceKey, LineOf, ns);
    GroupOfMembers(services, NamespaceKey, LineOf, ns, line);
  }

  /** The lines together number exactly the entries: none is listed twice or dropped. */
  lemma StatusTotal(services: Dict<StatusEntry>)
    requires FirstMissing(services).None?
    ensures Total(StatusOf(services).namespaces) == |services|
  {
    GroupedTotal(services, NamespaceKey, LineOf);
    CountKeyedAll(services, NamespaceKey);
  }

  /** An empty registry lists `{"namespace": {}}`; an incomplete entry anywhere makes the
      whole result an error, never a partial grouping. */
  lemma StatusEdgeCases(services: Dict<StatusEntry>, i: int)
    requires 0 <= i < |services| && MissingField(services[i].1).Some?
    ensures StatusOf([]) == ByNamespace([])
    ensures StatusOf(services).StatusError?
  {
  }

  /** The response of `get_critical_service_list`: the listing under "critical-services", or
      an `{"error": msg}` record when reading the registry raised. */
  datatype ServiceList = ListFailed(msg: string) | ServicesListed(listing: StatusListing)

  /** Python's `get_critical_service_list`, with the registry read as an input: `None` when
      `get_configmap` raised (`raised` is the exception's text), otherwise the record it
      returned. An error record has no "critical-services" key, so it is listed as an empty
      registry. */
  function CriticalServiceList(record: Option<ConfigRecord<StatusEntry>>, raised: string): (r: ServiceList)
    ensures record.None? ==> r == ListFailed(PrettyPrintError(raised))
    ensures record.Some? && (record.value.RecordError? || record.value.services.None?)
            ==> r == ServicesListed(ByNamespace([]))
    ensures record.Some? && record.value.RecordBody? && record.value.services.Some?
            ==> r == ServicesListed(StatusOf(record.value.services.value))
  {
    match record
    case None => ListFailed(PrettyPrintError(raised))
    case Some(rec) =>
      var services := ServicesOf(rec);
      assert services == [] ==> Grouped(services, NamespaceKey, LineOf) == [];
      ServicesListed(StatusOf(services))
  }

  /** When the config map cannot be read, the listing is an empty registry, not an error. */
  lemma FetchFailureListsNothing(read: ApiResult<map<string, string>>, key: string,
                                 parse: string -> Option<ConfigRecord<StatusEntry>>, raised: string)
    requires read.ApiFault?
    ensures CriticalServiceList(GetConfigmap(read, key, parse), raised) == ServicesListed(ByNamespace([]))
  {
    ConfigmapServices(read, key, parse);
  }
}
