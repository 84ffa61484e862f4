/** The registry update (`PATCH /criticalservices`): a batch of services is merged into the
    critical-service registry without touching the services already registered, the merged
    registry is written back, and the response reports what was added and what was skipped. */
module CriticalServiceUpdate {
  import opened Values
  import opened Dicts
  import opened ErrorPrint
  import opened CriticalServices

  const ServicesKey := "critical-services"
  const Successful := "Successful"
  const AlreadyExist := "Services Already Exist"
  const InvalidRequest := "Invalid request format"
  const InvalidJson := "Invalid JSON format in services"
  const MissingServices := "Missing 'critical-services' in payload"

  /** The response: "Update", then "Successfully Added Services" and "Already Existing
      Services" when their lists are non-empty. */
  datatype UpdateResponse = UpdateResponse(update: string, added: Option<seq<string>>, skipped: Option<seq<string>>)

  datatype UpdateResult = UpdateError(msg: string) | Updated(response: UpdateResponse)

  /** The result of `update_configmap` and the registry it hands to the config-map patch
      (`None` when no patch is attempted). */
  datatype UpdateOutcome<V> = UpdateOutcome(result: UpdateResult, sent: Option<Dict<V>>)

  /** The batch entries that are added: those whose name is neither registered nor used by an
      earlier entry of the batch, in batch order. */
  function NewEntries<V>(existing: Dict<V>, batch: Dict<V>): (n: Dict<V>)
    ensures |n| <= |batch|
  {
    if batch == [] then []
    else
      var init := batch[..|batch| - 1];
      var last := batch[|batch| - 1];
      NewEntries(existing, init) + if last.0 !in Keys(existing) && last.0 !in Keys(init) then [last] else []
  }

  /** The names of the other batch entries, in batch order. */
  function SkippedNames<V>(existing: Dict<V>, batch: Dict<V>): (s: seq<string>)
    ensures |s| + |NewEntries(existing, batch)| == |batch|
  {
    if batch == [] then []
    else
      var init := batch[..|batch| - 1];
      var last := batch[|batch| - 1];
      SkippedNames(existing, init) + if last.0 in Keys(existing) || last.0 in Keys(init) then [last.0] else []
  }

  /** The response-status rule: "Services Already Exist" exactly when something was skipped
      and nothing added; each list is reported exactly when it is non-empty. */
  function ResponseOf(added: seq<string>, skipped: seq<string>): (r: UpdateResponse)
    ensures r.update == AlreadyExist <==> skipped != [] && added == []
    ensures r.update != AlreadyExist ==> r.update == Successful
    ensures r.added.Some? <==> added != []
    ensures r.added.Some? ==> r.added.value == added
    ensures r.skipped.Some? <==> skipped != []
    ensures r.skipped.Some? ==> r.skipped.value == skipped
  {
    UpdateResponse(if skipped != [] && added == [] then AlreadyExist else Successful,
                   if added != [] then Some(added) else None,
                   if skipped != [] then Some(skipped) else None)
  }

  /** What `update_configmap` does with the batch (`None` when the payload has no
      "critical-services" object), the registry record, the `test` flag and the outcome of
      the patch call (`Some(reason)` when it raises). */
  function ConfigmapUpdate<V>(batch: Option<Dict<V>>, existing: ConfigRecord<V>, test: bool,
                              patchFault: Option<string>): UpdateOutcome<V> {
    match existing
    case RecordError(msg) => UpdateOutcome(UpdateError(msg), None)
    case RecordBody(services) =>
      match batch
      case None => UpdateOutcome(UpdateError(PrettyPrintError(KeyErrorText(ServicesKey))), None)
      case Some(b) =>
        var registry := services.GetOr([]);
        var merged := registry + NewEntries(registry, b);
        var response := ResponseOf(Keys(NewEntries(registry, b)), SkippedNames(registry, b));
        if test then UpdateOutcome(Updated(response), None)
        else
          match patchFault
          case Some(reason) => UpdateOutcome(UpdateError(PrettyPrintError(reason)), Some(merged))
          case None => UpdateOutcome(Updated(response), Some(merged))
  }

  /** A name is known after merging a prefix of the batch exactly when it was registered or
      named by that prefix. */
  lemma {:induction false} KnownNames<V>(existing: Dict<V>, xs: Dict<V>, k: string)
    ensures k in Keys(existing + NewEntries(existing, xs)) <==> k in Keys(existing) || k in Keys(xs)
  {
    KeysConcat(existing, NewEntries(existing, xs));
    if xs != [] {
      var init := xs[..|xs| - 1];
      var last := xs[|xs| - 1];
      KnownNames(existing, init, k);
      assert xs == init + [last];
      KeysAppend(init, last.0, last.1);
      if last.0 !in Keys(existing) && last.0 !in Keys(init) {
        assert NewEntries(existing, xs) == NewEntries(existing, init) + [last];
        KeysAppend(NewEntries(existing, init), last.0, last.1);
      } else {
        assert NewEntries(existing, xs) == NewEntries(existing, init);
      }
      KeysConcat(existing, NewEntries(existing, init));
    }
  }

  lemma MergeStep<V>(registry: Dict<V>, batch: Dict<V>, i: int)
    requires 0 <= i < |batch|
    ensures var b := batch[..i];
            var x := batch[i];
            && NewEntries(registry, batch[..i + 1])
               == NewEntries(registry, b) + (if x.0 !in Keys(registry) && x.0 !in Keys(b) then [x] else [])
            && SkippedNames(registry, batch[..i + 1])
               == SkippedNames(registry, b) + (if x.0 in Keys(registry) || x.0 in Keys(b) then [x.0] else [])
  {
    assert batch[..i + 1][..i] == batch[..i];
  }

  /** The loop of `update_configmap` over the batch: the merged registry and the names added
      and skipped. */
  method MergeBatch<V>(registry: Dict<V>, batch: Dict<V>) returns (merged: Dict<V>, added: seq<string>, skipped: seq<string>)
    ensures merged == registry + NewEntries(registry, batch)
    ensures added == Keys(NewEntries(registry, batch))
    ensures skipped == SkippedNames(registry, batch)
  {
    merged, added, skipped := registry, [], [];
    for i := 0 to |batch|
      invariant merged == registry + NewEntries(registry, batch[..i])
      invariant added == Keys(NewEntries(registry, batch[..i]))
      invariant skipped == SkippedNames(registry, batch[..i])
    {
      var (serviceName, details) := batch[i];
      MergeStep(registry, batch, i);
      KnownNames(registry, batch[..i], serviceName);
      if serviceName in Keys(merged) {
        skipped := skipped + [serviceName];
      } else {
        PutAbsent(merged, serviceName, details);
        KeysAppend(NewEntries(registry, batch[..i]), serviceName, details);
        merged := Put(merged, serviceName, details);
        added := added + [serviceName];
      }
    }
    assert batch[..|batch|] == batch;
  }

  /** Python's `update_configmap`. */
  method UpdateConfigmap<V>(batch: Option<Dict<V>>, existing: ConfigRecord<V>, test: bool, patchFault: Option<string>)
    returns (result: UpdateResult, sent: Option<Dict<V>>)
    ensures UpdateOutcome(result, sent) == ConfigmapUpdate(batch, existing, test, patchFault)
  {
    if existing.RecordError? {
      return UpdateError(existing.msg), None;
    }
    var existingServices := existing.services.GetOr([]);
    if batch.None? {
      return UpdateError(PrettyPrintError(KeyErrorText(ServicesKey))), None;
    }
    var addedServices, skippedServices;
    existingServices, addedServices, skippedServices := MergeBatch(existingServices, batch.value);
    sent := None;
    if !test {
      sent := Some(existingServices);
      if patchFault.Some? {
        return UpdateError(PrettyPrintError(patchFault.value)), sent;
      }
    }
    var response := UpdateResponse(Successful, None, None);
    if addedServices != [] {
      response := response.(added := Some(addedServices));
    }
    if skippedServices != [] {
      response := response.(skipped := Some(skippedServices));
      if |addedServices| == 0 {
        response := response.(update := AlreadyExist);
      }
    }
    result := Updated(response);
  }

  /** Every batch name lands in exactly one list: skipped when already registered, added
      otherwise (the names of a JSON object are distinct). */
  lemma {:induction false} MergePartition<V>(existing: Dict<V>, batch: Dict<V>, k: string)
    requires Distinct(Keys(batch))
    ensures k in Keys(NewEntries(existing, batch)) <==> k in Keys(batch) && k !in Keys(existing)
    ensures k in SkippedNames(existing, batch) <==> k in Keys(batch) && k in Keys(existing)
  {
    if batch != [] {
      var init := batch[..|batch| - 1];
      var last := batch[|batch| - 1];
      assert batch == init + [last];
      KeysAppend(init, last.0, last.1);
      assert Keys(init) == Keys(batch)[..|init|];
      assert Distinct(Keys(init));
      assert last.0 !in Keys(init) by {
        assert forall i :: 0 <= i < |init| ==> Keys(batch)[i] != Keys(batch)[|init|];
      }
      MergePartition(existing, init, k);
      if last.0 !in Keys(existing) {
        assert NewEntries(existing, batch) == NewEntries(existing, init) + [last];
        KeysAppend(NewEntries(existing, init), last.0, last.1);
      } else {
        assert NewEntries(existing, batch) == NewEntries(existing, init);
        assert SkippedNames(existing, batch) == SkippedNames(existing, init) + [last.0];
      }
    }
  }

  /** Registered services are never overwritten or removed: the merged registry starts with
      the registry as it was, and looking a registered name up gives its old entry. */
  lemma MergeKeepsRegistry<V>(existing: Dict<V>, batch: Dict<V>, k: string)
    requires k in Keys(existing)
    ensures (existing + NewEntries(existing, batch))[..|existing|] == existing
    ensures Get(existing + NewEntries(existing, batch), k) == Get(existing, k)
  {
    GetFront(existing, NewEntries(existing, batch), k);
  }

  /** The merged registry has distinct names whenever the registry had. */
  lemma {:induction false} MergeKeepsNamesDistinct<V>(existing: Dict<V>, batch: Dict<V>)
    requires Distinct(Keys(existing))
    ensures Distinct(Keys(existing + NewEntries(existing, batch)))
  {
    if batch != [] {
      var init := batch[..|batch| - 1];
      var last := batch[|batch| - 1];
      MergeKeepsNamesDistinct(existing, init);
      if last.0 !in Keys(existing) && last.0 !in Keys(init) {
        var m := existing + NewEntries(existing, init);
        KnownNames(existing, init, last.0);
        KeysAppend(m, last.0, last.1);
        assert existing + NewEntries(existing, batch) == m + [last];
      } else {
        assert existing + NewEntries(existing, batch) == existing + NewEntries(existing, init);
      }
    }
  }

  /** Merging a batch whose names are all registered adds nothing and skips every name. */
  lemma {:induction false} MergeAllKnown<V>(existing: Dict<V>, batch: Dict<V>)
    requires forall i :: 0 <= i < |batch| ==> batch[i].0 in Keys(existing)
    ensures NewEntries(existing, batch) == []
    ensures SkippedNames(existing, batch) == Keys(batch)
  {
    if batch != [] {
      var init := batch[..|batch| - 1];
      assert forall i :: 0 <= i < |init| ==> init[i] == batch[i];
      MergeAllKnown(existing, init);
      assert batch == init + [batch[|batch| - 1]];
      KeysAppend(init, batch[|batch| - 1].0, batch[|batch| - 1].1);
    }
  }

  /** Applying the same batch a second time skips every name, adds none, and leaves the
      merged registry as it was. */
  lemma MergeIdempotent<V>(existing: Dict<V>, batch: Dict<V>)
    ensures var merged := existing + NewEntries(existing, batch);
            && NewEntries(merged, batch) == []
            && SkippedNames(merged, batch) == Keys(batch)
            && merged + NewEntries(merged, batch) == merged
  {
    var merged := existing + NewEntries(existing, batch);
    forall i | 0 <= i < |batch| ensures batch[i].0 in Keys(merged) {
      KnownNames(existing, batch, batch[i].0);
      assert Keys(batch)[i] == batch[i].0;
    }
    MergeAllKnown(merged, batch);
  }

  /** The write rule: the merged registry goes to the patch call on every call with
      `test=False` that gets past the two error checks, whether or not anything was added;
      with `test=True`, or on an error record, nothing is written. */
  lemma WriteRule<V>(batch: Option<Dict<V>>, existing: ConfigRecord<V>, test: bool, patchFault: Option<string>)
    ensures var out := ConfigmapUpdate(batch, existing, test, patchFault);
            && (out.sent.Some? <==> !test && existing.RecordBody? && batch.Some?)
            && (out.sent.Some? ==> out.sent.value == existing.services.GetOr([]) + NewEntries(existing.services.GetOr([]), batch.value))
    ensures existing.RecordError? ==> ConfigmapUpdate(batch, existing, test, patchFault) == UpdateOutcome(UpdateError(existing.msg), None)
  {
  }

  /** The parsed "from_file" payload: its "critical-services" object, `None` when absent. */
  datatype Payload<V> = Payload(services: Option<Dict<V>>)

  datatype UpdateReply<V> = UpdateReply(status: int, body: UpdateResult, sent: Option<Dict<V>>)

  /** Python's `update_critical_services`: the request body (`None` for a null body), JSON
      parsing as a parameter (`None` for unparsable text), the registry record (`None` when
      reading it raised, with text `raised`) and the outcome of the patch call. */
  function UpdateCriticalServices<V>(request: Option<map<string, string>>, parse: string -> Option<Payload<V>>,
                                     existing: Option<ConfigRecord<V>>, patchFault: Option<string>,
                                     raised: string): UpdateReply<V> {
    if request.None? || request.value == map[] || "from_file" !in request.value then
      UpdateReply(400, UpdateError(InvalidRequest), None)
    else
      match parse(request.value["from_file"])
      case None => UpdateReply(400, UpdateError(InvalidJson), None)
      case Some(payload) =>
        if payload.services.None? then UpdateReply(400, UpdateError(MissingServices), None)
        else
          match existing
          case None => UpdateReply(500, UpdateError(PrettyPrintError(raised)), None)
          case Some(record) =>
            var out := ConfigmapUpdate(payload.services, record, false, patchFault);
            UpdateReply(200, out.result, out.sent)
  }

  /** A request that is empty, lacks "from_file", is not JSON, or lacks "critical-services" is
      refused with status 400 before the registry is read: the reply does not depend on the
      registry or on the patch call, and nothing is written. */
  lemma RejectedBeforeRead<V>(request: Option<map<string, string>>, parse: string -> Option<Payload<V>>,
                              existing: Option<ConfigRecord<V>>, existing': Option<ConfigRecord<V>>,
                              patchFault: Option<string>, patchFault': Option<string>, raised: string)
    requires || request.None? || request.value == map[] || "from_file" !in request.value
             || parse(request.value["from_file"]).None?
             || parse(request.value["from_file"]).value.services.None?
    ensures UpdateCriticalServices(request, parse, existing, patchFault, raised)
            == UpdateCriticalServices(request, parse, existing', patchFault', raised)
    ensures UpdateCriticalServices(request, parse, existing, patchFault, raised).status == 400
    ensures UpdateCriticalServices(request, parse, existing, patchFault, raised).sent.None?
  {
  }

  /** An accepted request always writes the merged registry once (there is no test mode on
      this path) unless the registry record is an error record. */
  lemma AcceptedWrites<V>(request: map<string, string>, parse: string -> Option<Payload<V>>,
                          record: ConfigRecord<V>, patchFault: Option<string>, raised: string)
    requires "from_file" in request && parse(request["from_file"]).Some?
    requires parse(request["from_file"]).value.services.Some?
    ensures var reply := UpdateCriticalServices(Some(request), parse, Some(record), patchFault, raised);
            && reply.status == 200
            && (reply.sent.Some? <==> record.RecordBody?)
  {
    assert request != map[];
  }
}
