/** The bookkeeping core of SageVueCommunicator: the device cache, its side
    tables and timers, and the atomic steps that change them (list refresh,
    activity monitor, detail cycle of the loader thread, control dispatch).
    Clock reads are the `now` parameters; the network answers and the property
    extractor's output are inputs; the PUT requests are appended to a log. */
module Communicator {
  import opened Wrappers
  import opened Text
  import opened Devices
  import opened Control

  /** defaultMetaDataTimeout: the floor of the list-refresh cooldown (2 min). */
  const DefaultMetaDataTimeout: int := 2 * 60 * 1000
  /** Initial deviceMetaDataInformationRetrievalTimeout (5 min). */
  const InitialMetaDataRetrievalTimeout: int := 5 * 60 * 1000
  /** retrieveStatisticsTimeOut: inactivity period before pausing (3 min). */
  const RetrieveStatisticsTimeOut: int := 3 * 60 * 1000
  /** The pause between two detail cycles (30 s). */
  const DetailCycleInterval: int := 30000

  /** Math.max(defaultMetaDataTimeout, configured). */
  function ListCooldown(configured: int): (r: int)
    ensures r >= DefaultMetaDataTimeout && r >= configured
    ensures r == DefaultMetaDataTimeout || r == configured
  {
    if DefaultMetaDataTimeout >= configured then DefaultMetaDataTimeout else configured
  }

  /** The list refresh runs when the cache is empty or the cooldown is over. */
  predicate ListRefreshDue(cacheSize: nat, cooldownUntil: int, now: int)
  {
    cacheSize == 0 || cooldownUntil <= now
  }

  /** The detail cycle runs when the cache is non-empty and its time has come. */
  predicate DetailCycleDue(cacheSize: nat, nextCycleAt: int, now: int)
  {
    cacheSize > 0 && nextCycleAt <= now
  }

  // ---------------------------------------------------------------------------
  // The device-list response

  /** One top-level field of the device-list JSON, with the devices the
      property extractor yields for its array. */
  datatype ResponseField = ResponseField(name: string, records: seq<Device>)

  /** The extracted devices of every field whose name ends with "Devices",
      in field order. */
  function ExtractedDevices(fields: seq<ResponseField>): seq<Device>
    decreases |fields|
  {
    if fields == [] then []
    else
      var last := fields[|fields| - 1];
      ExtractedDevices(fields[..|fields| - 1]) + (if EndsWith(last.name, "Devices") then last.records else [])
  }

  /** A device is extracted iff it is listed under some "...Devices" field. */
  lemma {:induction false} ExtractedDevicesMembers(fields: seq<ResponseField>, d: Device)
    ensures d in ExtractedDevices(fields) <==>
            exists i :: 0 <= i < |fields| && EndsWith(fields[i].name, "Devices") && d in fields[i].records
    decreases |fields|
  {
    if fields != [] {
      var init := fields[..|fields| - 1];
      ExtractedDevicesMembers(init, d);
      forall i | 0 <= i < |init| ensures init[i] == fields[i] { }
    }
  }

  lemma {:induction false} ExtractedDevicesNone(fields: seq<ResponseField>)
    requires forall i :: 0 <= i < |fields| ==> !EndsWith(fields[i].name, "Devices")
    ensures ExtractedDevices(fields) == []
  {
    if fields != [] {
      var init := fields[..|fields| - 1];
      forall i | 0 <= i < |init| ensures !EndsWith(init[i].name, "Devices") {
        assert init[i] == fields[i];
      }
      ExtractedDevicesNone(init);
    }
  }

  /** The extraction loop of fetchDevicesList: the devices of every
      "...Devices" field, in field order. */
  method ExtractDevices(fields: seq<ResponseField>) returns (extracted: seq<Device>)
    ensures extracted == ExtractedDevices(fields)
  {
    extracted := [];
    var j := 0;
    while j < |fields|
      invariant 0 <= j <= |fields|
      invariant extracted == ExtractedDevices(fields[..j])
    {
      assert fields[..j + 1][..j] == fields[..j];
      if EndsWith(fields[j].name, "Devices") {
        extracted := extracted + fields[j].records;
      }
      j := j + 1;
    }
    assert fields[..|fields|] == fields;
  }

  /** The merge loop of fetchDevicesList: the protected list rebuilt from the
      extracted devices, and the cache updated device by device. */
  method MergeDevices(cache: map<string, Device>, ds: seq<Device>)
    returns (merged: map<string, Device>, protectedSerials: seq<string>)
    ensures merged == MergeListing(cache, ds)
    ensures protectedSerials == ProtectedSerials(ds)
  {
    merged := cache;
    protectedSerials := [];
    var i := 0;
    while i < |ds|
      invariant 0 <= i <= |ds|
      invariant protectedSerials == ProtectedSerials(ds[..i])
      invariant merged == MergeListing(cache, ds[..i])
    {
      var d := ds[i];
      assert ds[..i + 1][..i] == ds[..i];
      if ProtectedFlag(d.properties) {
        protectedSerials := protectedSerials + [d.serialNumber];
      }
      if d.serialNumber in merged {
        merged := merged[d.serialNumber := merged[d.serialNumber].(online := d.online)];
      } else {
        merged := merged[d.serialNumber := d];
      }
      i := i + 1;
    }
    assert ds[..|ds|] == ds;
  }

  // ---------------------------------------------------------------------------
  // The list refresh as a function of the state it touches

  /** The part of the communicator's state that fetchDevicesList reads and writes. */
  datatype ListState = ListState(
    devices: map<string, Device>,
    protectedDevices: seq<string>,
    deviceModels: map<string, string>,
    listCooldownUntil: int,
    nextDetailCycleAt: int)

  datatype RefreshStatus = InCooldown | EmptyResponse | Refreshed(extracted: nat)

  datatype RefreshResult = RefreshResult(status: RefreshStatus, state: ListState)

  /** fetchDevicesList at time `now`, given the parsed response (None for a
      null JSON node) and the configured retrieval timeout. */
  function Refresh(s: ListState, configuredTimeout: int, now: int,
                   response: Option<seq<ResponseField>>): (r: RefreshResult)
    ensures r.status.InCooldown? <==> !ListRefreshDue(|s.devices|, s.listCooldownUntil, now)
    ensures r.status.InCooldown? ==> r.state == s
    ensures !r.status.InCooldown? ==> r.state.deviceModels == map[]
    ensures r.status.Refreshed? ==>
              r.state.listCooldownUntil == now + ListCooldown(configuredTimeout) && r.state.nextDetailCycleAt == now
    ensures !r.status.Refreshed? ==>
              r.state.(deviceModels := s.deviceModels) == s
  {
    if !ListRefreshDue(|s.devices|, s.listCooldownUntil, now) then RefreshResult(InCooldown, s)
    else if response.None? || response.value == [] then
      RefreshResult(EmptyResponse, s.(deviceModels := map[]))
    else
      var ds := ExtractedDevices(response.value);
      RefreshResult(Refreshed(|ds|),
                    ListState(MergeListing(s.devices, ds), ProtectedSerials(ds), map[],
                              now + ListCooldown(configuredTimeout), now))
  }

  /** The cache is keyed by serial number, and every protected serial number
      and every pending task names a cached device. */
  predicate Consistent(s: ListState, pending: seq<string>)
  {
    && Keyed(s.devices)
    && (forall x :: x in s.protectedDevices ==> x in s.devices)
    && (forall x :: x in pending ==> x in s.devices)
  }

  /** Submitting tasks for cached devices keeps the state consistent. */
  lemma ConsistentSubmit(s: ListState, pending: seq<string>, submitted: seq<string>)
    requires Consistent(s, pending)
    requires forall x :: x in submitted ==> x in s.devices
    ensures Consistent(s, pending + submitted)
  {
  }

  /** Replacing a cached device by one with the same serial number keeps the
      state consistent. */
  lemma ConsistentDetails(s: ListState, pending: seq<string>, d: Device)
    requires Consistent(s, pending) && d.serialNumber in s.devices
    ensures Consistent(s.(devices := s.devices[d.serialNumber := d]), pending)
  {
  }

  /** A refresh keeps the cache consistent with the protected list and the
      pending tasks. */
  lemma RefreshConsistent(s: ListState, configuredTimeout: int, now: int,
                          response: Option<seq<ResponseField>>, pending: seq<string>)
    requires Consistent(s, pending)
    ensures Consistent(Refresh(s, configuredTimeout, now, response).state, pending)
  {
    if ListRefreshDue(|s.devices|, s.listCooldownUntil, now) && response.Some? && response.value != [] {
      var ds := ExtractedDevices(response.value);
      MergeListingKeyed(s.devices, ds);
      MergeListingKeys(s.devices, ds);
      ProtectedSerialsListed(ds);
    }
  }

  /** With a non-empty cache and the cooldown in the future nothing changes;
      with an empty cache the refresh always proceeds. */
  lemma RefreshGate(s: ListState, configuredTimeout: int, now: int, response: Option<seq<ResponseField>>)
    ensures |s.devices| > 0 && s.listCooldownUntil > now ==>
              Refresh(s, configuredTimeout, now, response) == RefreshResult(InCooldown, s)
    ensures |s.devices| == 0 ==> Refresh(s, configuredTimeout, now, response).status != InCooldown
  {
  }

  /** A null or field-less response only clears deviceModels: the cache, the
      protected list and both timers stay as they were. */
  lemma RefreshEmptyResponse(s: ListState, configuredTimeout: int, now: int, response: Option<seq<ResponseField>>)
    requires ListRefreshDue(|s.devices|, s.listCooldownUntil, now)
    requires response.None? || response.value == []
    ensures Refresh(s, configuredTimeout, now, response)
            == RefreshResult(EmptyResponse, s.(deviceModels := map[]))
  {
  }

  /** A device once cached is never dropped, whatever the response. */
  lemma RefreshNeverForgets(s: ListState, configuredTimeout: int, now: int, response: Option<seq<ResponseField>>)
    ensures s.devices.Keys <= Refresh(s, configuredTimeout, now, response).state.devices.Keys
    ensures Keyed(s.devices) ==> Keyed(Refresh(s, configuredTimeout, now, response).state.devices)
  {
    if ListRefreshDue(|s.devices|, s.listCooldownUntil, now) && response.Some? && response.value != [] {
      MergeListingKeys(s.devices, ExtractedDevices(response.value));
      if Keyed(s.devices) {
        MergeListingKeyed(s.devices, ExtractedDevices(response.value));
      }
    }
  }

  /** A refresh that goes through sets the cooldown to now plus at least two
      minutes, restarts the detail cycle, adds exactly the new serial numbers,
      touches only the online flag of devices already cached, and lists as
      protected exactly the extracted devices flagged isProtected. */
  lemma RefreshApplied(s: ListState, configuredTimeout: int, now: int, fields: seq<ResponseField>)
    requires ListRefreshDue(|s.devices|, s.listCooldownUntil, now) && fields != []
    ensures var r := Refresh(s, configuredTimeout, now, Some(fields));
            var ds := ExtractedDevices(fields);
            && r.status == Refreshed(|ds|)
            && r.state.listCooldownUntil == now + ListCooldown(configuredTimeout)
            && r.state.listCooldownUntil >= now + DefaultMetaDataTimeout
            && r.state.nextDetailCycleAt == now
            && r.state.deviceModels == map[]
            && r.state.devices.Keys == s.devices.Keys + SerialsOf(ds)
            && (forall k :: k in s.devices ==>
                  r.state.devices[k] == s.devices[k].(online := r.state.devices[k].online))
            && (forall x :: x in r.state.protectedDevices <==>
                  exists i :: 0 <= i < |ds| && ds[i].serialNumber == x && ProtectedFlag(ds[i].properties))
  {
    var ds := ExtractedDevices(fields);
    MergeListingKeys(s.devices, ds);
    forall k | k in s.devices
      ensures MergeListing(s.devices, ds)[k] == s.devices[k].(online := MergeListing(s.devices, ds)[k].online)
    {
      MergeListingKeepsEntry(s.devices, ds, k);
    }
    forall x
      ensures x in ProtectedSerials(ds) <==>
              exists i :: 0 <= i < |ds| && ds[i].serialNumber == x && ProtectedFlag(ds[i].properties)
    {
      ProtectedSerialsSpec(ds, x);
    }
  }

  /** The emptiness check looks at the JSON's fields, not at the devices: a
      response whose fields hold no "...Devices" array leaves the cache as it
      is but still advances the cooldown and empties the protected list. */
  lemma RefreshWithoutDeviceFields(s: ListState, configuredTimeout: int, now: int, fields: seq<ResponseField>)
    requires ListRefreshDue(|s.devices|, s.listCooldownUntil, now) && fields != []
    requires forall i :: 0 <= i < |fields| ==> !EndsWith(fields[i].name, "Devices")
    ensures var r := Refresh(s, configuredTimeout, now, Some(fields));
            && r.status == Refreshed(0)
            && r.state.devices == s.devices
            && r.state.protectedDevices == []
            && r.state.listCooldownUntil == now + ListCooldown(configuredTimeout)
  {
    ExtractedDevicesNone(fields);
  }

  // ---------------------------------------------------------------------------
  // Detail fetches

  /** The cached device after one fetchDeviceDetails task: the fetched detail
      (applyProperties, modelled as overriding the properties it carries),
      then the comma-joined firmware options including the current version. */
  function WithDetails(d: Device, detail: Option<map<string, string>>, versions: seq<string>): (r: Device)
    ensures r.(properties := d.properties) == d
    ensures "AvailableFirmwareVersions" in r.properties
  {
    var props := if detail.Some? then d.properties + detail.value else d.properties;
    d.(properties := props["AvailableFirmwareVersions" := Join(",", Distinct(versions + [CurrentFirmware(props)]))])
  }

  /** The firmware option list of a device splits back into the model's
      versions and the current one, each once, when no version holds a comma. */
  lemma FirmwareOptionsOfDetails(d: Device, detail: Option<map<string, string>>, versions: seq<string>)
    requires forall i :: 0 <= i < |versions| ==> ',' !in versions[i]
    requires var props := if detail.Some? then d.properties + detail.value else d.properties;
             ',' !in CurrentFirmware(props)
    ensures var props := if detail.Some? then d.properties + detail.value else d.properties;
            var options := Split(WithDetails(d, detail, versions).properties["AvailableFirmwareVersions"], ',');
            && NoDuplicates(options)
            && (forall v :: v in options <==> v in versions || v == CurrentFirmware(props))
            && WithDetails(d, detail, versions).properties - {"AvailableFirmwareVersions"}
               == props - {"AvailableFirmwareVersions"}
  {
    var props := if detail.Some? then d.properties + detail.value else d.properties;
    var all := versions + [CurrentFirmware(props)];
    DistinctSpec(all);
    var xs := Distinct(all);
    assert CurrentFirmware(props) in all;
    forall i | 0 <= i < |xs| ensures ',' !in xs[i] {
      assert xs[i] in all;
    }
    SplitJoin(xs, ',');
  }

  /** removeIf(Future::isDone): the pending tasks that have not finished. */
  function WithoutFinished(pending: seq<string>, finished: set<string>): (r: seq<string>)
    ensures |r| <= |pending|
    ensures forall x :: x in r <==> x in pending && x !in finished
    decreases |pending|
  {
    if pending == [] then []
    else
      var rest := WithoutFinished(pending[1..], finished);
      if pending[0] in finished then rest else [pending[0]] + rest
  }

  /** The drain ends exactly when every pending task has finished. */
  lemma WithoutFinishedEmpty(pending: seq<string>, finished: set<string>)
    ensures WithoutFinished(pending, finished) == [] <==> forall x :: x in pending ==> x in finished
  {
  }

  // ---------------------------------------------------------------------------
  // The device listing of getDevices

  /** The "Faults" member of a listed device: an array of faults, any other
      JSON value (a text node, null, a number, an object), or no member at all.
      getDevices replaces a non-empty array by its summary text. */
  datatype FaultsNode = FaultArray(faults: seq<Fault>) | FaultValue(text: string) | FaultsAbsent

  datatype ListedDevice = ListedDevice(serialNumber: string, faults: FaultsNode)

  datatype ListingField = ListingField(name: string, devices: seq<ListedDevice>)

  /** s.replaceAll("Devices", ""): the model name of a "...Devices" field. */
  function ModelOfField(name: string): (r: string)
    ensures |r| <= |name|
  {
    RemoveAll(name, "Devices")
  }

  lemma ModelOfDevicesField(model: string)
    requires !OccursBefore(model + "Devices", "Devices", |model|)
    ensures ModelOfField(model + "Devices") == model
  {
    RemoveAllTrailing(model, "Devices");
  }

  /** The DevioDevices field names the model Devio, although "Devio" shares
      its first letters with "Devices". */
  lemma DevioFieldModel()
    ensures ModelOfField("DevioDevices") == "Devio"
  {
    var model := "Devio";
    var s := model + "Devices";
    assert s == "DevioDevices";
    forall i: nat | i < |model| ensures !OccursAt(s, "Devices", i) {
      if i == 0 {
        assert s[4] == 'o' && "Devices"[4] == 'c';
        assert s[0..7][4] == s[4];
      } else {
        assert s[i] == model[i] && s[i..i + 7][0] == s[i];
      }
    }
    ModelOfDevicesField(model);
  }

  /** The devices of the TesiraDevices field are addressed through the default
      endpoints. */
  lemma TesiraFieldUsesDefaultEndpoint()
    ensures UrlSegment(ModelOfField("TesiraDevices")) == ""
  {
    var model := "Tesira";
    assert model + "Devices" == "TesiraDevices";
    HeadAbsentNoEarlyOccurrence(model, "Devices");
    ModelOfDevicesField(model);
    assert Lower(model) == "tesira" by {
      assert LowerChar('T') == 't';
    }
  }

  /** deviceModels after recording `model` for each listed device, in order. */
  function RecordModels(models: map<string, string>, model: string, ds: seq<ListedDevice>): (r: map<string, string>)
    ensures models.Keys <= r.Keys
    decreases |ds|
  {
    if ds == [] then models
    else RecordModels(models, model, ds[..|ds| - 1])[ds[|ds| - 1].serialNumber := model]
  }

  lemma {:induction false} RecordModelsSpec(models: map<string, string>, model: string, ds: seq<ListedDevice>, k: string)
    ensures (exists i :: 0 <= i < |ds| && ds[i].serialNumber == k) ==>
              k in RecordModels(models, model, ds) && RecordModels(models, model, ds)[k] == model
    ensures (forall i :: 0 <= i < |ds| ==> ds[i].serialNumber != k) ==>
              (k in RecordModels(models, model, ds) <==> k in models)
              && (k in models ==> RecordModels(models, model, ds)[k] == models[k])
  {
    if ds != [] {
      var init := ds[..|ds| - 1];
      forall i | 0 <= i < |init| ensures init[i] == ds[i] { }
      RecordModelsSpec(models, model, init, k);
    }
  }

  /** deviceModels after the traversal of every "...Devices" field. */
  function ListingModels(models: map<string, string>, fields: seq<ListingField>): (r: map<string, string>)
    ensures models.Keys <= r.Keys
    decreases |fields|
  {
    if fields == [] then models
    else
      var prior := ListingModels(models, fields[..|fields| - 1]);
      var last := fields[|fields| - 1];
      if EndsWith(last.name, "Devices") then RecordModels(prior, ModelOfField(last.name), last.devices)
      else prior
  }

  /** A "...Devices" field that lists the serial number k. */
  predicate ListsSerial(f: ListingField, k: string)
  {
    EndsWith(f.name, "Devices") && exists i :: 0 <= i < |f.devices| && f.devices[i].serialNumber == k
  }

  /** After the traversal a serial number maps to the model of the last
      "...Devices" field that lists it; a serial number no such field lists
      keeps its earlier entry, or stays absent. */
  lemma {:induction false} ListingModelsSpec(models: map<string, string>, fields: seq<ListingField>, k: string)
    ensures var r := ListingModels(models, fields);
            (forall j :: 0 <= j < |fields| ==> !ListsSerial(fields[j], k)) ==>
              (k in r <==> k in models) && (k in models ==> r[k] == models[k])
    ensures var r := ListingModels(models, fields);
            forall j :: 0 <= j < |fields| && ListsSerial(fields[j], k)
                        && (forall l :: j < l < |fields| ==> !ListsSerial(fields[l], k)) ==>
              k in r && r[k] == ModelOfField(fields[j].name)
    decreases |fields|
  {
    if fields != [] {
      var init := fields[..|fields| - 1];
      var last := fields[|fields| - 1];
      var prior := ListingModels(models, init);
      var r := ListingModels(models, fields);
      ListingModelsSpec(models, init, k);
      forall j | 0 <= j < |init| ensures init[j] == fields[j] { }
      if EndsWith(last.name, "Devices") {
        RecordModelsSpec(prior, ModelOfField(last.name), last.devices, k);
      }
      if ListsSerial(last, k) {
        assert k in r && r[k] == ModelOfField(last.name);
      } else {
        assert (k in r <==> k in prior) && (k in prior ==> r[k] == prior[k]);
        forall j | 0 <= j < |fields| && ListsSerial(fields[j], k)
                   && (forall l :: j < l < |fields| ==> !ListsSerial(fields[l], k))
          ensures k in r && r[k] == ModelOfField(fields[j].name)
        {
          assert j < |init|;
          assert forall l :: j < l < |init| ==> !ListsSerial(init[l], k);
        }
      }
    }
  }

  function SummarizeFaults(d: ListedDevice): ListedDevice
  {
    match d.faults
    case FaultArray(fs) => if |fs| > 0 then d.(faults := FaultValue(FaultsText(fs))) else d
    case _ => d
  }

  /** A field as getDevices returns it. */
  function SummarizedField(f: ListingField): ListingField
  {
    if EndsWith(f.name, "Devices")
    then f.(devices := seq(|f.devices|, j requires 0 <= j < |f.devices| => SummarizeFaults(f.devices[j])))
    else f
  }

  /** The listing as getDevices returns it. */
  function SummarizedListing(fields: seq<ListingField>): seq<ListingField>
  {
    seq(|fields|, i requires 0 <= i < |fields| => SummarizedField(fields[i]))
  }

  /** The cast of "Faults" to an array node succeeds and its size can be read. */
  predicate FaultsReadable(d: ListedDevice)
  {
    d.faults.FaultArray?
  }

  /** Every device of a "...Devices" field has a readable "Faults" array. */
  predicate FieldReadable(f: ListingField)
  {
    EndsWith(f.name, "Devices") ==> forall j :: 0 <= j < |f.devices| ==> FaultsReadable(f.devices[j])
  }

  predicate ListingReadable(fields: seq<ListingField>)
  {
    forall i :: 0 <= i < |fields| ==> FieldReadable(fields[i])
  }

  /** The position of the first device whose "Faults" cannot be read, or |ds|. */
  function FirstUnreadable(ds: seq<ListedDevice>): (k: nat)
    ensures k <= |ds|
    ensures forall j :: 0 <= j < k ==> FaultsReadable(ds[j])
    ensures k < |ds| ==> !FaultsReadable(ds[k])
    decreases |ds|
  {
    if ds == [] || !FaultsReadable(ds[0]) then 0 else 1 + FirstUnreadable(ds[1..])
  }

  /** deviceModels after a traversal, and what it returns: None when it was
      aborted by an exception. */
  datatype Indexed<T> = Indexed(models: map<string, string>, result: Option<T>)

  /** The inner traversal of getDevices over one field's devices: the serial
      number is recorded before "Faults" is cast, and a "Faults" that is not an
      array (ClassCastException, or NullPointerException on size() when the
      member is missing) ends the traversal there. */
  function IndexDevices(models: map<string, string>, model: string, ds: seq<ListedDevice>): Indexed<seq<ListedDevice>>
    decreases |ds|
  {
    if ds == [] then Indexed(models, Some([]))
    else
      var prior := IndexDevices(models, model, ds[..|ds| - 1]);
      if prior.result.None? then prior
      else
        var d := ds[|ds| - 1];
        var m := prior.models[d.serialNumber := model];
        if FaultsReadable(d) then Indexed(m, Some(prior.result.value + [SummarizeFaults(d)]))
        else Indexed(m, None)
  }

  /** One step of the traversal of one field's devices. */
  lemma IndexDevicesStep(models: map<string, string>, model: string, ds: seq<ListedDevice>, j: nat)
    requires j < |ds|
    ensures var prior := IndexDevices(models, model, ds[..j]);
            var m := prior.models[ds[j].serialNumber := model];
            IndexDevices(models, model, ds[..j + 1])
            == if prior.result.None? then prior
               else if FaultsReadable(ds[j]) then Indexed(m, Some(prior.result.value + [SummarizeFaults(ds[j])]))
               else Indexed(m, None)
  {
    assert ds[..j + 1][..j] == ds[..j];
  }

  /** Once aborted, the traversal of a longer run of devices ends in the same state. */
  lemma {:induction false} IndexDevicesAborted(models: map<string, string>, model: string, ds: seq<ListedDevice>, k: nat)
    requires k <= |ds|
    requires IndexDevices(models, model, ds[..k]).result.None?
    ensures IndexDevices(models, model, ds) == IndexDevices(models, model, ds[..k])
    decreases |ds| - k
  {
    if k < |ds| {
      var init := ds[..|ds| - 1];
      assert init[..k] == ds[..k];
      IndexDevicesAborted(models, model, init, k);
    } else {
      assert ds[..k] == ds;
    }
  }

  /** The traversal of one field's devices returns iff every "Faults" is an
      array, and then it has recorded every serial number and summarized every
      device. */
  lemma {:induction false} IndexDevicesSpec(models: map<string, string>, model: string, ds: seq<ListedDevice>)
    ensures var r := IndexDevices(models, model, ds);
            (r.result.Some? <==> FirstUnreadable(ds) == |ds|)
            && (r.result.Some? ==>
                  r.models == RecordModels(models, model, ds)
                  && r.result.value == seq(|ds|, j requires 0 <= j < |ds| => SummarizeFaults(ds[j])))
    decreases |ds|
  {
    if ds != [] {
      var init := ds[..|ds| - 1];
      IndexDevicesSpec(models, model, init);
      FirstUnreadablePrefix(ds);
    }
  }

  /** Otherwise it has recorded the serial numbers up to and including the
      first device whose "Faults" is not an array. */
  lemma {:induction false} IndexDevicesAbort(models: map<string, string>, model: string, ds: seq<ListedDevice>)
    requires FirstUnreadable(ds) < |ds|
    ensures IndexDevices(models, model, ds)
            == Indexed(RecordModels(models, model, ds[..FirstUnreadable(ds) + 1]), None)
    decreases |ds|
  {
    var init := ds[..|ds| - 1];
    var k := FirstUnreadable(ds);
    IndexDevicesSpec(models, model, ds);
    IndexDevicesSpec(models, model, init);
    FirstUnreadablePrefix(ds);
    if FirstUnreadable(init) < |init| {
      IndexDevicesAbort(models, model, init);
      assert init[..k + 1] == ds[..k + 1];
    } else {
      assert ds[..k + 1] == ds;
    }
  }

  /** FirstUnreadable of a run and of the run without its last device. */
  lemma FirstUnreadablePrefix(ds: seq<ListedDevice>)
    requires ds != []
    ensures var init := ds[..|ds| - 1];
            FirstUnreadable(init) < |init| ==> FirstUnreadable(ds) == FirstUnreadable(init)
    ensures var init := ds[..|ds| - 1];
            FirstUnreadable(init) == |init| ==> FirstUnreadable(ds) >= |init|
  {
    var init := ds[..|ds| - 1];
    forall j | 0 <= j < |init| ensures init[j] == ds[j] { }
  }

  /** One field of the getDevices traversal. */
  function IndexField(models: map<string, string>, f: ListingField): Indexed<ListingField>
  {
    if !EndsWith(f.name, "Devices") then Indexed(models, Some(f))
    else
      var r := IndexDevices(models, ModelOfField(f.name), f.devices);
      Indexed(r.models, if r.result.None? then None else Some(f.(devices := r.result.value)))
  }

  /** The getDevices traversal over every top-level field, ended by the first
      exception. */
  function IndexListing(models: map<string, string>, fields: seq<ListingField>): Indexed<seq<ListingField>>
    decreases |fields|
  {
    if fields == [] then Indexed(models, Some([]))
    else
      var prior := IndexListing(models, fields[..|fields| - 1]);
      if prior.result.None? then prior
      else
        var r := IndexField(prior.models, fields[|fields| - 1]);
        Indexed(r.models, if r.result.None? then None else Some(prior.result.value + [r.result.value]))
  }

  /** A field is returned, summarized, iff it is readable; its models are then
      those of the reference definition. */
  lemma IndexFieldSpec(models: map<string, string>, f: ListingField)
    ensures var r := IndexField(models, f);
            (r.result.Some? <==> FieldReadable(f))
            && (r.result.Some? ==>
                  r.result.value == SummarizedField(f)
                  && r.models == (if EndsWith(f.name, "Devices")
                                  then RecordModels(models, ModelOfField(f.name), f.devices) else models))
  {
    if EndsWith(f.name, "Devices") {
      IndexDevicesSpec(models, ModelOfField(f.name), f.devices);
      var k := FirstUnreadable(f.devices);
      if k < |f.devices| {
        assert !FaultsReadable(f.devices[k]);
      }
    }
  }

  /** Readability and the summary of a listing split off its last field. */
  lemma ListingSnoc(fields: seq<ListingField>)
    requires fields != []
    ensures var init := fields[..|fields| - 1];
            && (ListingReadable(fields) <==> ListingReadable(init) && FieldReadable(fields[|fields| - 1]))
            && SummarizedListing(fields) == SummarizedListing(init) + [SummarizedField(fields[|fields| - 1])]
  {
    var init := fields[..|fields| - 1];
    forall i | 0 <= i < |init| ensures init[i] == fields[i] { }
  }

  /** getDevices returns the summarized listing iff every "Faults" of every
      "...Devices" field is an array, and deviceModels is then ListingModels,
      which gives every listed device its model (ListingModelsSpec). */
  lemma {:induction false} IndexListingSpec(models: map<string, string>, fields: seq<ListingField>)
    ensures var r := IndexListing(models, fields);
            (r.result.Some? <==> ListingReadable(fields))
            && (r.result.Some? ==>
                  r.models == ListingModels(models, fields) && r.result.value == SummarizedListing(fields))
    decreases |fields|
  {
    if fields != [] {
      var init := fields[..|fields| - 1];
      var last := fields[|fields| - 1];
      IndexListingSpec(models, init);
      var prior := IndexListing(models, init);
      ListingSnoc(fields);
      if prior.result.Some? {
        IndexFieldSpec(prior.models, last);
      }
    }
  }

  /** A device whose "Faults" is not an array, in a field after readable ones,
      aborts getDevices: deviceModels keeps the earlier fields' entries and those
      of that field's devices up to and including the failing one. */
  lemma {:induction false} IndexListingAbort(models: map<string, string>, fields: seq<ListingField>, i: nat)
    requires i < |fields| && ListingReadable(fields[..i]) && !FieldReadable(fields[i])
    ensures var f := fields[i];
            IndexListing(models, fields)
            == Indexed(RecordModels(ListingModels(models, fields[..i]), ModelOfField(f.name),
                                    f.devices[..FirstUnreadable(f.devices) + 1]), None)
  {
    var f := fields[i];
    IndexListingSpec(models, fields[..i]);
    assert fields[..i + 1][..i] == fields[..i];
    IndexDevicesAbort(ListingModels(models, fields[..i]), ModelOfField(f.name), f.devices);
    IndexListingAborted(models, fields, i + 1);
  }

  /** Once aborted, the traversal of a longer listing ends in the same state. */
  lemma {:induction false} IndexListingAborted(models: map<string, string>, fields: seq<ListingField>, k: nat)
    requires k <= |fields|
    requires IndexListing(models, fields[..k]).result.None?
    ensures IndexListing(models, fields) == IndexListing(models, fields[..k])
    decreases |fields| - k
  {
    if k < |fields| {
      var init := fields[..|fields| - 1];
      assert init[..k] == fields[..k];
      IndexListingAborted(models, init, k);
    } else {
      assert fields[..k] == fields;
    }
  }

  // ---------------------------------------------------------------------------
  // The communicator

  /** What one pass of the loader's main loop did. */
  datatype Tick =
    | Stopped
    | Paused
    | DetailCycleNotDue
    | DetailCycleStarted(submitted: seq<string>)

  class Aggregator {
    /** getLogin() / getPassword(). */
    const account: Account

    /** aggregatedDevices: serial number to device. */
    var devices: map<string, Device>
    /** protectedDevices. */
    var protectedDevices: seq<string>
    /** deviceModels: serial number to model name, for endpoint paths. */
    var deviceModels: map<string, string>
    /** devicesFirmwareVersions: the firmware version staged per device. */
    var firmwareSelections: map<string, string>
    /** deviceMetaDataInformationRetrievalTimeout. */
    var metaDataRetrievalTimeout: int
    /** validDeviceMetaDataRetrievalPeriodTimestamp. */
    var listCooldownUntil: int
    /** nextDevicesCollectionIterationTimestamp (an instance field here). */
    var nextDetailCycleAt: int
    /** validRetrieveStatisticsTimestamp. */
    var statisticsDeadline: int
    /** devicePaused. */
    var paused: bool
    /** devicesExecutionPool: the serial numbers of submitted detail tasks. */
    var pendingTasks: seq<string>
    /** SageVueDeviceDataLoader.inProgress. */
    var inProgress: bool
    /** Every PUT request issued, oldest first. */
    var requests: seq<Request>

    ghost predicate Valid()
      reads this
    {
      Consistent(ListView(), pendingTasks)
    }

    function ListView(): ListState
      reads this
    {
      ListState(devices, protectedDevices, deviceModels, listCooldownUntil, nextDetailCycleAt)
    }

    function TablesView(): Tables
      reads this
    {
      Tables(protectedDevices, deviceModels, firmwareSelections)
    }

    /** The constructor together with internalInit at time `initTime`, which
        starts the loader. */
    constructor (initTime: int, account: Account)
      ensures Valid()
      ensures this.account == account
      ensures devices == map[] && protectedDevices == [] && deviceModels == map[]
      ensures firmwareSelections == map[] && pendingTasks == [] && requests == []
      ensures metaDataRetrievalTimeout == InitialMetaDataRetrievalTimeout
      ensures listCooldownUntil == initTime && nextDetailCycleAt == 0 && statisticsDeadline == 0
      ensures paused && inProgress
    {
      this.account := account;
      devices := map[];
      protectedDevices := [];
      deviceModels := map[];
      firmwareSelections := map[];
      metaDataRetrievalTimeout := InitialMetaDataRetrievalTimeout;
      listCooldownUntil := initTime;
      nextDetailCycleAt := 0;
      statisticsDeadline := 0;
      paused := true;
      pendingTasks := [];
      inProgress := true;
      requests := [];
    }

    /** fetchDevicesList. */
    method FetchDevicesList(now: int, response: Option<seq<ResponseField>>) returns (status: RefreshStatus)
      requires Valid()
      modifies this`devices, this`protectedDevices, this`deviceModels, this`listCooldownUntil,
               this`nextDetailCycleAt
      ensures Valid()
      ensures var r := Refresh(old(ListView()), metaDataRetrievalTimeout, now, response);
              status == r.status && ListView() == r.state
    {
      if |devices| > 0 && listCooldownUntil > now {
        return InCooldown;
      }
      deviceModels := map[];
      if response.None? || |response.value| == 0 {
        return EmptyResponse;
      }
      listCooldownUntil := now + ListCooldown(metaDataRetrievalTimeout);
      var extracted := ExtractDevices(response.value);
      devices, protectedDevices := MergeDevices(devices, extracted);
      RefreshConsistent(old(ListView()), metaDataRetrievalTimeout, now, response, pendingTasks);
      nextDetailCycleAt := now;
      status := Refreshed(|extracted|);
    }

    /** updateAggregatorStatus: paused exactly when the deadline has passed. */
    method UpdateAggregatorStatus(now: int)
      modifies this`paused
      ensures paused == (statisticsDeadline < now)
    {
      paused := statisticsDeadline < now;
    }

    /** updateValidRetrieveStatisticsTimestamp. */
    method UpdateValidRetrieveStatisticsTimestamp(now: int)
      modifies this`statisticsDeadline, this`paused
      ensures statisticsDeadline == now + RetrieveStatisticsTimeOut
      ensures !paused
    {
      statisticsDeadline := now + RetrieveStatisticsTimeOut;
      UpdateAggregatorStatus(now);
    }

    /** retrieveMultipleStatistics(): restarts the detail cycle, extends the
        inactivity deadline, stamps every device and returns them all. */
    method RetrieveMultipleStatistics(now: int) returns (snapshot: seq<Device>)
      requires Valid()
      modifies this`nextDetailCycleAt, this`statisticsDeadline, this`paused, this`devices
      ensures Valid()
      ensures nextDetailCycleAt == now
      ensures statisticsDeadline == now + RetrieveStatisticsTimeOut && !paused
      ensures devices.Keys == old(devices).Keys
      ensures forall k :: k in devices ==> devices[k] == old(devices)[k].(timestamp := now)
      ensures IsSnapshot(snapshot, devices) && |snapshot| == |devices|
    {
      nextDetailCycleAt := now;
      UpdateValidRetrieveStatisticsTimestamp(now);
      devices := map k | k in devices :: devices[k].(timestamp := now);
      snapshot := SnapshotOf(devices);
    }

    /** retrieveMultipleStatistics(List): the same, keeping the devices whose
        deviceId was asked for. */
    method RetrieveMultipleStatisticsFor(now: int, ids: seq<string>) returns (selected: seq<Device>)
      requires Valid()
      modifies this`nextDetailCycleAt, this`statisticsDeadline, this`paused, this`devices
      ensures Valid()
      ensures nextDetailCycleAt == now
      ensures statisticsDeadline == now + RetrieveStatisticsTimeOut && !paused
      ensures devices.Keys == old(devices).Keys
      ensures forall k :: k in devices ==> devices[k] == old(devices)[k].(timestamp := now)
      ensures exists s :: IsSnapshot(s, devices) && selected == FilterByIds(s, ids)
      ensures forall d :: d in selected <==>
                d.serialNumber in devices && devices[d.serialNumber] == d && d.deviceId in ids
      ensures DistinctSerials(selected)
    {
      var snapshot := RetrieveMultipleStatistics(now);
      selected := FilterByIds(snapshot, ids);
      FilterSnapshot(snapshot, devices, ids);
    }

    /** One pass of SageVueDeviceDataLoader.run up to the drain: the stop
        check, the activity check, the list refresh, the detail-cycle gate,
        and the submission of one task per cached device. A pass starts only
        once the previous cycle's tasks are drained (or the loader stopped). */
    method LoopStep(now: int, response: Option<seq<ResponseField>>) returns (tick: Tick)
      requires Valid()
      requires inProgress ==> pendingTasks == []
      modifies this`paused, this`devices, this`protectedDevices, this`deviceModels,
               this`listCooldownUntil, this`nextDetailCycleAt, this`pendingTasks
      ensures Valid()
      ensures !old(inProgress) ==> tick == Stopped && paused == old(paused) && ListView() == old(ListView())
      ensures old(inProgress) ==> paused == (statisticsDeadline < now)
      ensures old(inProgress) && paused ==> tick == Paused && ListView() == old(ListView())
      ensures old(inProgress) && !paused ==>
                ListView() == Refresh(old(ListView()), metaDataRetrievalTimeout, now, response).state
                && (tick.DetailCycleStarted? <==> DetailCycleDue(|devices|, nextDetailCycleAt, now))
                && (tick.DetailCycleStarted? || tick.DetailCycleNotDue?)
      ensures !tick.DetailCycleStarted? ==> pendingTasks == old(pendingTasks)
      ensures tick.DetailCycleStarted? ==>
                && pendingTasks == old(pendingTasks) + tick.submitted
                && NoDuplicates(tick.submitted)
                && (forall x :: x in tick.submitted <==> x in devices)
    {
      if !inProgress {
        return Stopped;
      }
      UpdateAggregatorStatus(now);
      if paused {
        return Paused;
      }
      var _ := FetchDevicesList(now, response);
      if |devices| == 0 || nextDetailCycleAt > now {
        return DetailCycleNotDue;
      }
      var submitted := SubmitDetailTasks();
      tick := DetailCycleStarted(submitted);
    }

    /** The submission loop of the detail cycle: one task per cached device,
        each serial number once, in the cache's iteration order. */
    method SubmitDetailTasks() returns (serials: seq<string>)
      requires Valid()
      modifies this`pendingTasks
      ensures Valid()
      ensures pendingTasks == old(pendingTasks) + serials
      ensures NoDuplicates(serials)
      ensures forall x :: x in serials <==> x in devices
    {
      var snapshot := SnapshotOf(devices);
      serials := SerialNumbers(snapshot);
      SnapshotSerialNumbers(snapshot, devices);
      ConsistentSubmit(ListView(), pendingTasks, serials);
      SubmitTasks(serials);
    }

    /** The loop of the detail cycle that hands one task per serial number to
        the executor, in order. */
    method SubmitTasks(serials: seq<string>)
      modifies this`pendingTasks
      ensures pendingTasks == old(pendingTasks) + serials
    {
      var i := 0;
      while i < |serials|
        invariant 0 <= i <= |serials|
        invariant pendingTasks == old(pendingTasks) + serials[..i]
      {
        assert serials[..i + 1] == serials[..i] + [serials[i]];
        pendingTasks := pendingTasks + [serials[i]];
        i := i + 1;
      }
      assert serials[..|serials|] == serials;
    }

    /** fetchDeviceDetails for one serial number, given the device detail and
        the firmware versions the API answered. Without a known model both
        requests fail inside their try blocks, so neither answer is used. A
        serial number missing from the cache makes the task throw. */
    method RunDetailTask(serial: string, detail: Option<map<string, string>>, versions: seq<string>)
      returns (completed: bool)
      requires Valid()
      modifies this`devices
      ensures Valid()
      ensures completed == (serial in old(devices))
      ensures devices == if completed
                         then old(devices)[serial := WithDetails(old(devices)[serial],
                                                                 if serial in deviceModels then detail else None,
                                                                 if serial in deviceModels then versions else [])]
                         else old(devices)
    {
      if serial !in devices {
        return false;
      }
      var known := serial in deviceModels;
      var fetched := if known then detail else None;
      var available := if known then versions else [];
      var d := devices[serial];
      var props := d.properties;
      if fetched.Some? {
        props := props + fetched.value;
      }
      var options := CollectFirmwareVersions(available, CurrentFirmware(props));
      props := props["AvailableFirmwareVersions" := Join(",", options)];
      var updated := d.(properties := props);
      assert updated == WithDetails(d, fetched, available);
      ConsistentDetails(ListView(), pendingTasks, updated);
      devices := devices[serial := updated];
      completed := true;
    }

    /** One poll of the drain loop: `finished` are the tasks whose futures are
        done. The cycle ends, and the next one is scheduled 30 s later, only
        once no task is pending, or when an interrupt arrives after stop. */
    method PollDrain(now: int, finished: set<string>, interrupted: bool) returns (cycleOver: bool)
      requires Valid()
      modifies this`pendingTasks, this`nextDetailCycleAt
      ensures Valid()
      ensures interrupted && !inProgress ==> cycleOver && pendingTasks == old(pendingTasks)
      ensures !(interrupted && !inProgress) ==>
                pendingTasks == WithoutFinished(old(pendingTasks), finished) && cycleOver == (pendingTasks == [])
      ensures cycleOver ==> nextDetailCycleAt == now + DetailCycleInterval
      ensures !cycleOver ==> nextDetailCycleAt == old(nextDetailCycleAt)
    {
      if interrupted && !inProgress {
        cycleOver := true;
      } else {
        pendingTasks := WithoutFinished(pendingTasks, finished);
        cycleOver := pendingTasks == [];
      }
      if cycleOver {
        nextDetailCycleAt := now + DetailCycleInterval;
      }
    }

    /** SageVueDeviceDataLoader.stop. */
    method Stop()
      modifies this`inProgress
      ensures !inProgress
    {
      inProgress := false;
    }

    /** controlProperty. */
    method ControlProperty(c: ControlRequest) returns (outcome: Outcome)
      modifies this`firmwareSelections, this`requests
      ensures var e := Dispatch(old(TablesView()), account, c);
              firmwareSelections == e.selections && requests == old(requests) + e.issued && outcome == e.outcome
    {
      var modelKnown := c.deviceId in deviceModels;
      if StartsWith(c.property, "System") {
        var systemId := SystemId(c.property);
        if c.value == "1" {
          requests := requests + [ProtectRequest(systemId)];
        } else if c.value == "0" {
          requests := requests + [UnprotectRequest(systemId)];
        }
        outcome := Done;
      } else if c.property == "Reboot" {
        if !modelKnown {
          return Failed(MissingDeviceModel);
        }
        requests := requests + [RebootRequest(protectedDevices, c.deviceId, deviceModels[c.deviceId], account)];
        outcome := Done;
      } else if c.property == "FirmwareUpdate" {
        if c.deviceId !in firmwareSelections || firmwareSelections[c.deviceId] == "" {
          return Done;
        }
        var version := firmwareSelections[c.deviceId];
        firmwareSelections := firmwareSelections - {c.deviceId};
        if !modelKnown {
          return Failed(MissingDeviceModel);
        }
        requests := requests + [FirmwareUpdateRequest(protectedDevices, c.deviceId, version,
                                                      deviceModels[c.deviceId], account)];
        outcome := Done;
      } else if c.property == "AvailableFirmwareVersions" {
        firmwareSelections := firmwareSelections[c.deviceId := c.value];
        outcome := Done;
      } else {
        outcome := Ignored;
      }
    }

    /** controlProperties: rejects an empty list, then runs the controls in
        order until one throws. */
    method ControlProperties(cs: seq<ControlRequest>) returns (outcome: Outcome)
      modifies this`firmwareSelections, this`requests
      ensures var e := ControlBatch(old(TablesView()), account, cs);
              firmwareSelections == e.selections && requests == old(requests) + e.issued && outcome == e.outcome
    {
      if |cs| == 0 {
        return Failed(EmptyControlList);
      }
      ghost var t := TablesView();
      ghost var log := requests;
      ghost var issued: seq<Request> := [];
      outcome := Done;
      var i := 0;
      while i < |cs| && outcome == Done
        invariant 0 <= i <= |cs|
        invariant DispatchAll(t, account, cs[..i]) == Effect(firmwareSelections, issued, outcome)
        invariant requests == log + issued
      {
        assert TablesView() == t.(selections := firmwareSelections);
        ghost var selections := firmwareSelections;
        ghost var before := requests;
        var o := ControlProperty(cs[i]);
        DispatchAllExtend(t, account, cs, i, selections, issued);
        ghost var added := requests[|before|..];
        assert requests == before + added;
        assert requests == log + (issued + added);
        issued := issued + added;
        if o.Failed? {
          outcome := o;
        }
        i := i + 1;
      }
      ControlBatchOfPrefix(t, account, cs, i);
    }

    /** One field of the getDevices traversal: for a "...Devices" field, the
        model of each listed device is recorded and its faults summarized, until
        a "Faults" that is not an array throws. */
    method IndexListingField(field: ListingField) returns (out: Option<ListingField>)
      modifies this`deviceModels
      ensures Indexed(deviceModels, out) == IndexField(old(deviceModels), field)
    {
      if !EndsWith(field.name, "Devices") {
        return Some(field);
      }
      var model := ModelOfField(field.name);
      var ds := field.devices;
      var summarized: seq<ListedDevice> := [];
      var j := 0;
      while j < |ds|
        invariant 0 <= j <= |ds|
        invariant IndexDevices(old(deviceModels), model, ds[..j]) == Indexed(deviceModels, Some(summarized))
      {
        IndexDevicesStep(old(deviceModels), model, ds, j);
        deviceModels := deviceModels[ds[j].serialNumber := model];
        var d := ds[j];
        if !d.faults.FaultArray? {
          IndexDevicesAborted(old(deviceModels), model, ds, j + 1);
          return None;
        }
        if |d.faults.faults| > 0 {
          var text := FaultSummary(d.faults.faults);
          d := d.(faults := FaultValue(text));
        }
        summarized := summarized + [d];
        j := j + 1;
      }
      assert ds[..|ds|] == ds;
      out := Some(field.(devices := summarized));
    }

    /** The traversal of getDevices over every top-level field. */
    method IndexDeviceListing(listing: seq<ListingField>) returns (rewritten: Option<seq<ListingField>>)
      modifies this`deviceModels
      ensures Indexed(deviceModels, rewritten) == IndexListing(old(deviceModels), listing)
    {
      var done: seq<ListingField> := [];
      var i := 0;
      while i < |listing|
        invariant 0 <= i <= |listing|
        invariant IndexListing(old(deviceModels), listing[..i]) == Indexed(deviceModels, Some(done))
      {
        assert listing[..i + 1][..i] == listing[..i];
        var out := IndexListingField(listing[i]);
        if out.None? {
          IndexListingAborted(old(deviceModels), listing, i + 1);
          return None;
        }
        done := done + [out.value];
        i := i + 1;
      }
      assert listing[..|listing|] == listing;
      rewritten := Some(done);
    }
  }
}
