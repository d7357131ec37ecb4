/** The control surface of SageVueCommunicator: the PUT requests it issues
    (recorded instead of sent), the request payloads and the credentials they
    carry, the model-specific URL segment, the system id read from a control
    name, and the dispatcher of controlProperty/controlProperties as a pure
    function of the side tables it reads. */
module Control {
  import opened Text

  /** BASE_URL, the prefix of every request path. */
  const BaseUrl: string := "biampsagevue/api/"

  /** The JSON bodies the communicator builds. */
  datatype Payload =
    | Credentials(userName: string, password: string)
    | NewAdminPassword(newAdminPassword: string)
    | ExistingAdminPassword(existingAdminPassword: string)
    | FirmwareUpdateBody(deviceSerialNumber: string, userName: string, password: string,
                         firmwareVersion: string)

  /** One doPut call: the path after the host, and the body. */
  datatype Request = Put(path: string, body: Payload)

  /** getLogin() and getPassword() of the communicator. */
  datatype Account = Account(login: string, password: string)

  /** retrieveDeviceUrlSegment: Tesira devices use the default endpoint, any
      other model is named in the path. */
  function UrlSegment(model: string): (r: string)
    ensures r == "" <==> Lower(model) == "tesira"
    ensures r != "" ==> r == model + "/"
  {
    if Lower(model) == "tesira" then "" else model + "/"
  }

  /** buildAuthenticationPayload: the real login and password, or two empty
      strings, which the API still requires to be present. */
  function AuthenticationPayload(populateCredentials: bool, account: Account): (p: Payload)
    ensures p.Credentials?
    ensures populateCredentials ==> p.userName == account.login && p.password == account.password
    ensures !populateCredentials ==> p.userName == "" && p.password == ""
  {
    if populateCredentials then Credentials(account.login, account.password)
    else Credentials("", "")
  }

  /** buildFirmwareUpdateRequest: credentials only for a protected device. */
  function FirmwareUpdatePayload(protectedDevices: seq<string>, serial: string, version: string,
                                 account: Account): (p: Payload)
    ensures p.FirmwareUpdateBody? && p.deviceSerialNumber == serial && p.firmwareVersion == version
    ensures serial in protectedDevices ==> p.userName == account.login && p.password == account.password
    ensures serial !in protectedDevices ==> p.userName == "" && p.password == ""
  {
    var isProtected := serial in protectedDevices;
    FirmwareUpdateBody(serial, if isProtected then account.login else "",
                       if isProtected then account.password else "", version)
  }

  /** property.replaceAll("[^\\d.]", ""): the system id inside a control name. */
  function SystemId(property: string): string
  {
    KeepDigitsAndDots(property)
  }

  /** The name of the protect/unprotect switch of a system (getMultipleStatistics). */
  function SystemControlName(systemId: string): string
  {
    "System " + systemId
  }

  /** A system switch names the system it toggles: reading the id back out of
      the switch's name gives the id, for ids made of digits and dots. */
  lemma SystemIdOfControlName(systemId: string)
    requires forall i :: 0 <= i < |systemId| ==> IsDigitOrDot(systemId[i])
    ensures SystemId(SystemControlName(systemId)) == systemId
    ensures StartsWith(SystemControlName(systemId), "System")
  {
    KeepDigitsAndDotsAppend("System ", systemId);
    KeepDigitsAndDotsIdentity(systemId);
    assert KeepDigitsAndDots("System ") == [] by {
      assert "System "[1..] == "ystem ";
      assert "ystem "[1..] == "stem ";
      assert "stem "[1..] == "tem ";
      assert "tem "[1..] == "em ";
      assert "em "[1..] == "m ";
      assert "m "[1..] == " ";
      assert " "[1..] == "";
    }
    assert SystemControlName(systemId)[..6] == "System";
  }

  /** An id with letters in it does not survive the filter: the switch of a
      system with id "5ffe" addresses system "5". */
  lemma HexSystemIdNotReadBack()
    ensures SystemId(SystemControlName("5ffe")) == "5"
  {
    KeepDigitsAndDotsAppend("System ", "5ffe");
    assert KeepDigitsAndDots("System ") == [] by {
      assert "System "[1..] == "ystem ";
      assert "ystem "[1..] == "stem ";
      assert "stem "[1..] == "tem ";
      assert "tem "[1..] == "em ";
      assert "em "[1..] == "m ";
      assert "m "[1..] == " ";
      assert " "[1..] == "";
    }
    assert KeepDigitsAndDots("5ffe") == "5" by {
      assert "5ffe"[1..] == "ffe";
      assert "ffe"[1..] == "fe";
      assert "fe"[1..] == "e";
      assert "e"[1..] == "";
    }
  }

  function ProtectRequest(systemId: string): Request
  {
    Put(BaseUrl + "Systems/" + systemId + "/protect", NewAdminPassword(systemId))
  }

  function UnprotectRequest(systemId: string): Request
  {
    Put(BaseUrl + "Systems/" + systemId + "/unprotect", ExistingAdminPassword(systemId))
  }

  function RebootRequest(protectedDevices: seq<string>, serial: string, model: string,
                         account: Account): Request
  {
    Put(BaseUrl + "Devices/" + UrlSegment(model) + serial + "/Reboot",
        AuthenticationPayload(serial in protectedDevices, account))
  }

  function FirmwareUpdateRequest(protectedDevices: seq<string>, serial: string, version: string,
                                 model: string, account: Account): Request
  {
    Put(BaseUrl + "Firmware/" + UrlSegment(model),
        FirmwareUpdatePayload(protectedDevices, serial, version, account))
  }

  /** A ControllableProperty: its name, target device and String.valueOf(value). */
  datatype ControlRequest = ControlRequest(property: string, deviceId: string, value: string)

  datatype ControlError =
    | MissingDeviceModel   // deviceModels has no entry: retrieveDeviceUrlSegment(null) throws
    | EmptyControlList     // controlProperties(empty list): IllegalArgumentException

  /** Done: handled (possibly by doing nothing, by design). Ignored: an
      unsupported property name, logged as a warning. Failed: an exception. */
  datatype Outcome = Done | Ignored | Failed(error: ControlError)

  /** The side tables a control reads: protectedDevices, deviceModels and the
      staged firmware versions (devicesFirmwareVersions). */
  datatype Tables = Tables(protectedDevices: seq<string>, deviceModels: map<string, string>,
                           selections: map<string, string>)

  /** What a control does: the staged versions afterwards, the requests it
      issued, and how it ended. Only the staged versions can change. */
  datatype Effect = Effect(selections: map<string, string>, issued: seq<Request>, outcome: Outcome)

  /** controlProperty on one ControllableProperty. */
  function Dispatch(t: Tables, account: Account, c: ControlRequest): (e: Effect)
    ensures |e.issued| <= 1
  {
    if StartsWith(c.property, "System") then
      var systemId := SystemId(c.property);
      if c.value == "1" then Effect(t.selections, [ProtectRequest(systemId)], Done)
      else if c.value == "0" then Effect(t.selections, [UnprotectRequest(systemId)], Done)
      else Effect(t.selections, [], Done)
    else if c.property == "Reboot" then
      if c.deviceId in t.deviceModels
      then Effect(t.selections, [RebootRequest(t.protectedDevices, c.deviceId, t.deviceModels[c.deviceId], account)], Done)
      else Effect(t.selections, [], Failed(MissingDeviceModel))
    else if c.property == "FirmwareUpdate" then
      if c.deviceId !in t.selections || t.selections[c.deviceId] == "" then Effect(t.selections, [], Done)
      else
        var version := t.selections[c.deviceId];
        var remaining := t.selections - {c.deviceId};
        if c.deviceId in t.deviceModels
        then Effect(remaining, [FirmwareUpdateRequest(t.protectedDevices, c.deviceId, version,
                                                      t.deviceModels[c.deviceId], account)], Done)
        else Effect(remaining, [], Failed(MissingDeviceModel))
    else if c.property == "AvailableFirmwareVersions" then
      Effect(t.selections[c.deviceId := c.value], [], Done)
    else Effect(t.selections, [], Ignored)
  }

  /** A control changes the staged version of its own device only. */
  lemma DispatchSelections(t: Tables, account: Account, c: ControlRequest)
    ensures var e := Dispatch(t, account, c);
            && e.selections.Keys <= t.selections.Keys + {c.deviceId}
            && forall k :: k in e.selections && k != c.deviceId ==> k in t.selections && e.selections[k] == t.selections[k]
  {
  }

  /** A name whose first letter is not S is no System switch. */
  lemma NotSystemSwitch(property: string)
    requires property != [] && property[0] != 'S'
    ensures !StartsWith(property, "System")
  {
  }

  function StageControl(deviceId: string, version: string): ControlRequest
  {
    ControlRequest("AvailableFirmwareVersions", deviceId, version)
  }

  function CommitControl(deviceId: string): ControlRequest
  {
    ControlRequest("FirmwareUpdate", deviceId, "")
  }

  /** Staging a firmware version only records it for that device. */
  lemma StageIssuesNothing(t: Tables, account: Account, deviceId: string, version: string)
    ensures Dispatch(t, account, StageControl(deviceId, version))
            == Effect(t.selections[deviceId := version], [], Done)
  {
    NotSystemSwitch("AvailableFirmwareVersions");
  }

  /** Committing with nothing (or the empty string) staged does nothing. */
  lemma CommitWithoutStagedVersion(t: Tables, account: Account, deviceId: string)
    requires deviceId !in t.selections || t.selections[deviceId] == ""
    ensures Dispatch(t, account, CommitControl(deviceId)) == Effect(t.selections, [], Done)
  {
    NotSystemSwitch("FirmwareUpdate");
  }

  /** Committing a staged version removes it first and issues exactly one
      update request carrying that version; without a known model the
      removal still happens and the request is never built. */
  lemma CommitStagedVersion(t: Tables, account: Account, deviceId: string)
    requires deviceId in t.selections && t.selections[deviceId] != ""
    ensures var e := Dispatch(t, account, CommitControl(deviceId));
            && e.selections == t.selections - {deviceId}
            && (deviceId in t.deviceModels ==>
                  && e.outcome == Done
                  && |e.issued| == 1
                  && e.issued[0].body.FirmwareUpdateBody?
                  && e.issued[0].body.deviceSerialNumber == deviceId
                  && e.issued[0].body.firmwareVersion == t.selections[deviceId])
            && (deviceId !in t.deviceModels ==> e.outcome == Failed(MissingDeviceModel) && e.issued == [])
  {
    NotSystemSwitch("FirmwareUpdate");
  }

  /** A name that is no System switch and none of the three device controls
      is ignored with a warning. */
  lemma UnknownPropertyIsIgnored(t: Tables, account: Account, c: ControlRequest)
    requires !StartsWith(c.property, "System")
    requires c.property !in {"Reboot", "FirmwareUpdate", "AvailableFirmwareVersions"}
    ensures Dispatch(t, account, c) == Effect(t.selections, [], Ignored)
  {
  }

  /** A System switch with value 1 protects, 0 unprotects, anything else does
      nothing; the staged versions never change. */
  lemma SystemSwitch(t: Tables, account: Account, c: ControlRequest)
    requires StartsWith(c.property, "System")
    ensures var e := Dispatch(t, account, c);
            && e.selections == t.selections && e.outcome == Done
            && (c.value == "1" ==> e.issued == [ProtectRequest(SystemId(c.property))])
            && (c.value == "0" ==> e.issued == [UnprotectRequest(SystemId(c.property))])
            && (c.value != "1" && c.value != "0" ==> e.issued == [])
  {
  }

  /** A reboot carries the real credentials exactly when the device is in the
      protected list. */
  lemma RebootCredentials(t: Tables, account: Account, deviceId: string, value: string)
    requires deviceId in t.deviceModels
    ensures var e := Dispatch(t, account, ControlRequest("Reboot", deviceId, value));
            && |e.issued| == 1 && e.issued[0].body.Credentials?
            && (deviceId in t.protectedDevices ==>
                  e.issued[0].body == Credentials(account.login, account.password))
            && (deviceId !in t.protectedDevices ==> e.issued[0].body == Credentials("", ""))
  {
    NotSystemSwitch("Reboot");
  }

  /** controlProperties: the controls in order, stopping at the first one
      that throws. */
  function DispatchAll(t: Tables, account: Account, cs: seq<ControlRequest>): (e: Effect)
    ensures |e.issued| <= |cs|
    ensures !e.outcome.Ignored?
    decreases |cs|
  {
    if cs == [] then Effect(t.selections, [], Done)
    else
      var prior := DispatchAll(t, account, cs[..|cs| - 1]);
      if prior.outcome.Failed? then prior
      else
        var last := Dispatch(t.(selections := prior.selections), account, cs[|cs| - 1]);
        Effect(last.selections, prior.issued + last.issued,
               if last.outcome.Failed? then last.outcome else Done)
  }

  /** One more control after a prefix that completed. */
  lemma DispatchAllExtend(t: Tables, account: Account, cs: seq<ControlRequest>, i: nat,
                          selections: map<string, string>, issued: seq<Request>)
    requires i < |cs| && DispatchAll(t, account, cs[..i]) == Effect(selections, issued, Done)
    ensures var last := Dispatch(t.(selections := selections), account, cs[i]);
            DispatchAll(t, account, cs[..i + 1])
            == Effect(last.selections, issued + last.issued,
                      if last.outcome.Failed? then last.outcome else Done)
  {
    assert cs[..i + 1][..i] == cs[..i];
  }

  /** Once a control has thrown, the later ones have no effect. */
  lemma {:induction false} DispatchAllStopsAtFailure(t: Tables, account: Account, cs: seq<ControlRequest>, n: nat)
    requires n <= |cs|
    requires DispatchAll(t, account, cs[..n]).outcome.Failed?
    ensures DispatchAll(t, account, cs) == DispatchAll(t, account, cs[..n])
    decreases |cs| - n
  {
    if n < |cs| {
      assert cs[..n + 1][..n] == cs[..n];
      DispatchAllStopsAtFailure(t, account, cs, n + 1);
    } else {
      assert cs[..n] == cs;
    }
  }

  /** controlProperties with the empty-list check. */
  /** The controls dispatched so far are the whole batch once the last one
      has run or one has thrown. */
  lemma ControlBatchOfPrefix(t: Tables, account: Account, cs: seq<ControlRequest>, n: nat)
    requires 0 < n <= |cs|
    requires n == |cs| || DispatchAll(t, account, cs[..n]).outcome.Failed?
    ensures ControlBatch(t, account, cs) == DispatchAll(t, account, cs[..n])
  {
    if n < |cs| {
      DispatchAllStopsAtFailure(t, account, cs, n);
    } else {
      assert cs[..n] == cs;
    }
  }

  function ControlBatch(t: Tables, account: Account, cs: seq<ControlRequest>): (e: Effect)
    ensures cs == [] ==> e == Effect(t.selections, [], Failed(EmptyControlList))
  {
    if cs == [] then Effect(t.selections, [], Failed(EmptyControlList))
    else DispatchAll(t, account, cs)
  }

  /** Without a recorded model the commit throws after it has consumed the
      staged version: nothing is issued and nothing stays staged. */
  lemma StageCommitWithoutModel(t: Tables, account: Account, deviceId: string, version: string)
    requires version != "" && deviceId !in t.deviceModels
    ensures ControlBatch(t, account, [StageControl(deviceId, version), CommitControl(deviceId)])
            == Effect(t.selections - {deviceId}, [], Failed(MissingDeviceModel))
  {
    var cs := [StageControl(deviceId, version), CommitControl(deviceId)];
    assert cs[..1] == [cs[0]] && [cs[0]][..0] == [] && cs[..2] == cs;
    var sel1 := t.selections[deviceId := version];
    StageIssuesNothing(t, account, deviceId, version);
    assert DispatchAll(t, account, [cs[0]]) == Effect(sel1, [], Done);
    CommitStagedVersion(t.(selections := sel1), account, deviceId);
    assert sel1 - {deviceId} == t.selections - {deviceId};
  }

  /** Staging a version, committing, and committing again issues one update
      request with that version: the first commit consumes the staged value,
      so the second one finds nothing to do. */
  lemma {:induction false} StageCommitCommit(t: Tables, account: Account, deviceId: string, version: string)
    requires version != "" && deviceId in t.deviceModels
    ensures var e := ControlBatch(t, account, [StageControl(deviceId, version), CommitControl(deviceId),
                                                CommitControl(deviceId)]);
            && e.outcome == Done
            && deviceId !in e.selections
            && |e.issued| == 1
            && e.issued[0] == FirmwareUpdateRequest(t.protectedDevices, deviceId, version,
                                                    t.deviceModels[deviceId], account)
  {
    var cs := [StageControl(deviceId, version), CommitControl(deviceId), CommitControl(deviceId)];
    assert cs[..2][..1] == [cs[0]] && [cs[0]][..0] == [] && cs[..2] == [cs[0], cs[1]];
    var sel1 := t.selections[deviceId := version];
    StageIssuesNothing(t, account, deviceId, version);
    assert DispatchAll(t, account, [cs[0]]) == Effect(sel1, [], Done);
    CommitStagedVersion(t.(selections := sel1), account, deviceId);
    var sel2 := sel1 - {deviceId};
    var req := FirmwareUpdateRequest(t.protectedDevices, deviceId, version, t.deviceModels[deviceId], account);
    assert DispatchAll(t, account, cs[..2]) == Effect(sel2, [req], Done);
    CommitWithoutStagedVersion(t.(selections := sel2), account, deviceId);
    assert DispatchAll(t, account, cs) == Effect(sel2, [req], Done);
  }
}
