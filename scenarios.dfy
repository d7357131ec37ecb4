/** End-to-end runs of the communicator from a fresh instance: the inactivity
    timeout, one detail cycle with a slow task, and staging then committing a
    firmware update. */
module Scenarios {
  import opened Wrappers
  import opened Text
  import opened Devices
  import opened Control
  import opened Communicator

  /** A statistics call at t keeps the adapter active through t + 180000 and
      pauses it from t + 180001 on; before that call it is paused. */
  method InactivityScenario(t: int) returns (initiallyPaused: bool, pausedAtDeadline: bool,
                                             pausedAfterDeadline: bool)
    ensures initiallyPaused && !pausedAtDeadline && pausedAfterDeadline
  {
    var a := new Aggregator(t, Account("admin", "secret"));
    initiallyPaused := a.paused;
    var _ := a.RetrieveMultipleStatistics(t);
    a.UpdateAggregatorStatus(t + RetrieveStatisticsTimeOut);
    pausedAtDeadline := a.paused;
    a.UpdateAggregatorStatus(t + RetrieveStatisticsTimeOut + 1);
    pausedAfterDeadline := a.paused;
  }

  /** The first refresh of an empty cache from a listing with one
      TesiraDevices field. */
  lemma FirstRefresh(s: ListState, configuredTimeout: int, t: int, ds: seq<Device>)
    requires s.devices == map[]
    ensures var r := Refresh(s, configuredTimeout, t, Some([ResponseField("TesiraDevices", ds)])).state;
            r.devices.Keys == SerialsOf(ds) && r.nextDetailCycleAt == t
  {
    var fields := [ResponseField("TesiraDevices", ds)];
    assert ExtractedDevices(fields) == ds by {
      assert fields[..0] == [];
    }
    RefreshApplied(s, configuredTimeout, t, fields);
  }

  /** A listing of devices with distinct serial numbers starts one task per
      device; while the last task is still running the cycle does not end and
      the next cycle is not scheduled; once it finishes the next cycle is set
      30 s after that poll. */
  method DetailCycleScenario(t: int, ds: seq<Device>) returns (submitted: nat, overWithOnePending: bool,
                                                              overWhenAllDone: bool, nextCycleAt: int)
    requires |ds| >= 1
    requires forall i, j :: 0 <= i < j < |ds| ==> ds[i].serialNumber != ds[j].serialNumber
    ensures submitted == |ds|
    ensures !overWithOnePending && overWhenAllDone
    ensures nextCycleAt == t + 1000 + DetailCycleInterval
  {
    var a := new Aggregator(t, Account("admin", "secret"));
    var _ := a.RetrieveMultipleStatistics(t);
    var fields := [ResponseField("TesiraDevices", ds)];
    FirstRefresh(a.ListView(), a.metaDataRetrievalTimeout, t, ds);
    var tick := a.LoopStep(t, Some(fields));
    var serials := SerialsOf(ds);
    assert a.devices.Keys == serials;
    var slow := ds[|ds| - 1].serialNumber;
    assert slow in a.devices;
    assert tick.DetailCycleStarted?;
    DistinctCount(tick.submitted, serials);
    SerialsOfDistinct(ds);
    submitted := |tick.submitted|;

    overWithOnePending := a.PollDrain(t + 500, serials - {slow}, false);
    assert slow in a.pendingTasks;
    WithoutFinishedEmpty(a.pendingTasks, serials);
    overWhenAllDone := a.PollDrain(t + 1000, serials, false);
    nextCycleAt := a.nextDetailCycleAt;
  }

  /** Devices with distinct serial numbers have as many serial numbers. */
  lemma SerialsOfDistinct(ds: seq<Device>)
    requires forall i, j :: 0 <= i < j < |ds| ==> ds[i].serialNumber != ds[j].serialNumber
    ensures |SerialsOf(ds)| == |ds|
  {
    var s := seq(|ds|, i requires 0 <= i < |ds| => ds[i].serialNumber);
    forall x ensures x in s <==> x in SerialsOf(ds) {
      if x in s {
        var k :| 0 <= k < |s| && s[k] == x;
        assert ds[k].serialNumber == x;
      }
      if x in SerialsOf(ds) {
        var k :| 0 <= k < |ds| && ds[k].serialNumber == x;
        assert s[k] == x;
      }
    }
    DistinctCount(s, SerialsOf(ds));
  }

  /** A duplicate-free sequence whose elements are exactly those of a set has
      as many elements as the set. */
  lemma {:induction false} DistinctCount(s: seq<string>, xs: set<string>)
    requires forall i, j :: 0 <= i < j < |s| ==> s[i] != s[j]
    requires forall x :: x in s <==> x in xs
    ensures |s| == |xs|
    decreases |s|
  {
    if s != [] {
      var rest := s[1..];
      forall x ensures x in rest <==> x in xs - {s[0]} {
        if x in rest {
          var k :| 0 <= k < |rest| && rest[k] == x;
          assert s[k + 1] == x;
        }
        if x in s && x != s[0] {
          var k :| 0 <= k < |s| && s[k] == x;
          assert rest[k - 1] == x;
        }
      }
      DistinctCount(rest, xs - {s[0]});
    }
  }

  function TesiraListing(): seq<ListingField>
  {
    [ListingField("TesiraDevices", [ListedDevice("S1", FaultArray([]))])]
  }

  function FirmwareControls(): seq<ControlRequest>
  {
    [StageControl("S1", "4.2.0"), CommitControl("S1"), CommitControl("S1")]
  }

  lemma TesiraListingModels()
    ensures IndexListing(map[], TesiraListing()).models == map["S1" := "Tesira"]
  {
    var listing := TesiraListing();
    var field := listing[0];
    assert listing[..0] == [];
    HeadAbsentNoEarlyOccurrence("Tesira", "Devices");
    ModelOfDevicesField("Tesira");
    assert "Tesira" + "Devices" == field.name;
    assert EndsWith(field.name, "Devices");
    assert field.devices[..0] == [];
    assert RecordModels(map[], "Tesira", field.devices) == map["S1" := "Tesira"];
    assert ListingReadable(listing) by {
      assert FaultsReadable(field.devices[0]);
    }
    IndexListingSpec(map[], listing);
  }

  /** A device whose "Faults" is a text node aborts the traversal right after
      its serial number was recorded. */
  lemma TextFaultsAbort()
    ensures IndexListing(map[], [ListingField("TesiraDevices", [ListedDevice("S1", FaultValue("none"))])])
            == Indexed(map["S1" := "Tesira"], None)
  {
    var ds := [ListedDevice("S1", FaultValue("none"))];
    var listing := [ListingField("TesiraDevices", ds)];
    assert listing[..0] == [];
    assert FirstUnreadable(ds) == 0;
    assert ds[..1] == ds;
    assert ds[..0] == [];
    HeadAbsentNoEarlyOccurrence("Tesira", "Devices");
    ModelOfDevicesField("Tesira");
    assert "Tesira" + "Devices" == listing[0].name;
    assert EndsWith(listing[0].name, "Devices");
    IndexListingAbort(map[], listing, 0);
  }

  lemma TesiraSegment()
    ensures UrlSegment("Tesira") == ""
  {
  }

  lemma FirmwareControlsEffect(t: Tables, account: Account)
    requires "S1" in t.deviceModels && UrlSegment(t.deviceModels["S1"]) == "" && t.protectedDevices == []
    ensures var e := ControlBatch(t, account, FirmwareControls());
            e.outcome == Done && e.issued == [Put(BaseUrl + "Firmware/", FirmwareUpdateBody("S1", "", "", "4.2.0"))]
  {
    StageCommitCommit(t, account, "S1", "4.2.0");
    assert BaseUrl + "Firmware/" + "" == BaseUrl + "Firmware/";
  }

  /** The firmware update as the adapter runs it: getDevices is never called
      (its call in fetchDevicesList is commented out), so deviceModels stays
      empty and committing a staged version fails without a request. */
  method AsWrittenFirmwareScenario(t: int) returns (outcome: Outcome, sent: seq<Request>, staged: map<string, string>)
    ensures outcome == Failed(MissingDeviceModel) && sent == [] && staged == map[]
  {
    var a := new Aggregator(t, Account("admin", "secret"));
    StageCommitWithoutModel(a.TablesView(), a.account, "S1", "4.2.0");
    outcome := a.ControlProperties([StageControl("S1", "4.2.0"), CommitControl("S1")]);
    sent := a.requests;
    staged := a.firmwareSelections;
  }

  /** Had getDevices filled deviceModels: the device is listed under
      TesiraDevices, a version is staged, and the update is committed twice:
      exactly one request goes out, to the default firmware endpoint, with
      empty credentials for an unprotected device. */
  method FirmwareScenario(t: int) returns (outcome: Outcome, sent: seq<Request>)
    ensures outcome == Done
    ensures sent == [Put(BaseUrl + "Firmware/", FirmwareUpdateBody("S1", "", "", "4.2.0"))]
  {
    var a := new Aggregator(t, Account("admin", "secret"));
    var _ := a.IndexDeviceListing(TesiraListing());
    TesiraListingModels();
    TesiraSegment();
    FirmwareControlsEffect(a.TablesView(), a.account);
    outcome := a.ControlProperties(FirmwareControls());
    sent := a.requests;
  }
}
