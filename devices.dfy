/** The device entity held in the aggregator's cache, the list-refresh merge
    (SageVueCommunicator.fetchDevicesList), the protected-device list it
    rebuilds, the fault summary of getDevices, the firmware option list of
    fetchDeviceDetails, the id filter of retrieveMultipleStatistics(List) and
    the snapshot of the cache's values. */
module Devices {
  import opened Text

  /** The fields of an AggregatedDevice that the communicator reads or writes.
      The cache is keyed by `serialNumber`; the id filter looks at `deviceId`. */
  datatype Device = Device(
    deviceId: string,
    serialNumber: string,
    deviceModel: string,
    online: bool,
    properties: map<string, string>,
    timestamp: int)

  /** Every cache entry is stored under its own serial number. */
  predicate Keyed(cache: map<string, Device>)
  {
    forall k :: k in cache ==> cache[k].serialNumber == k
  }

  function SerialsOf(ds: seq<Device>): set<string>
  {
    set i | 0 <= i < |ds| :: ds[i].serialNumber
  }

  // ---------------------------------------------------------------------------
  // Protected devices

  /** Boolean.parseBoolean(properties.get("isProtected")): true exactly when the
      property is present and equals "true" ignoring case. */
  predicate ProtectedFlag(properties: map<string, string>)
  {
    "isProtected" in properties && Lower(properties["isProtected"]) == "true"
  }

  /** The serial numbers the refresh appends to protectedDevices, in order. */
  function ProtectedSerials(ds: seq<Device>): (r: seq<string>)
    ensures |r| <= |ds|
    decreases |ds|
  {
    if ds == [] then []
    else
      var init := ProtectedSerials(ds[..|ds| - 1]);
      var d := ds[|ds| - 1];
      if ProtectedFlag(d.properties) then init + [d.serialNumber] else init
  }

  /** A serial number is listed as protected exactly when some extracted
      record with that serial number carries a true isProtected flag. */
  lemma {:induction false} ProtectedSerialsSpec(ds: seq<Device>, x: string)
    ensures x in ProtectedSerials(ds) <==>
            exists i :: 0 <= i < |ds| && ds[i].serialNumber == x && ProtectedFlag(ds[i].properties)
  {
    if ds != [] {
      var init := ds[..|ds| - 1];
      ProtectedSerialsSpec(init, x);
      forall i | 0 <= i < |init| ensures init[i] == ds[i] { }
      if x in ProtectedSerials(ds) && x !in ProtectedSerials(init) {
        assert ds[|ds| - 1].serialNumber == x && ProtectedFlag(ds[|ds| - 1].properties);
      }
    }
  }

  /** Every protected serial number is the serial number of an extracted device. */
  lemma ProtectedSerialsListed(ds: seq<Device>)
    ensures forall x :: x in ProtectedSerials(ds) ==> x in SerialsOf(ds)
  {
    forall x | x in ProtectedSerials(ds) ensures x in SerialsOf(ds) {
      ProtectedSerialsSpec(ds, x);
    }
  }

  // ---------------------------------------------------------------------------
  // The list-refresh merge

  /** One step of the refresh's forEach: a known serial number only takes the
      new record's online flag; an unknown one is inserted as extracted. */
  function Upsert(cache: map<string, Device>, d: Device): (r: map<string, Device>)
    ensures r.Keys == cache.Keys + {d.serialNumber}
    ensures r[d.serialNumber].online == d.online
    ensures r == cache[d.serialNumber := r[d.serialNumber]]
  {
    if d.serialNumber in cache
    then cache[d.serialNumber := cache[d.serialNumber].(online := d.online)]
    else cache[d.serialNumber := d]
  }

  /** The cache after the refresh has processed the records `ds` in order. */
  function MergeListing(cache: map<string, Device>, ds: seq<Device>): map<string, Device>
    decreases |ds|
  {
    if ds == [] then cache
    else Upsert(MergeListing(cache, ds[..|ds| - 1]), ds[|ds| - 1])
  }

  /** No key is ever removed, and the new keys are exactly the new serials. */
  lemma {:induction false} MergeListingKeys(cache: map<string, Device>, ds: seq<Device>)
    ensures MergeListing(cache, ds).Keys == cache.Keys + SerialsOf(ds)
  {
    if ds != [] {
      var init := ds[..|ds| - 1];
      MergeListingKeys(cache, init);
      assert SerialsOf(ds) == SerialsOf(init) + {ds[|ds| - 1].serialNumber} by {
        forall i | 0 <= i < |init| ensures init[i] == ds[i] { }
      }
    }
  }

  /** The merge keeps every entry under its own serial number. */
  lemma {:induction false} MergeListingKeyed(cache: map<string, Device>, ds: seq<Device>)
    requires Keyed(cache)
    ensures Keyed(MergeListing(cache, ds))
  {
    if ds != [] {
      MergeListingKeyed(cache, ds[..|ds| - 1]);
    }
  }

  /** An entry that was already cached keeps everything but its online flag. */
  lemma {:induction false} MergeListingKeepsEntry(cache: map<string, Device>, ds: seq<Device>, k: string)
    requires k in cache
    ensures k in MergeListing(cache, ds)
    ensures MergeListing(cache, ds)[k] == cache[k].(online := MergeListing(cache, ds)[k].online)
  {
    if ds != [] {
      MergeListingKeepsEntry(cache, ds[..|ds| - 1], k);
    }
  }

  /** A serial number's online flag is the one of the last record carrying it. */
  lemma {:induction false} MergeListingOnline(cache: map<string, Device>, ds: seq<Device>, j: nat)
    requires j < |ds|
    requires forall i :: j < i < |ds| ==> ds[i].serialNumber != ds[j].serialNumber
    ensures ds[j].serialNumber in MergeListing(cache, ds)
    ensures MergeListing(cache, ds)[ds[j].serialNumber].online == ds[j].online
  {
    var init := ds[..|ds| - 1];
    if j < |ds| - 1 {
      forall i | j < i < |init| ensures init[i].serialNumber != init[j].serialNumber {
        assert init[i] == ds[i];
      }
      MergeListingOnline(cache, init, j);
      assert init[j] == ds[j];
    }
  }

  /** A serial number that was not cached is stored as its first record,
      with the online flag of later records. */
  lemma {:induction false} MergeListingInserts(cache: map<string, Device>, ds: seq<Device>, j: nat)
    requires j < |ds| && ds[j].serialNumber !in cache
    requires forall i :: 0 <= i < j ==> ds[i].serialNumber != ds[j].serialNumber
    ensures ds[j].serialNumber in MergeListing(cache, ds)
    ensures MergeListing(cache, ds)[ds[j].serialNumber]
            == ds[j].(online := MergeListing(cache, ds)[ds[j].serialNumber].online)
  {
    var init := ds[..|ds| - 1];
    var k := ds[j].serialNumber;
    if j < |ds| - 1 {
      forall i | 0 <= i < j ensures init[i].serialNumber != init[j].serialNumber {
        assert init[i] == ds[i];
      }
      MergeListingInserts(cache, init, j);
      assert init[j] == ds[j];
    } else {
      assert k !in MergeListing(cache, init) by {
        MergeListingKeys(cache, init);
        forall i | 0 <= i < |init| ensures init[i].serialNumber != k {
          assert init[i] == ds[i];
        }
      }
    }
  }

  // ---------------------------------------------------------------------------
  // Fault summary (getDevices)

  /** One element of a device record's "Faults" array, each field as asText(). */
  datatype Fault = Fault(faultId: string, indicatorId: string, message: string)

  /** FaultId|IndicatorId:Message followed by a line break. */
  function FaultLine(f: Fault): (r: string)
    ensures |r| == |f.faultId| + |f.indicatorId| + |f.message| + 3 && r[|r| - 1] == '\n'
  {
    f.faultId + "|" + f.indicatorId + ":" + f.message + "\n"
  }

  /** The concatenation of the lines of all faults, in order. */
  function FaultsText(faults: seq<Fault>): string
    decreases |faults|
  {
    if faults == [] then ""
    else FaultsText(faults[..|faults| - 1]) + FaultLine(faults[|faults| - 1])
  }

  /** The StringBuilder loop of getDevices. */
  method FaultSummary(faults: seq<Fault>) returns (summary: string)
    ensures summary == FaultsText(faults)
  {
    summary := "";
    var i := 0;
    while i < |faults|
      invariant 0 <= i <= |faults|
      invariant summary == FaultsText(faults[..i])
    {
      assert faults[..i + 1][..i] == faults[..i];
      summary := summary + faults[i].faultId + "|" + faults[i].indicatorId + ":"
                 + faults[i].message + "\n";
      i := i + 1;
    }
    assert faults[..|faults|] == faults;
  }

  function CountChar(s: string, c: char): nat
    decreases |s|
  {
    if s == [] then 0 else (if s[0] == c then 1 else 0) + CountChar(s[1..], c)
  }

  lemma {:induction false} CountCharAppend(a: string, b: string, c: char)
    ensures CountChar(a + b, c) == CountChar(a, c) + CountChar(b, c)
  {
    if a == [] {
      assert a + b == b;
    } else {
      assert (a + b)[1..] == a[1..] + b;
      CountCharAppend(a[1..], b, c);
    }
  }

  lemma {:induction false} CountCharAbsent(s: string, c: char)
    requires c !in s
    ensures CountChar(s, c) == 0
  {
    if s != [] {
      CountCharAbsent(s[1..], c);
    }
  }

  predicate SingleLine(f: Fault)
  {
    '\n' !in f.faultId && '\n' !in f.indicatorId && '\n' !in f.message
  }

  /** The summary holds one line per fault when no field has a line break. */
  lemma {:induction false} FaultsTextLines(faults: seq<Fault>)
    requires forall i :: 0 <= i < |faults| ==> SingleLine(faults[i])
    ensures CountChar(FaultsText(faults), '\n') == |faults|
  {
    if faults != [] {
      var init := faults[..|faults| - 1];
      var f := faults[|faults| - 1];
      forall i | 0 <= i < |init| ensures SingleLine(init[i]) {
        assert init[i] == faults[i];
      }
      FaultsTextLines(init);
      CountCharAppend(FaultsText(init), FaultLine(f), '\n');
      var head := f.faultId + "|" + f.indicatorId + ":" + f.message;
      assert FaultLine(f) == head + "\n";
      CountCharAppend(head, "\n", '\n');
      CountCharAppend(f.faultId + "|" + f.indicatorId + ":", f.message, '\n');
      CountCharAppend(f.faultId + "|" + f.indicatorId, ":", '\n');
      CountCharAppend(f.faultId + "|", f.indicatorId, '\n');
      CountCharAppend(f.faultId, "|", '\n');
      CountCharAbsent(f.faultId, '\n');
      CountCharAbsent(f.indicatorId, '\n');
      CountCharAbsent(f.message, '\n');
    }
  }

  lemma FaultsTextThree(f0: Fault, f1: Fault, f2: Fault)
    ensures FaultsText([f0, f1, f2]) == FaultLine(f0) + FaultLine(f1) + FaultLine(f2)
  {
    var fs := [f0, f1, f2];
    assert fs[..2] == [f0, f1] && fs[..2][..1] == [f0] && [f0][..0] == [];
    assert "" + FaultLine(f0) == FaultLine(f0);
    assert FaultsText([f0]) == FaultLine(f0);
    assert FaultsText([f0, f1]) == FaultLine(f0) + FaultLine(f1);
  }

  /** Each recorded fault (the fields of the first device of the recorded
      device list) renders as the test expects. */
  lemma FaultLineRecorded0()
    ensures FaultLine(Fault("123", "ERR", "Unable to get information")) == "123|ERR:Unable to get information\n"
  {
    assert "123" + "|" == "123|";
    assert "123|" + "ERR" == "123|ERR";
    assert "123|ERR" + ":" == "123|ERR:";
    assert "123|ERR:" + "Unable to get information" == "123|ERR:Unable to get information";
  }

  lemma FaultLineRecorded1()
    ensures FaultLine(Fault("456", "ERR2", "Unable to fetch information")) == "456|ERR2:Unable to fetch information\n"
  {
    assert "456" + "|" == "456|";
    assert "456|" + "ERR2" == "456|ERR2";
    assert "456|ERR2" + ":" == "456|ERR2:";
    assert "456|ERR2:" + "Unable to fetch information" == "456|ERR2:Unable to fetch information";
  }

  lemma FaultLineRecorded2()
    ensures FaultLine(Fault("789", "FWER", "Firmware error")) == "789|FWER:Firmware error\n"
  {
    assert "789" + "|" == "789|";
    assert "789|" + "FWER" == "789|FWER";
    assert "789|FWER" + ":" == "789|FWER:";
    assert "789|FWER:" + "Firmware error" == "789|FWER:Firmware error";
  }

  /** The three faults of the recorded device list give the summary that the
      communicator's test expects. */
  lemma FaultsTextRecorded(f0: Fault, f1: Fault, f2: Fault)
    requires f0 == Fault("123", "ERR", "Unable to get information")
    requires f1 == Fault("456", "ERR2", "Unable to fetch information")
    requires f2 == Fault("789", "FWER", "Firmware error")
    ensures FaultsText([f0, f1, f2])
            == "123|ERR:Unable to get information\n"
               + "456|ERR2:Unable to fetch information\n"
               + "789|FWER:Firmware error\n"
  {
    FaultsTextThree(f0, f1, f2);
    FaultLineRecorded0();
    FaultLineRecorded1();
    FaultLineRecorded2();
  }

  // ---------------------------------------------------------------------------
  // Firmware options (fetchDeviceDetails)

  /** properties.get("FirmwareVersion"); a missing value is added to the
      HashSet as null, which String.join renders as "null". The model does not
      tell null from an offered version literally named "null": the HashSet
      would hold both and join them as "null,null", where the model keeps one. */
  function CurrentFirmware(properties: map<string, string>): string
  {
    if "FirmwareVersion" in properties then properties["FirmwareVersion"] else "null"
  }

  /** The HashSet of fetchDeviceDetails: the model's versions and the current
      one, each once. The HashSet's iteration order is unspecified; this model
      uses first-occurrence order. */
  method CollectFirmwareVersions(versions: seq<string>, current: string) returns (options: seq<string>)
    ensures options == Distinct(versions + [current])
    ensures NoDuplicates(options)
    ensures forall v :: v in options <==> v in versions || v == current
  {
    var all := versions + [current];
    options := [];
    var i := 0;
    while i < |all|
      invariant 0 <= i <= |all|
      invariant options == Distinct(all[..i])
    {
      assert all[..i + 1][..i] == all[..i];
      if all[i] !in options {
        options := options + [all[i]];
      }
      i := i + 1;
    }
    assert all[..|all|] == all;
    DistinctSpec(all);
  }

  // ---------------------------------------------------------------------------
  // Reading the cache

  /** The stream filter of retrieveMultipleStatistics(List): the devices whose
      deviceId is among the requested ids, in their original order. */
  function FilterByIds(snapshot: seq<Device>, ids: seq<string>): (r: seq<Device>)
    ensures |r| <= |snapshot|
    ensures forall d :: d in r <==> d in snapshot && d.deviceId in ids
    decreases |snapshot|
  {
    if snapshot == [] then []
    else
      var rest := FilterByIds(snapshot[1..], ids);
      if snapshot[0].deviceId in ids then [snapshot[0]] + rest else rest
  }

  /** Each device is kept as often as it occurs in the snapshot when its
      deviceId was asked for, and dropped otherwise. */
  lemma {:induction false} FilterByIdsCount(snapshot: seq<Device>, ids: seq<string>, d: Device)
    ensures multiset(FilterByIds(snapshot, ids))[d] == if d.deviceId in ids then multiset(snapshot)[d] else 0
    decreases |snapshot|
  {
    if snapshot != [] {
      FilterByIdsCount(snapshot[1..], ids, d);
      assert snapshot == [snapshot[0]] + snapshot[1..];
    }
  }

  /** The filter keeps the snapshot's order: it distributes over concatenation. */
  lemma {:induction false} FilterByIdsAppend(a: seq<Device>, b: seq<Device>, ids: seq<string>)
    ensures FilterByIds(a + b, ids) == FilterByIds(a, ids) + FilterByIds(b, ids)
    decreases |a|
  {
    if a != [] {
      assert (a + b)[1..] == a[1..] + b;
      FilterByIdsAppend(a[1..], b, ids);
    } else {
      assert a + b == b;
    }
  }

  /** No two devices of the list share a serial number. */
  predicate DistinctSerials(ds: seq<Device>)
  {
    forall i, j :: 0 <= i < j < |ds| ==> ds[i].serialNumber != ds[j].serialNumber
  }

  /** Devices with distinct serial numbers stay distinct after filtering. */
  lemma {:induction false} FilterByIdsDistinct(snapshot: seq<Device>, ids: seq<string>)
    requires DistinctSerials(snapshot)
    ensures DistinctSerials(FilterByIds(snapshot, ids))
    decreases |snapshot|
  {
    if snapshot != [] {
      var tail := snapshot[1..];
      assert DistinctSerials(tail) by {
        forall i, j | 0 <= i < j < |tail| ensures tail[i].serialNumber != tail[j].serialNumber {
          assert tail[i] == snapshot[i + 1] && tail[j] == snapshot[j + 1];
        }
      }
      FilterByIdsDistinct(tail, ids);
      var rest := FilterByIds(tail, ids);
      if snapshot[0].deviceId in ids {
        forall j | 0 <= j < |rest| ensures rest[j].serialNumber != snapshot[0].serialNumber {
          assert rest[j] in tail;
          var k :| 0 <= k < |tail| && tail[k] == rest[j];
          assert snapshot[k + 1] == tail[k];
        }
        var r := [snapshot[0]] + rest;
        assert FilterByIds(snapshot, ids) == r;
        forall i, j | 0 <= i < j < |r| ensures r[i].serialNumber != r[j].serialNumber {
          assert r[j] == rest[j - 1];
          if i > 0 {
            assert r[i] == rest[i - 1];
          }
        }
      }
    }
  }

  /** `s` lists every cached device exactly once, in some order. */
  predicate IsSnapshot(s: seq<Device>, cache: map<string, Device>)
  {
    && (forall i :: 0 <= i < |s| ==> s[i].serialNumber in cache && cache[s[i].serialNumber] == s[i])
    && (forall i, j :: 0 <= i < j < |s| ==> s[i].serialNumber != s[j].serialNumber)
    && SerialsOf(s) == cache.Keys
  }

  /** Filtering a snapshot keeps exactly the cached devices with an asked-for
      deviceId, each once. */
  lemma FilterSnapshot(s: seq<Device>, cache: map<string, Device>, ids: seq<string>)
    requires IsSnapshot(s, cache)
    ensures var r := FilterByIds(s, ids);
            (forall d :: d in r <==> d.serialNumber in cache && cache[d.serialNumber] == d && d.deviceId in ids)
            && DistinctSerials(r)
  {
    FilterByIdsDistinct(s, ids);
    forall d: Device | d.serialNumber in cache && cache[d.serialNumber] == d
      ensures d in s
    {
      assert d.serialNumber in SerialsOf(s);
    }
  }

  /** The serial numbers of a device list, in order. */
  function SerialNumbers(ds: seq<Device>): (r: seq<string>)
    ensures |r| == |ds| && forall i :: 0 <= i < |ds| ==> r[i] == ds[i].serialNumber
  {
    seq(|ds|, i requires 0 <= i < |ds| => ds[i].serialNumber)
  }

  /** A snapshot names every cached serial number exactly once. */
  lemma SnapshotSerialNumbers(s: seq<Device>, cache: map<string, Device>)
    requires IsSnapshot(s, cache)
    ensures NoDuplicates(SerialNumbers(s))
    ensures forall x :: x in SerialNumbers(s) <==> x in cache
  {
    var r := SerialNumbers(s);
    forall x | x in cache ensures x in r {
      assert x in SerialsOf(s);
      var k :| 0 <= k < |s| && s[k].serialNumber == x;
      assert r[k] == x;
    }
  }

  /** Appending the entry of a not-yet-listed key keeps a partial snapshot
      partial, one key further along. */
  lemma SnapshotStep(s: seq<Device>, cache: map<string, Device>, remaining: set<string>, k: string)
    requires Keyed(cache) && k in remaining && remaining <= cache.Keys
    requires forall i :: 0 <= i < |s| ==> s[i].serialNumber in cache && cache[s[i].serialNumber] == s[i]
    requires forall i, j :: 0 <= i < j < |s| ==> s[i].serialNumber != s[j].serialNumber
    requires SerialsOf(s) == cache.Keys - remaining
    ensures forall i :: 0 <= i < |s + [cache[k]]| ==>
              (s + [cache[k]])[i].serialNumber in cache && cache[(s + [cache[k]])[i].serialNumber] == (s + [cache[k]])[i]
    ensures forall i, j :: 0 <= i < j < |s + [cache[k]]| ==> (s + [cache[k]])[i].serialNumber != (s + [cache[k]])[j].serialNumber
    ensures SerialsOf(s + [cache[k]]) == cache.Keys - (remaining - {k})
  {
    var t := s + [cache[k]];
    forall i | 0 <= i < |s| ensures t[i] == s[i] { }
    forall i | 0 <= i < |s| ensures s[i].serialNumber != k {
      assert s[i].serialNumber in SerialsOf(s);
    }
    assert t[|s|] == cache[k] && cache[k].serialNumber == k;
    forall x | x in SerialsOf(t) ensures x in SerialsOf(s) + {k} {
      var i :| 0 <= i < |t| && t[i].serialNumber == x;
      if i < |s| {
        assert s[i].serialNumber == x;
      }
    }
    assert SerialsOf(t) == SerialsOf(s) + {k};
  }

  /** new ArrayList<>(aggregatedDevices.values()): the cache's values in the
      map's iteration order, which is left unspecified. */
  method SnapshotOf(cache: map<string, Device>) returns (s: seq<Device>)
    requires Keyed(cache)
    ensures IsSnapshot(s, cache)
    ensures |s| == |cache|
  {
    s := [];
    var remaining := cache.Keys;
    while remaining != {}
      invariant remaining <= cache.Keys
      invariant forall i :: 0 <= i < |s| ==> s[i].serialNumber in cache && cache[s[i].serialNumber] == s[i]
      invariant forall i, j :: 0 <= i < j < |s| ==> s[i].serialNumber != s[j].serialNumber
      invariant SerialsOf(s) == cache.Keys - remaining
      invariant |s| + |remaining| == |cache.Keys|
      decreases |remaining|
    {
      var k :| k in remaining;
      SnapshotStep(s, cache, remaining, k);
      s := s + [cache[k]];
      remaining := remaining - {k};
    }
  }
}
