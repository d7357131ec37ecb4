# SageVue aggregator core, modelled in Dafny

This project models the bookkeeping core of `SageVueCommunicator`, the
Symphony aggregator adapter for Biamp SageVue. The adapter keeps a cache of
aggregated devices keyed by serial number. A loader thread refreshes the
device list at most once per cooldown period, then fetches per-device detail
in cycles. An activity monitor pauses all of this when the platform stops
asking for statistics. A control dispatcher turns controllable properties into
PUT requests: protect/unprotect a system, reboot a device, stage and commit a
firmware update.

The model is split by concern:

- `Text` (text.dfy): the Java string operations the core relies on. These are
  ASCII `toLowerCase`, `startsWith`/`endsWith`, `replaceAll` with a literal
  pattern, the `[^\\d.]` filter, `String.join` with its inverse split, and the
  set of distinct elements a `HashSet` keeps.
- `Devices` (devices.dfy): the device record, how one listing is merged into
  the cache, the protected-device list, the fault summary text, the firmware
  option set, and a snapshot of the cache's values.
- `Control` (control.dfy): request paths and payloads, credential selection,
  the model URL segment, and the dispatcher of `controlProperty` and
  `controlProperties`. The dispatcher is a pure function from the side tables
  to an effect: new firmware selections, requests issued, and an outcome.
- `Communicator` (communicator.dfy): the list refresh as a specification
  function `Refresh` with its properties, and the class `Aggregator` whose
  fields are the adapter's state. Each locked section or loader step is one
  atomic method, proved against the specification functions.
- `Scenarios` (scenarios.dfy): end-to-end runs from a fresh instance.

Clock reads are the `now` parameters of the methods. The network answers
are method inputs: the parsed device-list fields, the device detail map and
the firmware versions. The output of the property extractor is an input too.
Requests are appended to the `requests` log instead of being sent.

Where the code and the adapter's documented behaviour differ, the model
follows the code:

- The emptiness check of fetchDevicesList tests the number of top-level JSON
  fields, not the number of devices. A response whose fields hold no
  "...Devices" array still advances the cooldown and empties the protected list
  (`RefreshWithoutDeviceFields`).
- fetchDevicesList clears `deviceModels`. In this revision it then parses a
  hard-coded JSON literal instead of calling `getDevices`, so nothing refills
  the table during a refresh. The model takes the parsed response as an input.
  The traversal that would fill `deviceModels` is a separate operation,
  `IndexDeviceListing`.
- A reboot or firmware commit for a device without a known model throws a
  null-pointer exception in `retrieveDeviceUrlSegment`. The model returns
  `Failed(MissingDeviceModel)`. For a firmware commit the staged version has
  already been removed at that point.

## Model

| member | source | states |
|---|---|---|
| Text.RemoveAllTrailing | src/main/java/com/avispl/symphony/dal/communicator/biamp/sagevue/SageVueCommunicator.java:604 | removing every occurrence of a pattern from m + pattern gives m back when no occurrence starts inside m |
| Text.RemoveAllTrailingHeadAbsent | src/main/java/com/avispl/symphony/dal/communicator/biamp/sagevue/SageVueCommunicator.java:604 | the same when the pattern's first character does not occur in m |
| Text.RemoveAll | src/main/java/com/avispl/symphony/dal/communicator/biamp/sagevue/SageVueCommunicator.java:604 | the result is never longer than the input, and a text shorter than the pattern is unchanged |
| Text.KeepDigitsAndDots | src/main/java/com/avispl/symphony/dal/communicator/biamp/sagevue/SageVueCommunicator.java:275 | the result holds only ASCII digits and dots and is no longer than the input |
| Text.KeepDigitsAndDotsAppend | src/main/java/com/avispl/symphony/dal/communicator/biamp/sagevue/SageVueCommunicator.java:275 | the filter distributes over concatenation |
| Text.KeepDigitsAndDotsIdentity | src/main/java/com/avispl/symphony/dal/communicator/biamp/sagevue/SageVueCommunicator.java:275 | a text of digits and dots passes through the filter unchanged |
| Text.Lower | src/main/java/com/avispl/symphony/dal/communicator/biamp/sagevue/SageVueCommunicator.java:577 | lower-casing keeps the length |
| Text.LowerSpec | src/main/java/com/avispl/symphony/dal/communicator/biamp/sagevue/SageVueCommunicator.java:577 | lower-casing turns exactly the ASCII capitals into small letters and keeps every other character (see Left out) |
| Text.SplitJoin | src/main/java/com/avispl/symphony/dal/communicator/biamp/sagevue/SageVueCommunicator.java:638 | a comma join splits back into exactly its pieces when no piece holds a comma |
| Text.DistinctSpec | src/main/java/com/avispl/symphony/dal/communicator/biamp/sagevue/SageVueCommunicator.java:634-637 | the distinct elements have no duplicates and are exactly the members of the input |
| Devices.ProtectedSerialsSpec | src/main/java/com/avispl/symphony/dal/communicator/biamp/sagevue/SageVueCommunicator.java:529-534 | a serial is in the protected list iff some extracted device with that serial has isProtected equal to "true", ignoring case |
| Devices.ProtectedSerials | src/main/java/com/avispl/symphony/dal/communicator/biamp/sagevue/SageVueCommunicator.java:529-534 | the protected list has at most one entry per extracted device |
| Devices.ProtectedSerialsListed | src/main/java/com/avispl/symphony/dal/communicator/biamp/sagevue/SageVueCommunicator.java:529-534 | every protected serial number is the serial number of an extracted device |
| Devices.MergeListingKeys | src/main/java/com/avispl/symphony/dal/communicator/biamp/sagevue/SageVueCommunicator.java:535-539 | after a merge the cache's keys are the old keys plus the listed serials, so no key is removed |
| Devices.Upsert | src/main/java/com/avispl/symphony/dal/communicator/biamp/sagevue/SageVueCommunicator.java:535-539 | one record adds its serial to the keys, sets that entry's online flag from the record, and leaves every other entry as it was |
| Devices.MergeListingKeyed | src/main/java/com/avispl/symphony/dal/communicator/biamp/sagevue/SageVueCommunicator.java:535-539 | every cache entry stays stored under its own serial number |
| Devices.MergeListingKeepsEntry | src/main/java/com/avispl/symphony/dal/communicator/biamp/sagevue/SageVueCommunicator.java:535-537 | a device already cached changes at most in its online flag |
| Devices.MergeListingOnline | src/main/java/com/avispl/symphony/dal/communicator/biamp/sagevue/SageVueCommunicator.java:535-539 | a listed serial's online flag is that of its last record in the listing |
| Devices.MergeListingInserts | src/main/java/com/avispl/symphony/dal/communicator/biamp/sagevue/SageVueCommunicator.java:538-539 | a new serial is stored as its first record, with the online flag of its last record |
| Devices.FaultSummary | src/main/java/com/avispl/symphony/dal/communicator/biamp/sagevue/SageVueCommunicator.java:612-617 | the StringBuilder loop yields FaultId, a vertical bar, IndicatorId, ":", Message, newline for each fault, in order |
| Devices.FaultLine | src/main/java/com/avispl/symphony/dal/communicator/biamp/sagevue/SageVueCommunicator.java:614-615 | one fault's line is as long as its three fields plus the bar, the colon and the line break, and ends in a newline; its contents are pinned by FaultSummary and FaultsTextRecorded |
| Devices.FaultsTextLines | src/main/java/com/avispl/symphony/dal/communicator/biamp/sagevue/SageVueCommunicator.java:612-617 | the summary has one newline per fault when no fault field holds a newline |
| Devices.FaultsTextRecorded | src/test/java/com/avispl/symphony/dal/communicator/biamp/sagevue/SageVueCommunicatorTest.java:58 | the three recorded faults give exactly the asserted summary text |
| Devices.CollectFirmwareVersions | src/main/java/com/avispl/symphony/dal/communicator/biamp/sagevue/SageVueCommunicator.java:634-638 | the options have no duplicates, and a version is an option iff it is offered by the API or is the current version |
| Devices.FilterByIds | src/main/java/com/avispl/symphony/dal/communicator/biamp/sagevue/SageVueCommunicator.java:331-336 | the result is no longer than the snapshot, and a device is kept iff it is in the snapshot and its deviceId was asked for |
| Devices.FilterByIdsCount | src/main/java/com/avispl/symphony/dal/communicator/biamp/sagevue/SageVueCommunicator.java:333-335 | each device occurs in the result as often as in the snapshot when its deviceId was asked for, and not at all otherwise |
| Devices.FilterByIdsAppend | src/main/java/com/avispl/symphony/dal/communicator/biamp/sagevue/SageVueCommunicator.java:333-335 | the filter distributes over concatenation, so it keeps the snapshot's order |
| Devices.FilterByIdsDistinct | src/main/java/com/avispl/symphony/dal/communicator/biamp/sagevue/SageVueCommunicator.java:333-335 | devices with distinct serial numbers stay distinct after filtering |
| Devices.FilterSnapshot | src/main/java/com/avispl/symphony/dal/communicator/biamp/sagevue/SageVueCommunicator.java:331-336 | filtering a snapshot of the cache keeps exactly the cached devices with an asked-for deviceId, each once |
| Devices.SnapshotOf | src/main/java/com/avispl/symphony/dal/communicator/biamp/sagevue/SageVueCommunicator.java:326-327 | every cached device appears once, as cached, and nothing else appears |
| Devices.SnapshotSerialNumbers | src/main/java/com/avispl/symphony/dal/communicator/biamp/sagevue/SageVueCommunicator.java:95 | the serial numbers of a snapshot name every cached device exactly once |
| Control.UrlSegment | src/main/java/com/avispl/symphony/dal/communicator/biamp/sagevue/SageVueCommunicator.java:576-582 | the segment is empty iff the lower-cased model is "tesira", and otherwise model + "/" |
| Control.AuthenticationPayload | src/main/java/com/avispl/symphony/dal/communicator/biamp/sagevue/SageVueCommunicator.java:392-405 | the real login and password when asked to populate them, and two empty strings otherwise |
| Control.FirmwareUpdatePayload | src/main/java/com/avispl/symphony/dal/communicator/biamp/sagevue/SageVueCommunicator.java:473-488 | it carries the serial and version, with real credentials iff the device is protected |
| Control.SystemIdOfControlName | src/main/java/com/avispl/symphony/dal/communicator/biamp/sagevue/SageVueCommunicator.java:274-276 | for an id made only of digits and dots, the switch named "System " + id starts with "System" and reading its id back gives the id |
| Control.HexSystemIdNotReadBack | src/main/java/com/avispl/symphony/dal/communicator/biamp/sagevue/SageVueCommunicator.java:275 | an id with letters is not read back: the switch of system "5ffe" addresses system "5" |
| Control.Dispatch | src/main/java/com/avispl/symphony/dal/communicator/biamp/sagevue/SageVueCommunicator.java:266-309 | one control issues at most one request |
| Control.DispatchSelections | src/main/java/com/avispl/symphony/dal/communicator/biamp/sagevue/SageVueCommunicator.java:266-309 | one control changes the staged version of its own device only |
| Control.StageIssuesNothing | src/main/java/com/avispl/symphony/dal/communicator/biamp/sagevue/SageVueCommunicator.java:298-300 | AvailableFirmwareVersions stages the value for that device and issues nothing |
| Control.CommitWithoutStagedVersion | src/main/java/com/avispl/symphony/dal/communicator/biamp/sagevue/SageVueCommunicator.java:291-295 | FirmwareUpdate with nothing or an empty string staged issues nothing and changes nothing |
| Control.CommitStagedVersion | src/main/java/com/avispl/symphony/dal/communicator/biamp/sagevue/SageVueCommunicator.java:291-296 | FirmwareUpdate with a version staged removes it (requestFirmwareUpdate, line 726) and issues exactly one update request with that version when the model is known, and fails otherwise |
| Control.UnknownPropertyIsIgnored | src/main/java/com/avispl/symphony/dal/communicator/biamp/sagevue/SageVueCommunicator.java:301-303 | any other property name issues nothing and changes nothing |
| Control.SystemSwitch | src/main/java/com/avispl/symphony/dal/communicator/biamp/sagevue/SageVueCommunicator.java:274-285 | a "System..." property with value 1 issues protect, with 0 issues unprotect, and otherwise nothing |
| Control.RebootCredentials | src/main/java/com/avispl/symphony/dal/communicator/biamp/sagevue/SageVueCommunicator.java:571-574 | a reboot with a known model issues one request, whatever the control's value, with credentials iff the device is protected |
| Control.DispatchAll | src/main/java/com/avispl/symphony/dal/communicator/biamp/sagevue/SageVueCommunicator.java:316-318 | running a list issues at most one request per control, and the outcome is never "ignored" |
| Control.DispatchAllStopsAtFailure | src/main/java/com/avispl/symphony/dal/communicator/biamp/sagevue/SageVueCommunicator.java:316-318 | once a control throws, the later controls have no effect |
| Control.ControlBatch | src/main/java/com/avispl/symphony/dal/communicator/biamp/sagevue/SageVueCommunicator.java:312-315 | an empty list is rejected with nothing issued |
| Control.StageCommitCommit | src/main/java/com/avispl/symphony/dal/communicator/biamp/sagevue/SageVueCommunicator.java:287-298 | stage, commit, commit issues exactly one update with the staged version and leaves nothing staged |
| Control.StageCommitWithoutModel | src/main/java/com/avispl/symphony/dal/communicator/biamp/sagevue/SageVueCommunicator.java:291-296 | without a recorded model, stage then commit fails with nothing issued and nothing left staged |
| Communicator.ListCooldown | src/main/java/com/avispl/symphony/dal/communicator/biamp/sagevue/SageVueCommunicator.java:519 | the cooldown is the larger of 120000 ms and the configured timeout |
| Communicator.Refresh | src/main/java/com/avispl/symphony/dal/communicator/biamp/sagevue/SageVueCommunicator.java:494-545 | the refresh is skipped, changing nothing, iff the cache is non-empty and in cooldown; otherwise deviceModels is cleared; a refresh that goes through sets the cooldown and the detail timestamp, and one that does not changes nothing else |
| Communicator.ExtractedDevicesNone | src/main/java/com/avispl/symphony/dal/communicator/biamp/sagevue/SageVueCommunicator.java:520-525 | fields without a "...Devices" name contribute no devices |
| Communicator.ExtractedDevicesMembers | src/main/java/com/avispl/symphony/dal/communicator/biamp/sagevue/SageVueCommunicator.java:520-525 | a device is extracted iff it is listed under some "...Devices" field |
| Communicator.ExtractDevices | src/main/java/com/avispl/symphony/dal/communicator/biamp/sagevue/SageVueCommunicator.java:520-525 | the loop collects the devices of the "...Devices" fields, in field order |
| Communicator.MergeDevices | src/main/java/com/avispl/symphony/dal/communicator/biamp/sagevue/SageVueCommunicator.java:529-539 | the loop rebuilds the protected list and merges the cache device by device |
| Communicator.RefreshGate | src/main/java/com/avispl/symphony/dal/communicator/biamp/sagevue/SageVueCommunicator.java:496-502 | with a non-empty cache and the cooldown in the future nothing changes; with an empty cache the refresh always proceeds |
| Communicator.RefreshEmptyResponse | src/main/java/com/avispl/symphony/dal/communicator/biamp/sagevue/SageVueCommunicator.java:508-517 | a null or field-less response clears deviceModels and leaves the cache, the protected list and both timers as they were |
| Communicator.RefreshNeverForgets | src/main/java/com/avispl/symphony/dal/communicator/biamp/sagevue/SageVueCommunicator.java:535-539 | no cached serial is ever dropped, and entries stay keyed by their serial |
| Communicator.RefreshApplied | src/main/java/com/avispl/symphony/dal/communicator/biamp/sagevue/SageVueCommunicator.java:519-541 | a refresh that goes through sets the cooldown to now + max(120000, configured), sets the detail timestamp to now, adds exactly the new serials, changes cached devices only in their online flag, and lists as protected exactly the flagged devices |
| Communicator.RefreshWithoutDeviceFields | src/main/java/com/avispl/symphony/dal/communicator/biamp/sagevue/SageVueCommunicator.java:515-534 | a non-empty response without device fields keeps the cache, empties the protected list and still sets the cooldown |
| Communicator.RefreshConsistent | src/main/java/com/avispl/symphony/dal/communicator/biamp/sagevue/SageVueCommunicator.java:529-539 | a refresh keeps every protected serial number and every pending task among the cached serial numbers, and the cache keyed |
| Communicator.ConsistentDetails | src/main/java/com/avispl/symphony/dal/communicator/biamp/sagevue/SageVueCommunicator.java:625-639 | replacing a cached device by one with the same serial number keeps the cache keyed and the protected list and pending tasks among its serials |
| Communicator.FirmwareOptionsOfDetails | src/main/java/com/avispl/symphony/dal/communicator/biamp/sagevue/SageVueCommunicator.java:625-639 | after a detail fetch the AvailableFirmwareVersions property splits into the offered and current versions, each once, and the other properties are those of the detail merge |
| Communicator.WithDetails | src/main/java/com/avispl/symphony/dal/communicator/biamp/sagevue/SageVueCommunicator.java:630-638 | a detail fetch changes only the device's properties, and always sets AvailableFirmwareVersions |
| Communicator.WithoutFinished | src/main/java/com/avispl/symphony/dal/communicator/biamp/sagevue/SageVueCommunicator.java:112 | removeIf keeps exactly the pending tasks that have not finished |
| Communicator.WithoutFinishedEmpty | src/main/java/com/avispl/symphony/dal/communicator/biamp/sagevue/SageVueCommunicator.java:104-113 | the drain ends iff every pending task has finished |
| Communicator.ModelOfDevicesField | src/main/java/com/avispl/symphony/dal/communicator/biamp/sagevue/SageVueCommunicator.java:604 | the model name of a field m + "Devices" is m whenever no occurrence of "Devices" starts inside m |
| Communicator.ModelOfField | src/main/java/com/avispl/symphony/dal/communicator/biamp/sagevue/SageVueCommunicator.java:604 | the model name is never longer than the field name |
| Communicator.DevioFieldModel | src/main/java/com/avispl/symphony/dal/communicator/biamp/sagevue/SageVueCommunicator.java:604 | the DevioDevices field of the listing names the model Devio |
| Communicator.TesiraFieldUsesDefaultEndpoint | src/main/java/com/avispl/symphony/dal/communicator/biamp/sagevue/SageVueCommunicator.java:604 | devices listed under TesiraDevices use the default endpoints |
| Communicator.RecordModelsSpec | src/main/java/com/avispl/symphony/dal/communicator/biamp/sagevue/SageVueCommunicator.java:605-607 | every listed serial maps to the field's model and every other entry is kept |
| Communicator.RecordModels | src/main/java/com/avispl/symphony/dal/communicator/biamp/sagevue/SageVueCommunicator.java:605-607 | recording models never drops a serial number |
| Communicator.ListingModels | src/main/java/com/avispl/symphony/dal/communicator/biamp/sagevue/SageVueCommunicator.java:602-607 | the traversal never drops a serial number |
| Communicator.ListingModelsSpec | src/main/java/com/avispl/symphony/dal/communicator/biamp/sagevue/SageVueCommunicator.java:602-607 | after the traversal a serial number maps to the model of the last "...Devices" field listing it, and a serial number no such field lists keeps its earlier entry or stays absent |
| Communicator.FirstUnreadable | src/main/java/com/avispl/symphony/dal/communicator/biamp/sagevue/SageVueCommunicator.java:610-611 | the position of the first device whose "Faults" is not an array: every earlier one is readable, and the one there is not |
| Communicator.IndexDevicesSpec | src/main/java/com/avispl/symphony/dal/communicator/biamp/sagevue/SageVueCommunicator.java:605-620 | the traversal of a field's devices returns iff every "Faults" is an array, and then it has recorded every serial number under the model and summarized every device |
| Communicator.IndexDevicesAbort | src/main/java/com/avispl/symphony/dal/communicator/biamp/sagevue/SageVueCommunicator.java:605-611 | otherwise it aborts after recording the serial numbers up to and including the first device whose "Faults" is not an array |
| Communicator.IndexFieldSpec | src/main/java/com/avispl/symphony/dal/communicator/biamp/sagevue/SageVueCommunicator.java:602-620 | a field is returned iff it is readable, and then summarized, with the models of RecordModels |
| Communicator.IndexListingSpec | src/main/java/com/avispl/symphony/dal/communicator/biamp/sagevue/SageVueCommunicator.java:601-621 | getDevices returns iff every "Faults" of every "...Devices" field is an array, and then returns the summarized listing with the models of ListingModels |
| Communicator.IndexListingAbort | src/main/java/com/avispl/symphony/dal/communicator/biamp/sagevue/SageVueCommunicator.java:601-611 | a non-array "Faults" aborts getDevices, keeping the models of the earlier fields and of the failing field up to and including that device |
| Communicator.Aggregator.constructor | src/main/java/com/avispl/symphony/dal/communicator/biamp/sagevue/SageVueCommunicator.java:141-228 | an empty cache and empty tables, a 5-minute retrieval timeout, paused, the loader running, and the cooldown at the init time |
| Communicator.Aggregator.FetchDevicesList | src/main/java/com/avispl/symphony/dal/communicator/biamp/sagevue/SageVueCommunicator.java:494-545 | the new cache, protected list, model table and timers are those Refresh gives for the old state |
| Communicator.Aggregator.UpdateAggregatorStatus | src/main/java/com/avispl/symphony/dal/communicator/biamp/sagevue/SageVueCommunicator.java:552-554 | paused iff the deadline is before now |
| Communicator.Aggregator.UpdateValidRetrieveStatisticsTimestamp | src/main/java/com/avispl/symphony/dal/communicator/biamp/sagevue/SageVueCommunicator.java:556-559 | the deadline becomes now + 180000 and the adapter is not paused |
| Communicator.Aggregator.RetrieveMultipleStatistics | src/main/java/com/avispl/symphony/dal/communicator/biamp/sagevue/SageVueCommunicator.java:322-328 | the detail timestamp becomes now, the deadline now + 180000, every device is stamped now, and the result lists every cached device once |
| Communicator.Aggregator.RetrieveMultipleStatisticsFor | src/main/java/com/avispl/symphony/dal/communicator/biamp/sagevue/SageVueCommunicator.java:331-336 | the same state change, and the result is the filter of a snapshot of the cache: exactly the cached devices whose deviceId was asked for, no serial number twice |
| Communicator.Aggregator.LoopStep | src/main/java/com/avispl/symphony/dal/communicator/biamp/sagevue/SageVueCommunicator.java:47-102 | started with the previous cycle drained: a stopped loader does nothing; a paused one changes only the paused flag; otherwise the list refresh runs and the detail cycle starts iff the cache is non-empty and its time has come, submitting each cached serial once |
| Communicator.Aggregator.SubmitDetailTasks | src/main/java/com/avispl/symphony/dal/communicator/biamp/sagevue/SageVueCommunicator.java:95-102 | one pending task per cached serial, each once |
| Communicator.Aggregator.SubmitTasks | src/main/java/com/avispl/symphony/dal/communicator/biamp/sagevue/SageVueCommunicator.java:97-102 | the pending tasks gain the given serial numbers, in order |
| Communicator.Aggregator.RunDetailTask | src/main/java/com/avispl/symphony/dal/communicator/biamp/sagevue/SageVueCommunicator.java:625-639 | the cached device gets the fetched detail and the firmware options, or no fetched data when its model is unknown |
| Communicator.Aggregator.PollDrain | src/main/java/com/avispl/symphony/dal/communicator/biamp/sagevue/SageVueCommunicator.java:104-118 | pending tasks lose the finished ones; the next cycle is set to now + 30000 only once none is pending, or on an interrupt after stop |
| Communicator.Aggregator.Stop | src/main/java/com/avispl/symphony/dal/communicator/biamp/sagevue/SageVueCommunicator.java:131-133 | the loader stops |
| Communicator.Aggregator.ControlProperty | src/main/java/com/avispl/symphony/dal/communicator/biamp/sagevue/SageVueCommunicator.java:266-309 | the new staged versions, the requests issued and the outcome are those Dispatch gives for the old tables |
| Communicator.Aggregator.ControlProperties | src/main/java/com/avispl/symphony/dal/communicator/biamp/sagevue/SageVueCommunicator.java:312-319 | the same for a list, as ControlBatch gives it |
| Communicator.Aggregator.IndexListingField | src/main/java/com/avispl/symphony/dal/communicator/biamp/sagevue/SageVueCommunicator.java:602-620 | the new deviceModels and the result are those of IndexField: for a "...Devices" field each serial is recorded under the field's model and non-empty fault arrays become their summary text, until a "Faults" that is not an array aborts the traversal |
| Communicator.Aggregator.IndexDeviceListing | src/main/java/com/avispl/symphony/dal/communicator/biamp/sagevue/SageVueCommunicator.java:601-621 | the new deviceModels and the result are those of IndexListing over every field, which stops at the first exception |
| Scenarios.InactivityScenario | src/main/java/com/avispl/symphony/dal/communicator/biamp/sagevue/SageVueCommunicator.java:552-559 | paused at start; after a statistics call at t, active at t + 180000 and paused at t + 180001 |
| Scenarios.DetailCycleScenario | src/main/java/com/avispl/symphony/dal/communicator/biamp/sagevue/SageVueCommunicator.java:86-118 | a listing of N devices submits N tasks; with one task running the cycle does not end; once it finishes the next cycle is 30 s after that poll |
| Scenarios.AsWrittenFirmwareScenario | src/main/java/com/avispl/symphony/dal/communicator/biamp/sagevue/SageVueCommunicator.java:508-509 | as written deviceModels stays empty, so stage then commit fails with nothing sent and nothing left staged |
| Scenarios.FirmwareScenario | src/main/java/com/avispl/symphony/dal/communicator/biamp/sagevue/SageVueCommunicator.java:287-298 | had getDevices filled deviceModels: stage, commit, commit for an unprotected Tesira device sends exactly one request, to the default firmware endpoint, with empty credentials |
| Scenarios.TextFaultsAbort | src/main/java/com/avispl/symphony/dal/communicator/biamp/sagevue/SageVueCommunicator.java:607-611 | a device whose "Faults" is a text node aborts the traversal right after its serial number was recorded |

## Left out

- HTTP transport and authentication (doGet, doPut, doPost, authenticate, the re-authentication retry in getDevices, extra request headers, ping): these are network I/O. Requests are recorded in a log and answers are inputs.
- The responses of protect/unprotect ("Protected"/"Unprotected" flags) and of the firmware update: only the requests are modelled.
- JSON and YAML handling (Jackson, PropertiesMappingParser, AggregatedDeviceProcessor.extractDevices): these are library calls. Their results are inputs.
- Communicator.WithDetails: applyProperties is modelled as overriding the cached properties with the fetched detail map; its mapping rules live in the YAML model mapping, which is not part of this model.
- Concurrency: the fixed thread pool, Future polling, the sleeps, volatile fields, the lock and synchronized methods. Each locked section or loop segment is one atomic method, and the drain is one poll per call. As a consequence the in-progress checks inside one loader step all see the same flag, and detail tasks run one at a time. ControlProperties is one atomic step too, although controlProperties itself takes no lock and each controlProperty locks separately (lines 267 and 307), so in the adapter another locked section can run between two controls of a list.
- getMultipleStatistics and getSystems build UI switches from a hard-coded systems fixture; they are presentation plumbing. The hard-coded device JSON literal in fetchDevicesList is fixture data and is replaced by the response input.
- internalInit/internalDestroy beyond the initial state, and thread cancellation: these are framework lifecycle hooks.
- The static fields nextDevicesCollectionIterationTimestamp and executorService are instance fields here, not state shared between instances.
- Text.Lower: only ASCII letters are lowercased; Java's full Unicode case mapping is not modelled.
- HashMap and HashSet iteration order: the order of the cache snapshot and of the firmware options is left unspecified (SnapshotOf picks keys in any order) or fixed to first occurrence (Distinct); only membership and absence of duplicates are stated.
- Timestamps are unbounded integers; 64-bit long overflow is not modelled.
- Exceptions from fetchDevicesList inside the loader, and the null getCause() in its error log, are not modelled; the refresh has no exception path.
- A null controllable-property list, or a null value, is not modelled; the list is a sequence and values are strings.
- A serial number absent from the cache in fetchDeviceDetails is not modelled as an exception: RunDetailTask returns false and leaves the cache unchanged. A listed device without a "SerialNumber" (a null from findValue in getDevices) is not modelled either: serial numbers are strings.
- Control.SystemIdOfControlName: the round trip holds only for ids made of digits and dots, such as the 03275657 of the systems fixture. The `[^\\d.]` filter of controlProperty strips the letters of hexadecimal ids such as 5ffee89bcd3a4a87aefa518e (the SystemId values of the device listing), so the protect and unprotect requests would then address another id (HexSystemIdNotReadBack). The model keeps the code's behaviour.
- Communicator.Aggregator.RetrieveMultipleStatistics: the returned list holds the cache's own AggregatedDevice objects, so a later setDeviceOnline in a refresh or a detail merge changes devices the caller already holds. The model returns copies of the values and does not model this aliasing.
- Devices.CollectFirmwareVersions: a missing FirmwareVersion is the text "null" here, so an offered version literally named "null" collapses with it, where the Java HashSet keeps null and "null" apart and joins them as "null,null".
- Both test harnesses (WireMock and Pact) are not part of this model, apart from the fault text asserted in the communicator test.
