# nuki_hub: models and proofs of the hub's state machines

nuki_hub is firmware for ESP32 boards that bridges Nuki smart locks and openers to MQTT. This
project models the parts of it that keep state over many calls, and proves what they guarantee over
every run: the lock-out after wrong codes, the rolling authorization log and its crash safety, the
retained topics that mirror device lists, the path builders, the settings export and import, the
pin table, and four small timers and filters.

Code that updates fields is a class whose methods are proved against step functions; the lemmas
beside it are about all sequences of steps. Clock readings, device replies, stored bytes and
one-time codes are arbitrary inputs.

| file | models |
|---|---|
| `LockOut.dfy`, `CodeChecks.dfy` | the lock-out protocol; the three checks that run it |
| `RollingLog.dfy`, `LogMachine.dfy`, `CrashSafety.dfy` | one batch and runs of batches; the same loop as micro-steps; crashes between them |
| `RetainedTopics.dfy` | per-entry retained topics and the stored high-water count |
| `CStrings.dfy`, `MqttPath.dfy` | C strings in buffers; the path builders |
| `HexText.dfy`, `Decimal.dfy`, `Settings.dfy`, `ShippedKeys.dfy` | the text forms of values; export and import of the preference store; the shipped key tables |
| `PinTable.dfy`, `Debounce.dfy` | the pin configuration bytes; the input filter |
| `PollBackoff.dfy`, `HybridWatch.dfy`, `SerialFraming.dfy`, `Weekdays.dfy` | the remaining machines |
| `Lists.dfy`, `Basics.dfy` | sorting and cutting device lists; what several models share |

## What the proofs found

- Wrong codes are limited to one per 120 s plus a burst worth 1099175 ms, in any window without an
  accepted code. The burst is attained by eleven codes in a row, and the rate, to within a
  millisecond, for ever (`RateLimit`, `FastestIsEvaluated`, `SteadyIsEvaluated`). The failure count
  stays at or below 1952, so neither it nor its product with 120000 overflows, and up to 2^52 ms of
  uptime doubles hold every term of the floating-point comparison.
- A caller who never waits out the back-off since its previous attempt is shut out for good exactly
  if at most 18 failures are counted; from 19 on the failures decay before the back-off has passed
  (`HastyCallerStaysOut`, `WaitAndEnterIsAccepted`).
- A crash can cost the lock one log entry for good and make the opener publish one twice. Exactly the
  crashes between the two halves of an entry do so: the lock loses one entry for each crash between
  persisting and publishing and none otherwise (`LockLosesExactly`), and once the opener has caught up
  it has repeated one for each crash between publishing and persisting (`OpenerRepeatsExactly`).
- A watermark raised while an entry is being rolled is forgotten exactly if it is above that entry and
  arrives before the entry's index is assigned (`RaiseDuringRoll`); after the assignment it stays.
- The path builders that test the buffer they write are right for every non-empty prefix. With an
  empty one, which the hub has when its path setting is empty, the result depends on what the buffer
  held before (`SelfReadIsConcatenation`, `RecognisedTopic`).
- The import reads a byte value into 32 bytes and does not look at its length. Importing an export
  stays inside them exactly if no byte value is longer (`Settings.RoundTrip`), and every access list
  the first start stores is (`AccessListsOverrunTheImport`); so is a pin configuration of 17 pairs.
- Within that bound a set byte value comes back, and a text key exactly if its value has the type of
  its class. Seven shipped keys hold a number of another type: `maxauth`, `opmaxauth` and `geminiPin`
  come back as text, `maxkpad`, `opmaxkpad`, `maxtc` and `opmaxtc` signed (`RetypedDoNotSurvive`). The
  high-water counts among them read as zero at the next start (`RetypedCountReadsZero`), after which the
  entry topics past every later list stay for ever (`ImportForgetsTopics`).
- The settings for the most log entries and the most authorization entries are one: both macros stand
  for the key `authmaxentry`, which the integer table lists, so it survives (`SharedKeySurvives`).
- The pin table survives a save and a load exactly if pin 0 is not disabled at the load or the save
  leaves no hole (`PinTable.RoundTrip`). Pin 0 is the boot button on some boards, and becomes a
  disabled pin with the boot button bypass. The load tests a role before it has read it, so a pin that
  is not disabled any more comes back as Ethernet exactly if it was listed and disabled at the save
  (`FreedPinStaysEthernet`); the next save drops it.
- The hybrid watch looks at the previous pass only, so it can request a reboot in the pass that finds
  the connection back (`FiresOnReconnect`). It reads the connection twice a pass: a disconnect between
  the two reads is dated back to the one before, and can cost a reboot at once (`TornPassFires`). The
  outage that a request is counted from is unbroken exactly if no pass since its drop was torn like
  that (`RequestsForOutages`).

## Model

| member | source | states |
|---|---|---|
| LockOut.RateLimit | src/ImportExport.cpp:279-337 | over every interleaving of checks, refused checks and decay ticks from any state, the wrong codes evaluated since the first of a window number at most one per 120000 ms up to the latest check, plus a burst of 1099175 ms |
| LockOut.Potential | src/NukiNetwork.cpp:443-451 | after every check of a window opened at count zero, the sum of i^5 below the count plus 120000 ms per decay fits in the elapsed time, and every wrong code is counted or decayed |
| LockOut.RunKeeps | src/ImportExport.cpp:279-337 | the invariant behind both bounds holds after every timely run |
| LockOut.RecordKeeps | src/NukiNetwork.cpp:443-451 | one check or tick keeps that invariant, whatever decayed in the gap before it |
| LockOut.CountPaysUptime | src/ImportExport.h:33-36 | from boot, accepted codes included, the count is never negative and a count of n takes S(n) ms of uptime |
| LockOut.NoOverflow | src/NukiNetwork.cpp:443-451 | with an int64 clock no reachable count exceeds 1952, so the 32-bit product 120000 * count and the increment do not overflow |
| LockOut.DoublesAreExact | src/ImportExport.cpp:283-283 | up to 2^52 ms of uptime all terms of pow(count, 5) + last are integers of at most 53 bits, so doubles hold them |
| LockOut.SClosedForm | src/ImportExport.cpp:283-283 | the closed form of the summed back-off times |
| LockOut.CapBounds | src/NukiNetwork.cpp:443-451 | the capped back-off sum stays within 1099175 ms of 120000 ms per code |
| LockOut.FastestIsEvaluated | src/ImportExport.cpp:279-337 | n wrong codes can be evaluated in exactly S(n) ms; at n = 11 the rate limit holds with equality, so no smaller burst would do |
| LockOut.SteadyIsEvaluated | src/NukiNetwork.cpp:443-451 | one wrong code every 120001 ms can go on for ever, so no slower rate would do, whatever the burst |
| LockOut.Release | src/NukiNetwork.cpp:443-451 | without checks, no tick up to last + 120000*count changes anything and every later one takes one failure off until zero |
| LockOut.WaitsFromLatestAttempt | src/ImportExport.cpp:283-289 | over every run the wait counts from the latest attempt in it, refused or not: a refused check starts the wait again |
| LockOut.HastyCallerStaysOut | src/ImportExport.cpp:283-287 | with any decay ticks in between, a caller who never waits count^5 ms since its previous attempt (taken from the events alone) is refused every time in every run, right code or not, iff the count it starts from is at most 18 |
| LockOut.HastyKeepsCount | src/NukiNetwork.cpp:443-451 | from a count of at most 18, such a run refuses every check, and a failure decays only after the back-off has passed |
| LockOut.WaitAndEnterIsAccepted | src/NukiNetwork.cpp:443-451 | for every count of 19 or more, a run in which the failures decay and a right code is accepted before count^5 ms have passed |
| CodeChecks.ImportExport.CheckTotp | src/ImportExport.cpp:279-313 | accepts iff enabled, count^5 ms have passed since the latest attempt and one of the five codes of the window matches; every attempt is stamped, a wrong one counted, a right one clears the count; the bypass guard is untouched |
| CodeChecks.ImportExport.CheckBypass | src/ImportExport.cpp:315-337 | the same for the bypass key on its own guard |
| CodeChecks.ImportExport.Decay | src/NukiNetwork.cpp:443-451 | each enabled guard loses one failure iff more than 120000 ms for each have passed since its latest attempt |
| CodeChecks.KeypadChecks.CheckCode | src/NukiOpenerWrapper.cpp:2256-2307 | valid iff enabled as read at the check, out of the back-off and the code stored first under the non-zero id matches; which of the five results is reported; an unknown id counts as a wrong code |
| CodeChecks.KeypadChecks.Decay | src/NukiOpenerWrapper.cpp:412-415 | the opener's guard makes its tick if the copy of the setting taken with the settings is on |
| RollingLog.BatchExtends | src/NukiNetworkOpener.cpp:679-703 | any batch publishes strictly increasing indices above the old watermark; the new watermark is the maximum of it and the batch |
| RollingLog.SortedBatchComplete | src/NukiOpenerWrapper.cpp:774-777 | because the caller sorts, every index of the batch above the old watermark is published |
| RollingLog.RunIsIncreasing | src/NukiNetworkOpener.cpp:165-177 | over every run of whole batches with raises between them, published indices are strictly increasing and the watermark never falls; raises inside a batch are LogMachine.OneBootIsIncreasing and LogMachine.RaiseDuringRoll |
| RollingLog.RingConservation | src/NukiNetworkOpener.cpp:685-697 | over every run of whole batches with raises between them, the rings are the doorbell entries rolled, in order and each with its locked flag, except a first one rolled at watermark zero; raises inside a batch are LogMachine.RingsOverOneBoot |
| RollingLog.OpenerLog.PublishAuthorizationInfo | src/NukiNetworkOpener.cpp:511-726 | the opener's loop rolls the batch as specified and keeps the stored watermark equal to the one in memory |
| RollingLog.RaiseIsMaximum | src/NukiNetworkOpener.cpp:165-177 | a raise leaves the larger of the watermark and the value, and nothing else changes |
| RollingLog.LockedIsTwoClearBits | src/NukiNetworkOpener.cpp:687-696 | a ring is "locked" iff the two lowest bits of the first data byte are clear |
| RollingLog.OpenerLog.OnLastRollingLog | src/NukiNetworkOpener.cpp:165-177 | with saving off the watermark becomes the larger of itself and the retained value; with saving on nothing changes |
| RollingLog.OpenerLog.UpdateAuthData | src/NukiOpenerWrapper.cpp:763-782 | every index above the watermark among the first `maxEntries` retrieved is rolled, once and in order, and nothing else; a negative setting keeps all of up to 2^31 |
| RollingLog.LockLog.PublishAuthorizationInfo | src/NukiNetworkLock.cpp:797-806 | the lock's persist-first loop rolls the same entries to the same watermark |
| Lists.CutKeeps | src/NukiOpenerWrapper.cpp:769-772 | the cut keeps the smaller of the length and the setting; a negative setting keeps every list of up to 2^31 |
| Lists.Sort | src/NukiOpenerWrapper.cpp:774-777 | the result is sorted by the key and has the length of the list |
| Lists.SortPermutes | src/NukiOpenerWrapper.cpp:774-777 | sorting permutes the list |
| Lists.SortIsStable | src/NukiOpenerWrapper.cpp:774-777 | entries of the same key keep their order |
| LogMachine.OneBootIsIncreasing | src/NukiNetworkOpener.cpp:679-703 | without a crash, published indices are strictly increasing in both publishing orders, whatever batches come and between whichever micro-steps the watermark is raised |
| LogMachine.RaiseDuringRoll | src/NukiNetworkOpener.cpp:165-177 | with saving off, a raise that arrives while an entry is rolled is the watermark when the entry is finished if its index was assigned before, else the entry's index is: it is forgotten iff it is above the entry and comes before the assignment |
| LogMachine.RaiseAfterTestIsForgotten | src/NukiNetworkLock.cpp:216-227 | every raise above an entry that comes right after that entry's test is forgotten, by lock and opener |
| LogMachine.RingsOverOneBoot | src/NukiNetworkOpener.cpp:685-697 | over every boot with raises between any micro-steps, the doorbell entries tested ring in order with their locked flags, except that one stays quiet if its own test finds the watermark still zero, and none if the boot starts above zero with saving on |
| LogMachine.RingsOverAllRuns | src/NukiNetworkOpener.cpp:685-697 | over every run with crashes, of either locked flag the published doorbell entries are as many as those that rang, stayed quiet, were cut off by a crash or are about to be tested; at most one is quiet for each boot and at most one cut off by each crash |
| LogMachine.UndisturbedIsRollAll | src/NukiNetworkOpener.cpp:679-703 | a run of micro-steps alone publishes exactly what the loop rolls, sends exactly its rings, ends with its watermark, stores it iff saving is on, and leaves the last index published in the retained topic |
| CrashSafety.LockNeverRepeats | src/NukiNetworkLock.cpp:797-806 | with saving on, over every run with crashes between any two micro-steps, the lock publishes no index twice |
| CrashSafety.OpenerRepeatsOncePerCrash | src/NukiNetworkOpener.cpp:679-703 | with saving on, over every run the opener's repeats number at most the crashes between publishing and persisting an entry; without one nothing is published twice |
| CrashSafety.OpenerRepeatsExactly | src/NukiNetworkOpener.cpp:679-703 | with sorted batches of the device that cover its log, once the stored watermark has caught up with everything published, the repeats number exactly those crashes |
| CrashSafety.OpenerLosesNothing | src/NukiNetworkOpener.cpp:679-703 | if sorted batches cover the device's log from the watermark on, every device entry up to the stored watermark has been published |
| CrashSafety.LockLosesExactly | src/NukiNetworkLock.cpp:797-806 | under the same condition, with no entry about to be published, the entries missing up to the stored watermark are exactly those a crash caught between persisting and publishing; with the device's own batches they number exactly these crashes, so none is missing iff there was none |
| CrashSafety.LockLosesOncePerCrash | src/NukiNetworkLock.cpp:797-806 | under the same condition the lock's unpublished entries number at most the crashes, plus the one in flight |
| CrashSafety.UnsavedRepeatsOncePerCrash | src/NukiNetworkLock.cpp:216-227 | with saving off, in both publishing orders, repeats number at most the crashes if after each crash the retained watermark arrives before the next batch |
| CrashSafety.UnsavedRestart | src/NukiNetworkLock.cpp:216-227 | with saving off, in every run of a crash, whatever value (or none) that arrives, a sorted batch and its micro-steps, the batch is rolled from that value, and repeats something iff an index of it above the value was published before |
| CrashSafety.LockCanLose | src/NukiNetworkLock.cpp:39-42 | a run with one crash in which the lock never publishes an entry |
| CrashSafety.OpenerCanRepeat | src/NukiNetworkOpener.cpp:28-31 | a run with one crash in which the opener publishes an entry twice |
| RetainedTopics.AgreesAfterEveryPublish | src/NukiOpenerWrapper.cpp:917-941 | over every run of updates, with topics switched on and off and publishes cut short by restarts, each whole publish with topics on leaves topics that read back as exactly the latest list, any whole publish leaves nothing beyond it, and the JSON topic holds the list's text |
| RetainedTopics.EntryReadsBack | src/NukiNetworkOpener.cpp:1188-1195 | every entry payload reads back as its members and its index, whatever the members hold |
| RetainedTopics.AgreementReadsBack | src/NukiNetworkOpener.cpp:1188-1195 | topics that agree with a list are set exactly below its length and read back as its entries in order |
| RetainedTopics.TopicsTellTheList | src/NukiNetworkOpener.cpp:1188-1195 | two lists that agree with the same topics have the same entries |
| RetainedTopics.JsonTopicAfter | src/NukiNetworkOpener.cpp:1229-1233 | after a whole publish the JSON topic holds the text of the list |
| RetainedTopics.PublishEffect | src/NukiNetworkOpener.cpp:1114-1244 | the broker after one whole publish, on and off; it agrees with the list exactly if the entry topics are on or held it already; other topics stay |
| RetainedTopics.EntryTopicAfter | src/NukiNetworkOpener.cpp:1235-1243 | the fate of each single entry topic in a publish |
| RetainedTopics.PrefixStaysBelow | src/NukiOpenerWrapper.cpp:983-1007 | however far a publish gets, no entry topic at or above the stored count is set |
| RetainedTopics.ClearsExactly | src/NukiNetworkOpener.cpp:1342-1350 | for every count, consistent or not, a whole publish after any run clears everything past its list iff no topic was set from the larger of the count and the longest list on |
| RetainedTopics.ImportForgetsTopics | src/NukiOpenerWrapper.cpp:152-154 | after an import that names the count and a restart the state is consistent iff no entry topic is set; topics past every later list stay as they were, and a whole publish clears everything past its list iff there are none |
| RetainedTopics.RunStaysConsistent | src/NukiOpenerWrapper.cpp:994-998 | the count in memory is the stored one and bounds every index ever set, through restarts |
| RetainedTopics.OtherListStays | src/NukiNetworkOpener.cpp:1246-1351 | publishing one list keeps the topics of the other in agreement |
| RetainedTopics.TopicsAreDistinct | src/NukiNetworkOpener.cpp:1188-1195 | distinct indices have distinct topics, none of them the list's JSON topic |
| RetainedTopics.PublishedTopicIsRemovedTopic | src/NukiNetwork.cpp:1515-1537 | the topic published by joining and the topic removed by concatenation are the same |
| RetainedTopics.ListTopics.Publish | src/NukiNetworkOpener.cpp:1293-1350 | the publish loops send exactly the specified publications, in order |
| RetainedTopics.ListTopics.Refresh | src/NukiOpenerWrapper.cpp:917-934 | with the topics on they agree afterwards with the first `maxEntries` entries by ascending id; a step of the model that keeps it consistent |
| MqttPath.BuildSelfReading | src/NukiNetworkLock.cpp:1593-1617 | the loop that tests its own output terminates and leaves prefix ++ path, if the path is readable |prefix|-1 bytes past its terminator and the buffer is large enough; the empty prefix is covered too |
| MqttPath.SelfReadIsConcatenation | src/NukiNetwork.cpp:965-989 | the result is prefix ++ path iff the prefix is not empty or the old buffer contents do not end the loop early |
| MqttPath.BuildPlain | src/NukiNetworkOpener.cpp:1450-1470 | the loop that tests the path leaves prefix ++ path for every prefix |
| MqttPath.BuildJoined | src/NukiNetwork.cpp:991-1016 | the list builder leaves the paths joined with the slashes that are missing |
| MqttPath.JoinedOneByOne | src/NukiNetwork.cpp:991-1016 | for any number of paths the result is the first and then each other with its own slash or one put before it |
| MqttPath.ComparePrefixedPath | src/NukiOfficial.cpp:75-80 | true iff the topic is what the self-reading loop builds in the uninitialised buffer, for every prefix |
| MqttPath.RecognisedTopic | src/NukiOfficial.cpp:75-80 | that is prefix ++ path if the prefix is not empty or the old contents are long enough, else a proper prefix of the path |
| MqttPath.PathEquals | src/NukiNetwork.cpp:1461-1466 | true iff the reference is the joined path |
| MqttPath.SubscribedIsRecognised | src/NukiNetwork.cpp:1775-1781 | joining and concatenating agree exactly on paths with a leading slash, and then a subscribed topic is recognised as its own path and no other |
| CStrings.HeldIsCString | src/NukiNetworkLock.cpp:1619-1624 | a buffer that holds a string and its terminator reads as that string |
| HexText.DecodeEncoded | src/ImportExport.cpp:650-657 | reading back printed bytes returns them |
| HexText.EncodeDecoded | src/ImportExport.cpp:765-775 | printing the bytes read from any readable text returns it iff it has even length and is hex without capitals |
| HexText.PrintHex | src/ImportExport.cpp:650-657 | appending each byte at the end of the text leaves the hex text of all bytes; every write stays in the buffer iff twice the bytes are fewer than its characters |
| HexText.ParseHex | src/ImportExport.cpp:765-775 | for every text the two-character loop throws iff a pair that is reached does not convert, is done iff all convert and fit, and then leaves the bytes of the text |
| HexText.StoIIsStrToL | src/ImportExport.cpp:772-772 | on each pair the conversion is the C standard's reading of a number in base 16: white space, a sign, digits |
| HexText.DecodeAt | src/ImportExport.cpp:770-773 | each byte is that number cut to eight bits |
| HexText.DigitsAreHex | src/ImportExport.cpp:656-656 | the sixteen digits by name, small when printed, either way when read |
| Decimal.ParsePrinted | src/ImportExport.cpp:509-532 | a printed integer reads back as itself |
| Decimal.PrintNatIsInjective | src/NukiNetworkOpener.cpp:1190-1190 | different numbers print differently |
| Decimal.DigitsAreDecimal | src/ImportExport.cpp:509-532 | the ten digits by name |
| Decimal.PrintedWithoutLeadingZero | src/NukiNetworkOpener.cpp:1190-1190 | only zero is printed with a leading zero, and the last digit printed is the last of the number |
| Decimal.SignIsPrinted | src/ImportExport.cpp:509-532 | a minus sign is printed for negative numbers only |
| Decimal.SignAndZerosAreRead | src/ImportExport.cpp:711-711 | a plus sign and leading zeros do not change the number read |
| Decimal.OtherTextsAreNoNumbers | src/ImportExport.cpp:711-711 | a text without digits or with anything else behind the sign is no number |
| Settings.RoundTrip | src/ImportExport.cpp:474-544 | importing one store's export into any other stays in bounds iff no byte value of the source has more than 32 bytes, and then on an exported text key they agree iff the key is absent or holds a value of its class, on a set byte key they agree, every other key of the target is unchanged |
| Settings.TextKeyRoundTrip | src/ImportExport.cpp:681-761 | the same for one text key; an absent key and an empty text are removed |
| Settings.ByteKeyRoundTrip | src/ImportExport.cpp:763-775 | a byte value comes back, and reading its text is done within the import's buffer iff it has at most 32 bytes |
| Settings.ExportFitsImport | src/ImportExport.cpp:768-772 | for every store, importing its export never throws and stays within the import's buffer iff no byte value has more than 32 bytes |
| Settings.AccessListsOverrunTheImport | src/PreferencesKeys.h:210-219 | with any of the five access lists of the first start in the store, the export stays in its buffer and its import does not |
| Settings.ImportsAreCanonical | src/ImportExport.cpp:681-761 | an import only produces values of the key's class, in range |
| Settings.SecondRoundTripChangesNothing | src/ImportExport.cpp:662-776 | exporting the imported store and importing that again gives the same store, on every key, if its byte values fit |
| Settings.NumberComesBack | src/ImportExport.cpp:706-761 | what any number comes back as, by the class of its key |
| Settings.ImportedCountReadsZero | src/NukiOpenerWrapper.cpp:152-154 | an import of any document that names a count under another class than the unsigned one makes it read as zero |
| ShippedKeys.RetypedDoNotSurvive | src/PreferencesKeys.h:603-630 | through the shipped tables the counts and the PIN stored with another type than that of their class do not come back, and what they come back as |
| ShippedKeys.RetypedCountReadsZero | src/NukiWrapper.cpp:159-161 | a retyped count reads as zero after every import of a document that names it |
| ShippedKeys.SharedKeySurvives | src/PreferencesKeys.h:56-59 | the key that two settings share is in the integer table and comes back |
| Settings.ExportHoldsExactly | src/ImportExport.cpp:483-501 | of the text keys an export holds all but five, and without the flag none of the redacted ones; of the byte keys those that are set; no other key |
| Settings.ExportedText | src/ImportExport.cpp:501-544 | under each text key: an empty text if absent, a switch as one digit, a number in decimal, a text as it is |
| Settings.ImportLeavesAlone | src/ImportExport.cpp:681-694 | an import leaves keys it does not name or know alone, and two keys always |
| ShippedKeys.PlainExportHoldsNoPassword | src/PreferencesKeys.h:578-583 | without the flag no export of the shipped keys holds the MQTT, Wi-Fi or web password |
| Settings.Preferences.ExportNukiHubJson | src/ImportExport.cpp:465-660 | the export loops produce exactly the specified document, with exactly the keys that are not left out, and stay in the 255-character buffer iff no byte value has more than 127 bytes |
| Settings.Preferences.ImportJson | src/ImportExport.cpp:662-777 | for every document the import loops produce exactly the specified store, or stop at the first byte value that is written past the 32-byte buffer or throws |
| Settings.Preferences.ImportKey | src/ImportExport.cpp:691-760 | one key is removed if the text is empty and otherwise put with the type of its class: a switch, a number in range or zero, or the text; no other key changes |
| PinTable.RoundTrip | src/Gpio.cpp:386-424 | saving under one set of disabled pins and loading under another returns the list normalised for the first and disabled for the second, in order, iff pin 0 is enabled at the load or the save left no hole, despite left-over length |
| PinTable.NormalizedIsDisabled | src/Gpio.cpp:209-265 | under one set of disabled pins that is the normalised list |
| PinTable.FreedPinStaysEthernet | src/Gpio.cpp:242-251 | over a save under one set and a load under another, a pin enabled at the load is Ethernet iff it was listed and disabled at the save, whatever the holes |
| PinTable.NextSaveDropsIt | src/Gpio.cpp:386-424 | saved and loaded under one set of disabled pins, no list gives an enabled pin the Ethernet role |
| PinTable.OtherEntriesComeBack | src/Gpio.cpp:386-424 | an entry of another role is loaded iff it was in the list saved and its pin is enabled both times; none of role Disabled is ever loaded |
| PinTable.DisabledPinIsLoaded | src/Gpio.cpp:253-264 | a pin disabled at the load is loaded iff the list had it in use or it was disabled at the save too, pin 0 also if there is a hole; always as Ethernet |
| PinTable.LoadSaved | src/Gpio.cpp:209-265 | what the pairs saved under one set load as under another, with one Ethernet pin 0 more for every dropped entry if pin 0 is disabled at the load |
| PinTable.LoadFiller | src/Gpio.cpp:209-265 | what the zeros beyond the list load as |
| PinTable.PairsOfSaved | src/Gpio.cpp:389-390 | the saved bytes are the pairs of the list and then zeros |
| PinTable.NormalizeIsIdempotent | src/Gpio.cpp:386-424 | a second save and load changes nothing |
| PinTable.Gpio.SavePinConfiguration | src/Gpio.cpp:386-424 | the array written holds the specified bytes and never gets shorter |
| PinTable.Gpio.LoadPinConfiguration | src/Gpio.cpp:209-265 | the loop loads the specified list; without stored bytes nothing changes |
| PinTable.Gpio.SaveAndLoad | src/Gpio.cpp:209-265 | the round trip through the code, over a change of the disabled pins, with its exact condition |
| Debounce.ByteTracksLevel | src/Gpio.cpp:22-66 | over every sample sequence the byte holds the latest three samples and the value of the latest three equal ones in a row, initially LOW |
| Debounce.TriggersAsSpecified | src/Gpio.cpp:22-66 | a trigger is reported iff that level changes, for command roles only to LOW |
| Debounce.SampledShifts | src/Gpio.cpp:22-66 | one call on the byte, bit by bit |
| Debounce.TriggersAreRare | src/Gpio.cpp:60-65 | n samples trigger at most n/3 times on both edges and n/6 times for commands |
| Debounce.WavesMeetTheBounds | src/Gpio.cpp:22-66 | both bounds are met for every length |
| Debounce.Gpio.IsTriggered | src/Gpio.cpp:22-66 | the method makes the step on its pin's byte and leaves the other pins' bytes |
| Debounce.Gpio.Watch | src/Gpio.cpp:68-102 | sampling a pin any number of times counts exactly the specified triggers |
| PollBackoff.BackOff | src/NukiOpenerWrapper.cpp:506-523 | with status signals and their resets at any time, from the first to the last failed query in a row lie at least the waits of those between that no signal brought forward |
| PollBackoff.FruitlessState | src/NukiOpenerWrapper.cpp:330-334 | the failure counter counts the queries, and the next is due when the wait has passed |
| PollBackoff.EarlyQueriesAreFew | src/NukiOpenerWrapper.cpp:3588-3605 | in a failing run at most five queries come early between two resets of the signals, and one more if a signal was pending at its start |
| PollBackoff.WaitsGrowAsASquare | src/NukiOpenerWrapper.cpp:511-521 | the respected waits grow at least as a square past the retries, less the longest one for each early query |
| PollBackoff.QuadraticBackOff | src/NukiOpenerWrapper.cpp:506-523 | m failed queries in a row take quadratic time, less what at most 5(resets + 1) + 1 early ones save |
| PollBackoff.AnswerResets | src/NukiOpenerWrapper.cpp:525-530 | whatever failed before an answer, the failing run after it is spaced as one from the start |
| PollBackoff.AskedWhenDue | src/NukiOpenerWrapper.cpp:330-334 | while nothing brings a query forward, the device is asked by the first pass from the due time on |
| PollBackoff.AskedAgainWhenDue | src/NukiOpenerWrapper.cpp:567-573 | over every calm run after a settled answer the next query comes with the first pass 1000 * interval ms after the query, or 60000 ms after the answer if that is sooner and the state undefined |
| PollBackoff.AskedAgainAtOnce | src/NukiOpenerWrapper.cpp:506-523 | an answer that leaves the status to be updated is followed by a query in the next pass; the k-th failure by one after the delay up to the retries, and 333 * k ms past them |
| PollBackoff.ReadConfig | src/NukiOpenerWrapper.cpp:168-185 | unusable settings are replaced: the delay is at least 100 ms |
| PollBackoff.OpenerPolling.Update | src/NukiOpenerWrapper.cpp:330-334 | the pass asks iff a signal, the time or a command says so, and then sets the failure count, the status and the due time by the answer |
| PollBackoff.OpenerPolling.Notify | src/NukiOpenerWrapper.cpp:3588-3605 | a status signal or its reset makes the specified step: a signal counts unless one is pending or five have counted since the reset |
| HybridWatch.FiresExactly | src/NukiNetworkLock.cpp:185-200 | with both reads of the connection in a pass arbitrary, a reboot is requested iff the last pass left the connection as down and the latest drop seen came at a positive time more than 180000 ms ago and has not led to a request |
| HybridWatch.WatchHoldsDrop | src/NukiNetworkLock.cpp:189-199 | the field holds the time of the latest drop seen, or zero once that has led to a request |
| HybridWatch.RequestsAreApart | src/NukiNetworkLock.cpp:193-197 | two requests belong to different drops and are more than 180000 ms apart |
| HybridWatch.LongOutageFires | src/NukiNetworkLock.cpp:193-197 | a drop at a positive time has led to a request once a pass finds it old enough and the connection left as down |
| HybridWatch.OutageUnlessTorn | src/NukiNetworkLock.cpp:189-199 | between the latest drop and a connection left as down, every pass left it as down iff no disconnect fell between the two reads of one |
| HybridWatch.RequestsForOutages | src/NukiNetworkLock.cpp:193-197 | every request is counted from a drop, and the outage since that drop is unbroken iff no pass since was torn |
| HybridWatch.TornPassFires | src/NukiNetworkLock.cpp:189-199 | a disconnect between the two reads of a pass, long after a short outage, requests the reboot in the next pass |
| HybridWatch.FiresOnReconnect | src/NukiNetworkLock.cpp:193-199 | the pass that finds the connection back can request the reboot |
| HybridWatch.LockWatch.Update | src/NukiNetworkLock.cpp:171-203 | the method, with its two reads of the connection, requests exactly when specified; passes with the watch off or the broker away change nothing |
| SerialFraming.HoldsFrame | src/SerialReader.cpp:25-89 | at every point after a START the text held is the lines since it up to the first END or gap over 3000 ms |
| SerialFraming.HoldsLatestFrame | src/SerialReader.cpp:25-89 | over every history only the latest START decides |
| SerialFraming.CollectedStopsAtEndOrGap | src/SerialReader.cpp:27-30 | the collected lines are exactly those before the first END or gap |
| SerialFraming.TransmissionParses | src/SerialReader.cpp:70-89 | a framed text is parsed as its lines before the first gap, so as itself iff the rest says nothing |
| SerialFraming.PromptTransmissionArrives | src/SerialReader.cpp:70-89 | without such a gap it is parsed as exactly itself |
| SerialFraming.ParsesAtEachEnd | src/SerialReader.cpp:37-77 | over every history each END parses the text held and no other line does; "reset" forgets everything |
| SerialFraming.SerialReader.Update | src/SerialReader.cpp:13-91 | one line makes the specified step |
| Weekdays.ContainsIsSubstring | src/NukiOpenerWrapper.cpp:2860-2887 | the test is true exactly if the text has the pattern as a substring |
| Weekdays.NameOccursIffListed | src/NukiOpenerWrapper.cpp:2860-2887 | a day name occurs in the array's text iff the day is in the array: no match crosses an element |
| Weekdays.EncodesListedDays | src/NukiOpenerWrapper.cpp:2860-2887 | the tests on the text of any list give exactly the bits of its days |
| Weekdays.GreedyListsBits | src/NukiNetworkOpener.cpp:1131-1178 | below 128 the loop lists each set bit once, from high to low |
| Weekdays.GreedyRepeatsMonday | src/NukiNetworkOpener.cpp:1138-1143 | from 128 on Monday comes at least twice |
| Weekdays.MaskRoundTrip | src/NukiOpenerWrapper.cpp:2860-2887 | decoding then encoding returns the mask iff it is below 128 |
| Weekdays.ListRoundTrip | src/NukiNetworkOpener.cpp:1131-1178 | encoding then decoding returns the same days, once each and in weekly order |
| Weekdays.NamesOfDays | src/NukiOpenerWrapper.cpp:2860-2887 | which text is which day |
| Weekdays.GreedySumsUp | src/NukiNetworkOpener.cpp:1131-1178 | for every value the bits of the days listed sum up to it, from high to low |
| Weekdays.Encode | src/NukiOpenerWrapper.cpp:2860-2887 | for any text, the sum of the bits of the day names that occur in it |
| Weekdays.Decode | src/NukiNetworkOpener.cpp:1131-1178 | the loop terminates for every value and lists the specified days |

## Left out

- Preemption inside a check: the network, web and Nuki tasks share the counters, and the model makes each check and each tick one step. A tick may still act on a clock reading older than the step.
- Floating point beyond 2^52 ms of uptime: the comparison pow(count, 5) + last is modelled over integers, which `LockOut.DoublesAreExact` justifies up to there.
- One-time codes: their computation and the time they are computed for are a function from an offset to a number; offered codes are given as the number `toInt` reads.
- Bluetooth, Wi-Fi, the MQTT client, HTTP, Duo, files, watchdogs and tasks: replies are inputs, the broker is a map of retained payloads, every publish reaches it in order.
- Log entries: only index, kind and first data byte; their JSON text, the latest authorization id and name, and indices of 2^31 and above, which print as negative numbers.
- Batches with gaps: `CrashSafety.OpenerLosesNothing`, `CrashSafety.LockLosesExactly` and the bounds beside them assume sorted batches that reach back to the watermark. More new entries than a batch holds are lost by design.
- CrashSafety.UnsavedRepeatsOncePerCrash: does not cover restarts with saving off whose first batch comes before the retained watermark; what such a restart repeats is `CrashSafety.UnsavedRestart`.
- RollingLog.RunIsIncreasing: takes raises between whole batches only; inside a batch the watermark can fall (`LogMachine.RaiseDuringRoll`), and what stays true is `LogMachine.OneBootIsIncreasing`.
- RollingLog.RingConservation: takes raises between whole batches only; with raises anywhere it is `LogMachine.RingsOverOneBoot`.
- Unpairing, which removes the stored watermark.
- Home Assistant discovery topics, and the keypad lists, whose set and cleared topics have different names.
- Contents of JSON payloads: an entry is its members and index, the list payload is arbitrary text.
- Memory behind a path's terminator: read as arbitrary characters, as the loops do; the bounds they need are preconditions of `MqttPath.BuildSelfReading`.
- What happens after a write outside a buffer. The pair "0x" converts to zero, as the C standard has it; a C library may refuse it.
- Imported documents whose values are not strings, fractions and exponents in imported numbers, pairing data, certificates, and the report an import returns. In `Settings` key tables are arbitrary, with byte keys apart from the text keys as in the shipped tables; keys are compared as text where the code compares pointers to pooled literals.
- The flash store keeps one typed value per key; reading a key under another type gives its default. An import is taken with the restart that follows it.
- Roles of pins beyond what saving, loading and debouncing distinguish; `_triggerState` has one slot per pin number here, where the code sizes it by the number of pins.
- Widths of the poll timers' integers, and the other queries of the opener's loop.
- Serial commands other than the two markers and "reset"; parsing of the received text.
- Retries of time control updates, and their other fields.
