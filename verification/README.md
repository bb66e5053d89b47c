# BlueRetro, modelled in Dafny

BlueRetro connects Bluetooth controllers to game consoles. This project models the parts of its
firmware that are logic rather than hardware access, and proves what they promise. `dafny verify
dfyconfig.toml` checks all of it.

Each component is a specification (datatypes and functions), the code in its own form (classes whose
methods update fields, arrays and buffers in place, with the source's loops), and theorems about the
specification. A method's contract equates the abstract value of the new state, `View()`, with the
specification function of the old one, so the theorems hold of the code.

| module | what it covers |
|---|---|
| `Octets`, `PairingProtocol`, `PairingSafety`, `PairingRecords`, `PairingStory`, `CoreToolbox`, `LePairing` | LE legacy pairing over two queues of continuations, for any interleaving of any number of devices |
| `HidItems`, `HidAccount`, `HidUsages`, `HidGlobals`, `HidParser`, `HidReports`, `HidExample` | the HID report descriptor interpreter |
| `ConnectionEvents`, `ConnectionLaws`, `ConnectionManager` | the seven-slot device table, the staged controller configuration and inquiry |
| `BondSlots`, `LinkKeyRing`, `LeKeyRing`, `LeKeySurvival` | the two sixteen-slot bond stores |
| `AclReassembly`, `AclFragments` | recombination of L2CAP frames |
| `MemoryCard`, `CardTransfer` | the paged memory card, its write-back and its chunked transfer |
| `AttConfig` | long reads and prepared writes of an input's configuration |
| `DcKeyboard` | the Dreamcast keyboard's rollover list |
| `SinglePrecision`, `AxisMapping`, `MappingLaws`, `MappingOrder`, `MappingEffects`, `FullDeflection`, `GcOutput` | axis and button mapping, down to the GameCube's octets |
| `GameId` | the PlayStation game name sanitiser |
| `Bytes`, `Options` | what several of them share |

Main results, hardest first:

- Pairing: in every state of every run the queues line up one for one with the commands in flight
  (`EveryStateIsSafe`); every confirm value is c1 of the material its own device had when its random was
  drawn (`EveryConfirmHasItsDraw`), and the random revealed later is the one it was made from
  (`ConfirmThenReveal`); encryption starts with s1 of the device's own
  randoms although its confirm chain writes to the same buffer (`KeyIsOfTheRandom` in every run,
  `EncryptionStartsWithStk` for the randoms of the moment). The confirm value is for the request that was
  sent (`ConfirmIsForTheRequest`, `DrawnForTheRequest`), every message has the event that prompted it
  (`EveryMessageWasPrompted`), and the host distributes its keys exactly when the peer's are all there
  (`DistributesWhenAllHandedOver`). `WholePairing` gives one pairing message by message.
  `ConfirmValueIsC1` and `ShortTermKeyIsS1` connect the host's little-endian blocks to the functions of
  the Bluetooth Core Specification, Vol 3 Part H, sections 2.2.3 and 2.2.4.
- Descriptors: the byte loop carries out exactly the items of HID 1.11, section 6.2.2.2 (`Parse`), every
  report's usages lie side by side in it (`ReportsAreDisjoint`), and the reports with their lengths and
  order are those of a direct account that never looks at the parser's state (`ReportsAreAccounted`), and
  so is every usage in them (`ReportsAreExactly`), with the page and the limits that the last global items
  before it gave (`UsagesHaveTheirLimits`).
  The account also gives the limits: the parser leaves its arrays or overflows an offset exactly on the
  descriptors beyond them (`StuckExactlyBeyondLimits`).
- Connections: distinct addresses, bounded retries and "idle means looking" survive every event
  (`EveryRunIsGood`); retries are counted exactly (`RetriesAreCounted`); a device that was connected and is
  disconnected is in no slot, unless a lower one has its handle (`DisconnectedDeviceIsGone`); the
  configuration sends every entry once and in order (`WholeConfiguration`).
- Stores: the LE store is a bounded map (`StoreLtkUpdatesMap`, `ClearRemovesFromMap`); how long a link
  key or a bond survives is decided by the write index alone (`SurvivalIsExact` of both), so sixteen bonds
  are all loaded (`SixteenBondsAreLoaded`).
- Frames: a split frame is handed over when it is complete whatever complete packets come in between
  (`SplitFrameIsHandedOverOnce`), and once if and only if no empty continuation follows (`OnceExactly`).
- Memory card: after a start that reports success, a block that is not waiting equals the file
  (`BootedRunIsSynced`); successful steps equal in number to the waiting blocks make the file equal the
  card (`DrainEmpties`), and a restore recovers it (`RestoreRecovers`).
- Mapping: despite single-precision rounding linear entries never leave an output's range, so no GameCube
  octet wraps or saturates (`MappedOctetsAreExact`); the order of the entries is irrelevant
  (`OrderIsIrrelevant`), to the sign of an axis exactly when no entries oppose each other
  (`SignsAgreeExactly`). Which buttons are pressed, whose value and settings an axis takes and which ranges
  grow is read off the entries and inputs alone (`PressedExactly`, `FirstLoudestWins`, `RangesGrowExactly`).

Some promises do not hold of the code as written. For each the exact condition is proved, and an input:

- A merged field whose count is a multiple of 32 above 32 ends in a fragment without bits
  (`FragmentsTile`; a descriptor in `MergedFieldLosesItsEnd`).
- A card transfer stops making progress over an MTU from 2 to 5 (`TransferFinishesExactly`; from offset 0
  at MTU 5 in `StuckAtTheStart`). The code takes whatever MTU a peer asks for, and one of 0 or 1 limits
  nothing (`CardTransfer.ResponseFitsExactly`, `AttConfig.ResponseFitsExactly`).
- The firmware goes on after a failed restore, and then card and file are in step only by chance
  (`BootIsSyncedExactly`; way by way in `FailedBootIsSyncedExactly`), which write-back never repairs
  (`OutOfStepStays`).
- A second Pairing Response on a connection changes the random that is revealed
  (`SecondResponseDecidesReveal`). Over every run the random changes exactly when an answer redraws it
  (`RandChangesExactly`, `RevealDependsOnRedraws`).
- A restart of the host while the controller owes it answers misaligns the queues
  (`RestartKeepsSafeExactly`), and an answer for one device goes to another (`RestartMisdirects`).
- A disconnection frees the lowest slot with its handle, so a device stays in its slot if a lower one holds
  the same handle (`DisconnectedDeviceIsGone`), as one does that waits for its connection if the other's
  handle is 0 (`WaitingDeviceGoesInstead`).
- A continuation that comes late hands the last frame over again, to the wrong connection if it belongs
  to another (`LateContinuationRepeats`, `SecondStartDiscardsFirst`).
- A stick at the end of its range may leave its output one short of the end (`FullDeflectionCanFallShort`).
  It does not exactly when the span times its quotient, both rounded, is not below the end
  (`EndIsReachedExactly`); one way only, a quotient that is not rounded down, or a span that divides the
  range, suffices (`EndIsReachedIf`).
- A card response may be longer than the packet buffer (`ResponseFitsBufferExactly`).

## Model

| member | source | states |
|---|---|---|
| `CoreToolbox.ConfirmValueIsC1` | main/bluetooth/smp.c:40-74 | The two-step masking and encryption over little-endian buffers is c1 of the Core Specification (Vol 3 Part H, 2.2.3), for every cipher and every material |
| `CoreToolbox.ShortTermKeyIsS1` | main/bluetooth/smp.c:76-92 | The block the host encrypts for the key is s1's (Vol 3 Part H, 2.2.4), the peer's random first |
| `PairingSafety.StepKeepsSafe` | main/bluetooth/hci.c:1322-1351 | Every event keeps both context queues lined up with the commands in flight and keeps every message honest |
| `PairingSafety.EveryStateIsSafe` | main/bluetooth/hci.c:1776-1797 | In every state of every run each pending callback is for the device that asked, and every value sent was computed for its device's address |
| `PairingSafety.StepKeepsSettled` | main/bluetooth/smp.c:249-288 | With one Pairing Response per connection no event changes the material that pending confirm work or sent confirm values refer to, nor, with an orderly Pairing Random, that of a pending key |
| `PairingSafety.EveryStateIsSettled` | main/bluetooth/smp.c:94-126 | The same in every state of every such run |
| `PairingSafety.ConfirmThenReveal` | main/bluetooth/smp.c:118-121 | Every confirm value sent to a device is the confirm function of its own material, and each random revealed afterwards is the one it was made from |
| `PairingSafety.EncryptionStartsWithStk` | main/bluetooth/smp.c:123-126 | The key given to start encryption is the short term key of that device's two randoms, whatever else used the shared buffer |
| `PairingSafety.EveryConfirmJobHasItsDraw` | main/bluetooth/smp.c:98-116 | In every run, without assumptions on the peers, work on a confirm value is for the material its device had when its random was drawn |
| `PairingSafety.EveryConfirmHasItsDraw` | main/bluetooth/smp.c:118-121 | In every run every confirm value sent is the confirm function of that material |
| `PairingSafety.EveryKeyHasItsRandom` | main/bluetooth/smp.c:273-288 | In every run, without assumptions on the peers, a key in flight is computed from the material its device had when its peer's random came |
| `PairingSafety.KeyIsOfTheRandom` | main/bluetooth/smp.c:123-126 | In every run the key given to start encryption is the short term key of that material |
| `PairingSafety.OnePairingCompletes` | main/bluetooth/smp.c:251-264 | Left alone, a pairing draws its random from the two answers and ends with its confirm value sent, and no other device changes |
| `PairingSafety.RandChangesExactly` | main/bluetooth/smp.c:94-106 | Whatever else happens, a device's random changes if and only if an answer to its oldest request overwrites half of it with other octets |
| `PairingSafety.RevealDependsOnRedraws` | main/bluetooth/smp.c:265-272 | In every run the random revealed for a confirm value is the one it was made from if no answer redraws it in between, and another one if exactly one does |
| `PairingSafety.SecondResponseDecidesReveal` | main/bluetooth/smp.c:251-272 | With a confirm value out, the random revealed after a second Pairing Response's first octets is the one it was made from if and only if those octets repeat the old ones |
| `PairingSafety.RestartKeepsSafeExactly` | main/bluetooth/hci.c:1246-1264 | After a restart with new context queues these line up with the commands in flight if and only if there are none |
| `PairingSafety.RestartMisdirects` | main/bluetooth/hci.c:1227-1237 | Otherwise the next request gets the outstanding answer, and sends it as another device's confirm value |
| `PairingRecords.EveryMessageWasPrompted` | main/bluetooth/smp.c:94-345 | In every run everything sent on a connection was prompted, on that connection, by the event that calls for it, and nothing sent is taken back |
| `PairingRecords.RenewalForgets` | main/bluetooth/host.c:525-547 | A new connection starts with nothing on record or outstanding from the one before |
| `PairingRecords.FullQueuesAskNothing` | main/bluetooth/hci.c:1322-1351 | An event that finds its queue full queues nothing and asks the controller nothing |
| `PairingRecords.EveryRequestIsRecorded` | main/bluetooth/smp.c:235-247 | In every state of every run the octets on record are those of the Pairing Request that was sent: 01 03 00 01 10 02 01 |
| `PairingRecords.ConfirmIsForTheRequest` | main/bluetooth/smp.c:98-126 | With one Pairing Response per connection a confirm value is for the request that was sent before it |
| `PairingRecords.DrawnForTheRequest` | main/bluetooth/smp.c:98-121 | In every run it is for the request that was sent by the time its random was drawn |
| `PairingRecords.ResponseIsOnRecord` | main/bluetooth/smp.c:251-264 | In every run the last response is the one on record, and of the keys it announced exactly those are outstanding that no message has handed over since |
| `PairingRecords.DistributesWhenAllHandedOver` | main/bluetooth/smp.c:273-339 | In every run the host distributes the keys the response asked for on exactly those messages after which every announced key has been handed over |
| `PairingStory.WholePairing` | main/bluetooth/smp.c:235-339 | What an undisturbed pairing sends, from the request to the stored keys, message by message, and that no other device changes |
| `LePairing.Xor128` | main/bluetooth/smp.c:32-38 | The result is the octet-wise exclusive or even when the output is one of the inputs |
| `LePairing.SmpHost.GetRandom` | main/bluetooth/hci.c:1322-1335 | Queues the continuation and sends one command, or does neither when the queue is full |
| `LePairing.SmpHost.GetEncrypt` | main/bluetooth/hci.c:1337-1351 | The same for encryption; the command carries the buffer's contents at the time of the call |
| `LePairing.SmpHost.C1Part1` | main/bluetooth/smp.c:40-58 | Masks the random into the shared buffer and asks for its encryption |
| `LePairing.SmpHost.C1Part2` | main/bluetooth/smp.c:60-74 | Masks the first answer in place and asks for its encryption |
| `LePairing.SmpHost.S1` | main/bluetooth/smp.c:76-92 | Puts the low halves of the two randoms side by side and asks for their encryption |
| `LePairing.SmpHost.PairingStart` | main/bluetooth/smp.c:235-247 | Records and sends the Pairing Request |
| `LePairing.SmpHost.PairingRsp` | main/bluetooth/smp.c:251-264 | Records the response and asks twice for random octets |
| `LePairing.SmpHost.PeerConfirm` | main/bluetooth/smp.c:265-272 | Answers the peer's confirm value with the device's random |
| `LePairing.SmpHost.PeerRandom` | main/bluetooth/smp.c:273-288 | Records the peer's random, asks for the key, and distributes keys when none is outstanding |
| `LePairing.SmpHost.PeerLtk` | main/bluetooth/smp.c:295-302 | Hands the peer's key to the key store under the device's address |
| `LePairing.SmpHost.PeerIdent` | main/bluetooth/smp.c:303-318 | Clears the key's bit, hands the identification to the key store, distributes keys when none is outstanding, and adds the address to the accept list |
| `LePairing.SmpHost.PeerKey` | main/bluetooth/smp.c:322-339 | Clears the bit of another kind of key and distributes keys when it was the last |
| `LePairing.SmpHost.Restart` | main/bluetooth/hci.c:1246-1264 | Both context queues are new |
| `LePairing.SmpHost.MrandHalf` | main/bluetooth/smp.c:94-96 | Sets the low half of the random only |
| `LePairing.SmpHost.MrandComplete` | main/bluetooth/smp.c:98-106 | Sets the high half and starts c1 |
| `LePairing.SmpHost.ConfirmHalf` | main/bluetooth/smp.c:108-116 | Takes the first answer and goes on to the second half of c1 |
| `LePairing.SmpHost.ConfirmComplete` | main/bluetooth/smp.c:118-121 | Sends the second answer as the confirm value |
| `LePairing.SmpHost.StkComplete` | main/bluetooth/smp.c:123-126 | Starts encryption with the answer |
| `LePairing.SmpHost.RandDone` | main/bluetooth/hci.c:1776-1786 | Runs the oldest waiting continuation with the octets, or nothing when none waits |
| `LePairing.SmpHost.EncDone` | main/bluetooth/hci.c:1787-1797 | The same for an encryption answer |
| `HidParser.HidParser.Parse` | main/adapter/hid_parser.c:401-648 | On every descriptor within the limits the whole byte loop yields what the fold over the decoded items yields, and stops at the end or at the first unrecognised item |
| `HidParser.HidParser.ParseItems` | main/adapter/hid_parser.c:401-626 | Between two turns the rest of the bytes are the rest of the items, at the boundaries the size field gives |
| `HidParser.HidParser.Turn` | main/adapter/hid_parser.c:402-625 | One turn carries out exactly the first item of what is left |
| `HidParser.HidParser.OneItem` | main/adapter/hid_parser.c:402-625 | The switch moves past the operand and takes the step of the item |
| `HidParser.HidParser.RecordFields` | main/adapter/hid_parser.c:503-541 | An unmerged data item records each used field at its place |
| `HidParser.HidParser.RecordFragments` | main/adapter/hid_parser.c:507-533 | A merged field is recorded in fragments of 32 bits |
| `HidParser.HidParser.RecordItem` | main/adapter/hid_parser.c:501-545 | All three branches of a main item |
| `HidParser.HidParser.MainItem` | main/adapter/hid_parser.c:497-550 | A main item, after which the local items are forgotten |
| `HidParser.HidParser.Push` | main/adapter/hid_parser.c:592-600 | Pushes a copy of the global items, or nothing when the stack is full |
| `HidParser.HidParser.Pop` | main/adapter/hid_parser.c:609-616 | Pops, or nothing at the bottom |
| `HidParser.HidParser.Flush` | main/adapter/hid_parser.c:554-573 | Emits the reports that have a length, input before output |
| `HidParser.HidParser.NewReport` | main/adapter/hid_parser.c:551-581 | A Report ID closes the reports of the previous identifier and starts both anew |
| `HidParser.HidParser.Finish` | main/adapter/hid_parser.c:627-648 | The end closes the last reports; a descriptor without identifiers gets identifier 1 |
| `HidParser.GlobalItem` | main/adapter/hid_parser.c:411-421 | A global item reads its operand in the width its size field says, signed where the source casts to a signed type |
| `HidParser.IgnoredItem` | main/adapter/hid_parser.c:474-491 | An ignored item skips exactly its operand |
| `HidParser.OperandValue` | main/adapter/hid_parser.c:414-421 | The little-endian casts read the value of the operand's bytes |
| `HidParser.FingerprintLoop` | main/adapter/hid_parser.c:229-286 | The scan with early returns computes the report type |
| `HidAccount.FieldsAdvance` | main/adapter/hid_parser.c:504-541 | However many fields are recorded, the offset moves by size times their number |
| `HidAccount.MainItemAdvances` | main/adapter/hid_parser.c:501-545 | Constant, data and merged items all advance the offset by size times count |
| `HidAccount.FieldsInPlace` | main/adapter/hid_parser.c:504-541 | Exactly the used fields are recorded, in order, each at the item's start plus its index times the size |
| `HidReports.MainItemDisjoint` | main/adapter/hid_parser.c:501-545 | A main item keeps the recorded bit ranges disjoint, increasing and inside the total |
| `HidReports.FragmentsTile` | main/adapter/hid_parser.c:507-533 | Fragments tile a merged field if and only if its count is at most 32 or no multiple of 32 |
| `HidReports.ReportsAreDisjoint` | main/adapter/hid_parser.c:554-573 | In every emitted report of every descriptor the usages lie side by side inside its bytes, and the report is not empty |
| `HidAccount.FieldsFit` | main/adapter/hid_parser.c:504-541 | Unmerged fields stay inside the usage list and the report exactly when they have usages to look at and there is room for the used ones |
| `HidAccount.ItemsRunThrough` | main/adapter/hid_parser.c:401-626 | The items run through exactly when they fit, keep the state to the account, and only an unknown last one stops them |
| `HidAccount.StuckExactlyBeyondLimits` | main/adapter/hid_parser.c:401-648 | An array would be left or an offset overflow if and only if the descriptor exceeds the limits on usages, fields, bits and reports, which are read off its items |
| `HidAccount.ReportsAreAccounted` | main/adapter/hid_parser.c:551-648 | On every descriptor within the limits the identifiers, kinds, order and byte lengths of all reports are those of the size-times-count sums between Report IDs; an unknown item leaves those closed before it |
| `HidUsages.MainItemAdds` | main/adapter/hid_parser.c:501-545 | A data item adds exactly the entries of its used fields or fragments, each with its place, its flags and the global items in force |
| `HidUsages.ReportsAreExactly` | main/adapter/hid_parser.c:551-648 | On every descriptor within the limits the reports, with every usage in them and their types, are those of the account |
| `HidUsages.UsagesHaveTheirLimits` | main/adapter/hid_parser.c:411-473 | Every emitted usage was recorded by a data item, with the page and limits that the last global items before it gave, as far back as nothing was pushed or popped |
| `HidGlobals.OperandsFit` | main/adapter/hid_parser.c:401-421 | Every decoded operand is in the range of its size |
| `HidGlobals.ItemsAreWhereTheyStart` | main/adapter/hid_parser.c:401-421 | Every decoded item has the tag that stands behind the items before it, and the value of the bytes behind that |
| `HidGlobals.GlobalTags` | main/adapter/hid_parser.c:411-473 | Which tags, without their size bits, are global items, and with which sizes |
| `HidGlobals.GlobalItemSets` | main/adapter/hid_parser.c:411-473 | A global item changes the one field of its tag without the size bits, to its operand, in two's complement of its size for the limits, and no other |
| `HidGlobals.LastGlobalHolds` | main/adapter/hid_parser.c:411-473 | Later, a global value is that of the last item that set it |
| `HidExample.DecodeUndoesEncode` | main/adapter/hid_parser.c:401-626 | Dividing the bytes that items are written as gives back those items, for every sequence of known items |
| `HidExample.MergedFieldLosesItsEnd` | main/adapter/hid_parser.c:507-533 | Ten bytes of descriptor with sixty-four merged bits yield a report whose second usage has no bits |
| `HidReports.NestedKeepsBase` | main/adapter/hid_parser.c:592-616 | A balanced segment leaves the global items below it alone |
| `HidReports.PushPopRestores` | main/adapter/hid_parser.c:592-616 | Push, a balanced segment within the stack limit, and pop leave the global items of the account as they were |
| `HidReports.ParserRestores` | main/adapter/hid_parser.c:592-616 | So they are in the parser, on any known items that fit |
| `HidReports.KindOfUsage` | main/adapter/hid_parser.c:229-286 | What a single usage says about the type of its report |
| `HidAccount.ExecStack` | main/adapter/hid_parser.c:411-473 | Only global items, push and pop change the stack of global items |
| `HidReports.DecisiveUsageSettles` | main/adapter/hid_parser.c:229-286 | The first decisive usage settles a report's type whatever follows |
| `HidReports.LastUsageSuggests` | main/adapter/hid_parser.c:251-256 | Without one the last keyboard or button usage does |
| `ConnectionEvents.StepGood` | main/bluetooth/hci.c:1365-1567 | Every event keeps addresses distinct, retries below the limit, and an idle configured adapter looking |
| `ConnectionEvents.EveryRunIsGood` | main/bluetooth/hci.c:1365-1567 | The same for every run |
| `ConnectionEvents.BootIsGood` | main/bluetooth/hci.c:1261-1264 | It holds when the manager starts |
| `ConnectionEvents.ConnFailedGood` | main/bluetooth/hci.c:1412-1424 | A connection that failed keeps it, whether it is tried again or given up |
| `ConnectionEvents.LeFailedGood` | main/bluetooth/hci.c:1039-1056 | The same for an LE connection |
| `ConnectionEvents.NameCompleteGood` | main/bluetooth/hci.c:1521-1567 | The same for an answered name request |
| `ConnectionEvents.CommandFailedGood` | main/bluetooth/hci.c:1680-1688 | The same for a failed configuration command, restarts included |
| `ConnectionEvents.RunConfigKeeps` | main/bluetooth/hci.c:212-219 | Running the entry that is due never touches the table, never goes back, and turns inquiry on at the last entry in automatic mode |
| `ConnectionEvents.SlotOfAddress` | main/bluetooth/host.c:472-480 | A lookup by a found slot's address gives that slot |
| `ConnectionEvents.UnrelatedKeepsSlot` | main/bluetooth/hci.c:1365-1567 | Events about other addresses and handles leave a found slot unchanged |
| `ConnectionEvents.RetriesAreCounted` | main/bluetooth/hci.c:1412-1538 | Among any unrelated events a device keeps its slot while its failed connections, over either radio, and name requests are together below the limit, and they are counted exactly |
| `ConnectionEvents.FailedAttempt` | main/bluetooth/hci.c:1412-1538 | A failed attempt is repeated exactly when it may be and the limit is not reached; otherwise that slot is freed and no other changes |
| `ConnectionEvents.AdmissionIsExact` | main/bluetooth/hci.c:1384-1401 | A new address takes the lowest free slot; a known address or a full table changes nothing |
| `ConnectionEvents.ConfigurationCompletes` | main/bluetooth/hci.c:1204-1213 | Confirmed commands lead from any entry to the last one, the accept list included, and then inquiry is on |
| `ConnectionLaws.AdmissionIsAnswered` | main/bluetooth/hci.c:1376-1464 | An inquiry result, a page or a wanted advertisement of a new address takes the lowest free slot with nothing else on record and is answered on its radio; a known address or a full table changes nothing |
| `ConnectionLaws.ConnectionIsRecorded` | main/bluetooth/hci.c:1425-1434 | A connection over either radio stores its handle, resets the retries, makes the next inquiry the last, and goes on to the name or to encryption |
| `ConnectionLaws.StrangerIsConfigurator` | main/bluetooth/hci.c:1077-1087 | An unknown device over LE is the configuration client, one at a time; otherwise it is ignored |
| `ConnectionLaws.GivingUpFrees` | main/bluetooth/hci.c:1039-1056 | A failure that is not repeated frees the slot and starts the inquiry, or the passive scan, exactly when it should |
| `ConnectionLaws.DisconnectionFrees` | main/bluetooth/hci.c:1465-1480 | A disconnection empties the lowest slot of its handle and no other; when none is left the adapter advertises, and looks for devices in automatic mode |
| `ConnectionLaws.StrangerLeaves` | main/bluetooth/hci.c:1481-1495 | A handle that no device holds changes nothing but, for the last configuration client, advertising |
| `ConnectionLaws.DisconnectedDeviceIsGone` | main/bluetooth/hci.c:1406-1495 | A device that was connected and is disconnected is in no slot, whatever unrelated happens in between, if and only if no lower slot holds the same handle |
| `ConnectionLaws.WaitingDeviceGoesInstead` | main/bluetooth/hci.c:1465-1480 | A device that waits for its connection is freed in place of a connected one with handle 0 |
| `ConnectionLaws.AnswersStopInquiry` | main/bluetooth/hci.c:1540-1543 | The name of a device, or an answer while its reports are not set up, stops the inquiry |
| `ConnectionLaws.InquiriesAreCounted` | main/bluetooth/hci.c:1369-1375 | With a device the inquiry stops after the tenth, and on the first after a connection; without one it never does |
| `ConnectionLaws.ConfirmedStep` | main/bluetooth/hci.c:1204-1213 | A confirmed command makes the next entry due, and in the accept list first its next device |
| `ConnectionLaws.FailedStep` | main/bluetooth/hci.c:1680-1688 | A failed one is repeated three times, and then the configuration starts anew |
| `ConnectionLaws.WholeConfiguration` | main/bluetooth/hci.c:212-219 | From the start, with every command confirmed, all entries are sent once and in order, with the stored devices added in between, and then the adapter looks for devices or for advertisements |
| `ConnectionManager.ConnectionManager.GetNewDev` | main/bluetooth/host.c:442-450 | Finds the lowest free slot |
| `ConnectionManager.ConnectionManager.GetActiveDev` | main/bluetooth/host.c:452-460 | Finds the lowest active slot |
| `ConnectionManager.ConnectionManager.GetDevFromBdaddr` | main/bluetooth/host.c:472-480 | Finds the lowest active slot of an address |
| `ConnectionManager.ConnectionManager.GetDevFromHandle` | main/bluetooth/host.c:482-490 | Finds the lowest active slot of a connection handle |
| `ConnectionManager.ConnectionManager.ResetDev` | main/bluetooth/host.c:525-547 | Empties one slot and no other |
| `ConnectionManager.ConnectionManager.RunConfig` | main/bluetooth/hci.c:212-219 | Gives the command of the entry that is due |
| `ConnectionManager.ConnectionManager.BtHciEvtHdlr` | main/bluetooth/hci.c:1365-1567 | The handlers over the table updated in place take the step of each event, and keep addresses distinct, retries below the limit and an idle configured adapter looking |
| `LinkKeyRing.LinkKeys.LoadLinkKey` | main/bluetooth/host.c:629-638 | Returns the key of the last matching slot |
| `LinkKeyRing.LinkKeys.StoreLinkKey` | main/bluetooth/host.c:640-655 | Overwrites the matching slot or the one under the write index, which moves only when it was used |
| `LinkKeyRing.StoreKeepsUnique` | main/bluetooth/host.c:640-655 | No address is stored twice |
| `LinkKeyRing.EveryRunIsUnique` | main/bluetooth/host.c:640-655 | The same over every run of stores |
| `LinkKeyRing.LoadsWhatWasStored` | main/bluetooth/host.c:629-655 | A load returns what was stored last for the address |
| `LinkKeyRing.SurvivalIsExact` | main/bluetooth/host.c:640-655 | Under stores for other addresses a key is loadable if and only if the write index has not moved past its slot |
| `LinkKeyRing.NewKeySurvivesFifteen` | main/bluetooth/host.c:640-655 | A new key survives any fifteen stores for other addresses |
| `LinkKeyRing.NewKeyGoneAfterSixteen` | main/bluetooth/host.c:640-655 | It is gone after sixteen further new addresses |
| `LinkKeyRing.SixteenKeysAreLoaded` | main/bluetooth/host.c:629-655 | Nothing is loaded from the empty table, and of sixteen keys stored in it every one |
| `LeKeyRing.LeKeys.ClearLeLtk` | main/bluetooth/host.c:657-666 | Empties every slot of an address |
| `LeKeyRing.LeKeys.LoadLeLtk` | main/bluetooth/host.c:668-682 | Returns the bond of the last matching slot |
| `LeKeyRing.LeKeys.StoreLeLtk` | main/bluetooth/host.c:684-700 | Stores the key half of a bond |
| `LeKeyRing.LeKeys.StoreLeIdent` | main/bluetooth/host.c:702-718 | Stores the identification half of a bond |
| `LeKeyRing.LoadIsLookup` | main/bluetooth/host.c:668-682 | A load is a lookup in a map of at most sixteen bonds |
| `LeKeyRing.StoreLtkUpdatesMap` | main/bluetooth/host.c:684-700 | Storing a key updates the map at one address, evicting the bond under the write index for a new one, whose other half is inherited |
| `LeKeyRing.StoreIdentUpdatesMap` | main/bluetooth/host.c:702-718 | The same for an identification |
| `LeKeyRing.ClearRemovesFromMap` | main/bluetooth/host.c:657-666 | A clear removes one address from the map and nothing else |
| `LeKeyRing.PairIsLoadedBack` | main/bluetooth/host.c:668-718 | Both halves stored back to back are loaded as that pair |
| `LeKeyRing.RunKeepsUnique` | main/bluetooth/host.c:657-718 | Addresses stay unique over every run of stores and clears |
| `LeKeyRing.NoBondsAtFirst` | main/bluetooth/host.c:668-682 | The empty table is the empty map |
| `LeKeyRing.ClearedStaysCleared` | main/bluetooth/host.c:657-666 | A cleared address stays unloadable until something is stored for it |
| `LeKeySurvival.SurvivalIsExact` | main/bluetooth/host.c:657-718 | Under any stores and clears for other addresses a bond is loadable, unchanged, if and only if the write index has not moved past its slot |
| `LeKeySurvival.ClearedIsGone` | main/bluetooth/host.c:657-666 | A cleared bond is gone, whatever is stored and cleared for others afterwards |
| `LeKeySurvival.PairMoves` | main/bluetooth/host.c:684-718 | Storing both halves moves the write index once at most, and once for a new address |
| `LeKeySurvival.NewBondSurvivesFifteen` | main/bluetooth/host.c:684-718 | A new bond survives pairs for any fifteen other addresses, and is gone after sixteen new ones |
| `LeKeySurvival.SixteenBondsAreLoaded` | main/bluetooth/host.c:668-718 | Of sixteen devices stored one after the other in an empty table every one is loaded as it was stored |
| `AclReassembly.Receiver.AclHdlr` | main/bluetooth/host.c:323-348 | Collects a continuation, keeps a first fragment, or hands a packet over |
| `AclReassembly.ContinuationStep` | main/bluetooth/host.c:329-340 | A continuation extends the collected prefix of the frame and hands the frame over exactly when it is complete |
| `AclReassembly.CollectsTheFrame` | main/bluetooth/host.c:323-348 | Continuations carrying the rest of a frame, mixed with complete packets, give the frame once, at the end |
| `AclReassembly.SplitFrameIsHandedOverOnce` | main/bluetooth/host.c:323-348 | Any frame of at most 1024 bytes, split in any way, empty continuations included, is handed over when it is complete, with its first fragment's header |
| `AclReassembly.CompletePacketPassesThrough` | main/bluetooth/host.c:341-348 | A complete packet of any connection is handed over at once and leaves the buffer alone |
| `AclReassembly.OnceExactly` | main/bluetooth/host.c:329-340 | It is handed over exactly once if and only if no empty continuation follows the last of its data |
| `AclReassembly.LateContinuationRepeats` | main/bluetooth/host.c:329-348 | Any continuation after a complete frame hands that frame over again, under the handle it came on |
| `AclReassembly.SecondStartDiscardsFirst` | main/bluetooth/host.c:329-348 | A second first fragment of any connection discards the frame so far, and a late continuation of that frame hands the second one over again under the first connection's handle |
| `AclFragments.HeaderIsRead` | main/bluetooth/host.c:323-330 | Handle, flags and lengths are read from where the wire format has them |
| `AclFragments.FragmentsAreRecombined` | main/bluetooth/host.c:323-348 | A frame cut into ACL packets as written on the wire, the first with flags 2 and the others with flags 1, is handed over on the last of them, whole and under its handle |
| `AclFragments.StrayContinuationIsHandedOver` | main/bluetooth/host.c:329-348 | A continuation before any first fragment hands over an empty frame |
| `MemoryCard.CardMemory.McRead` | main/adapter/memory_card.c:172-174 | A read within a block returns the bytes of the flat card at its address |
| `MemoryCard.CardMemory.McWrite` | main/adapter/memory_card.c:176-190 | A write within a block changes those bytes of the flat card only, and marks its block when the bank is written back |
| `MemoryCard.CardMemory.McStoreSpread` | main/adapter/memory_card.c:94-125 | One write-back step, its failures included |
| `MemoryCard.CardMemory.McStore` | main/adapter/memory_card.c:71-92 | Writes the whole card to a new file and clears the mask, or reports what failed |
| `MemoryCard.CardMemory.McRestore` | main/adapter/memory_card.c:39-69 | Creates a missing file, or puts what can be read of each block over its page, and succeeds exactly when every block was read whole |
| `MemoryCard.CardMemory.McInit` | main/adapter/memory_card.c:145-165 | Restores the card when its bank has a file, and remembers whether that succeeded |
| `MemoryCard.RestoreIsSynced` | main/adapter/memory_card.c:39-69 | A restore that succeeds leaves every block equal to the file |
| `MemoryCard.BootedRunIsSynced` | main/adapter/memory_card.c:94-190 | After a start that reports success, every block that is not waiting equals the file in every run |
| `MemoryCard.BootIsSyncedExactly` | main/adapter/memory_card.c:145-165 | After a start card and file are in step if and only if it reports success or the memory happens to hold what the file does |
| `MemoryCard.FailedBootIsSyncedExactly` | main/adapter/memory_card.c:39-92 | The condition for each way of failing: no file for the bank, a file that cannot be opened or created, one not written whole, one read short |
| `MemoryCard.SomeBlockIsOutOfStep` | main/adapter/memory_card.c:145-165 | A start that leaves them out of step with a whole file leaves a block that differs and is not waiting |
| `MemoryCard.OutOfStepStays` | main/adapter/memory_card.c:94-190 | Write-back never repairs a block that such a start left out of step; only a write to it can |
| `MemoryCard.WriteKeepsSynced` | main/adapter/memory_card.c:176-190 | A write keeps every unmarked block equal to the file if and only if the bank is written back, the block was marked, or nothing changed in it |
| `MemoryCard.WriteIsBytewise` | main/adapter/memory_card.c:176-190 | Byte by byte, the card holds the data from the address on and is otherwise as it was, and the mask gains that block only |
| `MemoryCard.ReadsBack` | main/adapter/memory_card.c:172-190 | What was written is read back, whatever is written elsewhere in between |
| `MemoryCard.SpreadIsBytewise` | main/adapter/memory_card.c:94-125 | A write-back step writes the lowest waiting block whole and ends its waiting, or leaves what a torn write reached; nothing else in the file or on the card changes |
| `MemoryCard.RestoreIsBytewise` | main/adapter/memory_card.c:39-69 | A restore succeeds if and only if the missing file was created whole or every block read whole, and puts exactly what was read on the card |
| `MemoryCard.StoreSpreadKeepsSynced` | main/adapter/memory_card.c:94-125 | Every write-back step, successful or torn, keeps it |
| `MemoryCard.StoreSpreadProgresses` | main/adapter/memory_card.c:94-125 | A successful step clears exactly one mark |
| `MemoryCard.EveryRunIsSynced` | main/adapter/memory_card.c:94-190 | From a card in step it holds after any writes and steps in any order |
| `MemoryCard.DrainEmpties` | main/adapter/memory_card.c:94-125 | As many successful steps as there are marks make the file equal the card, and fewer leave marks |
| `MemoryCard.RestoreRecovers` | main/adapter/memory_card.c:39-69 | After that a restore gives the card back whatever the memory held |
| `CardTransfer.ResponseFitsExactly` | main/bluetooth/att_cfg.c:330-333 | A response leaves the MTU two octets if and only if it has two: below, the unsigned comparison limits nothing |
| `CardTransfer.ResponseFitsBufferExactly` | main/bluetooth/att_cfg.c:323-337 | A response fits in the 1014 octets of the packet buffer if and only if little is left of the block or the MTU cuts it early enough |
| `CardTransfer.ProgressIsExact` | main/bluetooth/att_cfg.c:323-340 | A response is not empty if and only if the MTU takes a word, the rest of the block fits, or the MTU limits nothing |
| `CardTransfer.TransferFinishesExactly` | main/bluetooth/att_cfg.c:323-340 | Repeated reads reach the end of the card if and only if the MTU is not from 2 to 5 or takes what is left at once |
| `CardTransfer.StuckAtTheStart` | main/bluetooth/att_cfg.c:330-333 | From offset 0 at MTU 5 every response is empty and the offset never moves |
| `CardTransfer.CardReader.McReadResponse` | main/bluetooth/att_cfg.c:323-340 | The response holds the next bytes of the card, stays in the block and the MTU, and the offset moves past it |
| `CardTransfer.CardReader.McWriteRequest` | main/bluetooth/att_cfg.c:816-820 | The data goes to the card at the offset, which moves past it |
| `CardTransfer.ChunksPartition` | main/bluetooth/att_cfg.c:323-340 | From any offset, at any MTU that lets the transfer move, the responses are not empty and together are the rest of the card |
| `AttConfig.AttServer.MtuRequest` | main/bluetooth/att_cfg.c:595-609 | The smaller of both limits is used |
| `AttConfig.AttServer.DataWrite` | main/bluetooth/att_cfg.c:788-838 | A write or prepared write lands at once, at the window plus its offset, and nowhere else |
| `AttConfig.AttServer.ReadRequest` | main/bluetooth/att_cfg.c:295-320 | The answer is the part of the image the window, the MTU and the 512-byte limit leave |
| `AttConfig.SmallMapIsInMemory` | main/bluetooth/att_cfg.c:297 | A number of mappings within the maximum keeps the image inside the memory of all inputs |
| `AttConfig.ResponseFitsExactly` | main/bluetooth/att_cfg.c:308-310 | A response fits in the MTU if and only if the MTU is not 0 |
| `AttConfig.ZeroMtuIsNoLimit` | main/bluetooth/att_cfg.c:308-314 | At MTU 0 one response holds the rest of the window |
| `AttConfig.LongReadIsWindow` | main/bluetooth/att_cfg.c:295-320 | Reading until a short response gives exactly the window's part of the image, at any MTU from 2 |
| `AttConfig.WindowsCoverImage` | main/bluetooth/att_cfg.c:295-320 | Moving the window on gives every byte once and in order |
| `AttConfig.PiecesWriteImage` | main/bluetooth/att_cfg.c:788-838 | After pieces of an image in any order a byte is the image's if a piece covered it, and otherwise unchanged |
| `AttConfig.ImageRoundTrips` | main/bluetooth/att_cfg.c:295-320 | An image written in covering pieces is read back exactly at any MTU from 2, and no other input changes |
| `DcKeyboard.Keyboard.Remove` | main/adapter/wired/dc.c:367-373 | Takes one slot out and moves the later ones up |
| `DcKeyboard.Keyboard.ReleaseKeys` | main/adapter/wired/dc.c:363-377 | The non-incrementing loop ends and leaves exactly the held keys in their order |
| `DcKeyboard.Keyboard.RefreshCodes` | main/adapter/wired/dc.c:379-389 | The wire bytes are the scancodes of the listed keys, then zeros |
| `DcKeyboard.Keyboard.AddKeys` | main/adapter/wired/dc.c:391-408 | New keys follow the held ones while there are slots |
| `DcKeyboard.Keyboard.SetModifiers` | main/adapter/wired/dc.c:410-434 | The modifier byte holds exactly the pressed modifiers, and the key bytes stay |
| `DcKeyboard.Keyboard.FromGeneric` | main/adapter/wired/dc.c:357-437 | One report: list, wire bytes and modifier byte |
| `DcKeyboard.UpdateIsRight` | main/adapter/wired/dc.c:357-437 | The list is duplicate free and pressed only, held keys come first in their order, and a wanted key is missing only when all slots are taken |
| `DcKeyboard.PressedKeysAreListed` | main/adapter/wired/dc.c:390-408 | While fewer than six keys are listed no mapped, pressed key with a scancode is missing |
| `DcKeyboard.RunIsRight` | main/adapter/wired/dc.c:357-437 | After any reports the list is sound, and complete for the last one |
| `DcKeyboard.HeldKeepsOrder` | main/adapter/wired/dc.c:363-377 | The held keys are a subsequence of the old list |
| `DcKeyboard.ModifiersTakeNoSlot` | main/adapter/wired/dc.c:155-210 | Modifier keys have no scancode, so they never take a slot |
| `DcKeyboard.ModifierBits` | main/adapter/wired/dc.c:410-434 | Each bit of the modifier byte is set if and only if its key is mapped and pressed |
| `AxisMapping.Adapter.AdapterMapFromAxis` | main/adapter/adapter.c:62-144 | An axis entry: source range, output axis or button, flag and reported output |
| `AxisMapping.Adapter.AdapterMapFromBtn` | main/adapter/adapter.c:146-188 | A button entry |
| `AxisMapping.Adapter.GrowRange` | main/adapter/adapter.c:84-97 | The range on the side of the entry grows to cover the sample |
| `AxisMapping.Adapter.AdapterMapping` | main/adapter/adapter.c:190-212 | The loop over the list |
| `SinglePrecision.ExactIsRounding` | main/adapter/adapter.c:104-121 | Exact arithmetic is one of the roundings that the results below hold for |
| `MappingLaws.AxisAmountWithin` | main/adapter/adapter.c:104-121 | The divisor is positive, and despite single-precision rounding the scaled value of a linear entry of at most 100 percent stays in the output's range |
| `MappingLaws.BtnAmountWithin` | main/adapter/adapter.c:166-169 | The same for a button that drives an axis |
| `FullDeflection.FullDeflectionComesWithinOne` | main/adapter/adapter.c:84-121 | At the end of its own range a source drives the output to the end of the output's range or one less, whatever the rounding |
| `FullDeflection.EndIsReachedExactly` | main/adapter/adapter.c:104-121 | The end is reached if and only if the float product of the span and the quotient of the range by the span is not below the range |
| `FullDeflection.QuotientRoundedUpSuffices` | main/adapter/adapter.c:113 | For that product it suffices that the quotient is not rounded down |
| `FullDeflection.DividingSpanSuffices` | main/adapter/adapter.c:113 | Or that the span divides the range |
| `FullDeflection.EndIsReachedIf` | main/adapter/adapter.c:104-121 | Under either condition the output is the end of its range |
| `FullDeflection.FullDeflectionCanFallShort` | main/adapter/adapter.c:104-121 | With range 100, deadzone 3 and output range 100 it is 99, by the floats nearest to the quotient and the product |
| `FullDeflection.NearestFloats` | main/adapter/adapter.c:113-121 | Those floats are the nearest ones |
| `FullDeflection.CollapseRoundsNearest` | main/adapter/adapter.c:113-121 | A rounding with those two values and all guarantees exists |
| `MappingLaws.LinearMappingIsBounded` | main/adapter/adapter.c:190-212 | After any list of linear entries, with single-precision rounding, every output axis is in its range |
| `MappingLaws.FlagsAreExact` | main/adapter/adapter.c:139-140 | An output bit is flagged if and only if some entry connects an existing input to it |
| `MappingLaws.FlaggedOutputsAreReported` | main/adapter/adapter.c:143-212 | A flagged bit's output is in the returned mask |
| `MappingEffects.PressedExactly` | main/adapter/adapter.c:62-188 | After any list an output button is pressed if and only if it was, or some entry connects to it a pressed button or an axis that points the entry's way and reaches the share of its grown range |
| `MappingEffects.LastPressSetsTurbo` | main/adapter/adapter.c:134-181 | Its turbo setting is that of the last entry that presses it |
| `MappingEffects.FirstLoudestWins` | main/adapter/adapter.c:104-176 | An axis is as it was, or has the value and turbo setting of the first of the loudest entries |
| `MappingEffects.LastAimSetsKind` | main/adapter/adapter.c:101-102 | It is relative or absolute as the source of the last entry aimed at it that points the right way |
| `MappingEffects.RangesGrowExactly` | main/adapter/adapter.c:84-97 | A source range covers the sample if some entry used it on that side, and is as it was otherwise |
| `MappingEffects.ExactParts` | main/adapter/adapter.c:104-132 | Without rounding, deadzone and threshold are whole parts of the range |
| `MappingEffects.ExactAxis` | main/adapter/adapter.c:104-121 | Without rounding, an axis gives what it is beyond its deadzone in proportion to both ranges and the percentage, as an integer, on the entry's side |
| `MappingEffects.ExactButton` | main/adapter/adapter.c:166-169 | And a button its percentage of the end of the axis |
| `MappingEffects.StickEnds` | main/adapter/adapter.c:234-420 | The first eight button numbers are the two ends of each stick axis, which inversion swaps |
| `MappingOrder.EntryJoins` | main/adapter/adapter.c:62-188 | Whatever came before, an entry adds exactly what it does alone |
| `MappingOrder.EachEntryIsBelow` | main/adapter/adapter.c:190-212 | No entry's effect is lost |
| `MappingOrder.MapAllIsLeast` | main/adapter/adapter.c:190-212 | Nothing else is there |
| `MappingOrder.OrderIsIrrelevant` | main/adapter/adapter.c:190-212 | Lists with the same entries in any order give the same buttons, magnitudes, flags, reported outputs and ranges |
| `MappingOrder.SignsAgreeExactly` | main/adapter/adapter.c:123-126 | All lists with the same entries give an axis the same signed value if and only if no two entries alone give it opposite values of the greatest magnitude, or it starts at that magnitude |
| `MappingOrder.OrderDecidesSign` | main/adapter/adapter.c:171-174 | Two pressed buttons mapped in full to the two ends of an axis: the entry that comes first wins |
| `GcOutput.GcDescIsAxes` | main/adapter/wired/gc.c:60 | Every bit described as an axis is the bit of one of the six axes |
| `GcOutput.MaskIsAxisButtons` | main/adapter/adapter.c:234-330 | The buttons of an axis are exactly those that belong to it |
| `GcOutput.GcAxesFromGeneric` | main/adapter/wired/gc.c:223-236 | The axis loop writes the flagged axes' octets and keeps the others |
| `GcOutput.NoWrapWithinRange` | main/adapter/wired/gc.c:37-45 | Within the declared range the octet is the value around neutral, without wrap or saturation |
| `GcOutput.GcEnds` | main/adapter/wired/gc.c:37-45 | The octets at both ends and at rest of the sticks, the C stick and the triggers |
| `GcOutput.OctetOf` | main/adapter/wired/gc.c:223-236 | The octet for every value: saturated outside the size, and where a trigger would wrap |
| `GcOutput.FlaggedExactly` | main/adapter/wired/gc.c:223-224 | An axis is written if and only if one of its own described bits is flagged |
| `GcOutput.MappedOctetsAreExact` | main/adapter/wired/gc.c:223-236 | So it is for every linear list mapped to GameCube outputs |
| `GameId.Rolfl` | main/tools/ps1_gameid.c:10-26 | The two-pointer loop leaves the text without every leftmost non-overlapping occurrence, and the bytes behind the old end unchanged |
| `GameId.ReplaceChar` | main/tools/ps1_gameid.c:28-35 | Replaces every occurrence, or cuts the text at the first when the replacement is NUL |
| `GameId.Ps1GidSanitize` | main/tools/ps1_gameid.c:37-49 | The steps in their order |
| `GameId.SanitizedIsClean` | main/tools/ps1_gameid.c:37-49 | The result is no longer than the input, has no slash, backslash, dot, underscore or semicolon, and no new character but the dash |
| `GameId.BootPathBecomesSerial` | main/tools/ps1_gameid.c:37-49 | A disc's boot path, such as cdrom:\SLUS_012.34;1, becomes its serial, whatever the letters and digits |
| `GameId.BootPathInDirectoryBecomesSerial` | main/tools/ps1_gameid.c:37-49 | So does one with any of the five directories, such as cdrom:\MGS\SLPM_861.11;1 |

## Left out

- FreeRTOS tasks, ring buffers, UART, timers, GPIO and file systems: a queue is a FIFO whose room is a parameter, a file a byte sequence whose outcomes are parameters, and each handler is one atomic step.
- The shared packet buffer of the transmit path: a command or message is handed over as a value, so sharing that buffer between tasks is not modelled.
- The block cipher is the parameter `e`, and the controller is assumed to answer each kind of command in order with status 0; the source assumes the order too (main/bluetooth/hci.c:1348).
- `PairingSafety.ConfirmThenReveal`: assumes one Pairing Response per connection, which the code does not check; RevealDependsOnRedraws says what happens otherwise, and EveryConfirmHasItsDraw holds without it.
- `PairingSafety.EncryptionStartsWithStk`: assumes also that a peer sends its random when the host's is drawn and no key is being computed for it; KeyIsOfTheRandom holds without that.
- Runs of the pairing protocol assume that the host does not restart while the controller owes it answers (RestartKeepsSafeExactly).
- A slot is assumed not to be given to another connection while one of its pairing callbacks is pending; main/bluetooth/host.c does not check it.
- The key material the host distributes, which is random filler: a distribution is one message. What the key store does with the keys handed to it is in LeKeyRing.
- `HidParser.HidParser.Parse`: assumes a descriptor that ends on an item boundary and stays within `WithinLimits`, which the code does not check: per report and kind at most 24 recorded usages, at most 24 fields in an unmerged data item unless exactly one usage was declared, at most 10 reports, and no overflow of the 32-bit offset. StuckExactlyBeyondLimits proves these limits exact.
- In the HID parser: allocation failure, the vendor patch of one device's report, the choice of output report per type, freeing reports for non-generic devices, and logging.
- In the connection manager: which commands the source repeats on failure (main/bluetooth/hci.c:1629-1679), the context queues that a restart creates (they are in PairingProtocol), events that touch neither the table nor inquiry (encryption, features, link keys, PIN codes), the parameters of configuration commands, and device names. Addresses are numbers. The inquiry mode is fixed during a run.
- The configuration connection's slot is only followed as far as the source frees it, which is never: main/bluetooth/host.c:525-533 ignores it.
- The file behind the key rings. Addresses and keys are integers there, and the all-zero address, which matches empty slots, is excluded from the theorems.
- `AclReassembly.Receiver.AclHdlr`: assumes that packets have their headers and that fragments fit in the 1024-byte buffer, which the code does not check.
- `MemoryCard.CardMemory.McStoreSpread`: the timer that calls it is the environment, since the code that starts it is compiled out; seeking past the end of a file is taken to leave zeros, as in POSIX.
- The dirty mask as machine bits: it is the set of its bit numbers.
- `AttConfig.AttServer.DataWrite`: assumes that the data lands inside the memory of all inputs, which the code does not check; saving the configuration to a file is not modelled. The sizes are those of the default build.
- `AttConfig.AttServer.ReadRequest`: assumes an existing input whose image ends inside that memory, which the code does not check; the size of the transmit buffer is not modelled.
- `CardTransfer.CardReader.McReadResponse`: assumes an offset before the end of the card, which the code does not check.
- Cancelling prepared writes, which the code does not roll back, and all other attributes.
- Dreamcast keyboard input is a sequence of booleans per key rather than packed words.
- `AxisMapping.Adapter.AdapterMapping`: integers are unbounded, and rounding to single precision is a parameter known by what round-to-nearest guarantees, for magnitudes within the exponent range. Every output bit described as an axis is assumed to be the bit of a real axis.
- `FullDeflection.FullDeflectionComesWithinOne`: promises the end of the range or one less, because rounding does not leave more (FullDeflectionCanFallShort); EndIsReachedExactly says which.
- `MappingOrder.OrderIsIrrelevant`: does not cover the turbo mask and the relative flag, which depend on the order (LastPressSetsTurbo, FirstLoudestWins and LastAimSetsKind in MappingEffects); the sign is in SignsAgreeExactly.
- The GameCube's buttons, special actions and keyboard, and the other consoles' outputs.
- `GameId.Rolfl`: requires a non-empty pattern, as its only callers give; with an empty one the source's loop would not end.
- Configuration file upgrades, Bluetooth monitoring, system macros, feedback, the merge of shared buttons in parallel and Sega outputs, HID over GATT discovery, L2CAP and SDP set-up, lookup tables of other systems, and the Wiimote cipher: left out as easier, or not decided by the code shown.
