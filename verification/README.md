# A verified model of OpenRGB

OpenRGB lets programs control RGB lighting: devices describe themselves as modes, zones, LEDs and colours; a server
offers them to clients over a socket; profiles store their settings in files. This project models the parts of it in
which bytes, threads and lists have to fit together, and proves what they guarantee.

| Files | What they model |
|---|---|
| `Bytes.dfy`, `Description.dfy`, `Writer.dfy`, `Controller.dfy`, `Colors.dfy`, `Layout.dfy` | the versioned device description (protocol versions 0 to 4 and beyond), its two-pass writer, its reader, the colour and mode descriptions, and where every field lies |
| `Framing.dfy`, `Handshake.dfy`, `Session.dfy`, `ClientLists.dfy` | the SDK protocol: packets of concurrent senders, arbitrary fragmentation, the version handshake with its time-out, and the controller list that client threads share |
| `I2cWorker.dfy`, `I801.dfy` | the hand-over of bus transfers to one worker thread, and the block transfers of the i801 host controller |
| `ProfileFile.dfy`, `Profiles.dfy`, `Restore.dfy` | profile files, the matching of saved with live controllers, and what loading restores |
| `Sequences.dfy`, `DeviceList.dfy`, `DeviceRuns.dfy` | the master device list |
| `Keymap.dfy`, `KeymapLaws.dfy`, `KeymapRows.dfy` | keyboard layouts edited in place |
| `Log.dfy` | the buffered log |

`dafny verify dfyconfig.toml` verifies everything.

How the model is built:

* Code that changes objects step by step is written as methods on classes with the same fields and loops, and each
  method is proved against a function of the old state. What the code promises is proved about those functions.
* Threads are transition systems: one action is one access to shared state, one critical section, or one message. A
  run is a sequence of actions; a statement about `Exec` holds for every run.
* Bytes are integers from 0 to 255, `unsigned int` wraps at 2^32, `uint8_t` rows and columns at 256, lengths and counts
  are cut to 16 bits as the code does. Strings are byte sequences; writing one stops at its first NUL.
* Where the C++ code would read or write outside a buffer or a vector, the model has no value (`None`). The readers of
  a device record require that it does not happen, all other methods stop there and say so; the lemmas listed further
  down say when it does.
* Sockets are byte streams that arrive in arbitrary pieces, port reads are answered by an arbitrary function, files
  and configuration are parameters. The only thing asked of a device is that it does not stay busy for ever, where the
  i801 code waits without a limit.

Where the code falls short of what it seems to promise, the model keeps the code's behaviour, and the condition under
which the promise holds is proved to be exact:

* `i2c_ret` is read after the transfer mutex is released (i2c_smbus/i2c_smbus.cpp:185-187): `ReadsOwnIff`,
  `LateReadIff`, `LateReadHappens`.
* The 1 s time-out can overwrite a version reply that has just been stored (NetworkClient.cpp:306-310):
  `BothEndsAgreeIff`, `UpdateAgreesIff`, `LateUpdateHappens`; and it can come before a record that the user interface
  has asked for: `UserRecordsAgreeIff`, `UserRecordCrosses`.
* A lost connection resets its flags before the clean-up takes the lock (NetworkClient.cpp:527-530): `ConnectSafeIff`,
  `ListedConnectHappens`.
* A client that loses its connection while it waits for a reply waits for ever, and one that loses it between rounds
  can come to do so (NetworkClient.cpp:318-351, 527-528): `ReconnectsIff`, `LossHangs`,
  `LossBetweenRounds`.
* A record for a controller that the client has already is copied only in part (NetworkClient.cpp:604-613):
  `RefreshIsRecordIff`, `RefreshMisses`.
* The size checks of the server do not look at the colour count (NetworkServer.cpp:698): `AcceptedColorsIff`,
  `AcceptedWithoutColor`.
* A magic mismatch is noticed and then ignored (NetworkServer.cpp:577): `MagicHasNoEffect`.
* The bound tests of the zone, mode and single-LED descriptions are off by one, and a zone description may be longer
  than its zone (RGBController/RGBController.cpp:1162, 1436, 1504): `ZoneWriteDefinedIff`, `ZoneIndexLeaves`,
  `ZoneWriteStaysInsideIff`, `NeighbourChanges`, `ModeIndexGuardIff`, `ModeIndexLeaves`, `SingleLedGuardIff`,
  `SingleLedLeaves`.
* `UpdateDeviceList` inserts a controller again after moving it (ResourceManager.cpp:470-483): `UpdateIsCleanIff`,
  `MovedAndInserted`, `UpdatesAreClean`; unregistering leaves the recorded size: `SizesLookedUpIff`, `SizesMissed`.
* `SwapKey` inserts one slot too early (KeyboardLayoutManager.cpp:677), rows and columns wrap at 256, and the row edits
  read past the end of the list: `SwapKeepsOrderIff`, `SwapLosesOrder`, `InsertIsShiftIff`, `InsertWraps`,
  `RemoveUndoesInsertIff`, `UndoTakesWrapped`, `InsertRowShiftsIff`, `RemoveRowUndoesIff`, `RowWraps`,
  `RemoveRowPastEndIff`, `RemoveRowLeaves`, `MapWritesInsideIff`, `MapLeaves`.
* Loading zone sizes appends the saved segments to those that are there (ProfileManager.cpp:301-304):
  `SizesRestoredIff`, `SizesTwice`.
* A location that starts with "I2C: " and has no ", " matches nothing, not even its own record: `MatchesOwnIff`,
  `LostLocation`, `ProfileRestoresIff`.

## Model

| member | source | states |
|---|---|---|
| Bytes.StrRoundTrip | RGBController/RGBController.cpp:584-592 | a string written with its 16-bit length and NUL is read back up to its first NUL, and the reader stops right behind it |
| Bytes.WordsRoundTrip | RGBController/RGBController.cpp:294-316 | 32-bit fields written one after the other are read back unchanged |
| Description.ColorsRoundTrip | RGBController/RGBController.cpp:958-979 | a counted colour list is read back unchanged |
| Description.ModeRoundTrip | RGBController/RGBController.cpp:660-775 | one mode is read back, brightness fields zero below version 3 |
| Description.LedRoundTrip | RGBController/RGBController.cpp:932-955 | one LED is read back |
| Description.SegmentRoundTrip | RGBController/RGBController.cpp:889-918 | one segment is read back |
| Description.MatrixRoundTrip | RGBController/RGBController.cpp:826-872 | an optional matrix is read back, no matrix as length 0 |
| Description.SegmentsRoundTrip | RGBController/RGBController.cpp:874-921 | the segment list is read back from version 4 on, and is empty and takes no bytes below |
| Description.ZoneRoundTrip | RGBController/RGBController.cpp:785-923 | one zone with its matrix and segments is read back |
| Description.StringsRoundTrip | RGBController/RGBController.cpp:584-645 | the six strings are read back, the vendor only from version 1 on |
| Description.ModesRoundTrip | RGBController/RGBController.cpp:647-776 | mode count, active mode and all modes are read back |
| Description.ZonesRoundTrip | RGBController/RGBController.cpp:778-923 | all zones are read back |
| Description.LedsRoundTrip | RGBController/RGBController.cpp:925-956 | all LEDs are read back |
| Description.RoundTrip | RGBController/RGBController.cpp:571-984 | for every version and every device within the 16-bit limits, reading the written record gives the device with exactly the gated fields dropped, and consumes exactly the record, whatever follows it |
| Description.LosslessIff | RGBController/RGBController.cpp:571-984 | the reader gets the writer's device back unchanged if and only if the version has a field for everything it uses, no string holds a NUL, and its buffers are as SetupColors leaves them |
| Description.SizeFieldIsLength | RGBController/RGBController.cpp:84-203 | the leading size field of a record is the record's own length |
| Writer.ModeSize | RGBController/RGBController.cpp:101-127 | the size pass counts exactly the bytes of one mode |
| Writer.ZoneSize | RGBController/RGBController.cpp:131-178 | the size pass counts exactly the bytes of one zone, matrix and segments included |
| Writer.StringsSize | RGBController/RGBController.cpp:84-100 | the size pass counts exactly the bytes of the strings |
| Writer.DescriptionSize | RGBController/RGBController.cpp:84-191 | the size pass yields the number of bytes the write pass emits, for every version |
| Writer.PutMode | RGBController/RGBController.cpp:283-387 | the write pass appends the encoding of one mode at the moving offset and touches nothing else |
| Writer.PutMatrix | RGBController/RGBController.cpp:433-464 | the same for a matrix |
| Writer.PutSegments | RGBController/RGBController.cpp:466-513 | the same for the segments |
| Writer.PutZone | RGBController/RGBController.cpp:398-514 | the same for a zone |
| Writer.PutStrings | RGBController/RGBController.cpp:211-266 | the same for the strings |
| Writer.PutColors | RGBController/RGBController.cpp:544-559 | the same for the colours |
| Writer.GetDeviceDescription | RGBController/RGBController.cpp:58-569 | both passes together: the buffer has the computed size and the writes fill it exactly with the record |
| Controller.ReadMode | RGBController/RGBController.cpp:660-775 | the reader's code for one mode computes what the decoder says and moves `data_ptr` behind it |
| Controller.ReadMatrix | RGBController/RGBController.cpp:826-872 | the same for a matrix |
| Controller.ReadZone | RGBController/RGBController.cpp:785-923 | the same for a zone |
| Controller.RGBController.ReadDeviceDescription | RGBController/RGBController.cpp:571-984 | reading appends to the lists of the controller, replaces its scalars, and ends in SetupColors |
| Controller.RGBController.SetPointers | RGBController/RGBController.cpp:1532-1563 | start indices of every zone, and its pointers into the colours and into the LEDs, or NULL |
| Controller.RGBController.SetupColors | RGBController/RGBController.cpp:1515-1564 | the colours are resized to the unsigned sum of the LED counts and the zones point at consecutive offsets |
| Controller.RGBController.SetAllZoneLEDs | RGBController/RGBController.cpp:1594-1600 | exactly the entries of the zone's slice get the colour |
| Controller.RGBController.SetAllLEDs | RGBController/RGBController.cpp:1586-1592 | exactly the entries that lie in some slice get the colour |
| Controller.RGBController.GetColorDescription | RGBController/RGBController.cpp:1287-1331 | the whole-device colour description |
| Controller.RGBController.SetColorDescription | RGBController/RGBController.cpp:1333-1367 | writes a description over the colours if it holds no more than there are, or says that the code would leave its buffer |
| Controller.RGBController.GetZoneColorDescription | RGBController/RGBController.cpp:1369-1420 | the colour description of one zone |
| Controller.RGBController.SetZoneColorDescription | RGBController/RGBController.cpp:1422-1463 | writes a zone description of any sender through the zone's pointer, or says that the code would leave a buffer |
| Controller.RGBController.GetSingleLEDColorDescription | RGBController/RGBController.cpp:1465-1485 | index and colour of one LED |
| Controller.RGBController.SetSingleLEDColorDescription | RGBController/RGBController.cpp:1487-1513 | sets one colour, ignores an index past the LEDs, or says that the code would leave the colours |
| Controller.RGBController.GetModeDescription | RGBController/RGBController.cpp:986-1146 | the description of one mode |
| Controller.RGBController.SetModeDescription | RGBController/RGBController.cpp:1148-1285 | merges a mode description into the list and makes it active, ignores an index past the modes, or says that the code would leave a buffer |
| Controller.RGBController.CopyRefreshed | NetworkClient.cpp:604-613 | active mode, LEDs, colours and LED counts of a record are copied over the controller it is for, which is set up again; a record with fewer zones is the one case without a result |
| Controller.Transfer | RGBController/RGBController.cpp:58-984 | writing and then reading into a new controller, on objects |
| Layout.StringLies | RGBController/RGBController.cpp:211-266 | a string lies as its length with the NUL, its bytes up to the first NUL, and a NUL |
| Layout.ModeLies | RGBController/RGBController.cpp:283-387 | every field of a mode at its offset behind the name, the brightness fields only from version 3 on |
| Layout.ColorsLie | RGBController/RGBController.cpp:365-387 | a count and the colours, at their offsets |
| Layout.MatrixLies | RGBController/RGBController.cpp:433-464 | a matrix: 0, or the number of bytes that follow, height, width and the cells |
| Layout.SegmentLies | RGBController/RGBController.cpp:466-513 | a segment: its name, kind, first LED and number of LEDs |
| Layout.ZoneLies | RGBController/RGBController.cpp:398-514 | every field of a zone at its offset, the segments behind their count only from version 4 on |
| Layout.LedLies | RGBController/RGBController.cpp:516-542 | an LED: its name and value |
| Layout.ItemLies | RGBController/RGBController.cpp:283-542 | the items of a list lie one after the other in their order |
| Layout.StringsLie | RGBController/RGBController.cpp:205-266 | a record starts with its size, the kind and the strings in their order, the vendor only from version 1 on |
| Layout.ListsLie | RGBController/RGBController.cpp:268-559 | behind the strings come the number of modes and the active mode, the modes, the zones, the LEDs and the colours, each behind its count |
| Layout.ScalarsArrive | RGBController/RGBController.cpp:571-984 | what arrives of the strings and numbers, field by field and version by version |
| Layout.ModesArrive | RGBController/RGBController.cpp:647-776 | what arrives of a mode, field by field and version by version |
| Layout.ZonesArrive | RGBController/RGBController.cpp:778-923 | what arrives of a zone and its segments, field by field and version by version |
| Layout.LightsArrive | RGBController/RGBController.cpp:925-984 | what arrives of LEDs and colours |
| Layout.ColorDescriptionLies | RGBController/RGBController.cpp:1287-1331 | where size, count and colours of a whole-device description lie |
| Layout.ZoneDescriptionLies | RGBController/RGBController.cpp:1369-1420 | where size, zone, count and colours of a zone description lie, and that they are the zone's colours |
| Layout.SingleLedLies | RGBController/RGBController.cpp:1465-1485 | where index and colour of a single-LED description lie |
| Layout.ModeDescriptionLies | RGBController/RGBController.cpp:986-1146 | where size, index and mode of a mode description lie |
| Colors.SlicesCover | RGBController/RGBController.cpp:1515-1564 | after SetupColors the zones' slices, in order, are the colour buffer: disjoint and nothing left out |
| Colors.SetupSettles | RGBController/RGBController.cpp:1515-1564 | SetupColors leaves every controller settled whose LED counts add up below 2^32, so doing it again changes nothing |
| Colors.ZoneStart | RGBController/RGBController.cpp:1543-1562 | in a settled controller each zone's start and its two pointers are the number of LEDs of the zones before it, the pointers NULL where the zone or the buffer is empty |
| Colors.PointersIff | RGBController/RGBController.cpp:1515-1564 | in every controller, settled or not, a zone's pointer is NULL if and only if it has no LEDs or the buffer is empty, sums that wrap to 0 included |
| Colors.LedSlicesCover | RGBController/RGBController.cpp:1552-1559 | where there are as many LEDs as colours, the zones' LED slices, in order, are the LEDs |
| Colors.SecondLed | RGBController/RGBController.cpp:1552-1559 | two zones of one LED each: the second one points at the second LED |
| Colors.EveryEntryInSomeSlice | RGBController/RGBController.cpp:1586-1592 | every colour lies in the slice of some zone |
| Colors.PaintAll | RGBController/RGBController.cpp:1586-1592 | after SetupColors, SetAllLEDs sets every entry |
| Colors.ColorsTransfer | RGBController/RGBController.cpp:1287-1367 | the whole-device description sets the receiver's first colours to the sender's, and is ignored if it holds more than the receiver has |
| Colors.ZoneColorsTransfer | RGBController/RGBController.cpp:1369-1463 | one zone description changes the receiver in exactly that zone's slice, to the sender's colours |
| Colors.ZonesTransfer | RGBController/RGBController.cpp:1369-1463 | the first n zone descriptions transfer exactly the first n slices |
| Colors.ZonesEqualWhole | RGBController/RGBController.cpp:1287-1463 | all zone descriptions together do what the one whole-device description does |
| Colors.ZoneWriteDefinedIff | RGBController/RGBController.cpp:1422-1463 | a zone description of any sender is applied within the zones and the colours if and only if its index is past the zone count, it holds no colour, or its colours fit from the first LED of the zone it names to the end of the buffer |
| Colors.ZoneIndexLeaves | RGBController/RGBController.cpp:1433-1439 | an index equal to the zone count passes the bound test and leaves the zones |
| Colors.ZoneWriteStaysInsideIff | RGBController/RGBController.cpp:1422-1463 | all received zone descriptions that name zone z with n colours leave every colour outside that zone alone if and only if n is at most the zone's LED count, which the code does not check |
| Colors.NeighbourChanges | RGBController/RGBController.cpp:1447-1463 | two colours for the first of two zones of one LED change the second zone |
| Colors.SingleLedTransfer | RGBController/RGBController.cpp:1465-1513 | a single-LED description sets that colour and nothing else, where the receiver has the LED and the colour |
| Colors.SingleLedGuardIff | RGBController/RGBController.cpp:1501-1513 | with as many colours as LEDs, exactly the index right after the last LED leaves the colours |
| Colors.SingleLedLeaves | RGBController/RGBController.cpp:1501-1513 | a controller without LEDs and colours takes the description of LED 0 |
| Colors.ModeTransfer | RGBController/RGBController.cpp:986-1285 | a mode description sets the receiver's active mode and that one mode to the sender's, leaves all others, and below version 3 keeps the receiver's brightness |
| Colors.ModeIndexGuardIff | RGBController/RGBController.cpp:1154-1170 | a mode sent by any sender leaves the receiver's modes if and only if its index is the receiver's mode count |
| Colors.ModeIndexLeaves | RGBController/RGBController.cpp:1154-1170 | a sender with one mode and a receiver without modes |
| Colors.NegativeIndexIgnored | RGBController/RGBController.cpp:1154-1170 | a mode or LED index from 2^31 on is negative for the receiver and changes nothing |
| Colors.ReadTwiceDoubles | RGBController/RGBController.cpp:571-984 | a record read once more into the same controller doubles its lists |
| Colors.RefreshIsRecordIff | NetworkClient.cpp:604-613 | a record for a known controller brings it up to date if and only if nothing but active mode, LEDs, colours and LED counts has changed: modes, matrices and segments are not copied |
| Colors.RefreshMisses | NetworkClient.cpp:604-613 | a zone that has got a segment keeps none at the client |
| Framing.ExecKeepsFramed | NetworkClient.cpp:675-901 | in every interleaving of senders the byte stream is whole packets in mutex order, plus a part of the one whose sender holds the mutex |
| Framing.DispatchWhole | NetworkServer.cpp:552-624 | a stream of whole packets is split back into exactly those packets, up to the first one that stops the listener |
| Framing.AllDispatchedIff | NetworkServer.cpp:682-812 | what is dispatched is a prefix of what was sent, and all of it if and only if no packet but the last is rejected or too short for its check |
| Framing.UnfinishedPacket | NetworkServer.cpp:583-624 | a proper prefix of a packet yields none |
| Framing.Delivery | NetworkClient.cpp:675-901 | in every interleaving, at every moment, the server dispatches exactly the packets sent completely so far, in mutex order, up to the first one that stops it |
| Framing.AnyListSent | NetworkClient.cpp:675-901 | every list of packets can be sent, each by any of the threads, and the stream is then exactly those packets |
| Framing.MagicHasNoEffect | NetworkServer.cpp:559-581 | whatever the four magic bytes are, each wrong one is logged and the same packets are dispatched |
| Framing.NoMagicErrors | NetworkServer.cpp:559-581 | in every interleaving of the client's senders no wrong magic is ever logged |
| Framing.ClientDescriptionsAccepted | NetworkServer.cpp:682-812 | colour, zone, single-LED and mode descriptions of the client are never rejected by the server's size checks, nor too short for them |
| Framing.AcceptedColorsIff | NetworkServer.cpp:682-712 | a colour packet that passes the size check is applied without leaving it if and only if its count is larger than the controller's, and ignored, or it holds as many colours: the check does not look at the count |
| Framing.AcceptedWithoutColor | NetworkServer.cpp:682-712 | an accepted packet that announces one colour and holds none |
| Framing.SizeCheckIff | NetworkServer.cpp:682-812 | a description of colours or of a mode stops the listener if and only if its size field is neither zero nor its length |
| Framing.HeaderBytes | NetworkClient.cpp:675-901 | the sixteen bytes of a header |
| Framing.ReadFully | NetworkServer.cpp:587-624 | for every fragmentation of the stream the read loop ends with the next `len` bytes, and fails exactly when the stream is shorter |
| Framing.ReadPacket | NetworkServer.cpp:552-624 | for every fragmentation, one round reads the first packet of the stream and leaves the rest; the `continue` after a wrong magic byte only counts it |
| Framing.ServerListener.Listen | NetworkServer.cpp:543-812 | for every fragmentation the listener dispatches what Dispatch says of the whole stream, logs its wrong magic bytes, and leaves the data of no packet unless one is shorter than its size check reads |
| I2cWorker.InvAlways | i2c_smbus/i2c_smbus.cpp:164-253 | the invariant of callers and worker holds in every reachable state, spurious wake-ups included |
| I2cWorker.ExactlyOnce | i2c_smbus/i2c_smbus.cpp:164-253 | in every interleaving the transfers performed are the requests in mutex order, once each with their own kind and parameters; the flags are never both raised; and whoever takes `done` finds its own result |
| I2cWorker.LateReadIff | i2c_smbus/i2c_smbus.cpp:182-187 | what is read after the transfer mutex is released is the caller's own result exactly when no other transfer has been executed since, or one with the same value |
| I2cWorker.LateReadHappens | i2c_smbus/i2c_smbus.cpp:182-187 | a run of two callers in which the first one returns the second one's result |
| I2cWorker.ReadsOwnIff | i2c_smbus/i2c_smbus.cpp:182-187 | every caller always gets its own result, in every run and whatever the transfers yield, if and only if there are fewer than two callers |
| I2cWorker.NotStuck | i2c_smbus/i2c_smbus.cpp:164-253 | in no reachable state with a call under way is everybody blocked |
| I2cWorker.QuietRunsEnd | i2c_smbus/i2c_smbus.cpp:164-253 | a run without new calls and spurious wake-ups has a bounded number of effective steps |
| I2cWorker.EveryCallEnds | i2c_smbus/i2c_smbus.cpp:164-253 | from every reachable state the threads' own steps, however they are taken, can be continued until none is possible, which is after boundedly many, and then every call has returned |
| Handshake.InvAlways | NetworkClient.cpp:213-384 | the invariant that keeps the version reply ahead of the count, and the count ahead of every record, in every run |
| Handshake.RecordsAgree | NetworkClient.cpp:266-360 | in every run, with time-outs, late replies, list changes, reconnections and requests of the user in between, every controller record the connection thread asks for is decoded in the version it was encoded in |
| Handshake.OwnRequestsCarry | NetworkClient.cpp:336-351 | in every run a data request of the connection thread that is still on its way, as request or as reply, is for the controller the thread waits for |
| Handshake.RoundIsComplete | NetworkClient.cpp:336-373 | in every run, when a round publishes, the records its own requests have brought are those of controllers 0 to count - 1, each once and in order |
| Handshake.RoundCanComplete | NetworkClient.cpp:266-384 | from every state in which a round begins with nothing on its way, for every number of controllers and all versions of the two programs, the round can be completed: the client then rests with all records, in order and in the common version |
| Handshake.RoundsFollow | NetworkClient.cpp:213-384 | a first round, and another one after a change of the device list or a lost connection, each ending with all records of the controllers there are then |
| Handshake.StaysQuiet | NetworkClient.cpp:266-384 | without a list change or a loss no further round begins, whatever the user does |
| Handshake.UserRequestServed | RGBController/RGBController_Network.cpp:69-75 | a request of the user between rounds is answered if there is such a controller, and then sets the flag that is waited for; otherwise the server says nothing |
| Handshake.UserRecordsAgreeIff | RGBController/RGBController_Network.cpp:69-75 | a record the user interface asks for between rounds is decoded in the version it was encoded in if and only if the next round's time-out has not written version 0 before it arrives (or it was encoded in version 0) |
| Handshake.UserRecordCrosses | RGBController/RGBController_Network.cpp:69-75 | a run in which such a record is encoded in the common version and decoded in version 0 |
| Handshake.BothEndsAgreeIff | NetworkClient.cpp:83-97 | between rounds the server holds the common version min(C, S), and the client does if and only if the time-out has not overwritten an accepted reply (or the common version is 0), which shows in its fields |
| Handshake.UpdateAgreesIff | NetworkServer.cpp:801-808 | a mode update is decoded in the version it was encoded in if and only if it was not sent after such an overwriting |
| Handshake.LateUpdateHappens | NetworkClient.cpp:291-311 | a run in which the time-out overwrites an accepted reply and a mode update leaves in version 0 but is read in the common one |
| Handshake.ReconnectsIff | NetworkClient.cpp:266-384 | in every reachable state without a connection, the client can ever be online again if and only if its round is not waiting for a reply, because the waiting loops do not look at the connection |
| Handshake.LossHangs | NetworkClient.cpp:318-325 | a connection that is lost before the first reply is never made again |
| Handshake.LossBetweenRounds | NetworkClient.cpp:525-528 | after a loss between two rounds the next step reconnects if server_connected has been reset by then, and begins a round that never ends if not |
| Session.ControllersArrive | NetworkClient.cpp:584-594 | after any history, the controller built from a data reply is the server's one with the fields gated by the version of the reply, unless the user asked for it and a time-out came in between |
| Session.ModesArrive | NetworkServer.cpp:801-808 | after any history, a mode update not sent after a late time-out makes the server's active mode and that mode the client's, and nothing else |
| ClientLists.NetworkClient.EraseController | NetworkClient.cpp:535-545 | the inner loop removes the first occurrence |
| ClientLists.NetworkClient.DropControllers | NetworkClient.cpp:636-658 | every own controller is taken out of the shared list once, forgotten and deleted |
| ClientLists.NetworkClient.AddController | NetworkClient.cpp:596-622 | a new record is kept at the end, or deleted after being copied over an existing one |
| ClientLists.NetworkClient.PublishControllers | NetworkClient.cpp:362-373 | all own controllers are appended to the shared list |
| ClientLists.EraseEachClears | NetworkClient.cpp:636-647 | on a list that holds each own controller at most once the clean-up removes all of them and no entry of anyone else |
| ClientLists.ListsStaySafe | NetworkClient.cpp:220-388 | in every run in which connections are made only while no own controller is listed, no deleted controller is listed, none is listed twice, and everybody else's entries stay exactly as they made them, in order |
| ClientLists.PromptRunsStaySafe | NetworkClient.cpp:525-553 | in particular when disconnect and clean-up count as one step |
| ClientLists.ListedInOrder | NetworkClient.cpp:213-388 | in the same runs the client's entries of the shared list are the first ones of its own list, in the order in which their records arrived |
| ClientLists.RoundPublishes | NetworkClient.cpp:318-373 | a round that gets the records of n new controllers puts exactly them, in the order of the records, behind everything listed before; a record for one it has already adds nothing |
| ClientLists.ListChangeRenews | NetworkClient.cpp:629-671 | after a change of the device list the client can go on: its old controllers are taken out and deleted, and a new round lists the new ones |
| ClientLists.LossRenews | NetworkClient.cpp:525-553 | the same after a connection that is lost between rounds and made again |
| ClientLists.OthersAct | ResourceManager.cpp:194-253 | the other owners can insert an entry anywhere and erase every entry that is not the client's |
| ClientLists.ConnectSafeIff | NetworkClient.cpp:525-553 | the condition is exact: from a state reached so far in order, connecting can never lead to a deleted or doubled entry if and only if no own controller is listed |
| ClientLists.ListedConnectHappens | NetworkClient.cpp:527-532 | the losing half is reached: the flags are reset before the lock is taken, so a connection can be made before the clean-up |
| ProfileFile.RecordOf | ProfileManager.cpp:86-92 | the part of the description buffer that goes into the file is the whole record |
| ProfileFile.SaveProfile | ProfileManager.cpp:72-94 | the file is the header, the version and the records of all controllers in order |
| ProfileFile.LoadProfileToList | ProfileManager.cpp:159-214 | one new controller per record up to the end of the file, for every file; a record of size zero, cut short or running over its end is the one case without a result |
| ProfileFile.LoadInvertsSave | ProfileManager.cpp:159-214 | a file written by any program version up to this one is split back into exactly the saved controllers, in order, as their version lets them be recovered |
| ProfileFile.VersionsLoad | ProfileManager.cpp:175-188 | a file of version 1 is read as records of protocol version 0, one of any other version up to 4 as records of its own version |
| ProfileFile.ForeignFiles | ProfileManager.cpp:164-188 | a newer version, another header or a file that is too short loads as no controllers |
| ProfileFile.LoadLosesNothingIff | ProfileManager.cpp:72-214 | saving and loading loses nothing if and only if the strings hold no NUL and the buffers are as SetupColors leaves them |
| Profiles.CopyMode | ProfileManager.cpp:318-342 | a mode takes speed, brightness, direction, colour mode and colours of the saved one if name, value, flags and limits agree, and nothing otherwise |
| Profiles.CopySettings | ProfileManager.cpp:308-357 | modes and active mode are taken over if the mode counts agree, colours if the colour counts agree, nothing else changes |
| Profiles.CopySizes | ProfileManager.cpp:283-306 | zones described alike are resized by the device if their LED counts differ, and get the saved segments appended |
| Profiles.FirstMatch | ProfileManager.cpp:229-278 | the match is the first unused saved controller that fits, and none exactly when there is no such one |
| Profiles.RFind | ProfileManager.cpp:245-254 | the last position of a separator |
| Profiles.LoadDeviceFromList | ProfileManager.cpp:220-365 | one live controller takes the first unused match, which is marked used; sizes and settings are loaded as the options say |
| Profiles.LoadAll | ProfileManager.cpp:394-408 | the loop over all live controllers, which are changed in place as the options say |
| Profiles.LoadProfile | ProfileManager.cpp:367-419 | each live controller is changed by exactly the saved one it takes, as the options say; the result says whether any took one |
| Restore.TakesUnused | ProfileManager.cpp:229-278 | each device takes the least saved controller that it matches and no earlier device took |
| Restore.InjectiveAndMaximal | ProfileManager.cpp:388-408 | each saved controller serves at most one device, and at the end no device that got nothing matches one that nobody took |
| Restore.SuccessesAreFlags | ProfileManager.cpp:388-408 | as many devices succeed as used flags are set |
| Restore.KthTakesKth | ProfileManager.cpp:229-278 | where matching is a matter of classes, the k-th live device of a class takes the k-th saved controller of it |
| Restore.OwnRecordIff | ProfileManager.cpp:388-408 | every device takes its own record if and only if every device matches its own record |
| Restore.RestoresIff | ProfileManager.cpp:308-357 | a record undoes every change of mode settings and colours if and only if no mode name holds a NUL and the colours fill the zones or are empty |
| Restore.MatchesOwnIff | ProfileManager.cpp:239-274 | a device matches its own record if and only if the compared strings hold no NUL and an I2C location has a separator |
| Restore.HidMatchesIff | ProfileManager.cpp:242-245 | a live HID device matches by kind, name, description, version and serial alone, whatever the saved location |
| Restore.I2cMatchesIff | ProfileManager.cpp:246-258 | a live I2C device matches by these and by its address, which has to occur in the saved location: its bus plays no part |
| Restore.BusDoesNotCount | ProfileManager.cpp:246-258 | so an I2C device matches its record on any bus |
| Restore.NoSeparatorMatches | ProfileManager.cpp:246-252 | a live I2C location without a separator matches nothing |
| Restore.OtherMatchesIff | ProfileManager.cpp:259-262 | every other live device needs the same location |
| Restore.SettingsTaken | ProfileManager.cpp:308-357 | what loading settings takes: five settings of each mode that agrees in its seven compared fields and the active mode, if the mode counts agree, and the colours, if their counts agree |
| Restore.ProfileRestores | ProfileManager.cpp:35-419 | save, change settings and colours, plug HID devices in again at other nodes and I2C devices on other buses, load: every device gets its own record if and only if each matches its own, and then everything is restored where it now is, same identities included |
| Restore.ProfileRestoresIff | ProfileManager.cpp:35-419 | save, change settings and colours, load: all changes of all devices are undone if and only if every device matches its own record and is restored by it |
| Restore.LostLocation | ProfileManager.cpp:245-254 | an I2C location without a separator: the device does not find its own record, and its change stays |
| Restore.SettingsAlone | ProfileManager.cpp:367-408 | loading settings alone is what the results on profiles speak of, whatever the devices' own code does |
| Restore.SizesRestoredIff | ProfileManager.cpp:283-306 | loading sizes gives every zone with the same name, kind and limits its saved LED count, and its saved segments if and only if it had none; every other zone keeps its own |
| Restore.SizesTwice | ProfileManager.cpp:283-306 | loading the same sizes once more doubles the segments |
| Restore.SizesThere | ProfileManager.cpp:283-306 | a device that has all the saved LED counts is not resized, whatever its own code would do |
| Restore.OptionsGovern | ProfileManager.cpp:283-308 | what is not asked for stays: the zones without sizes, the modes and the active mode without settings, everything without both |
| Restore.ColorsNeedSizesIff | ProfileManager.cpp:285-357 | into a device whose zones are described alike the colours are loaded if and only if the sizes are loaded with them or there are as many already |
| DeviceList.ResourceManager.UpdateDeviceList | ResourceManager.cpp:445-498 | the loop with its unguarded second insertion computes Update |
| DeviceList.ResourceManager.FindAndMove | ResourceManager.cpp:470-478 | the search loop moves a controller found elsewhere |
| DeviceList.ResourceManager.LookUpSizes | ResourceManager.cpp:210-216 | sizes are looked up for the controllers past the recorded size |
| DeviceList.ResourceManager.RegisterRGBController | ResourceManager.cpp:194-223 | a registration appends, looks up sizes, records the size and updates |
| DeviceList.ResourceManager.UnregisterRGBController | ResourceManager.cpp:225-253 | erases from both lists and updates |
| DeviceList.ResourceManager.Cleanup | ResourceManager.cpp:755-778 | takes every hardware controller out of the master list and empties the hardware list |
| DeviceList.UpdateIsCleanIff | ResourceManager.cpp:445-498 | from a list without duplicates, an update leaves none if and only if the listed hardware controllers come first and in hardware order; then the move branch is never taken and the result is hardware then the others in order |
| DeviceList.MovedAndInserted | ResourceManager.cpp:470-483 | a client's controller before a hardware controller: the update lists the latter twice |
| DeviceList.UpdateWithoutMoves | ResourceManager.cpp:445-484 | an update without moves only inserts the missing hardware controllers |
| DeviceRuns.PrefixAlways | ResourceManager.cpp:194-255 | in every run the master list is a prefix of the hardware list followed by the clients' controllers in their order, without duplicates |
| DeviceRuns.UpdatesAreClean | ResourceManager.cpp:445-484 | in every run an update takes no move and leaves the whole hardware list followed by the others in unchanged order |
| DeviceRuns.SizesLookedUpIff | ResourceManager.cpp:208-220 | a registration looks up the new controller's sizes if and only if none was unregistered since the last one, because unregistering leaves the recorded size |
| DeviceRuns.SizesMissed | ResourceManager.cpp:208-220 | one controller comes and goes, and the sizes of the next one are not looked up |
| Keymap.KeyboardLayoutManager.InsertKey | KeyboardLayoutManager/KeyboardLayoutManager.cpp:508-582 | the search, insertion and shift loops compute Inserted, with 8-bit wrap-around |
| Keymap.KeyboardLayoutManager.InsertKeys | KeyboardLayoutManager/KeyboardLayoutManager.cpp:584-600 | key by key, then the dimensions |
| Keymap.InsertedInTurn | KeyboardLayoutManager/KeyboardLayoutManager.cpp:584-600 | a list of keys is inserted from its first to its last |
| Keymap.KeyboardLayoutManager.SwapKey | KeyboardLayoutManager/KeyboardLayoutManager.cpp:602-683 | the loop computes Swapped, the early insertion slot included |
| Keymap.KeyboardLayoutManager.RemoveKey | KeyboardLayoutManager/KeyboardLayoutManager.cpp:698-753 | both branches compute Removed |
| Keymap.KeyboardLayoutManager.InsertRow | KeyboardLayoutManager/KeyboardLayoutManager.cpp:755-794 | rows from the inserted one on move down |
| Keymap.KeyboardLayoutManager.RemoveRow | KeyboardLayoutManager/KeyboardLayoutManager.cpp:796-837 | keys of the row are erased and later rows move up |
| Keymap.KeyboardLayoutManager.UpdateDimensions | KeyboardLayoutManager/KeyboardLayoutManager.cpp:963-991 | one more than the largest row and column, in 8 bits |
| Keymap.KeyboardLayoutManager.GetKeyMap | KeyboardLayoutManager/KeyboardLayoutManager.cpp:926-961 | every entry of the buffer is that of the last key at its offset, the marker inside height times width, or what it was; a key past the buffer is the one case without a result |
| Keymap.KeyboardLayoutManager.GetKeyValueAt | KeyboardLayoutManager/KeyboardLayoutManager.cpp:893-904 | linear lookup by row and column |
| KeymapLaws.InsertIsShiftIff | KeyboardLayoutManager/KeyboardLayoutManager.cpp:508-582 | InsertKey keeps the strict order and implements "shift right" on the position map if and only if no key of the row is in column 255 |
| KeymapLaws.InsertWraps | KeyboardLayoutManager/KeyboardLayoutManager.cpp:567-581 | a key in column 255 comes round to the place of the inserted one |
| KeymapLaws.RemoveShiftsLeft | KeyboardLayoutManager/KeyboardLayoutManager.cpp:698-753 | RemoveKey keeps the strict order and implements "remove and shift left" on the position map |
| KeymapLaws.RemoveUndoesInsertIff | KeyboardLayoutManager/KeyboardLayoutManager.cpp:508-753 | removing at the place of an insertion restores the list, unused keys and wrapped rows included, except when an unused key went right before a key in column 255 |
| KeymapLaws.UndoTakesWrapped | KeyboardLayoutManager/KeyboardLayoutManager.cpp:508-753 | removing at the place of an unused key takes away the key that came round |
| KeymapRows.InsertRowShiftsIff | KeyboardLayoutManager/KeyboardLayoutManager.cpp:755-794 | InsertRow keeps the strict order, empties the row and moves the later ones down if and only if no key is in row 255 |
| KeymapRows.RowWraps | KeyboardLayoutManager/KeyboardLayoutManager.cpp:755-837 | a key in row 255 comes round to row 0, and removing the inserted row does not bring it back |
| KeymapRows.RemoveRowShifts | KeyboardLayoutManager/KeyboardLayoutManager.cpp:796-837 | removing a row keeps the order and moves the later ones up |
| KeymapRows.RemoveRowUndoesIff | KeyboardLayoutManager/KeyboardLayoutManager.cpp:755-837 | removing the row just inserted restores the list unless the first key moved was in row 255 |
| KeymapRows.CurrentRowsUndo | KeyboardLayoutManager/KeyboardLayoutManager.cpp:755-837 | with current dimensions RemoveRow undoes every InsertRow of an existing row, and InsertRow leaves the list only when it is empty |
| KeymapRows.RemoveRowPastEndIff | KeyboardLayoutManager/KeyboardLayoutManager.cpp:829-836 | with current dimensions RemoveRow reads past the list exactly when it removes the last row |
| KeymapRows.SwapKeepsOrderIff | KeyboardLayoutManager/KeyboardLayoutManager.cpp:602-683 | SwapKey keeps the strict order if and only if it is not given a named key for a free place between two keys |
| KeymapRows.RemoveRowLeaves | KeyboardLayoutManager/KeyboardLayoutManager.cpp:829-836 | removing the only row reads past the list |
| KeymapRows.SwapLosesOrder | KeyboardLayoutManager/KeyboardLayoutManager.cpp:602-683 | a named key for the free place between two keys goes before both |
| KeymapRows.SwapChangesOnePlace | KeyboardLayoutManager/KeyboardLayoutManager.cpp:602-683 | SwapKey changes the position map at its own place only, and drops a key for a place past the last one |
| KeymapRows.MapIsLookupIff | KeyboardLayoutManager/KeyboardLayoutManager.cpp:893-961 | the dense map agrees with linear lookup everywhere if and only if no two keys share a place |
| KeymapRows.OrderedMapIsLookup | KeyboardLayoutManager/KeyboardLayoutManager.cpp:893-961 | in an ordered list, as the edits keep it, map and lookup agree at every place and find the key there |
| KeymapRows.DimensionsHoldIff | KeyboardLayoutManager/KeyboardLayoutManager.cpp:963-991 | current dimensions hold every key if and only if no key is in row or column 255 |
| KeymapRows.MapWritesInsideIff | KeyboardLayoutManager/KeyboardLayoutManager.cpp:926-961 | with current dimensions GetKeyMap writes only inside height times width if and only if no key is in row or column 255; otherwise the map has no room at all |
| KeymapRows.MapLeaves | KeyboardLayoutManager/KeyboardLayoutManager.cpp:926-961 | one key in column 255 is written 255 places past an empty map |
| KeymapRows.FilledIsMap | KeyboardLayoutManager/KeyboardLayoutManager.cpp:926-961 | where every key is inside, each place shows the last key there or the marker, and the rest of the buffer stays |
| KeymapRows.CellsAreLookups | KeyboardLayoutManager/KeyboardLayoutManager.cpp:926-961 | with no two keys at one place: a value map shows what lookup returns, a count map the key's position in the list, an index map row * width + column, and all of them the marker exactly where there is no key |
| KeymapRows.FilledShows | KeyboardLayoutManager/KeyboardLayoutManager.cpp:926-961 | the same of the buffer that GetKeyMap leaves |
| I801.Controller.WaitByteDone | i2c_smbus/i2c_smbus_i801.cpp:479-498 | times out exactly when all 401 polls are unready; otherwise the error flags of the first ready poll, which is the last one |
| I801.Controller.WaitIntr | i2c_smbus/i2c_smbus_i801.cpp:501-518 | the same for the end of a transfer |
| I801.Controller.CheckPre | i2c_smbus/i2c_smbus_i801.cpp:397-442 | a transfer is refused with EBUSY exactly when the first status is busy, or shows flags that stay set after clearing, and nothing but the clearing is written before |
| I801.Controller.CheckPost | i2c_smbus/i2c_smbus_i801.cpp:328-393 | by the last read of the status register: a bus collision is EAGAIN, else a missing device is ENXIO, else a failed transfer is EIO; after the last unready poll the transfer is killed and the result is ETIMEDOUT |
| I801.Controller.StartByte | i2c_smbus/i2c_smbus_i801.cpp:283-292 | a byte goes on only after a poll with byte-done and no error |
| I801.Controller.ReadLength | i2c_smbus/i2c_smbus_i801.cpp:294-306 | the announced length is taken if it lies between 1 and 32 |
| I801.Controller.MoveByte | i2c_smbus/i2c_smbus_i801.cpp:308-315 | byte i is stored, or byte i + 1 sent, and acknowledged |
| I801.Controller.OneByte | i2c_smbus/i2c_smbus_i801.cpp:281-316 | one round of the loop: one more byte moved, its command issued and the byte acknowledged, or the loop left with an error |
| I801.Controller.Finish | i2c_smbus/i2c_smbus_i801.cpp:318-320 | the last wait and the result: done only after an error-free final status with INTR, which is acknowledged |
| I801.Controller.BlockTransactionByteByByte | i2c_smbus/i2c_smbus_i801.cpp:235-321 | refused with EBUSY exactly as CheckPre says, and then no data has moved; apart from that and a bad length, by the log: EAGAIN exactly if the last status read shows a bus collision, ENXIO if a missing device and no collision, EIO if a failed transfer alone, ETIMEDOUT exactly after 401 unready polls and a kill; a done write has sent bytes 1 to len once each in order after the length; a done read has stored the offered bytes in order with a length of 1 to 32; every further data access follows a clean poll; a bad length is the only protocol error, after which the bytes are acknowledged until the host is idle, and then the end; a done transfer has issued the command of every byte, the start bit once and the last-byte mark at the end of a read, and acknowledged every byte and the final status (section 5.5.7 of the SMBus 2.0 specification) |
| I801.Controller.BlockTransaction | i2c_smbus/i2c_smbus_i801.cpp:178-228 | the same with the length forced between 1 and 32 first, errors and their flags included; only an SMBus block read relies on the device not being busy for ever |
| I801.CommandsAre | i2c_smbus/i2c_smbus_i801.cpp:235-291 | the commands of a transfer as numbers: a write and a read of any length, the last-byte mark at its end, the start bit on the first alone |
| Log.LogManager.FlushBuffer | LogManager.cpp:156-192 | writes the buffered messages that pass, in order, and empties the buffer, if the file is open |
| Log.LogManager.AppendMessage | LogManager.cpp:200-277 | raises the levels for a fatal message, shows, queues and flushes |
| Log.LogManager.Configure | LogManager.cpp:58-154 | opens the file once and writes its header, sets level and console, and flushes |
| Log.LogManager.Perform | LogManager.cpp:58-343 | each call of a run, on the object, does what the run says |
| Log.NothingIsLost | LogManager.cpp:58-277 | in every run the messages appended are those examined followed by those buffered; the file is the header and the subsequence that passed at its flush; nothing is examined before the file opens, and nothing is buffered between calls afterwards |
| Log.OpeningWritesBacklog | LogManager.cpp:58-154 | the call that opens the file writes, after the header, every earlier message that passes the level that very call configures, or the one before if it configures none |
| Log.OpenWritesAtOnce | LogManager.cpp:200-277 | once the file is open a message is written at once or never, by the level it leaves behind |
| Log.LoglevelGovernsFile | LogManager.cpp:300-317 | with an open file, until the next change of the level the file grows by exactly the messages that pass the level asked for, or TRACE if that is lower; the announcement passes the old level or is never written |
| Log.LoglevelReachesBack | LogManager.cpp:300-317 | before the file is open, the level that is set also decides about the messages before it |
| Log.VerbosityGovernsScreen | LogManager.cpp:319-337 | the same for what the screen shows at once, whether the file is open or not; the file's level stays |
| Log.LinesConcat | LogManager.cpp:156-192 | the lines of messages are the lines of the first ones and then of the others |
| Log.LinesOne | LogManager.cpp:156-192 | a message has a line if and only if its level is at most the limit, or 7 |
| Log.SourceGovernsLines | LogManager.cpp:339-343 | from its setting on until the next change lines of the file carry the source position or not |
| Log.FatalRaises | LogManager.cpp:206-211 | a fatal message raises both levels and turns the source positions on before it is written itself; no other message does |
| Log.Announced | LogManager.cpp:300-343 | every change of a setting is announced first, as a debug message that names the value stored |
| Log.ConsoleKeeps | LogManager.cpp:267-270 | while the console is enabled it keeps exactly the messages that are appended, and none while it is not |

## Left out

- Saving a mode to the device, and DeviceCallThreadFunction, which drops a request that arrives during the call it serves.
- Resynchronisation after a malformed stream: the code has none. Packets of 2^31 bytes and more, whose size does not fit the `int` counters of the read loops.
- The order of server replies when the server sends to one client from two threads: its sends take no lock.
- Handshake.UserRecordsAgreeIff: the user interface asks for records between rounds; a request during a round, which shares controller_data_received with the connection thread, is not modelled.
- Handshake.UpdateAgreesIff: mode updates are sent between rounds; the 100 ms pause and the counting of the 200 waits are abstracted to an end that may come at any wait.
- ClientLists.ListsStaySafe: each critical section is one step; the owners of the shared list hold different mutexes in the program, so that two of them inside a section at once is not modelled. Waiting for the data of every record is not modelled either: a round may publish earlier than it would.
- ClientLists.NetworkClient.AddController: only which objects live; what is copied over an existing controller is Controller.RGBController.CopyRefreshed.
- The profile-list reply of the server, which its parser does not invert, and plugins.
- The destructor of an I2C interface while callers are active.
- Profiles.CopySizes: a device's own ResizeZone is a parameter, a function of the device's values that keeps the number of zones; Restore says what more each result relies on.
- ProfileFile.LoadProfileToList: where the program has no defined result, only that is said.
- Restore.ProfileRestoresIff: asks that no I2C location holds a NUL; one before the last separator could make a device match another one's record and not its own.
- Handshake.ReconnectsIff: connecting always succeeds in the model, and the end of the client (client_active) is not modelled.
- Profile names, paths and the list of profiles.
- Device detection, its progress percentage and its locks; UpdateDeviceList's notifications.
- The tables of keys and the constructor that applies regional overlays; KeyboardLayoutManager.cpp:466-502 (the switch over edit opcodes) only calls what is modelled.
- The global bus mutex around a transfer, and the 1 ms pauses between polls.
- The other transfers of i801_access, and the piix4, nct6775, nvapi, amdadl and Linux bus drivers.
- Log.LogManager.Configure: the header of a new log file is one line without its texts; timestamps and file names.
- Dialog callbacks of the log, and the colour conversions of the user interface.
