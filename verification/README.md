# Verification of the driver, firmware and server cores

This project models the following cores of the repository in Dafny and proves what they are for:

- the chained hash table of the pair server (`StorageSpec`, `Storage`),
- the touch calibration geometry of the Windows filter driver (`Lines`, `Calibration`, `Corner`, `FivePoint`,
  `OuterCell`, `NinePoint`, `NineInjective`, `TouchPacket`),
- the driver's control state and the registry it is mirrored in (`DriverSpec`, `DriverProofs`, `DriverLog`,
  `DriverRequests`, `Identify`, `Driver`),
- the in-place rewrite of a REG_MULTI_SZ value (`MultiString`),
- the ESP32 Wi-Fi state machine (`WifiSpec`, `WifiRun`, `WifiProofs`, `WifiReplies`, `Wifi`) and the command/reply pipes
  between tasks (`Pipe`, `PipeRequests`),
- the buffered line reader (`ReadLine`),
- the AES envelope of the air-conditioner client (`Envelope`) and the viewport of the text viewer (`Viewport`).

Code that changes state in place is a class, or a method with loops, proved against functions over values (`Storage`
against `StorageSpec`, `Driver` against `DriverSpec`, `Wifi` against `WifiSpec` and `WifiRun`, and so on); the
properties are proved about those functions, so that they hold of the methods. Concurrent tasks are state machines over
single steps.

## Where the code departs from what one would expect

- **Storage.** An insertion through a vacated head does not look at the chain, so a key can be live twice. Insertion is
  still exact map update; deletion is exact map removal if and only if the key is not live twice. The byte count of a
  hit in the chain is computed from the head's text (`pair_server/storage.c:102`), so it is right exactly when the two
  texts have the same length or the head was hit.
- **Five-point calibration.** The layout check accepts layouts whose edges fold over: the map then sends different
  touches of one quadrant to the same place. `FivePoint.InjectiveIff` gives the exact condition and
  `FivePoint.LeaningLayoutFolds` an accepted layout that folds.
- **Nine-point calibration.** Here too accepted layouts can fold, in the four outer cells and nowhere else:
  `NineInjective.MapInjectiveIff` gives the exact condition and `NineInjective.LeaningLayoutFolds` an accepted layout
  that folds. `MAX_VALUE*3/4` and `MAX_VALUE/4` truncate, so neighbouring columns differ by one on some seams.
- **Start-up from the registry.** The size test for the stored points counts the value's 12-byte header
  (`WDM_filter_driver/TouchscreenFilterDriver.c:926`), so a value up to three points too short is read past its end, and
  what lies there can decide whether the calibration is available (`DriverLog.ShortValueUndecided`).
  `DriverLog.BootSettledIff` and `DriverLog.BootFaithfulIff` give the exact conditions; every registry the driver itself
  keeps meets them (`DriverLog.LogIsWhole`).
- **Identify.** The bound of one event or one selected device breaks exactly when a device is plugged in that the registry
  still names while the event is signalled or some device is selected (`Identify.AlwaysOneTokenIff`). That happens in the
  wait (`Identify.PlugInWindowReached`), and, once a registry write has failed, outside it too
  (`Identify.PlugAfterFailedWrite`).
- **Wi-Fi.** STATE_LOST_IP is documented in wifi.h as set on every disconnect; the code does not set it while tries are
  left, nor during deinitialization (`WifiSpec.LossFlaggedIff`, `WifiReplies.DisconnectNotFlagged`). An address that is
  got while the driver is being stopped for another network leaves STATE_GOT_IP set, so that the attempt succeeds before
  it has asked for a connection (`WifiReplies.SuccessBeforeConnecting`; exactly when, `WifiReplies.SuccessIsOwnIff`). The
  internal queue is not emptied when a command is received, and can then hold an address that an earlier request fetched
  late: the reply is stale exactly when it does (`WifiReplies.ReplyIsFreshIff`, `WifiReplies.StaleReply`). A cached reply
  is given without testing STATE_GOT_IP, and is an address of the present connection exactly when that bit is set by an
  address got since the driver was started (`WifiReplies.CachedReplyIff`); otherwise it can be that of the previous
  network (`WifiReplies.CachedReplyOfTheOtherNetwork`). After one attempt that fails before the driver has started no
  later CONNECT_TO_AP on its own starts it (`WifiReplies.FailureBeforeStartIsFinal`); the deinitialization command, which
  no client sends, would let one do so.
- **Envelope.** An encryption whose base64 text does not fit the output buffer logs the encoder's error and still reports
  success (`firmware_esp32/main/ac_gree.c:101-111`, `Envelope.EncryptionStores`); a buffer of the computed size is too
  small only beyond the bound of `Envelope.OutputFitsIff`.
- **Pipes.** The scan branch of the Wi-Fi worker sends no reply when its queue is empty; no run reaches that point.

## Assumptions of the model

- DOUBLE is `real`, and the conversion of a non-negative DOUBLE to UINT16 is the floor. Where the code computes 0/0 the
  coordinate has no value and its conversion is unspecified.
- The hash is any total function into the 4096 buckets; an error of the digest library is a parameter.
- Registry writes may fail, each on its own. The bound of the identify protocol and the calibration results hold for any
  failing writes. The faithful-log results, and what an identify request leaves in the registry, assume that they succeed, that device ids are
  distinct, that the remove-driver request is not used, and that no device which the registry still names is plugged in
  while the identify event is signalled. They start from a registry that is whole: a stored calibration that can be
  accepted is stored in full, and the floating-point state can be saved to check it. At a later start the availability
  comes back exactly when that state can be saved or there are no points to check.
- Control requests come one at a time, and the last device is not removed under one.
- Wi-Fi: a connection that the driver was asked for reports its network once, then addresses, until it reports that it is
  gone or the driver's stop has been handled; handlers run one at a time. `WifiSpec.NeverBoth` lets the worker's bit
  operations fall between any two of a handler's; the other results treat each handler, and the worker's clearing of all
  bits with the setting of the next ones and its call of esp_wifi_stop, as one step. Addresses may be got and may expire
  at any time, also while the driver is being stopped.
- Pipes: a worker that has received a request comes to an end with it. Of the Wi-Fi worker, whose wait for an address has
  no time limit, this assumes that the radio reports an address or a loss.
- AES blocks and base64 are inverse pairs with known lengths.

## Model

| member | source | states |
|---|---|---|
| StorageSpec.InsertIsUpdate | pair_server/storage.c:117-184 | In every well-formed table an insertion is exactly map update: the key gets the value and every other key keeps its lookup, whether the head, the chain, a vacated head or a new cell is used. |
| StorageSpec.DeleteIsRemovalIffUnshadowed | pair_server/storage.c:186-229 | Deletion is exactly map removal if and only if the key is not live both in the head and behind it; all other keys are untouched either way. |
| StorageSpec.ShadowBorn | pair_server/storage.c:138-152 | A key becomes live twice exactly by inserting it through a vacated head whose chain already holds it. |
| StorageSpec.ApplyValid | pair_server/storage.c:117-229 | Every operation keeps chains with pairwise distinct (key, user) pairs in their own bucket and a counter that counts the live cells. |
| StorageSpec.RunValid | pair_server/storage.c:17-28 | Every table reachable from the zeroed one is well formed. |
| StorageSpec.SizeCountsKeysAndShadows | pair_server/storage.c:249-252 | In every reachable table `table_size` is the number of distinct keys plus the number of keys that are live twice. |
| StorageSpec.GetReadsView | pair_server/storage.c:81-114 | A read succeeds exactly when the map holds the key and the text fits, and returns that text; the reported byte count is right if and only if the head was hit or the lengths agree, and is reported with a failure exactly for a head hit that does not fit. |
| StorageSpec.RunRefinesMap | pair_server/storage.c:117-229 | A run without deletions of a key that is live twice ends in the same map as the run over a plain map. |
| StorageSpec.RunIsMapIff | pair_server/storage.c:117-229 | At every point of a run the table agrees with a plain map if and only if no deletion met a key that was live twice. |
| StorageSpec.ShadowedDeleteResurrects | pair_server/storage.c:138-144 | Five operations on two colliding keys after which a deleted key answers with its older value. |
| Storage.HashTable.constructor | pair_server/storage.c:28 | The zeroed table of 4096 head cells is the empty run. |
| Storage.HashTable.CellsInOnePlace | pair_server/storage.c:19-26 | In every reachable heap no cell is in two places of one chain or of two, next and prev mirror each other, and only the ends of a chain have null links. |
| Storage.HashTable.Get | pair_server/storage.c:62-115 | The walk over head and chain returns what the specification of a read says of the run so far. |
| Storage.HashTable.Insert | pair_server/storage.c:117-184 | Refilling a head or a chain cell, or linking a new one, extends the run by the insertion and keeps every link, flag and the counter in step with it. |
| Storage.HashTable.Delete | pair_server/storage.c:186-229 | Vacating the head or unlinking a chain cell extends the run by the deletion; the result says whether the key was held. |
| Storage.HashTable.Pop | pair_server/storage.c:231-247 | Pop is get followed by delete, and leaves the table alone when the get fails. |
| Storage.HashTable.GetSize | pair_server/storage.c:249-252 | The size returned is the number of distinct keys plus the keys that are live twice. |
| Lines.ThroughPoints | WDM_filter_driver/TouchscreenFilterDriver.c:168-183 | The line computed from two points passes through both of them. |
| Lines.SideIsTurn | WDM_filter_driver/TouchscreenFilterDriver.c:163-183 | On which side of a computed line a point lies, tested by the divisions of Fx and Fy, is the sign of the integer area of the triangle of the three points. |
| Lines.AboveBetween | WDM_filter_driver/TouchscreenFilterDriver.c:173-183 | A line that is above another at both ends of an interval is above it everywhere between. |
| FivePoint.LayoutGivesFrame | WDM_filter_driver/TouchscreenFilterDriver.c:706-757 | A layout accepted by the five-point check gives four lines without zero divisors, with the centre strictly between them. |
| FivePoint.LayoutIff | WDM_filter_driver/TouchscreenFilterDriver.c:706-757 | The five-point check accepts a layout if and only if its corners are in order and the centre lies strictly inside their quadrilateral, as a fact about integers. |
| FivePoint.RectangleAccepted | WDM_filter_driver/TouchscreenFilterDriver.c:706-757 | Every upright rectangle with a point strictly inside is accepted. |
| FivePoint.MappedIff | WDM_filter_driver/TouchscreenFilterDriver.c:296-314 | A touch is mapped if and only if it lies between a side and the centre in x and between an edge and the centre in y; every touch between the outer lines is. |
| FivePoint.MapRange | WDM_filter_driver/TouchscreenFilterDriver.c:296-314 | Every mapped coordinate lies in its own half of [0, 32766], and is 0/0 only for a touch on the line through the centre that bounds the cell. |
| FivePoint.CentreMapsToMiddle | WDM_filter_driver/TouchscreenFilterDriver.c:282-299 | The centre of an accepted layout maps exactly to (16383, 16383). |
| FivePoint.SeamsAgree | WDM_filter_driver/TouchscreenFilterDriver.c:296-311 | Where several quadrants accept a touch their outputs are equal wherever they are defined. |
| FivePoint.RowMonotone | WDM_filter_driver/TouchscreenFilterDriver.c:296-311 | Along a row, across all quadrants, the output x and its truncation never decrease as x grows. |
| FivePoint.ColumnMonotone | WDM_filter_driver/TouchscreenFilterDriver.c:296-311 | Along a column, across all quadrants, the output y and its truncation never decrease as y grows. |
| FivePoint.QuadrantIsCorner | WDM_filter_driver/TouchscreenFilterDriver.c:296-311 | Each of the four branches is the same map of a corner with two leaning edges, mirrored. |
| Corner.SameImage | WDM_filter_driver/TouchscreenFilterDriver.c:296-311 | Two points of a corner's cell with the same two fractions coincide, unless the edges fold: the determinant argument. |
| Corner.FoldCollapses | WDM_filter_driver/TouchscreenFilterDriver.c:296-311 | In a folded corner a whole segment of points has one image. |
| FivePoint.InjectiveIff | WDM_filter_driver/TouchscreenFilterDriver.c:296-311 | A quadrant of an accepted layout is injective if and only if its edges do not fold. |
| FivePoint.MapInjectiveIff | WDM_filter_driver/TouchscreenFilterDriver.c:296-311 | The whole map of an accepted layout, across its four branches, is injective wherever it is defined if and only if no quadrant folds. |
| FivePoint.LeaningLayoutFolds | WDM_filter_driver/TouchscreenFilterDriver.c:296-299 | An accepted layout in which two different touches are reported at the same place. |
| NinePoint.LayoutGivesFrame | WDM_filter_driver/TouchscreenFilterDriver.c:607-704 | A layout accepted by the nine-point check gives eight lines without zero divisors, ordered columns, and a middle polyline strictly between top and bottom at its inner points, which reaches from a point left of them to a point right of them. |
| NinePoint.LayoutIff | WDM_filter_driver/TouchscreenFilterDriver.c:607-704 | The nine-point check accepts a layout if and only if its points are in order along the edges and the polyline and the three inner points lie strictly inside the quadrilateral of the corners, as a fact about integers. |
| NinePoint.GridAccepted | WDM_filter_driver/TouchscreenFilterDriver.c:607-704 | Every grid of five columns and three rows is accepted. |
| NinePoint.OutRange | WDM_filter_driver/TouchscreenFilterDriver.c:218-249 | In each of the eight branches 0 <= numerator <= denominator, so outputs lie in the cell's part of the square; a denominator vanishes only on the cell's inner edge. |
| NinePoint.MapRange | WDM_filter_driver/TouchscreenFilterDriver.c:218-252 | Every mapped coordinate is in [0, 32766]. |
| NinePoint.MappedIff | WDM_filter_driver/TouchscreenFilterDriver.c:218-252 | A touch is mapped if and only if it is between the leaning sides as far as it is in an outer column, and between the top or bottom line and the polyline; else it is reported absent. |
| NinePoint.RegionMapped | WDM_filter_driver/TouchscreenFilterDriver.c:218-252 | Every touch between the left and right and between the top and bottom lines of an accepted layout is mapped, in the outer columns too. |
| NinePoint.MappedInQuarter | WDM_filter_driver/TouchscreenFilterDriver.c:218-249 | A mapped touch is placed in the quarter of the column its x lies in, outer columns included; on an inner point's x, where alone it may be undefined, it is placed at the end of either side's quarter. |
| NinePoint.MappedInHalf | WDM_filter_driver/TouchscreenFilterDriver.c:218-249 | A mapped touch is placed in the half on its side of the polyline, and is undefined at most on the polyline itself. |
| NinePoint.MappedByOwnCell | WDM_filter_driver/TouchscreenFilterDriver.c:218-249 | Off the shared edges it is the cell of the touch's own column and half whose formulas place it. |
| NinePoint.CellProportional | WDM_filter_driver/TouchscreenFilterDriver.c:218-249 | In a cell, a touch in any proportion between two others of its row is placed in x in that proportion between them, and likewise in y along a column. |
| NinePoint.MiddleBetween | WDM_filter_driver/TouchscreenFilterDriver.c:194-205 | Between the outer inner points the middle polyline runs strictly between the top and bottom lines. |
| NinePoint.InnerAccepted | WDM_filter_driver/TouchscreenFilterDriver.c:222-245 | Every touch strictly between the outer inner points and between the top and bottom lines is accepted, divides by no zero, and lands in its column's quarter and its half. |
| NinePoint.SeamsAgree | WDM_filter_driver/TouchscreenFilterDriver.c:218-249 | On shared edges the vertical outputs agree and the horizontal outputs differ by the gap the truncated constants leave, at most one. |
| NinePoint.RowMonotone | WDM_filter_driver/TouchscreenFilterDriver.c:218-249 | Along a row, across all eight cells, the output x never decreases as x grows. |
| NinePoint.ColumnMonotone | WDM_filter_driver/TouchscreenFilterDriver.c:218-249 | Along a column, across all eight cells, the output y never decreases as y grows. |
| NinePoint.InnerInjective | WDM_filter_driver/TouchscreenFilterDriver.c:222-245 | The real map is injective on each of the four inner cells. |
| OuterCell.SameImage | WDM_filter_driver/TouchscreenFilterDriver.c:218-249 | Two points of an outer cell with the same two fractions coincide unless the cell folds. |
| OuterCell.FoldCollapses | WDM_filter_driver/TouchscreenFilterDriver.c:218-249 | In a folded outer cell a whole line of points has one image. |
| NineInjective.CoversIsDefined | WDM_filter_driver/TouchscreenFilterDriver.c:218-249 | The touches a branch accepts, and those for which it divides by no zero, are exactly those of its cell. |
| NineInjective.ImageOfCell | WDM_filter_driver/TouchscreenFilterDriver.c:218-249 | Each of the four outer branches is this cell, mirrored: a touch with both outputs defined is defined in it, and the outputs are its two fractions placed in the quarter and the half. |
| NineInjective.OuterInjectiveIff | WDM_filter_driver/TouchscreenFilterDriver.c:218-249 | An outer cell is injective if and only if it does not fold: its side meets the column's inner edge within the cell and leaves it so flat that the slope there times the side's is at least one. |
| NineInjective.OuterInjective | WDM_filter_driver/TouchscreenFilterDriver.c:218-249 | In particular it is injective when its leaning side turns properly into the lines above and below it (slope products below one). |
| NineInjective.MapInjectiveIff | WDM_filter_driver/TouchscreenFilterDriver.c:218-252 | The whole nine-point map, across its eight branches, is injective wherever it is defined if and only if none of the four outer cells folds. |
| NineInjective.LeaningLayoutFolds | WDM_filter_driver/TouchscreenFilterDriver.c:218-249 | An accepted nine-point layout whose map sends different touches to one place. |
| TouchPacket.CalibrateRange | WDM_filter_driver/TouchscreenFilterDriver.c:203-252 | For an accepted layout of either mode the coordinates a touch is mapped to are in range, or the touch is reported absent. |
| TouchPacket.Transform | WDM_filter_driver/TouchscreenFilterDriver.c:207-316 | The loop over the packet rewrites each touch from its own old value: absent ones are skipped, oversized ones flagged, the others mapped or flagged, and no other field changes. |
| TouchPacket.ResetInputData | WDM_filter_driver/TouchscreenFilterDriver.c:319-334 | Every touch that is there, and no other, is flagged as absent. |
| TouchPacket.InnerTouchMoves | WDM_filter_driver/TouchscreenFilterDriver.c:207-254 | For every accepted nine-point layout an inner live touch that is not oversized is moved to the floors of two defined coordinates. |
| TouchPacket.TouchMovesIff | WDM_filter_driver/TouchscreenFilterDriver.c:207-316 | In either mode a live touch that is not oversized is moved if and only if it lies in the region of the map, and is reported absent otherwise. |
| TouchPacket.TouchPlacedNine | WDM_filter_driver/TouchscreenFilterDriver.c:207-254 | With nine points a mapped touch is moved into its column's quarter and its half of the output, outer columns included. |
| TouchPacket.TouchPlacedFive | WDM_filter_driver/TouchscreenFilterDriver.c:285-316 | With five points a touch in the region is moved into the halves of the output on its side of the centre. |
| TouchPacket.RegionTouchMoves | WDM_filter_driver/TouchscreenFilterDriver.c:207-316 | Whatever lies between the outer lines is calibrated and never reported absent. |
| TouchPacket.TouchesLookedUp | WDM_filter_driver/TouchscreenFilterDriver.c:211-217 | Absent touches are left alone, and of the others those over 600 wide or 1050 high are flagged unless large touches are let through. |
| DriverProofs.AlwaysCalibrated | WDM_filter_driver/TouchscreenFilterDriver.c:759-800 | At every boundary of every run, from an arbitrary bounded registry and with any writes failing, available points with a nonzero count are a checked layout of mode 5 or 9, although count and points are overwritten before the check. |
| DriverProofs.SendCalibrated | WDM_filter_driver/TouchscreenFilterDriver.c:1270-1304 | The same for one request with points, whatever the buffer, its length and the state before. |
| DriverProofs.StepWellFormed | WDM_filter_driver/TouchscreenFilterDriver.c:53-68 | Every step keeps handles and ids distinct and the target device among the present ones. |
| DriverLog.StepFaithful | WDM_filter_driver/TouchscreenFilterDriver.c:1270-1627 | Every step with successful writes keeps the registry a log of start flag, calibration, and of every device's active, large-touch and selected flags. |
| DriverLog.BootFaithfulIff | WDM_filter_driver/TouchscreenFilterDriver.c:1793-1813 | Every state start-up can come to, whatever lies beyond the stored value and whichever write fails, has the registry as its log if and only if the registry is whole. |
| DriverLog.BootSettledIff | WDM_filter_driver/TouchscreenFilterDriver.c:926-934 | Whether start-up finds the calibration available depends on the registry alone if and only if no value too short by at most three points can be completed to an accepted layout. |
| DriverLog.ShortValueUndecided | WDM_filter_driver/TouchscreenFilterDriver.c:926-934 | Three stored points of a five-point calibration, whose availability depends on what lies beyond them. |
| DriverLog.LogIsWhole | WDM_filter_driver/TouchscreenFilterDriver.c:1270-1304 | A registry that is a log of a state is whole, so the driver can start from it again. |
| DriverLog.AlwaysFaithful | WDM_filter_driver/TouchscreenFilterDriver.c:1270-1627 | From a whole registry, the registry stays a log of the state along every orderly run. |
| DriverLog.ReloadRestores | WDM_filter_driver/TouchscreenFilterDriver.c:1793-1913 | Outside an identify window a new start with the same devices restores the start flag, every device's flags, the target device, and the available points with their count; the availability comes back if and only if the floating-point state can be saved or there are no points to check. |
| DriverLog.AlwaysDevicesLogged | WDM_filter_driver/TouchscreenFilterDriver.c:1323-1627 | From every bounded registry, whole or not, the registry stays a log of start flag and of every device's active, large-touch and selected flags along every orderly run. |
| Identify.StepTokensIff | WDM_filter_driver/TouchscreenFilterDriver.c:585-591 | Every step, with any writes failing, keeps the bound of one signalled event or selected device, unless it plugs in a device that the registry still names while the token is taken; then it breaks it. |
| Identify.AlwaysOneTokenIff | WDM_filter_driver/TouchscreenFilterDriver.c:1909-1913 | In every run from every bounded registry, with any writes failing, the bound holds throughout if and only if no such device is plugged in. |
| Identify.IdentifyStarts | WDM_filter_driver/TouchscreenFilterDriver.c:1323-1335 | An identify request clears every selection; a single device is selected at once and both target device and registry name it; several are left to the signalled event. |
| Identify.IdentifyOutcome | WDM_filter_driver/TouchscreenFilterDriver.c:1336-1364 | The wait ends with one selected device that target device and registry both name, or with none selected, no target device and the registry value deleted; only an unplugged winner leaves its id in the registry. |
| Identify.FirstReadWins | WDM_filter_driver/TouchscreenFilterDriver.c:585-591 | Of any number of reads on any devices, with any writes failing, the first one takes the event and stays the only selected device; the registry names it if its write succeeds. |
| Identify.PlugInWindowReached | WDM_filter_driver/TouchscreenFilterDriver.c:1909-1913 | A run with all writes succeeding that breaks the bound in the wait: a selected device is unplugged, an identify request signals the event for two others, and the device comes back. |
| Identify.PlugAfterFailedWrite | WDM_filter_driver/TouchscreenFilterDriver.c:842-844 | A run that breaks it outside the wait: the write naming the newly selected device has failed, and the one named before comes back. |
| DriverLog.ReadUsesCheckedPoints | WDM_filter_driver/TouchscreenFilterDriver.c:593-596 | In every run, when the completion routine is installed for an enabled device, the points it will apply are a checked layout of the counted mode, or no mode is counted. |
| DriverRequests.AcceptIff | WDM_filter_driver/TouchscreenFilterDriver.c:759-800 | The points of a request are accepted if and only if the buffer holds exactly the mode's number of points, all within 32767 and accepted by the layout check, and the floating-point state could be saved; they then replace the first points. |
| DriverRequests.CalibrationAcceptedIff | WDM_filter_driver/TouchscreenFilterDriver.c:1270-1304 | The same of the whole request: it makes a calibration available exactly then, the points in use are those given and the count is the mode's, and nothing but the calibration changes. |
| DriverRequests.CalibrationRecorded | WDM_filter_driver/TouchscreenFilterDriver.c:1271-1311 | Whichever writes fail, an accepted request records its points, then availability and count, and a refused one withdraws the availability and nothing else. |
| DriverRequests.CalibrationSurvives | WDM_filter_driver/TouchscreenFilterDriver.c:1793-1813 | After an accepted request whose writes succeed a new start has the same points available, and after a refused one none. |
| DriverRequests.BootWithdrawsIff | WDM_filter_driver/TouchscreenFilterDriver.c:1793-1813 | Start-up withdraws a stored calibration if and only if it could be read and checked and the check fails. |
| DriverRequests.StartIsAsAsked | WDM_filter_driver/TouchscreenFilterDriver.c:1383-1418 | After a start or stop request calibration is on or off as asked, in memory and in the registry, and nothing else changes. |
| DriverRequests.StartSurvives | WDM_filter_driver/TouchscreenFilterDriver.c:1383-1418 | And so it is after a new start. |
| DriverRequests.DisablesTarget | WDM_filter_driver/TouchscreenFilterDriver.c:1451-1479 | After a disable request exactly the target device is inactive, and exactly its id is loaded inactive later; without a target device nothing changes. |
| DriverRequests.ActivatesAll | WDM_filter_driver/TouchscreenFilterDriver.c:1480-1497 | After an activate request every device is active and every device plugged in later is. |
| DriverRequests.SetsLargeOfTarget | WDM_filter_driver/TouchscreenFilterDriver.c:1568-1627 | A large-touch request sets the flag of the target device and of no other, now and for later starts. |
| DriverRequests.RemoveDriverDeselects | WDM_filter_driver/TouchscreenFilterDriver.c:1419-1435 | A remove-driver request deselects every device and changes nothing else in the state. |
| DriverRequests.UnknownDevicePlugged | WDM_filter_driver/TouchscreenFilterDriver.c:1839-1929 | A device the registry does not know starts active, unselected and with large touches let through, behind the others. |
| DriverRequests.NamedDevicePlugged | WDM_filter_driver/TouchscreenFilterDriver.c:1909-1913 | The device the registry names is selected and becomes the target device. |
| DriverRequests.UnplugsOne | WDM_filter_driver/TouchscreenFilterDriver.c:53-68 | Exactly the unplugged device goes; the others keep order and flags, the registry its values, and the extra device stays as long as any does. |
| DriverRequests.StartIsLastAsked | WDM_filter_driver/TouchscreenFilterDriver.c:1383-1418 | In every run calibration is on exactly as the last start or stop request asked. |
| DriverRequests.CalibrationIsLastSent | WDM_filter_driver/TouchscreenFilterDriver.c:1270-1304 | In every run the calibration in use is that of the last request with points, and available exactly when it was good. |
| DriverRequests.WideValuesTruncated | WDM_filter_driver/TouchscreenFilterDriver.c:1781-1799 | Start-up keeps the low byte of a flag and the low half of the count. |
| Driver.ExtraDeviceExtension.constructor | WDM_filter_driver/TouchscreenFilterDriver.c:1753-1818 | Start-up from a registry gives the specified state, with truncated flag and count and only checked points available. |
| Driver.ExtraDeviceExtension.GetAndCheckCalibrationPoints | WDM_filter_driver/TouchscreenFilterDriver.c:759-800 | The loop overwrites the points up to the first one out of range and succeeds exactly as specified, which by `DriverRequests.AcceptIff` is for a full, in-range, accepted layout. |
| Driver.ExtraDeviceExtension.SendCalibrationPoints | WDM_filter_driver/TouchscreenFilterDriver.c:1270-1322 | The request leaves exactly the points, count, availability and registry specified, which `DriverRequests.CalibrationAcceptedIff` and `DriverRequests.CalibrationRecorded` describe. |
| Driver.ExtraDeviceExtension.DisableDevice | WDM_filter_driver/TouchscreenFilterDriver.c:1451-1479 | Exactly the target device ends inactive, and the registry names it. |
| Driver.ExtraDeviceExtension.ActivateDevice | WDM_filter_driver/TouchscreenFilterDriver.c:1480-1497 | Every device ends active and the registry names none as disabled. |
| Driver.ExtraDeviceExtension.SetLargeTouches | WDM_filter_driver/TouchscreenFilterDriver.c:1568-1627 | The target device's flag and its registry value change, nothing else. |
| Driver.ExtraDeviceExtension.IdentifyBegin | WDM_filter_driver/TouchscreenFilterDriver.c:1323-1335 | Selections are cleared; a single device is selected at once, several are left to the signalled event. |
| Driver.ExtraDeviceExtension.IdentifyEnd | WDM_filter_driver/TouchscreenFilterDriver.c:1345-1364 | An event nobody took is taken back, with target device and registry value. |
| Driver.ExtraDeviceExtension.Read | WDM_filter_driver/TouchscreenFilterDriver.c:568-605 | A read takes a signalled event and is selected; the completion routine is installed exactly for a selected device that is disabled or has an available, started calibration. |
| Driver.ExtraDeviceExtension.CompleteRead | WDM_filter_driver/TouchscreenFilterDriver.c:336-386 | The packet of a disabled device is flagged absent; that of an enabled one is calibrated with points that passed the check of their mode, or left alone. |
| Driver.ExtraDeviceExtension.AddDevice | WDM_filter_driver/TouchscreenFilterDriver.c:1839-1929 | A new device is loaded with the flags the registry holds for its id. |
| Driver.ExtraDeviceExtension.RemoveDevice | WDM_filter_driver/TouchscreenFilterDriver.c:53-68 | The device leaves, the target device is cleared if it was this one, and the others keep their flags and order. |
| MultiString.DecodeEncode | WDM_filter_driver/TouchscreenFilterDriver.c:448-470 | Reading the encoding of a list of non-empty strings gives the list. |
| MultiString.EncodeDecode | WDM_filter_driver/TouchscreenFilterDriver.c:448-470 | Every well-formed value is the encoding of what is read from it. |
| MultiString.KeptPositions | WDM_filter_driver/TouchscreenFilterDriver.c:454-468 | The filtered list holds, in order, exactly what the list holds at the positions without the name. |
| MultiString.AppendThenRemove | WDM_filter_driver/TouchscreenFilterDriver.c:448-477 | Appending the name to a list without it and removing it restores the list. |
| MultiString.RemoveFromValue | WDM_filter_driver/TouchscreenFilterDriver.c:448-477 | For every encoded list the two-offset loop stops exactly at the final terminator and stores the encoding of the list without the name, or deletes the value exactly when nothing is left. |
| WifiSpec.NeverBoth | firmware_esp32/main/wifi.c:67-132 | In every interleaving of single bit operations of handlers and worker, STATE_GOT_IP and STATE_LOST_IP are never both set. |
| WifiSpec.ProgramIsHandler | firmware_esp32/main/wifi.c:41-134 | The bit operations of a handler, done without interruption, have the effect of the handler taken as one step. |
| WifiSpec.LossFlaggedIff | firmware_esp32/main/wifi.c:82-104 | A disconnect flags the loss exactly when no try is left, or, without tries, when the connection is ceaseless or the driver is not being taken down; with tries left it is not flagged. |
| WifiReplies.DisconnectNotFlagged | firmware_esp32/main/wifi.c:82-86 | A run with a disconnect that is not flagged as a loss. |
| WifiReplies.AttemptBegan | firmware_esp32/main/wifi.c:247-284 | Whatever the worker is doing belongs to one command received before, and what the queue held then is what the attempt found. |
| WifiReplies.RetriesBounded | firmware_esp32/main/wifi.c:82-104 | In every run, with n tries asked for, at most n disconnects are answered by a reconnect; the wait is over exactly when something else has happened since the driver was started or an address was got or expired before; what ends the tries is an address, an expiry, or disconnect n + 1 after exactly n reconnects. |
| WifiReplies.RetriesInOrder | firmware_esp32/main/wifi.c:271-297 | In an attempt in which no address is got or expires before the driver is started, nor expires since before one is got, the wait goes on exactly as long as it retries, and an address or disconnect n + 1 ends it. |
| WifiReplies.ReplyIsFreshIff | firmware_esp32/main/wifi.c:330-352 | In every run an attempt succeeds if and only if the address bit is set and, where a reply is wanted, the queue held an address at the command or the request has fetched one; the reply is the first address got since the driver was started for it if and only if the queue was empty at the command or held the same. |
| WifiReplies.SuccessIsOwnIff | firmware_esp32/main/wifi.c:330-352 | A success stands for an address of the commanded connection if and only if something but retries has happened since the driver was started; otherwise an address got while it was being stopped has set the bit. |
| WifiReplies.SuccessBeforeConnecting | firmware_esp32/main/wifi.c:271-284 | A run in which an address is renewed while the driver is being stopped: the next attempt succeeds before it has asked for a connection, and a cached reply then gives the address of the connection taken down. |
| WifiReplies.PromptAnswer | firmware_esp32/main/wifi.c:330-352 | A worker that looks as soon as something has ended the tries succeeds exactly when it was an address. |
| WifiReplies.QueueAtCommand | firmware_esp32/main/wifi.c:578-583 | At a command the queue holds exactly what a request left standing has fetched since the worker came to rest, which takes an attempt before in which an address was got or expired early. |
| WifiReplies.QueueDiscipline | firmware_esp32/main/wifi.c:47-61 | The internal queue is sent to at most once in an attempt, and a send finds it full exactly when the attempt began with an address in it. |
| WifiReplies.CachedReplyIff | firmware_esp32/main/wifi.c:253-268 | A command for the present network is answered at once with the latest address that has not expired; it was got for that network on the connection that is up if and only if STATE_GOT_IP is set and an address was got since the driver was started; the bit alone decides unless one was got while it was being stopped. |
| WifiReplies.StaleReply | firmware_esp32/main/wifi.c:125-134 | A run with a lost-ip event before an attempt's first address, in which a later attempt replies with an address that is not its own. |
| WifiReplies.CachedReplyOfTheOtherNetwork | firmware_esp32/main/wifi.c:107-113 | A run without such an event in which a cached reply is the address of the network before. |
| WifiReplies.StartedOnlyWhenOff | firmware_esp32/main/wifi.c:115-123 | The driver is started only after its stop has been handled: it is off, no bit of deinitialization is left, and the two address bits are what the events since the command have made them. |
| WifiReplies.FailureIsAnswered | firmware_esp32/main/wifi.c:300-328 | An attempt ends exactly where the driver could not be stopped, configured or started, and is then answered with a failure at once, or where the worker sees an address bit; no other step touches the answer but the cached reply. |
| WifiReplies.FailureBeforeStartIsFinal | firmware_esp32/main/wifi.c:270-328 | After an attempt that fails before the driver has started, no later CONNECT_TO_AP on its own starts it: its answers are time-outs and cached replies for the network last named. |
| Wifi.Station.OnGotIp | firmware_esp32/main/wifi.c:41-71 | The handler caches the address, hands it to a waiting attempt, ends the tries and sets the address bit, as specified. |
| Wifi.Station.OnWifiDisconnect | firmware_esp32/main/wifi.c:73-105 | The branches over tries, ceaseless connection and deinitialization leave the specified bits and counter, and reconnect exactly as specified. |
| Wifi.Station.ReceiveCommand | firmware_esp32/main/wifi.c:250-284 | A command is answered from the cache, or resets the bits and says whether the driver must be stopped first. |
| Wifi.Station.ApplyOptions | firmware_esp32/main/wifi.c:291-297 | The command's tries and ceaseless option become bits and the counter. |
| Wifi.Station.Conclude | firmware_esp32/main/wifi.c:330-352 | After the wait the worker answers as specified and leaves the internal queue empty. |
| Pipe.ReceiveNeverFails | firmware_esp32/main/udp_client.c:38-105 | A woken worker always finds a request, the mutex holder's own, so no empty-queue branch is taken, and the UDP worker finds room for its reply. |
| Pipe.OneReplyEach | firmware_esp32/main/ac_gree.c:957-965 | On each pipe commands, services and consumed replies alternate, each three for one client and with one outcome; a pipe nobody holds has no call open. |
| Pipe.ReplyIsOwn | firmware_esp32/main/ac_gree.c:1080-1100 | A client waits only while its own call is in service, and a client told of success finds the reply to that very call in the queue. |
| Pipe.FreeAtEnd | firmware_esp32/main/ac_gree.c:1036-1037 | A client that is through, or about to begin, holds neither mutex; the UDP mutex is held only with the Wi-Fi mutex. |
| Pipe.NeverStuck | firmware_esp32/main/ac_gree.c:952-1037 | With any number of clients, while one has something left to do some task can go on without a mutex time-out, be it the worker with the request it carries out: there is no deadlock between mutexes, queues and bits. |
| Pipe.RunsEnd | firmware_esp32/main/ac_gree.c:952-1037 | Every step, failures and time-outs included, leaves less to do, so every finite workload ends under every schedule. |
| Pipe.AllDone | firmware_esp32/main/ac_gree.c:1036-1037 | When no step but a time-out is left, every client is through, both mutexes are free and every command has had its reply. |
| Pipe.InvStep | firmware_esp32/main/wifi.c:246-266 | Every single operation of a client or a worker keeps the handshake invariant. |
| Pipe.AbortOrdered | firmware_esp32/main/ac_gree.c:987-1010 | The error path gives back what is held in order and shortens the program. |
| Pipe.AcProgramOrdered | firmware_esp32/main/ac_gree.c:798-1037 | Any sequence of requests of the air-conditioner client, connecting by name or by a scan, takes Wi-Fi before UDP and gives them back in reverse; which calls it makes is said by `PipeRequests.RequestsMade`. |
| PipeRequests.MadeThenLeft | firmware_esp32/main/ac_gree.c:952-1037 | In any part of a run in which a client aborts nothing, what it had to call is what it calls there, in order, followed by what it still has to call. |
| PipeRequests.RequestsMade | firmware_esp32/main/ac_gree.c:952-1037 | A client that is through and aborted nothing has made exactly two calls for each request, in order: the connection asked for, by name or by scan and with or without a reply, then SEND_MESSAGE. |
| PipeRequests.AbortKeepsTheRest | firmware_esp32/main/ac_gree.c:987-1010 | An aborted request leaves only the giving back of its mutexes, and the requests behind it as they were. |
| PipeRequests.RequestsCarriedOut | firmware_esp32/main/ac_gree.c:798-1037 | With any time-outs and failures, a client that is through has given each pipe one command per request, less at most one per aborted request. |
| PipeRequests.ServedAsCarried | firmware_esp32/main/udp_client.c:38-105 | Each pipe's worker serves its calls with exactly the outcomes its operations had, in order. |
| PipeRequests.NoFailureSeen | firmware_esp32/main/ac_gree.c:961-965 | A client that aborts on every failed call and has aborted nothing has been told of no failure, but for the answer to its present call. |
| ReadLine.LineReader.ReadLine | c_examples/read_line.c:25-62 | However the reads split the stream, a call returns the next line cut to the buffer with its newline, consumes exactly through that newline, and writes its terminator within the buffer. |
| ReadLine.LineReader.Init | c_examples/read_line.c:64-84 | A refill moves the next non-empty part of the stream into the buffer and loses nothing. |
| ReadLine.DrainIsStreamIff | c_examples/read_line.c:49-60 | The texts of repeated calls concatenate to the whole stream if and only if every line fits. |
| ReadLine.LineProgress | c_examples/read_line.c:43-60 | Every call makes progress; it returns 0 exactly at the end of the input or, into a buffer of two, for a last line without newline; no text holds a newline before its end. |
| ReadLine.LineMeaning | c_examples/read_line.c:43-60 | Of a line and what stands behind it the call gives as much of the line as fits, with its newline, and leaves exactly what stands behind. |
| Envelope.OutputFitsIff | firmware_esp32/main/ac_gree.c:38-41 | The computed size holds the base64 text and its terminator if and only if the message is within the exact bound, which is smaller when 3 does not divide the padded length. |
| Envelope.PadIff | firmware_esp32/main/ac_gree.c:68-78 | The padded message is the only one that starts with the message, fills whole blocks with one to sixteen more bytes, and holds in each of them how many they are. |
| Envelope.EncryptionStores | firmware_esp32/main/ac_gree.c:43-112 | An encryption succeeds if and only if the key is taken and the buffer has the computed size; it then stores the text with its terminator, unless that does not fit, which is not reported; otherwise the buffer is left alone. |
| Envelope.OpenIff | firmware_esp32/main/ac_gree.c:114-175 | A text is rejected if and only if it is no base64 text of whole blocks that fit the room. |
| Envelope.OpenSeal | firmware_esp32/main/ac_gree.c:43-175 | Decrypting an encrypted message gives the message followed by zeros in place of the padding of section 6.3 of RFC 5652. |
| Envelope.OpenSealText | firmware_esp32/main/ac_gree.c:168-169 | Read as a C string an opened message is exactly the sealed text. |
| Envelope.Encrypt | firmware_esp32/main/ac_gree.c:43-112 | The padding and block loops store the specified text, and fail exactly for a small buffer or a refused key. |
| Envelope.Decrypt | firmware_esp32/main/ac_gree.c:114-175 | Decoding, block loop and clearing leave what the specification says, with every rejection. |
| Envelope.RoundTrip | firmware_esp32/main/ac_gree.c:38-175 | A message within the bound, encrypted into a buffer of the computed size, is stored whole and decrypts to itself and zeros. |
| Viewport.FillWindow | linux_dev/show/show.c:115-158 | For every file, offset and window size the one pass draws exactly the rectangle: the lines from the vertical offset, each sliced from the horizontal offset, with newlines and consecutive numbers between. |
| Viewport.WindowShows | linux_dev/show/show.c:130-155 | The characters of the window are exactly the slices of its lines joined by newlines, with one more newline when lines follow behind it. |
| Viewport.WindowNumbers | linux_dev/show/show.c:125-152 | The numbers in the window count its lines from the first one's number in the file, and the line behind it if there is one. |
| Viewport.SliceAt | linux_dev/show/show.c:136-147 | A slice holds exactly the characters of the line from the offset on for which there is room. |
| Viewport.LinesJoin | linux_dev/show/show.c:130-155 | The lines of a file hold no newline and join to the file, so they are its lines. |
| Viewport.WindowFull | linux_dev/show/show.c:131-133 | Once the line behind the window has begun nothing more belongs to the window, so the early exit is right. |

## Left out

- Storage: failures of malloc and calloc, keys of 64 or more characters and the debug output.
- StorageSpec.GetItem: the reported byte count is modelled as the code computes it, from the head, so it is not claimed
  to be the length of the text read from a chain.
- Floating-point rounding: the geometry is exact over `real`.
- Calibration.Place: a division of zero by zero has no value, because what its conversion gives is unspecified.
- Kernel plumbing: request packets, remove locks, memory descriptors, power and plug-and-play forwarding, pool failures,
  registry handles, message texts, and the enumeration of TabCal keys.
- The eager read of the target device at the head of the control dispatch; it is read where it is used.
- Requests that change state between a read being dispatched and its completion.
- Driver.ExtraDeviceExtension.RemoveDevice: after the last device has gone the extra device is gone too, and adding a
  device to the dangling one is not modelled.
- Driver.ExtraDeviceExtension.constructor: a stored point count above nine overruns the extension's array and is outside
  the model.
- MultiString.RemoveFromValue: values that are not the encoding of a list, and values longer than one page, are not
  covered.
- WifiReplies.ReplyIsFreshIff: covers the CONNECT_TO_AP command; the scan command, the access point and the deinitialization
  commands are not part of this model of attempts.
- Wi-Fi handler snapshots interleaved with the worker, except for the exclusion of the two address bits.
- Configuration of the access point, passwords and address formatting: addresses are values.
- Pipe.NeverStuck: that a worker comes to an end with its request is assumed, since the wait at
  `firmware_esp32/main/wifi.c:330` has no time limit.
- Pipe.ReceiveNeverFails: the deinitialization command, which no client sends, is not modelled, nor is the start-up
  client of main.c going on after failing to get the mutex.
- Pipe.Next: the endless loops of `ac_client`, `udp_client` and `wifi_connection` are single operations of a state
  machine, so that every interleaving is covered; `WifiRun.Next` treats the worker the same way.
- The reading of the scan answer in `firmware_esp32/main/ac_gree.c`, which the repository has not finished.
- WifiReplies.FailureBeforeStartIsFinal: DEINIT_WIFI sets STATE_PRE_INIT again and is not modelled, so the result is
  about CONNECT_TO_AP alone.
- Pipe: payloads, the JSON requests and the message buffers; the UDP worker's replies are abstract.
- ReadLine.LineReader.ReadLine: after a failed read only the error is stated; the characters of the unfinished line are
  lost in the code. Sharing the static buffer between descriptors is not modelled.
- Envelope: SHA-256, AES, base64 and JSON internals, failures of single block operations, memory lifetimes.
- Envelope.Decrypt: padding bytes that point outside the buffer are reported as such and not followed.
- Curses calls, colours, boxes and key handling of the viewer, the capture script, the socket examples, the server loop,
  `main.c`, `custom_setup.c` and build files.
