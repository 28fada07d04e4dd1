# RTS2 core: a Dafny model

RTS2 is a set of programs that run an observatory: cameras, telescopes, and the network between
them. This project models the parts of it that carry state, aliasing, interleaving or arithmetic, and
proves what they keep.

| file | what it is about |
|---|---|
| `tsqueue.dfy` | the thread-safe queue as a monitor, every interleaving of any number of threads |
| `data_channels.dfy`, `data_connection.dfy`, `data_stream.dfy` | image data in chunks over a socket: the buffers, a frame item by item, and the reception of its bytes in arbitrary fragments |
| `header_lines.dfy`, `binary_send.dfy` | the line that announces a chunk, written and read, and the loop that writes a block |
| `data_transfer.dfy`, `frame_transfer.dfy` | sender, wire and receiver as one system, and a frame from end to end |
| `shared_segments.dfy`, `channel_sums.dfy`, `shared_data.dfy` | image data in shared memory: segments, their clients, writers, readers, and the allocation for one image |
| `counted_ptr.dfy` | reference-counted pointers |
| `camera_statistics.dfy`, `camera_center.dfy` | pixel statistics in chunks, and the row and column sums of a box |
| `value_flags.dfy`, `values.dfy` | the flag word of a value, its dirty bits, and values that track their changes |
| `sample_windows.dfy`, `value_statistics.dfy`, `time_series.dfy` | lists of measurements with a bounded length, and what is computed from them |
| `pointing_terms.dfy`, `harmonic_terms.dfy` | pointing model terms and their reversal |
| `strtok.dfy`, `image_tiles.dfy`, `flat_exposure.dfy` | the tokenizer, image tiling and box painting, the exposure control for flat fields |
| `options.dfy` | optional values |

`dafny verify dfyconfig.toml` checks the whole project.

Objects that the programs update in place are classes here, and loops are loops. Each such method is
proved against a function of the old state; what the program is for is then proved about that
function, or about every run of it. Floating-point numbers are reals. What the operating system
answers (bytes read, threads woken, measured levels, the next target) is a parameter.

## Where the code does not do what its names or comments promise

These are results about the code as it is; each is a lemma that says exactly when the promise holds.

- `updateCenter` accepts boxes whose walk leaves the frame as soon as the camera bins
  (`CameraCenter.InFrameIffUnbinned`, and for one box `CameraCenter.InFrameIffEndIs`). It visits the box
  it was given exactly if that has one row or spans the frame, and binning leaves its start where it is
  (`CameraCenter.RectangleIff`); a box for which it does not is in `CameraCenter.BinnedRowIsMissed`.
- `TPointModel::apply` passes the latitude in degrees to the terms and `reverse` passes it in radians.
  Terms that look at it drift: `PointingTerms.ModelInversionBound` says by how much at most. The bound
  without the drift holds for all models exactly when the two latitudes are one
  (`PointingTerms.BoundNeedsOneLatitude`), which is on the equator (`PointingTerms.DegreesAndRadians`);
  constant terms cancel exactly when they add up to the same at both
  (`PointingTerms.ConstantsCancelIff`), and term DAF breaks the bound at the pole
  (`PointingTerms.PoleFails`).
- When a chunk is open and a read fails with anything but EINTR, `receive` first forgets the chunk and
  closes the socket, and then looks the transfer up by the chunk it has forgotten. The lookup finds the
  transfer exactly when the read did not fail (`DataStream.Connection.ReceiveData`); otherwise an end
  iterator is dereferenced. Up to there nothing is lost or mixed up
  (`DataStream.Connection.ReceiveAll`, `FrameTransfer.ReceiveFrame`).
- `sendBinaryData` does not end when it is asked for more than all channels have left: it then goes on
  calling send for no bytes (`BinarySend.EndsIff`, `BinarySend.NeverDone`).
- A data header may announce a negative number or more than the channel lacks. The copy stays inside
  the buffer exactly when it does neither (`DataChannels.CopyStaysInsideIff`,
  `DataChannels.ReadStaysInsideIff`, `DataChannels.BadHeaders`).
- `addClient` does not compare the size it is asked for with the room up to the next held segment
  (`SharedSegments.BytesStayApartIff`, `SharedSegments.TooLargeIsShared`), and can find nothing although
  a segment is free when another client leaves behind its back (`SharedSegments.ScanCanMiss`; exactly what
  it finds is in `SharedSegments.ScanFindsIff`). A
  connection that has no positive client number yet gets one segment for all channels of an image
  (`SharedData.StartSharedImage`).
- `setFlags` can lose a change that was not sent yet (`ValueFlags.ReplaceIsSoundIff`), `maskError` can
  change more than the error field (`ValueFlags.MaskErrorOnField`), and two group numbers can have the
  same flags (`ValueFlags.GroupRoundTrip`, `ValueFlags.GroupsCollide`).
- `ValueSelection::clear` and `duplicateSelVals` leave an index that need not be one of the list
  (`Values.ValueSelection.Clear`, `Values.ValueSelection.DuplicateSelVals`).
- `ValueDoubleStat::calculate` measures the deviation from the value of the calculation before
  (`ValueStatistics.DeviationIsRightIff`), and `send` computes only when the number of samples has
  changed, so `send` alone never brings the figures of a full window up to date again
  (`ValueStatistics.SentIsFreshIff`, `ValueStatistics.FullWindowIsNeverComputedAgain`).
- `ValueDoubleTimeserie::calculate` finds the least-squares slope. Read as the height at the mean time, the
  height it reports with it is that of the best line only when the line is level
  (`TimeSeries.HeightIsBestIff`); read as the height at any other time, only when that time is before the
  mean time by the mean of the products, too (`TimeSeries.HeightAtIsBestIff`).
- `TermHarmonics::getFunc` reads multipliers of three digits and more wrong
  (`HarmonicTerms.ParsedIsDecimalIff`).
- The search for the mode has a 32-bit index and does not end for 32-bit pixels
  (`CameraStatistics.SearchEndsIff`).
- In the queue, elements never outnumber the signalled threads while others are blocked, except, exactly,
  while a `push` has appended and not signalled or a `pop` is inside and has not taken
  (`ThreadSafeQueue.BoundHoldsIff`, with runs that lead there in `ThreadSafeQueue.BoundFailsBeforeSignal`
  and `ThreadSafeQueue.BoundFailsBeforeTake`).

## Model

| member | source | states |
|---|---|---|
| ThreadSafeQueue.Reachable | include/tsqueue.h:47-94 | mutual exclusion, linearizability and the wakeup bound hold in every state that any interleaving leads to |
| ThreadSafeQueue.BlockedMeansEnoughSignalled | include/tsqueue.h:47-63 | with the mutex free and a thread still blocked, at least as many signalled threads are on their way as there are elements; spurious wakeups and elements taken by others included |
| ThreadSafeQueue.BoundHoldsIff | include/tsqueue.h:47-76 | in every reachable state the elements are no more than the signalled threads while others are blocked, exactly unless the thread with the mutex has appended and not signalled, or is a pop that has not taken |
| ThreadSafeQueue.BoundFailsBeforeSignal | include/tsqueue.h:49-53 | a concrete run: one element, one blocked thread and nobody signalled, between the append and the signal |
| ThreadSafeQueue.BoundFailsBeforeTake | include/tsqueue.h:56-72 | a concrete run: two blocked threads, one push, and the one that was signalled inside again before it takes |
| ThreadSafeQueue.StuckOnlyWhenQuiet | include/tsqueue.h:49-76 | when nothing can move by itself, every thread is outside or blocked on an empty queue |
| ThreadSafeQueue.WaitersAreServed | include/tsqueue.h:49-76 | from every reachable state, every run without new calls and spurious wakeups has a bounded length, and where it cannot go on the queue is empty or no thread is blocked |
| ThreadSafeQueue.InternalRunsEnd | include/tsqueue.h:49-93 | every step uses up one of the steps left, counted from the pushes that have not signalled and from where each thread is, whoever gets the mutex and however many threads a signal wakes |
| ThreadSafeQueue.SomeRunServes | include/tsqueue.h:49-76 | from every reachable state there is a run without new calls to where nothing moves by itself |
| ThreadSafeQueue.Linearizable | include/tsqueue.h:47-94 | the calls, in the order of their critical sections, are a legal history of a sequential FIFO queue with the same contents |
| ThreadSafeQueue.FirstInFirstOut | include/tsqueue.h:50-72 | what was returned followed by what is still queued equals what was pushed, in the order of the lock |
| ThreadSafeQueue.EveryExitReleasesTheMutex | include/tsqueue.h:65-93 | a thread has the mutex exactly while it is inside; every exit, the error included, gives it back |
| ThreadSafeQueue.NextInside | include/tsqueue.h:49-93 | the thread with the mutex always has a step it can take by itself |
| ThreadSafeQueue.TSQueue.Push | include/tsqueue.h:47-54 | the code of push is a run of the monitor's actions |
| ThreadSafeQueue.TSQueue.Pop | include/tsqueue.h:56-76 | one passage through pop returns the oldest element, fails on an empty queue, or blocks, and is a run of the monitor's actions |
| ThreadSafeQueue.PushLeaves | include/tsqueue.h:47-54 | a push leaves its element behind the others, the threads it woke on their way and all others where they were |
| ThreadSafeQueue.PopLeaves | include/tsqueue.h:56-76 | a pop takes the oldest element, and on an empty queue blocks or is refused; no other thread is touched |
| ThreadSafeQueue.SpuriousWakeup | include/tsqueue.h:60-63 | a thread that is woken by nobody finds the queue empty and blocks again, and all is as it was |
| ThreadSafeQueue.TSQueue.Size | include/tsqueue.h:78-85 | size is a run that reports the number of elements and changes none |
| ThreadSafeQueue.TSQueue.Empty | include/tsqueue.h:87-94 | empty is a run that tells whether there are elements and changes none |
| DataChannels.DataRead.AddData | include/data.h:133-142 | takes at most the rest of the chunk, appends exactly that to the buffer, counts both rests down by it and returns it, whenever the copy stays inside the buffer |
| DataChannels.DataRead.GetData | include/data.h:115-131 | a read appends what the system delivered, whenever that fits the buffer; an error or an interrupt changes nothing |
| DataChannels.CopyStaysInsideIff | include/data.h:133-142 | it does so for all data exactly when the announced number is neither negative nor more than the channel lacks |
| DataChannels.ReadStaysInsideIff | include/data.h:115-131 | a read from the socket, told that number as a size, stays inside the buffer whatever it delivers exactly then |
| DataChannels.BadHeaders | lib/rts2/data.cpp:31-34 | headers that say -1 and 5 to a channel of four bytes copy more than four bytes |
| DataChannels.DataRead.SetChunkSizeFromData | include/data.h:108-108 | starts a chunk as long as everything that is missing |
| DataChannels.DataRead.ReadDataSize | lib/rts2/data.cpp:31-34 | the announced size becomes the chunk, the data stay |
| DataChannels.Channels.ReadChannel | include/data.h:386-386 | announcing a chunk changes its own channel only; a channel that does not exist is refused |
| DataChannels.Channels.AddData | include/data.h:388-388 | data of a chunk change their own channel only |
| DataChannels.Channels.GetData | include/data.h:390-390 | a read changes its own channel only |
| DataChannels.Channels.GetRestSize | lib/rts2/data.cpp:281-288 | the sum of what all channels miss |
| DataChannels.TotalRestBounds | lib/rts2/data.cpp:281-288 | the sum is zero exactly when every channel is complete |
| DataConnection.BulkIsStepwise | lib/rts2/connection.cpp:1175-1228 | storing a stretch of a chunk at once is the same as byte by byte, wherever it is cut |
| DataConnection.FoldConcat | lib/rts2/connection.cpp:1175-1228 | items received in two parts are the items received at once, for every cut |
| DataStream.FeedConcat | lib/rts2/connection.cpp:1115-1228 | bytes received in two parts are the bytes received at once, for every cut, within a line or within a chunk |
| DataStream.Again | lib/rts2/connection.cpp:1166-1171 | the text of a line that is not complete, kept in the buffer and read again with what comes next, means the same |
| DataStream.LoneReturn | lib/rts2/connection.cpp:1123-1143 | a carriage return that something else than a newline follows makes the line in front of it void |
| DataStream.ReturnIsDropped | lib/rts2/connection.cpp:1131-1152 | a line that ends with a carriage return and a newline means what it means with the newline alone |
| DataStream.FirstCharacter | lib/rts2/connection.cpp:1125-1127 | in front of a line the six characters of white space are dropped, and any other begins one |
| DataStream.TakeChunk | lib/rts2/connection.cpp:1154-1164 | opening a chunk and taking what is at hand for it equals the header and the bytes one by one |
| DataStream.RenderedItems | lib/rts2/connection.cpp:1720-1767 | written out as lines and bytes, the items that the sender puts on the wire lead where the items lead |
| DataStream.Connection.DataReceived | lib/rts2/connection.cpp:2282-2300 | with a chunk open, closes a chunk that is complete and hands over a frame that is complete, exactly then; without one the transfer is not found |
| DataStream.Connection.ProcessLine | lib/rts2/connection.cpp:959-974 | a header opens its chunk and takes from the buffer what belongs to it and no more; other lines take nothing |
| DataStream.Connection.ProcessBuffer | lib/rts2/connection.cpp:1115-1173 | working off what was kept and the new bytes, line by line, equals consuming the new bytes one by one; what is kept is exactly the incomplete line |
| DataStream.Connection.ReceiveData | lib/rts2/connection.cpp:1187-1199 | data of an open chunk go straight into the channel; a read that is interrupted or brings nothing changes nothing; one that fails closes the socket and forgets the chunk, and the transfer that is looked up afterwards is found exactly when the read did not fail |
| DataStream.Connection.Receive | lib/rts2/connection.cpp:1175-1228 | one readiness of the socket equals consuming its bytes one by one, inside and outside a chunk; the socket is closed exactly when a read fails or, with no chunk open, the stream ends, and a closed socket is not read |
| DataStream.Connection.ReceiveAll | lib/rts2/connection.cpp:1175-1228 | fragmentation independence: channels and kept text depend on the bytes up to the first answer that is a failed read or, with no chunk open, the end of the stream, however they are split, within a line, between a carriage return and its newline or within a chunk; nothing is stored after it |
| DataStream.EndIsFed | lib/rts2/connection.cpp:1175-1228 | the answers one after the other lead where the bytes before the first breaking one lead, with the chunk forgotten if there is one |
| DataStream.StopsAtTheFirst | lib/rts2/connection.cpp:1190-1209 | the answer at which reading stops is a failed read or, with no chunk open, the end of the stream, and none before it is |
| DataStream.FeedExtends | include/data.h:388-390 | whatever comes, bytes that are stored are never changed, only others put behind them |
| HeaderLines.TextIsRead | lib/rts2/connection.cpp:1726-1727 | the header that the sender writes for a transfer, channel and size is read back as these, through the words and numbers of the parameters |
| HeaderLines.HeaderOfTwelve | lib/rts2/connection.cpp:1726-1727 | 1207 bytes for channel 1 of transfer 3 are announced as D 3 1 1207, and read as that |
| HeaderLines.CommaIsRead | lib/rts2/connection.cpp:1996-2053 | a comma ends a number where the source allows it, and is dropped |
| HeaderLines.QuotedIsRead | lib/rts2/connection.cpp:2003-2024 | a number in quotes is that number |
| HeaderLines.SignIsRead | lib/rts2/connection.cpp:2043-2101 | a number may have a sign; with a minus it is negative |
| HeaderLines.HeadersAreRead | lib/rts2/connection.cpp:959-974 | so the two are a printer and a parser of lines, as the reception assumes them |
| DataTransfer.Conservation | lib/rts2/connection.cpp:1720-1767 | in every reachable state and for every channel, bytes stored, in flight and still to be sent are together the payload, and what the receiver misses is what is in flight plus the sender's counter |
| DataTransfer.FinishedMeansComplete | lib/rts2/connection.cpp:2282-2300 | the device client is told only when every channel equals its payload |
| DataTransfer.NeverStuck | lib/rts2/connection.cpp:1705-1767 | until the client is told, a chunk can be announced, written or delivered |
| DataTransfer.EveryActionMoves | lib/rts2/connection.cpp:1705-1767 | announcing a chunk that is not empty, writing and delivering each bring the transfer nearer to its end |
| DataTransfer.EveryTransferEnds | lib/rts2/connection.cpp:1705-1767 | so every run has at most four actions for a byte, and where it cannot go on the client was told |
| DataTransfer.FoldStores | include/data.h:386-395 | interleaved chunks append to their own channel and change no other |
| DataTransfer.DataWrite.DataWritten | include/data.h:302-304 | counts down one channel and leaves the others |
| DataTransfer.DataWrite.GetDataSize | lib/rts2/data.cpp:133-139 | the sum of the counters |
| BinarySend.EndsIff | lib/rts2/connection.cpp:1733-1765 | the loop can come to its end exactly when no more is sent than all channels have left |
| BinarySend.NeverDone | lib/rts2/connection.cpp:1735-1740 | with more to send than that, no answers end it but one that fails |
| BinarySend.DoneInTime | lib/rts2/connection.cpp:1733-1765 | within that, as many calls as bytes end it, if each writes something |
| BinarySend.Transfer.SendBinaryData | lib/rts2/connection.cpp:1720-1767 | the loop with the counters of the channels: what it returns for any answers, and that a complete block is counted down |
| FrameTransfer.WireCompletes | lib/rts2/connection.cpp:1720-1767 | once everything is sent, the bytes in flight, lines and data, complete every channel with its payload |
| FrameTransfer.WireTells | lib/rts2/connection.cpp:2282-2300 | once they are read, the client was told exactly when no channel lacks anything |
| FrameTransfer.PartOfWire | lib/rts2/connection.cpp:1115-1228 | a beginning of the stream brings a beginning of every payload, and all of it the payload |
| FrameTransfer.ReceiveFrame | lib/rts2/connection.cpp:1115-1228 | end to end: whatever chunks the sender cuts a frame into, wherever the stream of bytes is cut and wherever the connection breaks, every channel holds a beginning of its payload and the client is told only of the whole; if the stream came before the break, the frame is complete |
| SharedSegments.HeldSegmentAdvances | include/data.h:336-350 | over every run in which a client holds a segment, scans of other clients interleaved segment by segment, its size and place stay and the end of its data never moves back |
| SharedSegments.WritesAddUp | include/data.h:336-350 | while it is held and not marked as complete, its data grow by exactly what is written to it |
| SharedSegments.EndCompletes | lib/rts2/data.cpp:235-241 | marked as complete, it has all its bytes and lacks none |
| SharedSegments.TopParts | include/data.h:258-261 | from the start of its area to the top are the bytes written, from there to the end those missing |
| SharedSegments.ClientStays | lib/rts2/data.cpp:36-54 | a client that is in a segment is there until it is removed from that segment, over every run, whoever else comes or is removed |
| SharedSegments.RemovalTakesOne | lib/rts2/data.cpp:36-54 | a removal takes one place of that client and none of any other |
| SharedSegments.AddTakesOne | lib/rts2/data.cpp:209-233 | when nobody comes in between, a segment is found exactly when one is free; it was held by nobody, and one less is free afterwards exactly when the client's number is positive |
| SharedSegments.ScanIsRun | lib/rts2/data.cpp:209-233 | the scan locks one segment after the other up to the first free one; undisturbed it takes that one |
| SharedSegments.ScanCanMiss | lib/rts2/data.cpp:209-233 | a concrete run with another client leaving in between: nothing is taken and a segment is free |
| SharedSegments.ScanFindsIff | lib/rts2/data.cpp:209-233 | whatever others do meanwhile, the scan finds the first segment that is free when its turn comes, and nothing exactly when each is held at its turn |
| SharedSegments.FreeIsFound | lib/rts2/data.cpp:209-233 | a segment that is free when its turn comes is found, unless one before it was |
| SharedSegments.ScanTakesFound | lib/rts2/data.cpp:209-233 | the looks with the runs of the others in between are a run, which ends in what the others left with the found segment taken |
| SharedSegments.BytesStayApartIff | lib/rts2/data.cpp:209-233 | no byte belongs to two segments that are held or lies behind the end of the memory exactly when the size asked for is at most the bytes up to the next held area, and none under an earlier one, or the client does not count as one |
| SharedSegments.NeverSharedIff | lib/rts2/data.cpp:209-233 | the same over every run, exactly when every size by which a client gets a segment is within the room of its time |
| SharedSegments.CapacityFits | lib/rts2/data.cpp:170-180 | sizes up to the one the memory was made for never share a byte, over every run |
| SharedSegments.TooLargeIsShared | lib/rts2/data.cpp:209-233 | a client gets a size of 15 in a slot of 10 and shares bytes with another client's segment |
| SharedData.Create | lib/rts2/data.cpp:141-190 | all segments free, empty, of the given size, with disjoint areas behind the headers |
| SharedData.SharedMemory.RemoveClient | lib/rts2/data.cpp:36-54 | the first place of the client becomes 0; every other place, the size, the bytes written, the offset and all other segments stay; fails exactly when the client is not there, and then changes nothing |
| SharedData.SharedMemory.ConfirmClient | lib/rts2/data.cpp:101-119 | succeeds exactly when the client is among those of the segment |
| SharedData.DataSharedWrite.AddClient | lib/rts2/data.cpp:209-233 | when nobody comes in between, gives the first free segment to the channel, emptied and of the size asked for, or nothing |
| SharedData.DataSharedWrite.DataWritten | include/data.h:337-337 | moves the end of the data of the channel's segment and changes nothing else |
| SharedData.DataSharedWrite.Copy | include/data.h:326-326 | a shallow copy maps the channels to the same segments |
| SharedData.DataSharedWrite.EndChannels | lib/rts2/data.cpp:235-241 | every channel's segment counts as completely written; the rest is zero at both ends |
| SharedData.DataSharedWrite.GetDataSize | lib/rts2/data.cpp:201-207 | the sum over the channels, in whatever order they are visited |
| SharedData.Perform | include/data.h:258-261 | after any in-range writes through any copies, the writers' rest equals the reader's, and the reader's top is its old top plus what was written |
| SharedData.StartSharedImage | lib/rts2/camd.cpp:281-328 | when no client comes or leaves meanwhile, every channel gets a segment or none does, and then every segment is held as before; with a positive client number it fails exactly when fewer segments are free than there are channels, with another when none is; two channels have different segments exactly when the number is positive |
| SharedData.AllReady | lib/rts2/camd.cpp:281-328 | then every channel has an empty segment of its size that the client holds |
| CountedPtr.Handle.Copy | include/counted_ptr.h:29-30 | one more owner of the same object |
| CountedPtr.Handle.Acquire | include/counted_ptr.h:72-76 | the counter again equals the number of live handles on it |
| CountedPtr.Handle.Release | include/counted_ptr.h:78-87 | the object is freed exactly when this was its last handle; other handles stay as they are |
| CountedPtr.Handle.Assign | include/counted_ptr.h:31-38 | letting go before taking is safe, also for self-assignment and for handles that share a counter; frees exactly an object that loses its last handle |
| CountedPtr.Handle.SetNull | include/counted_ptr.h:39-42 | the handle owns nothing and its object is freed exactly if it was the last |
| CountedPtr.Handle.Destroy | include/counted_ptr.h:27-28 | one handle less, freed exactly if it was the last |
| CountedPtr.Handle.Unique | include/counted_ptr.h:61-62 | true exactly when the handle is empty or nobody shares its object |
| CountedPtr.Handle.KeptAlive | include/counted_ptr.h:72-87 | an object that a live handle points to was not freed |
| CountedPtr.Do | include/counted_ptr.h:25-42 | each operation does to the handles what the reference does to the names: a copied or assigned handle shares the other's object, a new one has an object of its own, a nulled one none, and every other handle stays where it was; it frees, once, exactly the objects whose last name it takes |
| CountedPtr.LostStaysLost | include/counted_ptr.h:25-42 | an object that lost its last name never gets one again, over every program |
| CountedPtr.Execute | include/counted_ptr.h:25-42 | for every program, and so after every beginning of one: each object is counted once for every name the reference has on it and was freed exactly once if that is none, else never; as many objects were made as the program says |
| CountedPtr.AgreesIsExact | include/counted_ptr.h:72-87 | count and frees are those that the names on the object give |
| CameraStatistics.Camera.UpdateStatistics | include/camd.h:1130-1162 | adds the sum, the extremes and the histogram of a chunk to those before, with 32-bit counters that wrap around; a histogram that is too short is counted from zero |
| CameraStatistics.Camera.ReadOut | include/camd.h:1130-1162 | any split of a frame into chunks gives the sum, extremes and histogram of the whole frame |
| CameraStatistics.HistogramAgreesWithSum | include/camd.h:1144-1156 | from a zeroed histogram the counters add up to the number of pixels, and value times counter to the sum |
| CameraStatistics.ExtremesAreExtreme | include/camd.h:1148-1160 | the extremes bound every pixel and are reached |
| CameraStatistics.Camera.FindMode | lib/rts2/camd.cpp:1016-1026 | when the search ends, the mode has the highest counter, the lowest value among equals |
| CameraStatistics.SearchEndsIff | lib/rts2/camd.cpp:1019-1026 | the search ends exactly when the histogram has fewer entries than a 32-bit index has values |
| CameraCenter.UnbinnedStaysInFrame | include/camd.h:1167-1193 | with 1:1 binning every pixel that is read lies inside the frame whenever the guard accepts the box |
| CameraCenter.InFrameIffUnbinned | include/camd.h:1167-1220 | the guard keeps the walk inside the frame for every box exactly when there is no binning |
| CameraCenter.InFrameIffEndIs | include/camd.h:1193-1220 | for one box, the walk stays inside the frame exactly when its first pixel and its end do |
| CameraCenter.RectangleIff | include/camd.h:1167-1220 | for an accepted box, the visited pixels are those of the box, binned like the guard bins it, exactly when binning leaves its start where it is and it has one row or spans the frame |
| CameraCenter.BinnedRowIsMissed | include/camd.h:1188-1193 | a row of a binned frame that is accepted, and read from two rows further down |
| CameraCenter.UnbinnedIsAcceptedIff | include/camd.h:1167-1189 | without binning a box with pixels is accepted exactly when each of them is in the used window, and moved to where that begins |
| CameraCenter.NegativeIsWindow | include/camd.h:1167-1189 | a negative start is that of the window, a negative size what the window has left from the start |
| CameraCenter.BinnedIsAcceptedIff | include/camd.h:1174-1189 | with binning, exactly when the binned box, begun at the next binned pixel, ends inside the binned window |
| CameraCenter.DefaultIsWindow | include/camd.h:1167-1189 | a box of negative entries is the whole binned window |
| CameraCenter.KeptAreKept | include/camd.h:1206-1212 | the pixels that count are those from the cut level up, each as often as it was visited |
| CameraCenter.SumIsTotal | include/camd.h:1206-1219 | the sum is their plain sum and the counter their number |
| CameraCenter.ProjectionsAgree | include/camd.h:1197-1225 | row sums and column sums have the same total, the sum of the visited pixels from the cut level up |
| CameraCenter.CountIsNumber | include/camd.h:1208-1212 | the pixel counter is the number of visited pixels from the cut level up |
| CameraCenter.TopIsGreatest | include/camd.h:1213-1214 | the maximum is the greatest visited pixel or the cut level |
| CameraCenter.Camera.UpdateCenter | include/camd.h:1165-1250 | a refused box changes nothing; otherwise each row sum and each column sum is the plain sum of the pixels of that row or column from the cut level up, both have the same total, the average is that total by the number of those pixels, and the maximum is the greatest of them or the cut level |
| ValueFlags.DecodeEncode | include/value.h:125-289 | the fields packed into a word are read back |
| ValueFlags.EncodeDecode | include/value.h:125-289 | the fields leave no bit of the word out |
| ValueFlags.WordRefinesRecord | include/value.h:460-522 | every flag operation changes its own entries of the record and no other |
| ValueFlags.SetFlagsOnFields | include/value.h:480-480 | everything but the type comes from the argument; the type never changes |
| ValueFlags.SetValueFlagsOnFields | include/value.h:538-541 | constructor flags never touch the type, the dirty bits or the FITS, temporary and randevous fields; all other fields are added to |
| ValueFlags.MaskErrorOnField | include/value.h:526-526 | only the error field changes exactly when every other bit of the code is set already |
| ValueFlags.GroupRoundTrip | include/value.h:262-264 | a group number is read back exactly when the mask drops none of its bits |
| ValueFlags.GroupsCollide | include/value.h:262-264 | groups 0 and 16 have the same flags |
| ValueFlags.DirtyBitsAreSound | include/value.h:503-522 | over every run of setters and flag operations an unset dirty bit means that its observer holds the current value |
| ValueFlags.ReplaceIsSoundIff | include/value.h:480-480 | setFlags keeps that for all values exactly when it drops no dirty bit that is set |
| ValueFlags.NewsOnlyWhenDifferent | include/value.h:593-601 | setters raise the dirty bits exactly when one of them brings a value other than the first |
| Values.FirstFlagsOnFields | lib/rts2/value.cpp:41-48 | a new value has its type, no dirty bit, the FITS bit exactly if asked for, and of the settable bits those that were given |
| Values.RetypedFirstFlags | lib/rts2/value.cpp:501-504 | the type of a selection replaces that of an integer and nothing else |
| Values.ValueInteger.SetValueInteger | include/value.h:593-601 | marks a change exactly when the value differs |
| Values.ValueInteger.Inc | include/value.h:607-611 | returns the old value, marks a change |
| Values.ValueInteger.Dec | include/value.h:612-616 | returns the old value, marks a change |
| Values.ValueInteger.DoOpValue | lib/rts2/value.cpp:202-214 | sum or difference with the old value as one tracked assignment; other operators are refused and change nothing |
| Values.ValueAltAz.SetValueAltAz | include/value.h:1093-1122 | the two setters in a row are one tracked assignment of the pair |
| Values.ValueSelection.SetValueInteger | include/value.h:841-846 | an index outside the list is refused and changes nothing; one that is taken is in the list, and an index in the list stays in it |
| Values.ValueSelection.Clear | include/value.h:871-871 | empties the list and leaves the index, which then is of no entry |
| Values.ValueSelection.DuplicateSelVals | lib/rts2/value.cpp:617-627 | takes over the entries from an index on; the old index is in the list exactly if it is less than their number |
| Values.ValueSelection.GetSelIndex | lib/rts2/value.cpp:563-572 | the first place of the name, or -2 exactly when it is not in the list |
| Values.ValueSelection.SetSelIndex | include/value.h:848-855 | selects the first entry with the name; an unknown name changes nothing |
| Values.ValueSelection.DoOpValue | lib/rts2/value.cpp:547-561 | a sum is always an entry; a difference is lifted to the first number that is not negative and refused exactly when that is behind the list |
| Values.PlusAndMinus | lib/rts2/value.cpp:547-561 | within the list plus goes forward and minus back by the operand, around its ends |
| Values.MinusUndoesPlus | lib/rts2/value.cpp:547-561 | adding an operand of the list and subtracting it gives the selection back, and the other way round, in lists that an int can index |
| SampleWindows.KeepsTheMostRecent | include/valuestat.h:87-105 | for any limits the list is a suffix of everything ever added |
| SampleWindows.KeptIsTightest | include/valuestat.h:100-105 | its length is exactly the least that any limit on the way allows |
| SampleWindows.FixedWindow | include/valuestat.h:176-194 | with one limit it holds exactly the last samples up to that many |
| ValueStatistics.ValueDoubleStat.AddValueBounded | include/valuestat.h:100-105 | drops from the front until the new sample fits, and ends |
| ValueStatistics.ValueDoubleStat.Calculate | lib/rts2/valuestat.cpp:39-65 | computes mean, median, extremes, and the mean square distance from the value before |
| ValueStatistics.CalculatedDescribes | lib/rts2/valuestat.cpp:39-65 | mean, least and greatest are those of the list in any order, and the mode splits it into halves |
| ValueStatistics.FiguresAreKept | lib/rts2/valuestat.cpp:39-121 | over every run of adding and sending, the figures are the mean, the extremes and the middle of the list they were computed from |
| ValueStatistics.SpreadFrom | lib/rts2/valuestat.cpp:51-59 | the mean square distance from any value is the variance plus the square of its distance from the mean |
| ValueStatistics.DeviationIsRightIff | lib/rts2/valuestat.cpp:51-59 | the deviation is that of the list exactly when the value before was its mean, and otherwise too large |
| ValueStatistics.SecondTimeIsRight | lib/rts2/valuestat.cpp:39-65 | calculating twice makes it right |
| ValueStatistics.ValueDoubleStat.Send | lib/rts2/valuestat.cpp:116-121 | when the number of samples differs from the one the figures are of, mean, extremes, middle and number become those of the list; otherwise nothing changes |
| ValueStatistics.FullWindowIsNeverComputedAgain | lib/rts2/valuestat.cpp:116-121 | once a bounded list is full and computed, no sending ever changes the figures again |
| ValueStatistics.UnboundedIsFresh | lib/rts2/valuestat.cpp:116-121 | without a limit every sending is of the whole list |
| TimeSeries.ValueDoubleTimeserie.AddValueBounded | include/valuestat.h:189-194 | drops from the front until the new sample fits, and ends |
| TimeSeries.ValueDoubleTimeserie.Calculate | lib/rts2/valuestat.cpp:150-201 | computes mean, least, greatest, median, variance, slope and height of the list, whatever its order |
| TimeSeries.LeastSquares | lib/rts2/valuestat.cpp:177-192 | the line through the mean point with that slope misses the samples least, and no other line as little |
| TimeSeries.NoSlopeIff | lib/rts2/valuestat.cpp:192-192 | there is no slope exactly when all samples have one time |
| TimeSeries.HeightIsBestIff | lib/rts2/valuestat.cpp:193-194 | read as the height at the mean time, the line with the reported height misses the samples as little as any line exactly when its slope is zero |
| TimeSeries.HeightAtIsBestIff | lib/rts2/valuestat.cpp:193-194 | read as the height at any time, zero included, exactly when the slope is zero or that time is before the mean time by the mean of the products of centred times and values |
| PointingTerms.TPointModelTerm.Reverse | include/tpointmodelterm.h:54-62 | subtracts the shift of the position it started from |
| PointingTerms.TPointModel.constructor | include/telmodel.h:60-64 | the model keeps the latitude twice, in degrees and in radians |
| PointingTerms.InversionBound | include/tpointmodelterm.h:53-62 | reversing after applying, and applying after reversing, miss by at most the Lipschitz constant times the shift, in any norm |
| PointingTerms.BoundIsReached | lib/rts2tel/tpointmodelterm.cpp:104-107 | term PHH reaches the bound everywhere |
| PointingTerms.ScaleTermsAreLipschitz | lib/rts2tel/tpointmodelterm.cpp:104-113 | PHH and PDD have the constant of their coefficient in radians per degree, in the larger-coordinate norm |
| PointingTerms.ScaleTermsInvert | lib/rts2tel/tpointmodelterm.cpp:104-113 | so each of them, applied and reversed in either order, misses by at most that constant times its shift |
| PointingTerms.ScaleTermsStretch | lib/rts2tel/tpointmodelterm.cpp:104-113 | PHH and PDD stretch one coordinate and leave the other |
| PointingTerms.IndexTermsAreConstant | lib/rts2tel/tpointmodelterm.cpp:72-83 | IH and ID add their coefficient to one coordinate, at every position alike |
| PointingTerms.TPointModel.Apply | lib/rts2tel/tpointmodel.cpp:44-51 | applies the terms one after the other, at the latitude in degrees |
| PointingTerms.TPointModel.Reverse | lib/rts2tel/tpointmodel.cpp:69-84 | reverses the terms in the same order, at the latitude in radians |
| PointingTerms.InOneOrder | lib/rts2tel/tpointmodel.cpp:44-84 | applying and reversing a list of terms both begin with the same end of it |
| PointingTerms.ModelInversionBound | lib/rts2tel/tpointmodel.cpp:44-84 | applying a model at one latitude and reversing it at another misses by at most the sum of the constants times the length of the way there and back, and what the terms differ between the latitudes along it |
| PointingTerms.DriftIsReached | lib/rts2tel/tpointmodel.cpp:44-84 | a term that shifts by the latitude misses by the difference, so the bound with it cannot be improved |
| PointingTerms.LatitudeFreeBound | lib/rts2tel/tpointmodel.cpp:44-84 | without the difference for models whose terms do not look at the latitude |
| PointingTerms.BoundNeedsOneLatitude | lib/rts2tel/tpointmodel.cpp:44-84 | for all models, positions and constants without the difference, exactly when both ways see the same latitude |
| PointingTerms.DegreesAndRadians | include/telmodel.h:60-64 | with a latitude in degrees for one way and in radians for the other that is the case exactly for the latitude zero, or if a degree was a radian |
| PointingTerms.PoleFails | lib/rts2tel/tpointmodelterm.cpp:171-179 | term DAF at a latitude whose cosine is zero for one way and not for the other, between the origin and where it moves that: all that the bound asks for is met with a constant, and the bound without the difference holds exactly when that constant is at least one |
| PointingTerms.ConstantsMiss | lib/rts2tel/tpointmodel.cpp:44-84 | constant terms applied and then reversed in any order miss, everywhere, by what their sums at the two latitudes differ |
| PointingTerms.ConstantsCancelIff | lib/rts2tel/tpointmodel.cpp:44-84 | they are the identity exactly when the sums are the same |
| PointingTerms.IndexTermsCancel | lib/rts2tel/tpointmodelterm.cpp:72-83 | any number of terms IH and ID are, at any two latitudes |
| HarmonicTerms.ReadMultiplier | lib/rts2tel/tpointmodelterm.cpp:217-227 | reads all digits and no more; none, and zero, mean one |
| HarmonicTerms.ParsedIsDecimalIff | lib/rts2tel/tpointmodelterm.cpp:217-223 | the number read is the number written exactly when it has at most two digits or only zeros before the last |
| HarmonicTerms.OneHundred | lib/rts2tel/tpointmodelterm.cpp:217-223 | 100 is read as 1000 |
| HarmonicTerms.FourDigits | lib/rts2tel/tpointmodelterm.cpp:217-223 | what two, three and four digits are read as: the third multiplies what was read before by 100, and the fourth by 1000 |
| StringTokens.Stringtok | include/strtok.h:76-102 | the loop ends and appends exactly the tokens of the string |
| StringTokens.SpansAreMaximalRuns | include/strtok.h:76-102 | the tokens are the maximal separator-free runs: all of them and nothing else |
| StringTokens.SpansAreOrdered | include/strtok.h:76-102 | they are in order and apart |
| StringTokens.TokensAreSpans | include/strtok.h:76-102 | each token is the text of its run |
| StringTokens.TokensKeepTheRest | include/strtok.h:76-102 | the tokens one after the other are the input without its separators |
| StringTokens.JoinRoundTrip | include/strtok.h:61-102 | words joined by separators are given back |
| ImageTiles.TileFlt | checks/check_sep.cpp:260-280 | output pixel (r, c) is input pixel (r mod ny, c mod nx), for all of them |
| ImageTiles.TilingComposes | checks/check_sep.cpp:260-280 | tiling by (a, b) and then by (c, d) is tiling by (a c, b d) |
| ImageTiles.TilingOnce | checks/check_sep.cpp:260-280 | tiling by (1, 1) gives the image back |
| ImageTiles.AddBox | checks/check_sep.cpp:130-152 | adds the value to the pixels of the square that are inside the image, once, and to no other |
| FlatExposure.ChooseIsNearest | scripts/expose.py:36-51 | the chosen exposure is on the grid, none is nearer to the requested time and none that is shorter is as near |
| FlatExposure.FlatScript.OptimalExpTime | scripts/expose.py:36-51 | the scan returns that exposure for every positive ratio |
| FlatExposure.FlatScript.Execute | scripts/expose.py:56-86 | below the bias the next exposure is the shortest, between 3200 and 4600 it stays, and otherwise it is the nearest on the grid to the one that would have brought the optimal level; the brightness follows the same bounds |
| FlatExposure.ExposureFollows | scripts/expose.py:56-86 | the same of the exposures that the lemmas below are about |
| FlatExposure.FlatScript.Run | scripts/expose.py:93-106 | takes flats until the target changes; the exposure follows the levels and is on the grid |
| FlatExposure.StaysOnGrid | scripts/expose.py:56-106 | for any levels the exposure stays on the grid |
| FlatExposure.ConstantSkySettles | scripts/expose.py:56-106 | under a constant sky the first flat settles the exposure: it stays exactly when that flat was within the range, and is else the nearest to the optimal one |

## Left out

- Sockets, poll, signals, semaphores and shared-memory calls: their results are parameters, and an operation under a semaphore is one step. Failures of the semaphore calls are not modelled.
- Protocol lines other than the data header: they leave the frame alone, whatever else they do, and a line for which the code closes the connection is not modelled. There is one data connection to a link, and the growth of the command buffer is not modelled.
- DataStream.Connection.Receive: asks for a stream in which a chunk is announced between chunks and for no more than the channel misses. The code does not look, and `DataChannels.CopyStaysInsideIff` says that the buffers are kept exactly then.
- DataChannels.DataRead.AddData: asks that the copy ends inside the buffer, which `DataChannels.StaysInsideIff` puts in terms of the announced number and the data at hand; behind it nothing is defined.
- DataStream.Connection.ReceiveData: what the program does after the lookup that finds nothing is not defined; the model ends there.
- DataStream.Connection.ProcessBuffer: text has no NUL byte. What stands behind one in a read is overwritten by the next read, so it would depend on where the stream is cut.
- DataStream.Connection.ProcessLine: asks for headers within what the channel misses, like the reception as a whole.
- HeaderLines.TextIsRead: numbers are unbounded; `strtol` would cut off what does not fit a long.
- DataTransfer.EveryTransferEnds: bounds the number of actions, not the time between them; how the system schedules sender and receiver is not modelled. Chunks of no bytes, which could be announced for ever, are not counted.
- DataTransfer.Conservation: the sender writes no more than a channel has left; what `sendBinaryData` does when it is asked for more is in `BinarySend.EndsIff`. Its EINTR branch repeats a write.
- SharedSegments.HeldSegmentAdvances: what is done to one segment under its semaphore is one step; places of clients are numbers; processes that end without removing themselves are not modelled.
- SharedData.DataSharedWrite.AddClient: one step, so it is the scan that nobody disturbs; for the disturbed one see `SharedSegments.ScanFindsIff`.
- SharedData.StartSharedImage: no client comes or leaves while the channels are handed out.
- CountedPtr.Handle.constructor: asks for an object that no handle has taken over. The C++ constructor takes any raw pointer; two handles made from one have two counters, and free the object twice.
- The member-template constructors of `counted_ptr` and destructors of objects that hold handles themselves; the 32-bit count, which only 2^32 live handles would wrap.
- CameraStatistics.Camera.UpdateStatistics: unsigned pixel types only; a signed pixel can index outside the histogram, and a floating-point pixel is truncated to its index. The pixel counter is unbounded.
- CameraStatistics.Camera.FindMode: asks for a histogram that the search comes to the end of, see `CameraStatistics.SearchEndsIff`.
- CameraCenter.Camera.UpdateCenter: asks that the buffer holds the pixels that are visited and that the width is not negative, since the code does not look at the size of its data; the median index, the lists of past maxima and averages and the sending of values are left out. The cut level is a number.
- Arithmetic of C integers and of floating point: `int` values and `size_t` counters are unbounded except where a lemma is about their bits, real numbers have no rounding, and NaN appears only as a missing value.
- Values.ValueInteger.SetValueInteger: the same code in `ValueLong` is not repeated, nor is overflow of `int`.
- Values.ValueSelection.DoOpValue: without entries the code divides by zero for a sum and lifts a negative difference for ever; those two cases are excluded. Overflow of the `int` sum and difference is not modelled.
- ValueStatistics.ValueDoubleStat.Calculate: `std::sort` is a parameter, any sorted permutation of the list; the square root of the variance is left out.
- TimeSeries.ValueDoubleTimeserie.AddValueBounded: a limit of zero, with which the code removes from an empty list; that has no defined result.
- TimeSeries.ValueDoubleTimeserie.Calculate: `std::sort` is a parameter, as in the other class.
- PointingTerms.ScaleTermsAreLipschitz: only the terms without trigonometric functions; for the others the constant is a parameter, on any set of positions.
- HarmonicTerms.ReadMultiplier: the function letters around the digits and the overflow of the multiplier.
- FlatExposure.FlatScript.Run: what the filter, binning and shutter commands do; the documented return value of `execute` does not exist in the code, and the brightness it logs is returned instead.
- Loading and printing of pointing models, expression and configuration parsing, horizon interpolation, device drivers, user interfaces and plots.
