# A verified model of the BBS's SSH-1 daemon and its in-place algorithms

The repository is a bulletin board system with an embedded SSH protocol 1 daemon. This Dafny project models the layers of
the daemon where correctness depends on more than one function at a time, and the board's trickier in-place algorithms,
and proves what they are for.

* **Channels** (`sshbbsd/nchan.c`, `sshbbsd/channels.c`). `Channels` gives the effect of every operation on one slot,
  for both tear-down protocols (`compat13` selects protocol 1.3). `ChannelTable` is the table as the program keeps it,
  a class whose methods change one slot at a time and are proved to have exactly those effects. `ChannelRuns` joins
  two tables by two FIFO streams into a state machine: opening, refusing, reading, writing, failing, draining,
  closing, freeing and reallocating, in any order. `Connection` holds the invariant of one logical connection,
  `ChannelSafety` ties it to the shared tables and streams, `ChannelTheorems` and `ChannelProgress` state the results
  about all runs, `ChannelLoss` says what protocol 1.3 throws away and when, `ChannelLiveness` that connections do not
  get stuck, `ChannelFaults` which mistakes are noticed, `ChannelSweeps` shows that from any state of a run the whole
  sweeps of the select loop go on with the run, slot by slot, `ChannelDriver` drives two tables against each other
  through any rounds of their loops and shows that they go through a run, and `ChannelWire` shows that the packet
  layer provides the FIFO streams.
* **Packets** (`sshbbsd/packet.c`, `buffer.c`, `bufaux.c`, `crc32.c`, `cipher.c`). `Buffer` refines a byte queue,
  `Bufaux` stores and retrieves values in it, `Crc32` proves the table-driven checksum equal to the shift register,
  `Cipher` proves the chained ciphers inverse and in step, and `Packet` proves printer and incremental parser inverse
  under every way of cutting up the stream. `PacketStops` says where a stream stops. `PacketRuns` drives the
  operations through whole streams.
* **Attack detector** (`sshbbsd/deattack.c`): `Deattack`.
* **Streaming MD5** (`lib/libSystem/crypt.c`): `Md5`, against sections 3.1 to 3.5 of RFC 1321.
* **Record files** (`src/record.c`): `Record`.
* **Searching, matching, escaping** (`lib/libSystem/string.c`, `sshbbsd/match.c`, `lib/libZModem/zmio.c`): `Strcasestr`,
  `Match`, `Telnet`.

`dafny verify dfyconfig.toml` checks the whole project.

## How the model reads the code

* A socket is what it gives and takes: `Read` and `Write` carry the bytes, an empty read is end of file or an error, a write
  of nothing is a failure. A logical connection has a number, `conn`, carried by slots and packets in the model only; no
  operation branches on it. All opens are permitted.
* `fatal`, `packet_disconnect` and the logged "protocol error" and "internal error" branches are recorded as a fault; that a
  run has no fault is the theorem.
* DES and Blowfish are arbitrary block permutations, MD5's compression function is an arbitrary function, a BIGNUM is a
  natural number, a mapped file is an array, random padding is a parameter.
* The comments of `packet.c` say that padding is random once a cipher is set, but `cipher_type`, which decides it, is never
  set after `packet_set_connection`; the model keeps the field and both branches, and the theorems hold for any padding.
* A packet of type 0 is returned as `SSH_MSG_NONE`; the model's parser tells the two apart, a caller of the program cannot.

## Where the code falls short of its purpose

* `match_pattern` decides the language of its pattern exactly when the pattern does not end in two asterisks
  (`Match.DecidesTheLanguage`): `a**` does not match `a`.
* The longest packet that the length check admits is refused by the attack detector when a cipher is on
  (`Packet.LongestPacketIsRefused`).
* With a maximum packet size above 524263 bytes, which `packet_set_maxsize` accepts, a channel can send a data packet that
  the peer's length check rejects (`ChannelWire.ChunksFit`).
* A string longer than 256 KiB or a number of 65536 bits or more is stored but cannot be retrieved
  (`Bufaux.StringRoundTrip`, `Bufaux.BignumRoundTrip`).
* Telnet unescaping looks at one read at a time, and is right exactly when no read cuts an escape in two
  (`Telnet.AnyReads`).
* `safe_substitute_record` in sorted mode reports that there is no match only when some record is later than the one sought
  (`Record.SubstituteSorted`). Its two modes choose the same record exactly when the entry given bears the key or at most
  one record before it does (`Record.SameTarget`), and leave the same file exactly then or when both records they choose
  are already what is put there (`Record.ModesAgreeExactly`).
* Under protocol 1.3 a side whose socket comes to the end of its input drops what it has not written and all that still
  arrives, and no write fails: everything gets through exactly when nothing was left to write and no data came after
  (`ChannelLoss.DeliveryDecided13`; `ChannelLoss.ByteIsLost` is a run that loses a byte).
* The size of the attack detector's table is kept in sixteen bits and comes to zero exactly when more than 16384 cells are
  needed, that is for packets of more than 10923 blocks (87384 bytes), which the length checks admit
  (`Deattack.TableSizeWraps`). From a size of zero the growing loop of the next call never ends
  (`Deattack.GrowingEnds`).
* The OCLOSE of protocol 1.5 is the one channel packet whose slot is not checked to be in use: one for a slot that was
  never used passes unnoticed, and IEOF is sent to no one (`ChannelFaults.StrayOclose`).
* The message that announces an accepted connection takes host and port from the listener's slot through a pointer that
  was taken before `channel_allocate` (channels.c:384, 429-434); when that makes the table grow, the pointer may be
  left behind in freed memory. The model has no host and port there.

## Model

| member | source | states |
|---|---|---|
| ChannelTheorems.SlotReuseIsSafe | sshbbsd/nchan.c:50-232 | in every run of two endpoints, under either tear-down protocol, with opens, refusals, failures, closes and slots reused in any order, no protocol error, internal error, disconnect or cannot-happen is ever reported, and every packet about to be processed names a slot occupied by the connection it was sent for, in a state that expects it |
| ChannelTheorems.TeardownIsOrderly | sshbbsd/nchan.c:94-205 | over whole runs each side of each connection sends at most one IEOF, at most one OCLOSE, and no data after its IEOF |
| ChannelTheorems.DataArrives | sshbbsd/channels.c:472-616 | in every reachable state the bytes written to a socket are a prefix of those read from the peer's; under protocol 1.5, once a side has sent its OCLOSE, they are all of them if and only if none of its writes failed |
| ChannelLoss.DeliveryDecided13 | sshbbsd/channels.c:474-516 | under protocol 1.3, for every side of every connection in every run, once it has processed its peer's CLOSE and has nothing left to write: if its own input never ended, the bytes written are all that the peer read if and only if none of its writes failed; if it ended, if and only if nothing was left to write then and no data came after |
| ChannelLoss.DataAfterEnd13 | sshbbsd/channels.c:474-485 | under protocol 1.3, from the moment a socket comes to the end of its input, in every later state all that its peer has read or will read has been written if and only if it had all been processed and written by then; none of its writes has failed |
| ChannelLoss.ByteIsLost | sshbbsd/channels.c:474-481 | the loss happens: a run of eleven steps in which a byte arrives, the input ends before it is written, and both sides tear down and free their slots without a failed write or a fault; however the run goes on the byte is never written |
| ChannelTheorems.DataArrives13 | sshbbsd/channels.c:474-516 | the part of `ChannelLoss.DeliveryDecided13` for a side whose own input has not ended: all that the peer read is written if and only if none of its writes failed |
| ChannelTheorems.OutputClosedMeansOclose | sshbbsd/nchan.c:114-169 | an occupied slot whose output half is closed belongs to a side that has sent exactly one OCLOSE, so `DataArrives` applies to it |
| ChannelProgress.TeardownProgresses | sshbbsd/nchan.c:50-169 | under either protocol, once both sides of a connection have stopped reading, a natural-number weight over states, buffered bytes and packets in flight drops at every step on the connection and is unchanged by every other step, and the connection stays closing |
| ChannelProgress.QuiescentMeansFree | sshbbsd/nchan.c:226-232 | under either protocol, when nothing of a connection is in flight and no step on it is enabled, both of its sides having stopped reading, neither endpoint has a slot for it, however busy other connections are: both were freed |
| ChannelLiveness.NeverStuck | sshbbsd/channels.c:206-577 | under either protocol, a connection never gets stuck: in every run, when nothing of it is in flight and nothing but reads can be done on it, each slot that still serves it is open, and can be read, whatever the socket gives, if and only if its socket has not ended and no OCLOSE has come for it |
| ChannelLiveness.StillMeansDelivered | sshbbsd/channels.c:206-616 | and then each side has written all that its peer read if and only if none of its writes failed, under 1.3 for a side whose own input has not ended; the connection need not be closing |
| ChannelLiveness.SelectedExactly | sshbbsd/channels.c:217-267 | in every state of every run select is asked to read exactly the open slots with room whose socket has not ended and for which no OCLOSE has come, and to write exactly the slots that hold something |
| ChannelLiveness.QuiescentMeansDelivered | sshbbsd/nchan.c:50-232 | the case of `StillMeansDelivered` in which nothing at all can be done: a connection both of whose sides are at rest is delivered |
| ChannelTheorems.RunDescribed | sshbbsd/channels.c:127-199 | every state of every run is described by connections each of which satisfies the per-connection invariant, tables, streams and sockets being shared |
| ChannelSafety.Step | sshbbsd/channels.c:374-750 | every enabled action on the shared tables and streams is a step of at most one connection in isolation and leaves every connection in order |
| ChannelSafety.ArrivalIsExpected | sshbbsd/channels.c:586-750 | in a described state the next packet names the slot its connection occupies, and processing it keeps that connection's invariant without a fault |
| Connection.GoneHasHeardAll | sshbbsd/nchan.c:226-232 | the argument behind freeing: a side that has freed its slot has already processed everything its peer ever sent it |
| Connection.PrepareIsOk | sshbbsd/channels.c:217-267 | preparing a slot for select (including OCLOSE on an empty output and the 1.3 draining states) keeps the connection's invariant and reports no fault |
| Connection.ReadIsOk | sshbbsd/channels.c:472-485 | reading from a selected socket, or failing to, keeps the invariant and reports no fault |
| Connection.WriteIsOk | sshbbsd/channels.c:487-515 | writing part of the output to a selected socket, or failing to, keeps the invariant and reports no fault |
| Connection.PollIsOk | sshbbsd/channels.c:535-577 | sending buffered data or, when there is none left to come, IEOF keeps the invariant and reports no fault |
| Connection.ArrivalIsOk | sshbbsd/channels.c:586-750 | the next packet of a connection finds its slot in a state that expects it, and processing it keeps the invariant and reports no fault |
| Connection.AnsweredIsOk | sshbbsd/channels.c:1039-1155 | accepting or refusing an open request keeps the invariant |
| ChannelSweeps.PrepareIsAStep | sshbbsd/channels.c:207-366 | what the prepare sweep does to a slot is one enabled step of the state machine, or nothing |
| ChannelSweeps.PollIsAStep | sshbbsd/channels.c:529-577 | what the poll sweep does to a slot, with the chunk size it uses, is one enabled step of the state machine whenever any poll of the slot is enabled, and otherwise nothing |
| ChannelSweeps.AfterSelectIsSteps | sshbbsd/channels.c:461-516 | what the sweep after select does to a slot is a read step and then a write step, each enabled when it is taken, the write being skipped when the read ended the input |
| ChannelSweeps.PrepareSweepRuns | sshbbsd/channels.c:206-366 | from any state of any run the whole prepare sweep extends the run slot by slot: the table, the packets in slot order and the absence of faults are those of the sweep |
| ChannelSweeps.AfterSweepRuns | sshbbsd/channels.c:373-524 | from any state of any run the whole sweep after select, for anything select may report, extends the run slot by slot: reads, writes and connections accepted by listeners, the table growing under the loop |
| ChannelSweeps.PollSweepRuns | sshbbsd/channels.c:528-577 | from any state of any run the whole output poll extends the run slot by slot |
| ChannelSweeps.AfterStepRuns | sshbbsd/channels.c:383-516 | the loop body after select is at most two steps of a run, whatever the slot |
| ChannelSweeps.SocketsServed | sshbbsd/channels.c:373-516 | after the sweep every socket of a slot in use has given and taken exactly what it was reported to, and nothing before its turn |
| ChannelSweeps.EveryKnockIsAnswered | sshbbsd/channels.c:386-437 | the sweep opens exactly one connection for every listener that is ready |
| ChannelDriver.Drive | sshbbsd/channels.c:206-750 | two tables driven against each other through any rounds (listening, select with anything sockets may do, polling, processing packets) end as the rounds say, what their sockets gave and took included, and have gone through a run of the state machine: so no fault is ever reported, every theorem about runs holds of them, and what each socket took is a prefix of what the peer's gave, under 1.5 after OCLOSE all of it exactly when no write failed |
| ChannelDriver.Prepare | sshbbsd/channels.c:206-366 | the prepare sweep goes on with the run; the masks ask to read exactly the listeners and the slots that may read on, and to write exactly the slots that hold something; and nothing is left to prepare |
| ChannelDriver.Select | sshbbsd/channels.c:206-524 | one round of select extends the run; every socket whose slot may read on has given exactly what it offered, every slot that holds something has written what its socket would take unless the socket turned out to be at its end, nothing else was read or written, and every ready listener has opened a connection |
| ChannelDriver.Poll | sshbbsd/channels.c:528-577 | one output poll extends the run, and every slot from which data may be sent has got rid of all of it, of 512 bytes or of half a packet, or, if it has nothing more to send, has sent IEOF |
| ChannelDriver.Process | sshbbsd/serverloop.c:119-150 | the dispatcher gives the next packet to its routine, and the table goes on with the run |
| ChannelDriver.PreparingKeepsSelection | sshbbsd/channels.c:206-366 | a slot that is selected is still selected after it has been prepared, although preparing may have closed its output |
| ChannelSweeps.NeverDraining | sshbbsd/channels.c:246-267 | under protocol 1.5 no run reaches the draining states on which the sweeps would end the program |
| ChannelWire.MessageRoundTrip | sshbbsd/channels.c:560-566 | every channel packet comes back from its message as it was sent, for all ids, data and destinations the formats can carry |
| ChannelWire.Layout | sshbbsd/channels.c:431-436 | every packet has its own message type (21 to 25 and 29) and starts with a big-endian channel number; data follows behind its length, a confirmation gives its sender's number, a request host and port |
| ChannelWire.ChannelStreamArrives | sshbbsd/packet.c:504-608 | the packet layer provides the FIFO streams of the channel protocol: the channel packets one end sends are read by the other in order, none lost or made up, however the bytes are cut up |
| ChannelWire.DataLength | sshbbsd/channels.c:562-565 | a data packet needs thirteen bytes beyond its data |
| ChannelWire.ChunksFit | sshbbsd/channels.c:551-566 | the chunks that are sent always fit the packet length limit if and only if half the maximum packet size plus thirteen does |
| ChannelTable.ChannelTable.ChanSendIeof | sshbbsd/nchan.c:174-188 | sends IEOF only from OPEN or WAIT_DRAIN and otherwise reports an internal error; table, packets and fault are as specified and nothing else changes |
| ChannelTable.ChannelTable.ChanSendOclose | sshbbsd/nchan.c:189-205 | empties the output and sends OCLOSE only from OPEN or WAIT_DRAIN, otherwise an internal error |
| ChannelTable.ChannelTable.ChanDeleteIfFullClosed | sshbbsd/nchan.c:225-232 | frees the slot exactly when both halves are closed |
| ChannelTable.ChannelTable.ChanRcvdOclose | sshbbsd/nchan.c:51-77 | an arriving OCLOSE closes the input half, answering with IEOF if none was sent, and frees a full-closed slot; in CLOSED it is a protocol error |
| ChannelTable.ChannelTable.ChanReadFailed | sshbbsd/nchan.c:78-92 | a failed read moves the input half from OPEN to WAIT_DRAIN and is an internal error elsewhere |
| ChannelTable.ChannelTable.ChanIbufEmpty | sshbbsd/nchan.c:93-110 | a drained input sends IEOF and waits for OCLOSE; a non-empty buffer or another state is an internal error |
| ChannelTable.ChannelTable.ChanRcvdIeof | sshbbsd/nchan.c:113-130 | an arriving IEOF starts draining the output, or closes it after a failed write and frees a full-closed slot; elsewhere it is a protocol error |
| ChannelTable.ChannelTable.ChanWriteFailed | sshbbsd/nchan.c:131-150 | a failed write sends OCLOSE and waits for IEOF, or closes a draining output and frees a full-closed slot; elsewhere it is an internal error |
| ChannelTable.ChannelTable.ChanObufEmpty | sshbbsd/nchan.c:151-169 | a drained output sends OCLOSE, closes and frees a full-closed slot; a non-empty buffer or another state is an internal error |
| ChannelTable.ChannelTable.ChannelFree | sshbbsd/channels.c:182-199 | frees a slot once, emptying its buffers; freeing a free slot or one outside the table disconnects |
| ChannelTable.ChannelTable.ChannelAllocate | sshbbsd/channels.c:127-178 | takes the lowest free slot of the table, growing a full one by ten, and touches no other slot |
| ChannelFaults.AllocationLaw | sshbbsd/channels.c:127-178 | what a table is after an allocation, slot by slot: the lowest free slot is taken, only a table without one grows, by ten blank slots, and every other slot is as it was |
| ChannelFaults.RepeatsAreNoticed | sshbbsd/nchan.c:51-169 | a second event of the same kind on a slot is always a protocol error of the peer or an internal error, whatever the first found |
| ChannelFaults.ComplainingDoesNothing | sshbbsd/nchan.c:51-205 | an event that complains about the state it finds leaves the slot as it was and sends nothing |
| ChannelFaults.NothingIsSentTwice | sshbbsd/nchan.c:51-205 | once IEOF or OCLOSE has gone out for a slot no event of that half sends another packet |
| ChannelFaults.ThrownAway | sshbbsd/channels.c:182-199 | what will not be sent or written any more is thrown away: the buffers of a freed slot, the input of one whose peer has closed under 1.3, the output of one that is at its end under 1.3 or sends OCLOSE |
| ChannelFaults.LateDataIsDropped | sshbbsd/channels.c:586-616 | data that comes after IEOF or after a failed write is dropped |
| ChannelFaults.StraysDisconnect | sshbbsd/channels.c:586-750 | a packet for a slot not in use, or an answer to a request that is not waiting, disconnects and changes nothing, but for the OCLOSE of protocol 1.5 |
| ChannelFaults.StrayOclose | sshbbsd/channels.c:688-706 | a stray OCLOSE under protocol 1.5 passes unnoticed if and only if neither half of the free slot is closed, and IEOF goes out for it unless it has |
| ChannelTable.ChannelTable.PrepareSlot | sshbbsd/channels.c:217-267 | reports for select exactly the sockets that are to be read and written, listeners included, and has the slot effects of the loop body |
| ChannelTable.ChannelTable.ChannelPrepareSelect | sshbbsd/channels.c:206-366 | the whole sweep: every slot has its own effect, packets go out in slot order, and the masks hold exactly the selected sockets |
| ChannelTable.ChannelTable.AfterSlot | sshbbsd/channels.c:461-516 | the loop body after select on one slot, for whatever the sockets did |
| ChannelTable.ChannelTable.ChannelAfterSelect | sshbbsd/channels.c:373-524 | the whole sweep after select: slot by slot in order, listeners accepting connections into slots that the loop passes over, the table growing under the loop |
| ChannelTable.ChannelTable.AcceptConnection | sshbbsd/channels.c:419-437 | an accepted connection takes the lowest free slot and is announced to the peer by its number |
| ChannelTable.ChannelTable.AfterAt | sshbbsd/channels.c:386-516 | the loop body with the listeners: a ready listener accepts, any other slot is read and written |
| ChannelTable.ChannelTable.ChannelInput | sshbbsd/serverloop.c:119-150 | each packet goes to the routine for its type |
| ChannelTable.ChannelTable.ChannelListen | sshbbsd/channels.c:910-963 | a listening socket takes the lowest free slot |
| ChannelTable.ChannelTable.PollSlot | sshbbsd/channels.c:535-576 | sends one chunk of an eligible slot or announces the end of its input |
| ChannelTable.ChannelTable.ChannelOutputPoll | sshbbsd/channels.c:528-577 | the whole output poll, slot by slot in order |
| ChannelTable.ChannelTable.ChannelInputData | sshbbsd/channels.c:585-616 | data goes to the output of an open slot, is dropped by one that takes none any more, and disconnects for a free or nonexistent one |
| ChannelTable.ChannelTable.ChannelInputClose | sshbbsd/channels.c:643-684 | IEOF under 1.5; under 1.3 a confirmation is sent and the slot drains unless it is closed; free or nonexistent disconnects |
| ChannelTable.ChannelTable.ChannelInputCloseConfirmation | sshbbsd/channels.c:688-710 | OCLOSE under 1.5; under 1.3 a closed slot is freed and any other disconnects |
| ChannelTable.ChannelTable.ChannelInputOpenConfirmation | sshbbsd/channels.c:714-732 | an opening slot learns its peer's id and opens; any other disconnects |
| ChannelTable.ChannelTable.ChannelInputOpenFailure | sshbbsd/channels.c:736-750 | an opening slot is freed; any other disconnects |
| ChannelTable.ChannelTable.ChannelInputPortOpen | sshbbsd/channels.c:1131-1155 | with a connection, an open slot is allocated and confirmed by its number; without one, failure is reported and the table is unchanged |
| Buffer.Buffer.AppendSpace | sshbbsd/buffer.c:71-101 | room is made without changing the contents, whatever mixture of compacting and growing that takes, and the restart loop ends |
| Buffer.Buffer.Compact | sshbbsd/buffer.c:90-96 | compaction keeps the contents, and its source and target never overlap |
| Buffer.Buffer.Grow | sshbbsd/buffer.c:97-100 | growth keeps the contents |
| Buffer.Buffer.Append | sshbbsd/buffer.c:57-63 | the queue becomes the old queue followed by the data |
| Buffer.Buffer.Get | sshbbsd/buffer.c:113-120 | takes exactly the first bytes, or fails and leaves the queue alone when there are too few |
| Buffer.Buffer.Consume | sshbbsd/buffer.c:124-130 | drops exactly the first bytes, or fails |
| Buffer.Buffer.ConsumeEnd | sshbbsd/buffer.c:134-140 | drops exactly the last bytes, or fails |
| Buffer.Buffer.Clear | sshbbsd/buffer.c:48-53 | empties the queue |
| Buffer.Buffer.Len | sshbbsd/buffer.c:105-109 | the number of bytes queued |
| Buffer.Buffer.Peek | sshbbsd/buffer.c:144-148 | any stretch of the queued bytes, read through a pointer into the buffer |
| Buffer.Buffer.constructor | sshbbsd/buffer.c:25-32 | a new buffer is empty |
| Buffer.Perform | sshbbsd/buffer.c:25-148 | any run of operations on a buffer hands out, and leaves, what the same run on a plain byte queue does |
| Bufaux.IntRoundTrip | sshbbsd/bufaux.c:88-108 | every 32-bit integer comes back, with the rest of the queue |
| Bufaux.StringRoundTrip | sshbbsd/bufaux.c:115-145 | a string comes back, with the rest of the queue, exactly when it is at most 256 KiB long; a longer one is fatal |
| Bufaux.BignumRoundTrip | sshbbsd/bufaux.c:37-83 | a number comes back, with the rest of the queue, if and only if its bit count fits the two-byte field |
| Bufaux.ByteCount | sshbbsd/bufaux.c:40-48 | the number of bytes computed from the bit count is the number of bytes of the number, so the check after the conversion cannot fail |
| Bufaux.ValueOfBytes | sshbbsd/bufaux.c:37-83 | reading the big-endian bytes of a number gives the number |
| Bufaux.BitsBound | sshbbsd/bufaux.c:40-48 | the bit count is that of the number: two to its power exceeds the number and half of that does not |
| Bufaux.StoredForms | sshbbsd/bufaux.c:37-145 | a string is stored behind its length and a number behind the count of its bits, all big-endian |
| Bufaux.FirstByteWeighsMost | sshbbsd/bufaux.c:37-83 | the value of a byte string is its first byte times its weight plus the value of the rest |
| Bufaux.BufferPutBignum | sshbbsd/bufaux.c:37-60 | appends the bit count and the bytes |
| Bufaux.BufferGetBignum | sshbbsd/bufaux.c:65-83 | reads a number or fails on a short queue, leaving the rest |
| Bufaux.BufferPutInt | sshbbsd/bufaux.c:99-108 | appends four bytes, high byte first |
| Bufaux.BufferGetInt | sshbbsd/bufaux.c:88-94 | reads an integer or fails on a short queue, leaving the rest |
| Bufaux.BufferPutString | sshbbsd/bufaux.c:139-145 | appends length and bytes |
| Bufaux.BufferGetString | sshbbsd/bufaux.c:115-134 | reads a string, failing on a short queue or a length above 256 KiB, leaving the rest |
| Bufaux.BufferGetChar | sshbbsd/bufaux.c:149-156 | reads the first byte or fails on an empty queue |
| Bufaux.BufferPutChar | sshbbsd/bufaux.c:160-165 | appends one byte |
| Wire.GetPut32 | sshbbsd/getput.h:23-35 | reading what was put gives every 32-bit value back, whatever follows |
| Wire.GetPut16 | sshbbsd/getput.h:28-41 | reading what was put gives the low sixteen bits back |
| Bufaux.BigEndian | sshbbsd/getput.h:23-41 | what is put are the big-endian bytes of the number, and what is got is the big-endian value of the bytes |
| Crc32.TableIsShift | sshbbsd/crc32.c:53-104 | every entry of the table is eight steps of the bit-by-bit shift register on the byte that selects it |
| Crc32.Crc32 | sshbbsd/crc32.c:108-121 | the table-driven loop equals the shift register for polynomial 0xedb88320 on every input |
| Crc32.Crc32Linear | sshbbsd/crc32.c:108-121 | starting at zero with no final complement, the checksum of the exclusive or of two equally long inputs is that of their checksums |
| Crc32.Crc32IgnoresLeadingZeros | sshbbsd/crc32.c:108-121 | leading zero bytes change no checksum |
| Crc32.ShiftByteLinear | sshbbsd/crc32.c:53-104 | a byte step of the register is linear |
| Crc32.ShiftSplits | sshbbsd/crc32.c:117-119 | a byte step is a look-up of the low byte and a shift of the rest |
| Crc32.WordChecksumZero | sshbbsd/crc32.c:108-121 | of all four-byte inputs only the zero word has checksum zero |
| Crc32.WordAppended | sshbbsd/crc32.c:108-121 | a word is summed after other bytes by adding the register to it first: the checksum can be taken word by word |
| Cipher.PacketRoundTrip | sshbbsd/cipher.c:40-111 | decrypting with an equal state recovers the packet and leaves both sides with the same vectors, for triple DES and Blowfish over any block permutations |
| Cipher.StreamRoundTrip | sshbbsd/cipher.c:40-326 | over any sequence of packets of whole blocks, decrypting in order recovers every one |
| Cipher.EqualFirstKeys | sshbbsd/cipher.c:40-81 | with two equal first keys triple DES is single DES with the third, in both directions, as its middle pass takes back the first |
| Cipher.EqualLastKeys | sshbbsd/cipher.c:40-81 | with two equal last keys and equal vectors triple DES is single DES with the first, in both directions |
| Cipher.Des3FirstBlock | sshbbsd/cipher.c:40-59 | the first block is enciphered, deciphered and enciphered again, with the vectors added where they belong |
| Cipher.EncryptedInPieces | sshbbsd/cipher.c:40-111 | the vectors carry the chain on: two packets enciphered one after the other are the two enciphered as one, and leave the same vectors |
| Cipher.DecryptedInPieces | sshbbsd/cipher.c:61-111 | the same for deciphering |
| Cipher.CbcEncBlock | sshbbsd/cipher.c:50-56 | each ciphertext block is the enciphered exclusive or of its plaintext block and the ciphertext block before it |
| Cipher.XorBlockBits | sshbbsd/cipher.c:50-56 | blocks are added bit by bit |
| Cipher.InPlaceKeepsInStep | sshbbsd/cipher.c:61-81 | decrypting in place keeps the two sides in step if and only if the last block of the ciphertext, deciphered by the third key and exclusive-ored with the block before it (or the outer vector), is itself again |
| Cipher.CbcDecEnc | sshbbsd/cipher.c:50-56 | CBC decryption undoes encryption for any block permutation |
| Cipher.CbcEncDec | sshbbsd/cipher.c:70-80 | CBC encryption undoes decryption, as the middle stage of triple DES needs |
| Cipher.SwappedTwice | sshbbsd/cipher.c:87-111 | swapping the bytes of the words twice gives them back |
| Cipher.SwappedAt | sshbbsd/cipher.c:87-111 | swapping puts the four bytes of every word in the opposite order |
| Cipher.SwapBytes | sshbbsd/cipher.c:87-111 | the pointer loop swaps every word, in place or not, and touches nothing beyond |
| Cipher.CipherContext.Ssh3CbcEncrypt | sshbbsd/cipher.c:40-59 | three passes in place with the vectors saved between them: the destination holds the encryption and the context the new vectors |
| Cipher.CipherContext.Ssh3CbcDecrypt | sshbbsd/cipher.c:61-81 | the destination holds the decryption; the context holds the new vectors, or, in place, what the first pass left where the ciphertext was |
| Cipher.CipherContext.CipherEncrypt | sshbbsd/cipher.c:260-290 | encrypts with the cipher set, keeping its vectors; a length that is not whole blocks is fatal |
| Cipher.CipherContext.CipherDecrypt | sshbbsd/cipher.c:294-326 | decrypts with the cipher set, keeping its vectors; a length that is not whole blocks is fatal |
| Packet.OpenWhole | sshbbsd/packet.c:504-566 | opening what was sent gives exactly the message and the next cipher state; it fails with a bad length exactly above the limit and otherwise only if the detector objects; padding and checksum never fail |
| Packet.OpenPart | sshbbsd/packet.c:513-526 | a packet of which any part is missing is waited for |
| Packet.PollIsOk | sshbbsd/packet.c:504-597 | against any list of sent packets, a poll skips what is to be skipped and returns the next message, or nothing only when the next packet is incomplete |
| Packet.RunIsOk | sshbbsd/packet.c:504-608 | after any sequence of arrivals and polls the receiver has handed out what was visible of some packets and holds the start of the others, with its cipher in step |
| Packet.PacketsArrive | sshbbsd/packet.c:349-608 | however a stream of packets within the limit is cut up, the receiver never exits, has handed out the first messages in order (IGNORE and well-formed DEBUG skipped), and all of them once everything has arrived and a poll finds nothing |
| Packet.LongestPacketIsRefused | sshbbsd/packet.c:513-535 | of the packets the length check admits, the detector's size limit refuses exactly those of the greatest length |
| PacketStops.BadFrameEndsStream | sshbbsd/packet.c:504-597 | where a stream stops: the first packet that is too long, that the detector refuses, that is a disconnect or a debug message without a string ends it; for every cut of the bytes and every order of polls the receiver reads on until it notices, handing out the first messages in order, and enough polls after that end it with the exit of that packet and every message before handed out |
| PacketStops.StreamStops | sshbbsd/packet.c:504-608 | the same for any bytes that stop a receiver, and whatever follows them; no poll finds nothing once they have arrived |
| PacketStops.EnoughPolls | sshbbsd/packet.c:504-608 | one poll more than there are messages before it comes to what stops the receiver |
| PacketStops.FrameStops | sshbbsd/packet.c:504-597 | which packets stop a receiver, after how many of their bytes and with which exit |
| PacketStops.DamagedStops | sshbbsd/packet.c:544-560 | a packet whose check bytes do not fit what they cover stops the receiver once it is complete, with or without a cipher |
| PacketStops.BadLengthStops | sshbbsd/packet.c:513-522 | a length field below 5 or above 256 KiB stops the receiver as soon as twelve bytes are there |
| PacketStops.PollByKind | sshbbsd/packet.c:576-596 | a poll of a sent packet by its type number: 1 ends the connection, 32 is passed over, 36 too if it holds a string, any other is returned |
| Packet.FrameFormat | sshbbsd/packet.c:349-411 | a packet as it goes out: big-endian length of type, data and check bytes, then one to eight bytes more than that, in whole blocks that decipher to the packet |
| Packet.PlainFormat | sshbbsd/packet.c:368-392 | a packet before it is enciphered: padding, type, data, and the big-endian CRC-32 of all of them |
| Packet.FillPadding | sshbbsd/packet.c:376-384 | random padding is written from the eighth byte backwards and nothing after it changes |
| Packet.Seal | sshbbsd/packet.c:368-392 | the packet in preparation becomes padding, content and checksum of both |
| Packet.PacketEncrypt | sshbbsd/packet.c:242-247 | encrypts whole blocks and moves the sending context on |
| Packet.PacketDecrypt | sshbbsd/packet.c:254-281 | asks the detector only when a cipher is set, and decrypts if it does not object |
| Packet.FetchPacket | sshbbsd/packet.c:530-537 | takes the length and the ciphertext off the input and leaves the plaintext in the incoming buffer |
| Packet.CheckPacket | sshbbsd/packet.c:544-572 | checks length and checksum, and strips the packet down to its payload |
| Packet.ReadPacket | sshbbsd/packet.c:513-575 | one pass of the parser on the buffers: waits, stops or opens as specified, and leaves the payload to be read |
| Packet.PacketLayer.PacketStart | sshbbsd/packet.c:300-309 | clears the packet and puts eight zero bytes and the type |
| Packet.PacketLayer.PacketPutString | sshbbsd/packet.c:330-334 | appends a string to the packet in preparation |
| Packet.PacketLayer.Emit | sshbbsd/packet.c:398-411 | appends length and ciphertext to the output |
| Packet.PacketLayer.PacketSend | sshbbsd/packet.c:349-418 | the output grows by exactly the wire form of the packet in preparation, and the sending cipher moves on |
| Packet.PacketLayer.PacketReadPoll | sshbbsd/packet.c:503-597 | the restart loop ends and returns what the specification says, leaving input, cipher and payload accordingly |
| Packet.PacketLayer.PacketProcessIncoming | sshbbsd/packet.c:604-608 | the input grows by what arrived |
| Packet.PacketLayer.constructor | sshbbsd/packet.c:87-109 | a connection starts with empty buffers, no cipher and zero padding |
| Packet.PacketLayer.PacketPutChar | sshbbsd/packet.c:313-318 | appends one byte to the packet in preparation |
| PacketRuns.SendAll | sshbbsd/packet.c:300-418 | sending any messages one after another puts exactly the stream of their frames on the output, the cipher being carried from packet to packet: the stream that `Packet.PacketsArrive` is about |
| PacketRuns.Build | sshbbsd/packet.c:300-318 | a message built a character at a time is the message |
| PacketRuns.Receive | sshbbsd/packet.c:503-608 | feeding the layer what arrives and polling it, in any order, gives exactly the messages, state and exit of the receiver that `Packet.PacketsArrive` and `PacketStops.StreamStops` are about |
| Deattack.CheckCrc | sshbbsd/deattack.c:57-79 | decides whether the pattern of a block in the packet sums to zero |
| Deattack.Detector.ShortScan | sshbbsd/deattack.c:111-129 | on a short packet, DETECTED if and only if some block equals an earlier one and its pattern sums to zero |
| Deattack.Detector.Probe | sshbbsd/deattack.c:135-152 | probing ends, within one turn of the table, at the first cell that holds an equal block or is free |
| Deattack.Detector.HashScan | sshbbsd/deattack.c:130-154 | through the table, DETECTED if and only if some block equals an earlier one and its pattern sums to zero |
| Deattack.Detector.Resize | sshbbsd/deattack.c:97-109 | the table grows fourfold at a time until it is large enough, and is otherwise kept; beyond 16384 cells the sixteen bits of its size hold zero |
| Deattack.TableSizeWraps | sshbbsd/deattack.c:86-109 | the size kept in sixteen bits is zero if and only if more than 16384 cells are needed, from either size the table can have: for packets of more than 10923 blocks |
| Deattack.GrowingEnds | sshbbsd/deattack.c:96-98 | from a size kept in sixteen bits the growing loop reaches what is needed if and only if the size is not zero or there is no block: four times zero never gets anywhere |
| Deattack.Detector.DetectAttack | sshbbsd/deattack.c:83-155 | both paths agree with the definition for every packet whose table size does not wrap, whatever was scanned before, as long as the size has not wrapped |
| Deattack.Detector.constructor | sshbbsd/deattack.c:86-87 | no table is installed at first |
| Deattack.ProbeIsComplete | sshbbsd/deattack.c:135-152 | a probe that ends in a free cell means no earlier block is equal |
| Deattack.StoreKeepsTable | sshbbsd/deattack.c:135-153 | entering a block where its probe ends, even over an equal one after a failed check, keeps every earlier block findable |
| Deattack.FreeCell | sshbbsd/deattack.c:97-109 | with fewer blocks entered than cells a free cell remains |
| Deattack.SearchOnlySavesWork | sshbbsd/deattack.c:57-155 | a packet is an attack exactly when the pattern of some block sums to zero: searching for duplicates changes no verdict |
| Deattack.PatternIsSummed | sshbbsd/deattack.c:50-79 | what the detector sums over a packet is the CRC-32 of the pattern of the block: a word of one or zero and a zero word for each block |
| Deattack.VerdictByChecksum | sshbbsd/deattack.c:50-155 | the verdict without the search: bad size over 256 KiB or for a broken block, an attack if and only if the CRC-32 of the pattern of some block is zero, unremarkable otherwise |
| Deattack.SingleOccurrence | sshbbsd/deattack.c:57-79 | the pattern of a block that occurs once never sums to zero, that of one that does not occur always does |
| Deattack.DistinctBlocksPass | sshbbsd/deattack.c:83-155 | a packet whose blocks all differ is not an attack |
| Md5.Md5Context.Update | lib/libSystem/crypt.c:91-284 | takes in any piece: completing a partial word by fall-through, whole words, blocks straight from the input, and a tail; the context holds the whole message so far and its bit count |
| Md5.Md5Context.Final | lib/libSystem/crypt.c:658-722 | the digest is the final state of the fold of the compression function over the message padded and length-tagged as RFC 1321 prescribes, A, B, C and D in order, each low byte first |
| Md5.HashPieces | lib/libSystem/crypt.c:79-722 | for every way of cutting up a message the digest is that of the message, and read back low byte first it is A, B, C and D |
| Md5.PaddingIsMinimal | lib/libSystem/crypt.c:667-697 | the padded message starts with the message and a one bit, fills whole blocks, and has the fewest zero bytes that do |
| Md5.PaddingHolds | lib/libSystem/crypt.c:667-697 | the padding is a one bit, zeros, and the length in bits modulo two to the 64th in the last two words, low word first |
| Md5.DigestShowsState | lib/libSystem/crypt.c:698-708 | read back with the words the message is read with, the digest is the final state (section 3.5 of RFC 1321) |
| Md5.FoldedByBlocks | lib/libSystem/crypt.c:228-257 | the message is folded block by block from the initial state, each block as sixteen words in order, low byte first |
| Md5.InitialBytes | lib/libSystem/crypt.c:79-89 | the initial state is the sixteen bytes of section 3.3 of RFC 1321 |
| Md5.CountBits | lib/libSystem/crypt.c:101-106 | the two-word count of bits, with its carry and the top bits of the length, stays right modulo two to the 64th |
| Md5.FillWord | lib/libSystem/crypt.c:114-129 | the fall-through completes a word of which any number of bytes is there |
| Md5.ReadWords | lib/libSystem/crypt.c:130-136 | words are read low byte first |
| Md5.ReadPart | lib/libSystem/crypt.c:201-222 | the fall-through in the other direction reads the first bytes of a word |
| Md5.ExtendPart | lib/libSystem/crypt.c:146-166 | fewer bytes than complete the word are added to it and the switch stops in time |
| Md5.Md5Context.Extend | lib/libSystem/crypt.c:142-225 | a piece that does not fill the block is packed behind what is waiting |
| Md5.Md5Context.Complete | lib/libSystem/crypt.c:113-141 | a piece that fills the block completes and compresses it |
| Md5.Md5Context.Direct | lib/libSystem/crypt.c:228-257 | whole blocks are compressed straight from the piece |
| Md5.Md5Context.Keep | lib/libSystem/crypt.c:257-283 | what is left of the piece waits in the words |
| Md5.Md5Context.FinishInOne | lib/libSystem/crypt.c:667-697 | the length fits behind what is waiting |
| Md5.Md5Context.FinishInTwo | lib/libSystem/crypt.c:687-697 | the length takes a block of its own |
| Md5.Md5Context.constructor | lib/libSystem/crypt.c:79-89 | a new context has taken in nothing |
| Record.RecordFile.ProcessRecords | src/record.c:325-388 | the file becomes what comes before the range, the records of the range the callback kept as it left them, and what comes after, cut to length; a bad range changes nothing |
| Record.Filter | src/record.c:361-375 | the moving read and write positions leave exactly the kept records, closed up |
| Record.FilterRange | src/record.c:344-385 | the part after the range moves up behind the kept records |
| Record.RecordFile.DeleteRecord | src/record.c:286-323 | exactly the record of that number disappears, or nothing changes |
| Record.DeletingIsProcessing | src/record.c:286-388 | deleting a record is processing it with a callback that drops everything |
| Record.KeepingAllChangesNothing | src/record.c:364-382 | a callback that keeps and changes nothing leaves every record |
| Record.EachIsSeenOnce | src/record.c:361-375 | a callback that writes down what it sees has seen every record of the range once and in order, and the file keeps exactly those it wants, as it leaves them |
| Record.KeptInTurn | src/record.c:361-375 | one pass over two stretches is a pass over the first and then, in the state that leaves, over the second |
| Record.DroppingLeavesTheRest | src/record.c:325-388 | dropping a range leaves what comes before its first record and after its last, which may lie beyond the file |
| Record.RecordFile.MoveRecord | src/record.c:242-284 | the record is taken out and put back in its new place, or nothing changes |
| Record.MovedIsPermutation | src/record.c:242-284 | a move permutes the records |
| Record.MoveUndone | src/record.c:242-284 | a move is undone by the opposite move |
| Record.MovedThere | src/record.c:242-284 | a moved record is in its new place and the others are in their order |
| Record.RemovedAt | src/record.c:286-323 | after a removal the records before are where they were and those after one place up |
| Record.RotateDown | src/record.c:268-276 | the overlapping move up and the store of the saved record are the move |
| Record.RotateUp | src/record.c:268-276 | the overlapping move down and the store of the saved record are the move |
| Record.DeleteFile | src/record.c:624-693 | deletes the entry given if it bears the name, otherwise the first that does, and on request the file of that name in the directory; without such an entry, or with a path without a slash, nothing |
| Record.SafeSubstituteRecord | src/record.c:495-576 | on any file only a record of the same key can be replaced; on a sorted file, and in linear mode on any, exactly the one the mode is to find is; in sorted mode the result is -1 exactly when there is none and some record is later |
| Record.SubstituteSorted | src/record.c:521-549 | on a sorted file, replaces the entry given or else the first record of the same key, found by binary search, and returns -1 exactly when there is none and some record is later; on any file nothing else is touched |
| Record.SubstituteLinear | src/record.c:551-564 | finds the last record of the same key up to the entry given, otherwise the first after it |
| Record.LowerBound | src/record.c:529-537 | binary search finds the least record no earlier than the time sought |
| Record.ModesAgree | src/record.c:495-576 | on a sorted file with unique keys both modes replace exactly the record of the same key, if there is one, and the file stays sorted with unique keys |
| Record.SameTarget | src/record.c:521-564 | the modes choose the same record if and only if the entry given bears the key or at most one record before it does |
| Record.ModesAgreeExactly | src/record.c:521-564 | the modes leave the same file if and only if they choose the same record or both records they choose are already what is put there |
| Record.RepeatedKeysDiffer | src/record.c:521-564 | on a sorted file of three, two records of the key before an entry without it make the modes part |
| Record.RecordFile.constructor | src/record.c:356-356 | the mapping holds the whole file |
| Match.MatchPattern | sshbbsd/match.c:25-82 | the loops, the shortcut and the backtracking end and compute what the program accepts |
| Match.AcceptsOnlyTheLanguage | sshbbsd/match.c:25-82 | only strings that can be cut into one fitting piece per pattern character are accepted |
| Match.AcceptsAllOfTheLanguage | sshbbsd/match.c:25-82 | unless the pattern ends in two asterisks, all such strings are accepted |
| Match.DecidesTheLanguage | sshbbsd/match.c:25-82 | the program decides the language of the pattern if and only if the pattern does not end in two asterisks |
| Match.KnownNextCharacter | sshbbsd/match.c:41-55 | after an asterisk, a pattern that goes on with a known character accepts if and only if somewhere that character occurs and the rest of the pattern accepts what follows it |
| Match.WithoutAsterisks | sshbbsd/match.c:68-82 | a pattern without an asterisk stands for the strings of its length that agree with it but for question marks |
| Match.AsteriskStandsForAll | sshbbsd/match.c:31-66 | an asterisk stands for any run of characters, none included |
| Strcasestr.Strcasestr | lib/libSystem/string.c:324-401 | for any byte map that fixes zero and sends nothing else to it, the result is the least position where the needle matches, or none if there is none; the scan ends and never reads past a terminator, despite its jumps into loops |
| Strcasestr.CompareRest | lib/libSystem/string.c:373-394 | the inner loop decides whether the rest of the needle matches |
| Strcasestr.FoundMeansEqual | lib/libSystem/string.c:324-401 | the needle is found where the mapped haystack reads like the mapped needle |
| Telnet.RoundTrip | lib/libZModem/zmio.c:30-75 | unescaping undoes escaping for every byte string |
| Telnet.AnyReads | lib/libZModem/zmio.c:52-75 | read in any number of pieces, the original comes back if and only if every cut falls between escapes |
| Telnet.TwoReads | lib/libZModem/zmio.c:52-75 | split over two reads, the original comes back if and only if the cut falls between escapes |
| Telnet.RawRead | lib/libZModem/zmio.c:52-75 | the in-place deletion loop removes exactly the second byte of every pair, passing over the byte that moves up |
| Telnet.RawWrite | lib/libZModem/zmio.c:30-43 | the loop emits as much of each escape as the writes take, up to the write that fails, and counts it |
| Telnet.EmittedWhole | lib/libZModem/zmio.c:30-43 | what gets out is the escaped form of what was written if and only if no write cut an escape short |
| Telnet.StraySecond | lib/libZModem/zmio.c:52-75 | the second byte of an escape read apart from the first is taken for data |
| Telnet.RunsAreEven | lib/libZModem/zmio.c:30-43 | bytes 255 go out in runs of even length only |
| Telnet.ReturnsAreFollowed | lib/libZModem/zmio.c:30-43 | every carriage return that goes out is followed by a zero |
| Telnet.EscapedLength | lib/libZModem/zmio.c:30-43 | the escaped form is longer by one byte for each 255 and each carriage return |
| Telnet.PlainBytesPass | lib/libZModem/zmio.c:30-75 | bytes that need no escape go out and come in as they are |
| Telnet.OtherPairsPass | lib/libZModem/zmio.c:52-75 | what comes in loses nothing but the second of two 255 and the zero after a carriage return |

## Left out

- X11 and agent forwarding, and the not-permitted branch of the port-open request, which reports failure and then goes on to connect.
- X11 and agent listeners, the tear-down of listeners, `channel_stop_listening`, `channel_close_all` and the counting of open channels: they add no packets of the channel protocol.
- Sockets, select, signals, locking, memory mapping and file descriptors: reads and writes are parameters or nondeterministic steps. The descriptor that a freed slot closes is not modelled.
- The order in which the main loop comes to its sweeps: runs and `ChannelDriver.Drive` allow every order, which includes it. A ready socket is told by its slot, not by its descriptor.
- Compression: the packet layer is modelled with `packet_compression` off.
- 32-bit overflow of buffer sizes and offsets: sizes are natural numbers.
- ChannelTable.ChannelTable.AcceptConnection: the host and port in the message are not in the contract. The program reads them through a pointer into the table taken before `channel_allocate`, which may move the table, so they are reliable only when the table does not grow.
- ChannelTable.ChannelTable.ChannelPrepareSelect: does not cover the X11 and agent cases of the loop.
- ChannelTable.ChannelTable.ChannelAfterSelect: does not cover X11 and agent listeners, nor an accept that fails, which is as if the listener had not been ready.
- ChannelTable.ChannelTable.AfterAt: does not cover X11 and agent listeners.
- ChannelLiveness.QuiescentMeansDelivered: the same as for StillMeansDelivered.
- ChannelLiveness.StillMeansDelivered: under protocol 1.3 says nothing of a side whose own input has ended; `ChannelLoss.DeliveryDecided13` does.
- ChannelTheorems.DataArrives13: says nothing of a side whose own input has ended; `ChannelLoss.DeliveryDecided13` does.
- Deattack.Detector.DetectAttack: does not cover a non-null initialisation vector, for which the two paths differ, nor packets for which the size of the table comes to zero (`Deattack.TableSizeWraps`), because there is then no table to speak of. `Packet` therefore takes the detector as a parameter.
- Md5.Md5Context.Update: a single piece of 4 GiB less 63 bytes or more, for which the sum of its length and the bytes waiting wraps, is not covered. `unsigned long` is modelled with 32 bits; md5_block, the round constants and DES crypt are not modelled.
- Cipher.CipherContext.CipherEncrypt: a length of zero under triple DES is not covered, nor in CipherDecrypt: the vectors would come from before the buffer. The packet layer never asks for it.
- Packet.PacketEncrypt: encrypts through arrays of its own instead of pointers into the buffers, so aliasing of the two is not modelled.
- Key set-up, authentication, password files, `cipher_set_key` and `radix.c`.
- `search_record_bin`, whose right bound starts one past the last record, and the other readers of `record.c`.
- Record.DeleteFile: paths longer than the system allows are not truncated.
- The rate limit of `raw_write`: it delays bytes and changes none; nor is a failed read modelled, whose negative count `raw_read` returns as it is.
- Configuration, authentication dialogs, logging, terminals, shared memory, statistics, string lists and threads: plumbing with few properties of its own.
