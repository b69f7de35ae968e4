# stftpu, verified

This project models the TFTP client and server stftpu in Dafny 4.11 and proves what its block
transfer, its request packets, its connection slots and its whole operations guarantee. Run
`dafny verify dfyconfig.toml`.

## What is modelled

**The two transfer loops.** `Transmitter` and `Receiver` describe `tftp_transmit_file` and
`tftp_receive_file` as automata that take one step for each call into the system: the same
branches, counters and 16-bit block numbers as the code. `Transfer` is `TransferData_t` as a class;
its loops are proved to perform exactly the run of the automaton for every sequence of system
answers (`Link`). `Segmentation` says how a file falls into blocks.

**The network.** `Network` joins one transmitter and one receiver by a network that keeps every
packet ever sent and may deliver any of them at any time, any number of times or never, which
covers loss, duplication, reordering and unbounded delay. The history of the system records the
absolute block behind each packet; the code sees its number modulo 65536 only. `Safety` proves what
the received file can be over all runs, `Frontier` builds the runs that complete and the runs that
show each bound to be exact, `Liveness` says from which states a transfer can still be completed, and
`Projection` shows that each side of a run is a run of its loop.

**Requests.** `Requests` holds the packet printer of the client and the parser of the server on
byte arrays, with the option and number parsing behind them, `Peers` the bytes of every request,
what is made of the datagram of any peer and what is refused, and `Paths` where the paths of
requests lead.

**Operations.** `Slots` is the slot allocator with every interleaving of the listener and its
tasks, `Upload` what a transfer leaves in the file system, `Deletion` the two-ACK delete handshake,
`Client` the sequence of a client operation, and `Server` the admission of a request and the task
that serves it, together with what a client's write, read or deletion does from end to end.

The model follows the code where the code and its messages or comments differ:

- The test for too many retries (tftp_common.c:478) cannot succeed inside its loop. After five
  sends of a block the transmitter goes on to the next one, and its result is true whether or not
  anything was ever acknowledged (`Transmitter.SilenceIsSuccess`).
- The receiver announces that it re-sends an ACK (tftp_common.c:552) but does not; a lost ACK is
  survived because the transmitter moves on (`Safety.LostAcksTolerated`).
- Writing an empty last block counts as a failure (tftp_common.c:530-537), so a file whose size is
  a multiple of the block size is never received successfully (`Frontier.VerdictIffReceivable`),
  although section 5 of RFC 1350 allows zero-length DATA. All protocol theorems also cover the
  variant that accepts an empty block, `acceptEmpty`.
- With a misplaced parenthesis (tftp_common.c:466) the transmitter compares the unconverted opcode:
  on a little-endian host an ERROR packet is a stray packet to it, and opcode 0x0500 ends it.
- The server puts "storage/" before the name of a request without looking at it (server.c:194), so a
  name that goes up more often than down leads out of that directory (`Paths.ParsedInStorageIff`).
- Only ETIMEDOUT is a timeout to the transmitter (tftp_common.c:455); any other error of `recvfrom`
  ends it. To the receiver every error of `recvfrom` is a timeout.

A "fault" in the model is any reason the code finds at that point to send an ERROR packet and return
false: the termination flag, or a failing `fread`, `sendto` or `fwrite`. The age of a packet is
measured at its reader: DATA against the block the receiver waits for, an ACK against the block the
transmitter has sent last.

## Model

| member | source | states |
|---|---|---|
| Segmentation.BlockCountIsDivision | tftp_common.c:384-388 | the number of reads until a short one is size / blocksize + 1 |
| Segmentation.BlockShape | tftp_common.c:395-428 | all blocks but the last are full, the last is shorter and ends the file, and is empty exactly if nothing was left |
| Segmentation.ReceivableIff | tftp_common.c:411-417 | a last block with data exists unless the size is a multiple of the block size |
| Segmentation.BlocksRebuildFile | tftp_common.c:399-402 | the first k blocks put together are the file up to the k-th read, and all of them are the file |
| Transmitter.TxStepDecreases | tftp_common.c:395-487 | every step of the transmitter lowers a measure of bytes ahead and attempts left, whatever it receives |
| Transmitter.TxReceiveKeeps | tftp_common.c:451-487 | a reply keeps the transmitter's place in the file; it moves on exactly after its own ACK or the fifth useless wait, and finishes only behind the last block |
| Transmitter.TxRunTraffic | tftp_common.c:430-487 | from any point of any run: blocks go out in order, at most five times each, and for each packet one answer is taken in turn: the transmitter goes on after the first answer with the block's number, or after five without it |
| Transmitter.Transmission | tftp_common.c:376-492 | against any peer and faults: at most five copies of each block in order, and at most 5 * (size / blocksize + 1) DATA packets; true exactly if no fault struck and no answer was a failure other than a timeout or opcode 0x0500; on true, every block at least once, one answer for each packet, and a byte count equal to the file size; one ERROR behind it exactly if it was a fault or a failing `recvfrom` that ended it |
| Transmitter.TrafficCarriesFile | tftp_common.c:395-446 | leaving out immediate repeats, the data on the wire is exactly the blocks of the file, and together the file |
| Transmitter.TxVerdict | tftp_common.c:432-483 | from any point of any run: the verdict is false exactly when a fault struck or a fatal answer came; ERROR packets and missing ACKs do not matter |
| Transmitter.TxTold | tftp_common.c:412-476 | from any point of any run: exactly one ERROR is sent if a fault or a failing `recvfrom` ends it, and otherwise none |
| Transmitter.SilenceIsSuccess | tftp_common.c:478-491 | with nothing ever received, every block is sent five times and the verdict is true |
| Receiver.RxStepDecreases | tftp_common.c:510-562 | every step of the receiver uses up patience, except that a stray datagram costs none and an accepted block renews it; against a finite list of datagrams the loop therefore ends |
| Receiver.RxRunAccepts | tftp_common.c:516-562 | from any point of any run: the file is the concatenation of the accepted payloads, each from a datagram of its own, in order, with the number its place calls for, all full but the last; the previous number stays one behind; the packets sent are the ACKs of the accepted blocks and one ERROR if it gave up unasked; false is returned only for a fault, an ERROR, a sixth timeout or an empty block |
| Receiver.Reception | tftp_common.c:498-566 | over every run each accepted block provokes exactly its own ACK and nothing else provokes any; each came in a DATA datagram of its own, in order, so there are no more ACKs than DATA heard; true is returned exactly after a short block, and false exactly if a fault struck, an ERROR was heard, a sixth timeout came since the last accepted block, or an empty block was refused; of these only the ERROR heard is not answered by one ERROR |
| Receiver.RxBears | tftp_common.c:516-560 | up to five timeouts since the last acceptance are borne: with any stray and duplicate datagrams between them the receiver waits on for the same block, having written and sent nothing |
| Receiver.RxPatience | tftp_common.c:516-560 | the sixth timeout since the last acceptance aborts, whatever stray and duplicate datagrams come between the timeouts and whatever comes after; it does come if nothing else does; nothing is written and no ACK sent again |
| Receiver.ErrorEnds | tftp_common.c:520-526 | an ERROR ends the reception at once with false, whatever strays and up to five timeouts come before it and whatever comes after: nothing more is heard, written or sent |
| Transfer.TransferData.constructor | tftp_common.c:273-352 | the state `tftp_fill_transfer_data` leaves for a file it could open |
| Transfer.TransferData.SendOnce | tftp_common.c:432-446 | one attempt is the automaton's sending step |
| Transfer.TransferData.AwaitReply | tftp_common.c:451-476 | the wait and its classification is the automaton's receiving step |
| Transfer.TransferData.SendBlock | tftp_common.c:430-487 | the inner loop does what the automaton does until it leaves the block |
| Transfer.TransferData.FetchBlock | tftp_common.c:397-428 | the head of the outer loop is the automaton's reading step |
| Transfer.TransferData.SendAll | tftp_common.c:395-491 | the outer loop ends in the final state of the automaton's run |
| Transfer.TransferData.TransmitFile | tftp_common.c:376-492 | for all answers of the system, the fields, the socket and the verdict end as the automaton's run |
| Transfer.TransferData.WriteBlock | tftp_common.c:530-545 | writing and acknowledging is the automaton's writing step |
| Transfer.TransferData.AwaitBlock | tftp_common.c:514-560 | the inner loop does what the automaton does until a block is accepted or the run fails |
| Transfer.TransferData.ReceiveFile | tftp_common.c:498-566 | for all answers of the system, the fields, the file, the socket and the verdict end as the automaton's run |
| Network.StepKeeps | tftp_common.c:376-566 | every step of either side with a true block keeps: exact file, genuine packets, one ACK for each block, no verdict before the last block |
| Safety.GuardedSafety | tftp_common.c:376-566 | under each of the hypotheses of the next three rows: the file is exact, true means the whole file, every match is the true block, and the transmitter has abandoned all it is ahead by (of its first 65535 blocks, if ACKs may be 65536 blocks old) |
| Safety.SmallFileSafety | tftp_common.c:510-562 | on any network and with any number of abandoned blocks, a file of at most 65536 blocks is received exactly, and true means the whole file |
| Safety.StaleAcksSafety | tftp_common.c:471-487 | ACKs of any age, which make the transmitter pass blocks it has not delivered, do no harm while blocks and abandoned blocks are under 131072 together and no DATA is 65536 blocks old |
| Safety.TimelySafety | tftp_common.c:395-562 | for files of any length, with packets under 65536 blocks old and at most 65535 blocks abandoned: transmitter index <= receiver's next + abandoned, every match is the true block, the file is exact, true means the whole file |
| Safety.LostAcksTolerated | tftp_common.c:430-562 | if every block reaches the receiver before the transmitter leaves it and nothing starves it, any loss of ACKs is harmless: neither side fails, and once the transmitter is done the receiver has the whole file |
| Safety.LosslessRunsCopy | tftp_common.c:376-566 | in every such run in which the transmitter hears nothing but the ACKs it waits for, once it is done the receiver has the whole file, after exactly size / blocksize + 1 DATA packets and as many ACKs, across any number of wraps |
| Frontier.Completion | tftp_common.c:376-566 | for every receivable file and every set of lost ACKs some run completes on both sides with equal files, one ACK for each block, and one or five DATA packets for each |
| Frontier.LosslessCopy | tftp_common.c:376-566 | for every receivable file a lossless run with current packets only does complete: equal files after exactly size / blocksize + 1 DATA packets and as many ACKs, across any number of wraps |
| Frontier.VerdictIffReceivable | tftp_common.c:527-537 | the receiver can return true if and only if the size is not a multiple of the block size, or empty blocks are accepted |
| Frontier.StaleBlockBreaks | tftp_common.c:527-545 | with more than 65536 blocks one packet 65536 blocks old makes the file longer than the source, even in a tolerant run |
| Frontier.AbandonmentBreaks | tftp_common.c:471-487 | 65536 blocks in a row that miss the receiver make it return true with a file that is too short; those behind the first 65535 need not be abandoned if ACKs 65536 blocks old arrive |
| Frontier.ExactIffFewBlocks | tftp_common.c:399-401 | all runs on an arbitrary network are exact if and only if there are at most 65536 blocks |
| Frontier.ExactIffTolerated | tftp_common.c:430-562 | all runs of a receivable file that tolerate lost ACKs are exact, however many, if and only if there are at most 65536 blocks or no DATA is 65536 blocks old |
| Frontier.ExactIffSuffices | tftp_common.c:399-487 | the limits of safety for every receivable file: all runs under given limits on DATA age, ACK age and abandoned blocks are exact if and only if there are at most 65536 blocks, or no DATA is 65536 blocks old and fewer than 65536 blocks in a row can miss the receiver, abandoned or passed by an old ACK |
| Frontier.ExactIffTimely | tftp_common.c:527-545 | for longer files, with fewer than 65536 blocks abandoned and no ACK 65536 blocks old, a limit on the age of DATA keeps all runs exact if and only if it is at most 65536 |
| Frontier.ExactIffFewAbandoned | tftp_common.c:430-487 | for longer receivable files and no packet 65536 blocks old, a limit on abandoned blocks keeps all runs exact if and only if it is at most 65535 |
| Frontier.ExactIffRecentAcks | tftp_common.c:471-472 | for receivable files of at least 131072 blocks, with fewer than 65536 blocks abandoned and no DATA 65536 blocks old, a limit on the age of ACKs keeps all runs exact if and only if it is at most 65536 |
| Liveness.CompletableIffAlive | tftp_common.c:376-566 | from any state that a safe run can reach, whatever was lost, repeated, delayed or abandoned, some continuation completes the transfer with the whole file, exactly if the file is receivable and neither side has given up |
| Liveness.NeverStuck | tftp_common.c:430-562 | a tolerant run of a receivable file, short enough or with no DATA 65536 blocks old, can be completed with the whole file at any time, however many ACKs were lost |
| Projection.RxProjection | tftp_common.c:498-566 | the receiver of a run that has returned ends as the receive loop on some answers |
| Projection.TxProjection | tftp_common.c:376-492 | the transmitter of a run that has returned ends as the transmit loop on some answers |
| Projection.TransmitterStops | tftp_common.c:395-487 | in every interleaving the number of transmitter steps is bounded in advance |
| Projection.ReceiverStops | tftp_common.c:510-562 | within the hypotheses of safety the receiver takes at most eight steps for each block, eight more, and one for each stray datagram, so it stops if finitely many of those arrive |
| Projection.DataBounded | tftp_common.c:430-487 | on every network, at most 5 * (number of blocks) DATA packets are sent |
| Requests.AcceptedBlockSize | tftp_common.c:222-240 | an accepted block size is within 8..65464, so that a full packet's size fits 16 bits |
| Peers.RefusedIff | tftp_common.c:144-247 | an operation is refused exactly if it is undefined, or a transfer with a mode other than "octet" in any case, or with a size that is, cut to 16 bits, neither 0 nor in 8..65464; an accepted one has its path, octet mode, and the size given or 512 |
| Peers.AcceptedIsFilled | tftp_common.c:320-339 | an accepted transfer is not refused again for its block size when its buffers are made |
| Peers.NumberIsRead | tftp_common.c:222-225 | a number is read behind blanks, with its sign, up to the first character that is no digit, saturated to 64 bits |
| Peers.CaseIgnored | tftp_common.c:182-189 | two strings are the same exactly if they agree up to the case of letters |
| Requests.BlockSizeIsNumberIff | tftp_common.c:222-240 | an accepted size equals the number written if and only if that number was in range before being cut to 16 bits |
| Requests.TruncatedBlockSize | tftp_common.c:222-224 | "66048" is accepted as 512 |
| Requests.Basename | client.c:20-30 | the file name is the longest end of the path without a slash |
| Requests.Copy | client.c:90-109 | a copy into the packet stays inside it and changes nothing else |
| Requests.BuildRequest | client.c:7-111 | the printed packet is all fields in order, each terminated inside the packet, then zeros up to the computed size |
| Peers.RequestBytes | client.c:32-111 | the bytes of every client request: opcode 1, 2 or 6, the name, and for a transfer "octet" and, unless it is 512, "blksize" and five digits |
| Requests.RequestIsTerminated | client.c:62-67 | every string that starts inside a request packet ends inside it, and also in the server's buffer if the packet fits there |
| Requests.Listener.Receive | server.c:380-397 | the datagram lies in the zeroed request buffer, cut off at its size |
| Requests.Listener.ParseRequest | server.c:185-231 | the parser finds each field by the terminators before it, and the block size only while bytes are left for it |
| Peers.AnyDatagramIsParsed | server.c:185-231 | for the datagram of any peer: the opcode says which operation, and the strings behind it, one after the other, are the name, cut at 255 characters, the mode, the option and its value, which is the block size if the option is "blksize" in any case |
| Peers.LimitsNeverBite | server.c:216-227 | the two comparisons with the number of bytes received never hide a block size field that is there |
| Peers.TransferRequestIsParsed | server.c:185-231 | a transfer request of any peer, with any name, mode, option and value, is parsed to these |
| Peers.MixedCaseIsRead | server.c:219-227 | mode "OCTET" and option "BlkSize" of "1428" are served at 1428 bytes |
| Requests.Listener.Clear | server.c:421-422 | the buffer is zero again |
| Requests.FiveDigitsRead | client.c:47-50 | a number printed with leading zeros is read back unchanged |
| Requests.BlockSizeAgreement | server.c:216-227 | printed or left out, every accepted block size is the one the server derives |
| Requests.InitYieldsClientData | tftp_common.c:144-247 | accepted operations keep their path, have octet mode and a block size in range, or none for a deletion |
| Requests.RequestRoundTrip | server.c:187-230 | parsing the packet of any client operation gives the complementary operation on "storage/" + name in octet mode with the same block size, if and only if the name has at most 255 characters |
| Paths.FollowIff | server.c:187-194 | following a path by its parts stays below a root if and only if up to no point it goes up more often than down |
| Paths.ParsedInStorageIff | server.c:187-194 | of any datagram the parser makes a path with the prefix "storage/"; followed part by part it stays in that directory if and only if up to no point the name, cut at 255 characters, has more ".." than proper parts; for a name without a slash, if and only if it is not ".." |
| Paths.StorageIsLeft | server.c:187-194 | a read request for "../x" is parsed to a transmission of "storage/../x", out of the directory |
| Paths.ClientStaysInStorageIff | client.c:20-30 | a request of the program's own client leads to the entry with its name, cut at 255 characters, or for an empty name or "." to the directory, and out of it if and only if the name is ".." |
| Paths.ClientLeavesStorage | client.c:20-30 | a client's read of ".." is parsed to a transmission of "storage/.." |
| Requests.EndsAgreeOnPacketSize | tftp_common.c:320-339 | both ends compute the same full packet size, header plus block size, and so agree on which packets are final |
| Slots.LowestFree | server.c:74-86 | the slot found is free and all slots below it are occupied |
| Slots.ServerSlots.constructor | server.c:302-315 | all slots are free and counted |
| Slots.ServerSlots.AcquireSlot | server.c:69-90 | takes the lowest free slot and counts it, or returns -1 and changes nothing |
| Slots.ServerSlots.ReleaseSlot | server.c:96-103 | frees exactly that slot and counts it |
| Slots.SlotSafety | server.c:110-177 | over every interleaving and any capacity: no shared slot, occupied exactly while owned, counter equal to the free slots, every task has read its own request, acquired minus released slots equal the owners |
| Slots.AcquireOutcome | server.c:330-364 | a request is rejected if and only if every slot has an owner, and otherwise gets the lowest slot without one |
| Server.ParsedIsServable | server.c:185-231 | of any datagram the parser makes nothing but a reception or transmission with a block size in range or a deletion |
| Server.TryCreateOperationThread | server.c:330-364 | a request is rejected with nothing changed, dropped with its slot given back, or stored in the slot acquired for it |
| Server.AdmissionIsRun | server.c:330-364 | in every reachable state this is a run of the listener's steps: one task more for this very request, in the lowest slot without an owner, if it was started, and otherwise nothing changed; rejected exactly if every slot has an owner, dropped exactly if one has not but the request cannot be parsed |
| Server.ServerSendTask | server.c:158-166 | a file that is there, readable and with its buffers allocated is transmitted, and otherwise one ERROR sent; the packets are blocks of that very file, all of them if nothing goes wrong |
| Server.TaskStart | server.c:110-178 | whichever operation runs, and if none does: it ends by releasing its own slot once, touches no other, and leaves files and packets as that operation's specification says: a file that is there is transmitted, and one that is not answered by one ERROR |
| Server.WriteEndToEnd | server.c:110-157 | a client's write becomes a reception of the same job at the server, which ends with the whole content under the client's file name or with nothing changed |
| Server.ReadEndToEnd | server.c:158-166 | a client's read becomes a transmission of the same job at the server, and the client ends with the first blocks of that file, all of it on success; success is the verdict of the client's operation on the answers it got in the run |
| Server.DeleteEndToEnd | client.c:150-172 | a client's deletion becomes the removal of the file of that name at the server; over every run of the handshake the client decides as its two waits do, and reports success only if the server has removed the file |
| Upload.ServerReceiveTask | server.c:140-157 | the files after the task are those of the specification for the receiver's run |
| Upload.UploadOutcome | server.c:140-157 | after a safe reception the upload is all-or-nothing if and only if buffers and ACK 0 did not fail behind a created file (or the source is empty); an existing file is untouched |
| Upload.UploadAllOrNothing | tftp_common.c:285-309 | over all timely runs a server upload ends with the whole source stored or nothing changed |
| Upload.ReadLeavesPrefix | client.c:179-184 | a client's read leaves exactly the first accepted blocks, the whole source if it reports success, and is all-or-nothing if and only if all bytes came in |
| Upload.ReadIsCut | client.c:179-184 | behind any number of blocks short of the whole file, some run with current packets breaks off and leaves just those blocks |
| Upload.ReadTouchesOwnFileOnly | tftp_common.c:285-318 | a client's read touches no file but its own, and not even that if it exists before |
| Deletion.WaitSucceedsIff | tftp_common.c:642-668 | a wait succeeds if and only if its ACK is among the answers it may take with no ERROR before it, whatever timeouts and other packets are; the answers behind it are left |
| Deletion.AckInTimeIff | tftp_common.c:642-668 | a wait of the program succeeds if and only if one of the first five answers is a datagram with opcode 4 and the number, and no datagram with opcode 5 comes before it |
| Deletion.WaitTakes | tftp_common.c:642-668 | a wait takes answers up to the ACK or an ERROR and otherwise five, and sends nothing |
| Deletion.AwaitAcknowledgement | tftp_common.c:633-674 | the loop is the specified wait, and true exactly if the ACK is in time |
| Deletion.ThroughBothWaits | client.c:150-172 | the client of the handshake decides as those two waits do |
| Deletion.TaskIsDeleteFile | server.c:34-62 | the events of a task of the handshake, left to themselves, are possible and leave the file and the packets as the server's deletion does, and nothing else changed |
| Deletion.DeleteFile | server.c:34-62 | ACK 0, then ACK 1 exactly if the file was there and is now removed, and otherwise ERROR with all files unchanged |
| Deletion.DeletionConfirmed | client.c:150-172 | over every lossy, duplicating, reordering run, success is reported only after the server removed the file; if nobody created it meanwhile, exactly once, and it is gone |
| Deletion.DeletionUnconfirmed | client.c:163-171 | the file can be removed and failure reported |
| Client.StartOperation | client.c:133-199 | request, waits and transfer follow each other as specified, and stop at the first failure; only a read changes files |
| Client.ReadOutcome | client.c:173-199 | a read that can create its file and buffers succeeds exactly if a short block came in, and fails exactly for a fault, an ERROR, a sixth timeout or an empty block; its file is the blocks that came in, each acknowledged once; if it cannot, it fails with one ERROR sent |
| Client.DeletionSucceedsIff | client.c:150-172 | a deletion succeeds if and only if ACK 0 comes in time and then ACK 1 among the answers after it |
| Client.WriteOutcome | client.c:150-190 | a write sends nothing unless ACK 0 came in time, and one ERROR if its file or buffers cannot be had; otherwise it sends the blocks of the file and succeeds exactly if no fault strikes and no answer from then on is fatal |

## Left out

- Sockets, addresses, ports and transfer identifiers: two honest peers are assumed, although `recvfrom` adopts any sender's address.
- Datagrams of less than four bytes, and what a stale packet buffer would then contain.
- Retryable timeouts: whether a platform reports a receive timeout as ETIMEDOUT or otherwise is not modelled; both answers are possible at any time.
- stdio: reads are short only at the end of the file, writes are complete or fail, and removing a partial upload succeeds.
- Concurrent operations on one path: the existence check and the creation of the file are not atomic in the code; a single writer is assumed, and a file that exists is assumed readable.
- Thread creation is assumed to succeed; detaching, joining and shutdown (server.c:468-482) are left out, and nothing is claimed about tasks at shutdown.
- Option acknowledgement (RFC 2347), netascii and mail transfers, which the program does not implement.
- Error codes and texts, logging, clocks and printed progress, including the printed block number.
- Command line, signal handling, random ports and the shell interface; a termination request may come at every point where it is checked.
- Integer widths: block numbers, block sizes and packet sizes are 16 bits wide; retry counters never exceed 5 and byte counts never exceed the file size, so their types are unbounded here.
- Numbers of 64 bits and more: `atoi` is modelled as saturating at 64 bits before it is cut to 16, where C leaves the result open.
- The end of the request buffer ends a string. The code would read on (server.c:213) when a name of 512 characters or more, which this program's client sends unchecked, leaves no terminator in the buffer; what is said of such names rests on the assumed end.
- Paths of 65535 bytes and more, whose length the code keeps in 16 bits.
- The listener loop around receiving, admitting and clearing; its rejections send an ERROR packet only.
- Frontier.ExactIffSuffices: for files whose last block is empty only the limits on blocks and on the age of DATA are shown exact, because there a full block taken for another one is seen in the content only if the two differ.
- Transfer.TransferData.AwaitReply: the overwriting of the response buffer is not modelled, because only the opcode and the number are read from it.
- Upload.ServerReceiveTask: the order of closing and removing the partial file is not modelled, because nothing else uses the path meanwhile.
