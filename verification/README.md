# Verified model of mdelay

mdelay measures one-way network delays between a master and a slave with NIC timestamps. The master sends, for each
sequence number, a DELAY_REQ packet and then a DELAY_REQ_FOLLOW_UP that carries the NIC transmit stamp of the first;
the slave stores the receive stamp of the first and the transmit stamp of the second, and runs the same routine back
towards the master. Both sides write the differences to a file.

The model has two levels.

- **Programs** (`WireHeader`, `Stamps`, `Endpoints`, `Programs`, `LatencyLog`, `Checksum`): the routines as methods on
  classes and arrays, down to the bytes of the datagrams and the control messages, with the loops of the source. Each
  method is proved against a specification function or a step of an automaton.
- **Session** (`Sender`, `Receiver`, `Protocol`, `ProtocolInv`, `ProtocolSafety`, `ProtocolFifo`, `ProtocolClocks`,
  `ProtocolEnabled`): a state machine of three sequential actors (the master's sender thread, the slave, the master's
  receive loop), two channels and two error queues, whose runs are all interleavings (`ProtocolEnabled` says exactly
  when each step is possible). `Refinement` shows that what the methods do is a run of the session.

The network is a parameter: `Fifo` is in order and lossless; `Lossy` loses any packet and delivers any packet next.
Neither duplicates. The kernel's stamps, the clocks and the receive stamps are arbitrary functions of a packet's type
and number (`Sender.World`). This loses no generality, because no packet is ever sent twice (`ProtocolSafety.NoPacketTwice`).

Assumptions, all of them visible in the definitions: UDP; the same number of measurements `n >= 1` on both sides; each
socket starts with an empty error queue; of one packet's two transmit stamps the software stamp is queued first, while
the order between packets and every delay are free; the kernel queues every
stamp it owes after finitely many polls; a call of `recvmsg` for data succeeds; a datagram that is not empty
holds at least the 40-byte header.

Where the code and its evident intention differ:

- The loop guards at slave.c:182 and master.c:187 assign the whole conjunction to `got` and read it before its first
  assignment. The loops are modelled as meant: receive once, then go on while something was received and the count is
  below `n`.
- The master's table has 100 slots whatever `n` is (master.c:185). `ProtocolFifo.CrashIff` shows that a session can
  index past it exactly when `n > 100`.
- `print_time` increments its counter between its stores (ref/rx_timestamping.c:306-315), so two of the three columns
  are shifted by one row, and `cfg_max_packets` entries are one too few for that many packets
  (`LatencyLog.Recorder.Record`, `LatencyLog.RowAddsUpIff`).
- The slave's file `slave_to_master_latency.txt` holds master-to-slave delays and the master's file the opposite
  (slave.c:155 and 185, master.c:163 and 189). The names play no part in the model.

## Model

| member | source | states |
|---|---|---|
| ProtocolFifo.FifoRows | util.c:170-177 | On FIFO lossless channels, in every reachable state, every slot below the total is complete on each side, and row k is the receive stamp minus the NIC transmit stamp mod 2^64 of that direction's packet k |
| ProtocolFifo.FifoTermination | slave.c:182-185 | Every FIFO run has at most 25n+1 events; it has that many exactly when no event is possible, which is exactly when both totals are n and the slave has sent its last pair; all rows are then complete |
| ProtocolFifo.NotStuck | util.c:121-164 | In a reachable unfinished state some actor or the kernel can always take a step |
| ProtocolFifo.StepProgress | util.c:88-165 | Every step, on any network, advances a weighted progress by exactly one |
| ProtocolFifo.RunProgress | util.c:88-165 | A run on any network is exactly as long as its progress and never longer than 25n+1 |
| ProtocolFifo.FifoContinues | master.c:187-188 | Any FIFO run can be carried on until it is finished or the master's table is overrun |
| ProtocolFifo.CrashIff | master.c:185 | Some run indexes past the master's table if and only if n > 100 |
| ProtocolFifo.FifoLogs | slave.c:148-157 | Under FIFO the consumed packets are prefixes of the two traces and the totals count complete measurements |
| ProtocolSafety.SlotsAreSound | slave.c:148-157 | Under loss and reordering a slot holds packet k's receive stamp iff that packet was consumed and its transmit stamp iff its follow-up was, else zero; all indices are in range |
| ProtocolSafety.CompleteRow | master.c:155-164 | The row of a complete slot is the delay of one packet, never a mix of two |
| ProtocolSafety.NoPacketTwice | util.c:88-165 | Nothing is sent, consumed, in flight or lost twice, so no cell is written twice |
| ProtocolSafety.WrittenStays | slave.c:150-154 | Whatever happens later, written cells keep their values and totals do not decrease |
| ProtocolSafety.Conservation | master.c:161 | Each total is the number of distinct measurements followed up; follow-ups sent are those consumed, in flight and lost; master total <= responses followed up <= slave total <= requests followed up <= n |
| ProtocolSafety.Causality | slave.c:152-156 | A response exists only if the request follow-up of its number was consumed; the slave has sent exactly the pairs answering the consumed follow-ups, in order, up to the one in progress |
| ProtocolSafety.ErrorQueuesAligned | util.c:118-164 | At each loop head no stamp is pending or queued, and every follow-up ever sent carries the NIC stamp of its own first packet |
| ProtocolSafety.FinishedTableIff | slave.c:182-185 | A side that has counted all n has only complete slots if and only if nothing in its direction was lost or is still in flight |
| ProtocolSafety.LostRequestLeavesGap | slave.c:152-155 | A run, for any stamps, in which a lost request leaves a counted measurement without a receive stamp |
| ProtocolInv.StepKeeps | slave.c:105-165 | Every step of every actor keeps the global invariant, except for a number past the master's table |
| ProtocolInv.RunInv | slave.c:167-189 | The invariant holds in every reachable state |
| ProtocolInv.DistinctLink | util.c:116-156 | Distinct packets sent stay distinct across consumed, in flight and lost |
| ProtocolInv.FollowUpsConserved | util.c:156 | In one direction, follow-ups sent are those consumed, in flight and lost |
| ProtocolClocks.OffsetCancels | util.c:173-175 | With slave clock = master clock + offset, a slot holds the true delay plus or minus the offset mod 2^64, and the two entries for k sum to the offset-free two-way delay |
| ProtocolEnabled.MasterReceivesIff | master.c:183-188 | In every reachable state the master can take packet j in flight if and only if its total is below n and, on FIFO, j is the head: its sender thread never holds it up |
| ProtocolEnabled.SlaveReceivesIff | slave.c:181-183 | The slave can take packet j in flight if and only if its total is below n, its last reply is finished and, on FIFO, j is the head |
| ProtocolEnabled.LossIff | util.c:116-156 | Any packet in flight can be lost at any time on a lossy network and none on FIFO |
| ProtocolEnabled.SendersGoOnIff | util.c:88-165 | A sender routine can go on if and only if it is at a loop head, about to send a follow-up, or has a stamp queued to read |
| ProtocolEnabled.KernelsGoOnIff | util.c:118-164 | A kernel can queue the oldest stamp it owes, and only that one, whenever it owes any |
| ProtocolEnabled.MasterCountsWhileSending | master.c:183-188 | For every m up to n and the table's size, some FIFO run has the master at m measurements when its sender thread has sent exactly the first m pairs |
| ProtocolEnabled.CountsBeforeLastRequest | master.c:183-188 | For every n >= 2 some run counts a measurement before request n-1 is sent |
| Refinement.MasterCallRefines | util.c:88-165 | Any run of the sender routine on the master is a run of the session |
| Refinement.SlaveHandlingRefines | slave.c:152-157 | Handling a request follow-up with its whole reply is a run of the session |
| Refinement.SendPacketsRefines | master.c:111-124 | What the sender thread's method does is a run of the session that puts the whole request trace on the channel |
| Refinement.DoRecvRefines | slave.c:125-157 | What the slave's method does on a follow-up is a run of the session with the same table and one pair sent |
| Sender.SenderTrace | util.c:69-168 | Every run of a call sends a prefix of first(seq), followup(seq), ..., a finished one all 2N packets, in 10N+1 events, leaving the error queue empty |
| Sender.AwaitNicAdvances | util.c:129-141 | The stamp put in a follow-up is the NIC stamp of the packet just sent, however late stamps arrive |
| Sender.FourStampsAnIteration | util.c:118-164 | At the head of iteration i the kernel has queued exactly 4i stamps and the program has taken them all |
| Sender.FollowUpAddsOnlyTheStamp | util.c:137-155 | A follow-up keeps its partner's number and t1 or t3, has a type one higher, and adds only the stamp in t2 or t4 |
| Sender.CallNotStuck | util.c:121-134 | An unfinished call can go on, by the program or by the kernel |
| Receiver.HandleKeepsReflects | slave.c:148-157 | Handling a genuine packet in range neither exits nor faults, and the table goes on saying exactly what was consumed |
| Receiver.LoopReflects | master.c:187 | Whatever genuine packets arrive, the receive loop ends normally with a table that says exactly what it took |
| Receiver.LoopCounts | slave.c:182 | Every message is taken while the total plus the follow-ups before it is below n; the table is that of handling exactly those; the loop stops before the end only at n or at the end of the stream, and has no table only when its last message could not be handled |
| Receiver.HandlesIff | slave.c:148-161 | A message is accepted if and only if it has one of the side's two types, a slot and, for a first packet, its three stamps; a type outside the two is what exits; only a follow-up counts |
| Receiver.FollowSeqsOfTrace | util.c:69-165 | The follow-ups in a prefix of a trace are those of the pairs it completes |
| Endpoints.SendUdpPacketsTimestamp | util.c:70-168 | A call sends exactly the datagrams of its 2N packets and leaves the socket quiet, by a finished run of the automaton; each has the size asked for and, after the header, the byte 'A' plus its type; an unknown type exits before sending |
| Endpoints.DatagramIsFilled | util.c:101-155 | A datagram's fifth byte is its type and every byte after the header is 'A' plus that type |
| Endpoints.AwaitStamp | util.c:121-124 | The spin on the error queue ends with the next stamp, as one step of the automaton |
| Endpoints.SendAndStamp | util.c:89-137 | The first half of an iteration: the first packet goes out and its NIC stamp is obtained |
| Endpoints.FollowAndDrain | util.c:138-164 | The second half: the follow-up goes out and its two stamps are drained |
| Endpoints.Socket.RecvErrQueue | util.c:122 | A poll returns the oldest message or nothing yet, the kernel queueing any ready stamps in between |
| Programs.Slave.DoRecv | slave.c:105-165 | The table changes as the specification says; a follow-up is answered by exactly one pair before the call returns; a fifth byte other than the two request types exits with nothing changed or sent; a datagram of at most 900 bytes is received whole |
| Programs.Slave.ReceiveLoop | slave.c:181-183 | The loop is the specified receive loop on what arrives, and keeps its table at the end of the stream, which is where it took an empty datagram |
| Programs.Slave.Measure | slave.c:182-185 | Each message is taken only while fewer than n are counted, the table is that of the messages taken, and its rows are written also when the stream ended early |
| Programs.Master.DoRecv | master.c:126-171 | The table changes as the specification says; a fifth byte other than the two response types exits with nothing changed; a datagram of at most 900 bytes is received whole |
| Programs.Master.ReceiveLoop | master.c:186-187 | The loop is the specified receive loop on what arrives, and keeps its table at the end of the stream, which is where it took an empty datagram |
| Programs.Master.Measure | master.c:187-189 | Each message is taken only while fewer than n are counted, the table is that of the messages taken, and its rows are written also when the stream ended early |
| Programs.Master.SendPackets | master.c:111-124 | The sender thread sends the whole request trace |
| Programs.StoreResults | util.c:170-177 | Row k of the file is recv minus sent of slot k, for the first total slots |
| Programs.DatagramIsPeerMessage | slave.c:131-138 | A datagram of the sender routine is received, on either byte order, as the packet it was made from |
| WireHeader.HeaderRoundTrip | util.c:91-116 | Header to payload to header is the identity between hosts of any byte orders, and every later byte is the fill byte |
| WireHeader.WireFormIsHostIndependent | mdelayhdr.h:10-17 | Every host puts the same big-endian bytes on the wire |
| WireHeader.FillPayload | util.c:101-115 | Filling and copying leaves the struct's bytes followed by the fill byte |
| ByteOrder.NetworkForm64 | util.c:7-14 | The bytes of hton64(v) in memory are the big-endian bytes of v on either host, and ntoh64 inverts it |
| ByteOrder.Transport64 | util.c:7-23 | A 64-bit value stored with hton64 on one host and loaded with ntoh64 on another is unchanged |
| ByteOrder.Transport32 | util.c:92 | The same for the 32-bit sequence number |
| ByteOrder.LoadInvertsStore | util.c:115 | Loading what was stored returns the value, for any width |
| Stamps.RetrieveTimestamp | util.c:45-67 | The scan returns the data of the last entry with level SOL_SOCKET and type SO_TIMESTAMPNS or SO_TIMESTAMPING, and null exactly when there is none |
| Stamps.LatencyFormsAgree | ref/rx_timestamping.c:304-312 | Flat difference and component-wise difference agree mod 2^64 for all stamps |
| Stamps.FlattenExact | util.c:137 | Flattening a normalised stamp is exact if and only if it is at most 18446744073 s 709551615 ns |
| Stamps.FlattenOrder | slave.c:150 | Up to there it preserves and reflects order and is injective |
| Checksum.WriteChecksum | ref/sender.c:92-100 | The loop and the folds store the specified checksum in the zeroed check word |
| Checksum.ChecksumVerifies | ref/sender.c:93-100 | For up to 65538 words including the check word, the one's-complement sum with the checksum stored is 0xFFFF |
| Checksum.ChecksumVerifiesIff | ref/sender.c:93-100 | For any length, it is 0xFFFF if and only if the number of 32-bit wraps is a multiple of 65535 |
| Checksum.BoundIsExact | ref/sender.c:94-97 | With one word more the check can fail |
| Checksum.AccumulatorNeverWraps | ref/sender.c:94-97 | Up to 65537 words the 32-bit sum does not wrap and the check is the complement of the folded sum |
| Checksum.FinishIsComplementOfFold | ref/sender.c:98-100 | One fold and one unmasked carry add reach the fixpoint of folding |
| Checksum.ByteOrderIndependence | ref/sender.c:93-100 | The checksum of byte-swapped words is the byte-swapped checksum |
| Checksum.ByteOrderIndependenceIff | ref/sender.c:93-100 | For any length, exactly when the two sums wrap a matching number of times and agree on being zero |
| Checksum.StoredChecksumIsHostIndependent | ref/sender.c:93-100 | Either byte order stores the same two bytes |
| LatencyLog.Recorder.PrintTime | ref/rx_timestamping.c:268-315 | The arrays, the count and the accumulators after one more packet, and when the stores stay in bounds |
| LatencyLog.Recorder.Record | ref/rx_timestamping.c:438-450 | A run over any packets stays in bounds if and only if it has no stamped packet or fewer than the arrays' length; the samples are then the stamped packets, each at the place given by how many came before it |
| LatencyLog.StampedRecords | ref/rx_timestamping.c:438-450 | The recorded samples are as many as the stamped packets, and a stamped packet is the sample numbered by the stamped packets before it |
| LatencyLog.AllStampedRecords | ref/rx_timestamping.c:438-450 | With a timestamp on every packet, sample i is packet i |
| LatencyLog.Recorder.Rows | ref/rx_timestamping.c:453-456 | Row i takes its middle column from packet i and its outer columns from packet i-1, each the 64-bit difference of flat nanosecond times with the microseconds scaled by 1000 |
| LatencyLog.ColumnsInFlatTime | ref/rx_timestamping.c:304-312 | The three differences of a packet are the 64-bit differences of its flat nanosecond times, microseconds scaled by 1000 |
| LatencyLog.SeriesAgree | ref/rx_timestamping.c:304-312 | NIC->user = NIC->kernel + kernel->user mod 2^64 for every packet |
| LatencyLog.RowAddsUpIff | ref/rx_timestamping.c:306-315 | The shifted identity holds for every written row, and a row itself adds up if and only if the NIC->kernel difference did not change |
| LatencyLog.DriftClosedForm | ref/rx_timestamping.c:291-310 | The drift is the last difference minus all differences that follow a zero, mod 2^64 |
| LatencyLog.DriftIsLastMinusFirst | ref/rx_timestamping.c:308-310 | With no zero before the last difference it is last minus first |

## Left out

- TCP mode: the slave's 890-byte replies do not match the master's 900-byte reads on a byte stream.
- Sockets, bind, connect, socket options, threads as operating-system objects, option parsing, printing and file output: only the sequences of values sent, received and stored are modelled.
- `usleep` and the reading of clocks: delays are free and clock values are parameters.
- Failing system calls, interrupted receives and datagrams shorter than the header: the code reads an uninitialised buffer there.
- Programs.Master.Measure: no rows are stated for a total above 100, where the code reads past its table.
- Duplicated packets: the session does not model a network that duplicates.
- The master's two threads share one socket; data and error queue are separate queues of it and are modelled as such.
- The slave's remote address bookkeeping (slave.c:140-146) and its unused `echo`.
- 64-bit wrap-around of `total_measurements`: it never exceeds `n`.
- `seq + i` past the range of `int`: C leaves it undefined, and the sender routine requires `seq + N <= 2^31`.
- Signed overflow in ref/rx_timestamping.c is undefined in C; the model computes modulo 2^64.
- ref/sender.c outside the checksum block, and the second copy of the control message scan in ref/rx_timestamping.c: they would add only easy members.
- The tools under tool/, the Python scripts and the Makefile.
