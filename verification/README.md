# simpleNF: a model of its queue pair, its worker and its buffers

simpleNF is a network function that echoes packets: a worker thread takes requests from a NIC and
sends each one back to the node it came from. Worker and NIC share two fixed rings, a work queue
(WQ) and a completion queue (CQ), and no counter: every entry carries a phase bit that flips on each
lap and a `valid` bit, and each side keeps its own index. This project models

* the two rings and the code that uses them (`QueuePair.dfy`, over `Rings.dfy` and `PhaseRing.dfy`), with
  the state in which a verdict is taken from the wrong entry (`StaleVerdict.dfy`),
* what a poll of the completion queue may report (`PollReport.dfy`), and receiving, sending and giving
  buffers back (`Endpoint.dfy`),
* the batching main loop and whole runs of it (`Worker.dfy`, `Service.dfy`), its turns as a record
  (`Rounds.dfy`), and how soon requests are answered (`Progress.dfy`),
* what a run owes its clients, said without its code (`Traffic.dfy`), and the reuse of the send
  buffer (`LocalBuffers.dfy`) with the run in which it goes wrong (`RefusedRecv.dfy`),
* the circular receive buffer (`CircularBuffer.dfy`), the map from clients to buffers and bytes
  (`Layout.dfy`), and the packing of RPCs (`WireFormat.dfy`).

The main result is the contract of `Service.Serve`: for every interleaving with the NIC, at every
moment, the SENDs the NIC has read off the work queue are the replies to the requests it posted, in
order, each once; and a request still unanswered was posted only so many bursts ago as the worker has
had work since.

## How concurrency is modelled

The NIC is not part of the repository. It is described by the steps it may take (`NicStep`), the effect
of each step (`Schedules.Effect`), and a schedule, which is a sequence of bursts of such steps. The
application calls `Interfere` after every access to shared memory, field by field where the code copies
or stores an entry, and `Interfere` executes the next burst and notes where the application stood
(`Moment`). A run stops where its schedule is used up (`Stopped`), and only there. Since the schedule is
arbitrary, a clause proved for the result of a run is proved at every shared access of every run,
whatever the interleaving. What the NIC has done by then is a function of the bursts used and the moments
noted (`Schedules.Replay`).

Progress is counted in bursts. Every operation has a bound on the bursts it uses: so many for each
completion consumed, event logged and poll made, and for each burst at which the slot under the WQ head
was not free, which is when the code looks again. Nothing is assumed about how soon the NIC acts: while
the head slot stays occupied, the retry loop of the send and the outer loop of the poll go on.

Assumptions about the NIC, all of them built into its steps:

* it posts a whole CQ entry at once, in ring order, with its own phase bit flipped on every wrap, and
  only into a slot whose `valid` bit is 0;
* it reads WQ entries in ring order, following the phase bits, and reads an entry only after the
  notification that follows its store (`NOTIFY_WQ_WRITE`);
* it changes a WQ entry only by clearing `valid`, in any order, and only for an entry it has read;
* a completion that is neither a request nor a response names a WQ slot in its `tid`;
* once raised, `client_done` stays raised.

Assumptions about the start of a run: entry phase bits differ from the ring's own, no entry is valid;
`batch_size` is at least 1 and `packet_size` is a positive multiple of 64.

## What the code does not do

* A refused RECV is lost, and only the alternation of SENDs and RECVs keeps the 256 send buffer slots
  from being reused too early. Whatever the NIC has read and completed, uncompleted SENDs are disjoint
  if and only if at most 256 of the last 512 posts are SENDs (`LocalBuffers.DisjointExactly`, and over
  the states that runs reach `LocalBuffers.DisjointInRunsExactly`); without a refusal they always are
  (`LocalBuffers.AlternationBound`), and `RefusedRecv.CollisionInput` is a run in which a single refusal
  is followed, three steps later, by a state in which they are not.
* The header of a reply is written before the WQ is checked. It lands on a packet still being sent
  exactly when one of two earlier SENDs is uncompleted (`LocalBuffers.HeaderHitsExactly`), which without
  refusals means that the WQ head slot is still valid (`LocalBuffers.HeaderHitsLiveSendExactly`);
  `RefusedRecv.HeaderHitInput` is a reachable state in which it does.
* The verdict on a SABRE is read from a CQ slot already given back. It is the entry's own exactly until
  the NIC is a lap ahead, and from then on that of the entry one lap later (`Rings.CqReleased`,
  `QueuePairs.QueuePair.ReadVerdict`). `StaleVerdict.StaleVerdictInput` is a run after which the slot
  shows another verdict than the entry had, for any two verdicts: a success is taken for an abort, or an
  abort for a success. The worker never posts a SABRE, and then the branch is never taken.
* `getAvailSlots` reports an empty buffer when the buffer is full and never reports 0, so the writer's
  test for a full buffer cannot succeed (`CircularBuffer.AvailExactly`, `CircularBuffer.NeverNoneFree`);
  its comment promises the number of free slots. `CircularBuffer.FullBuffer` fills a buffer of any size.
  Freeing past the end of the ring, or a full buffer all at once, corrupts the indices
  (`CircularBuffer.FreeExactly`); `CircularBuffer.FreePastEndFails` and `CircularBuffer.FreeAllFails` are
  histories, allowed up to that free, after which an empty buffer shows an entry or says that it is full.
* `getCBufIdx` multiplies the client number by the number of clients where the documented layout needs
  the threads per client (`Layout.LayoutExactly`). `setupCircularBuffers` does not use the entry size
  and count it is given.
* Packing and unpacking disagree on where the payload is unless the buffer is 8-byte aligned, so the
  payload is lost unless it is empty or already was where the reader looks
  (`WireFormat.PayloadExactly`).

## Model

| member | source | states |
|---|---|---|
| `Service.Serve` | simpNF/worker.c:58-215 | For every schedule, at every moment: the NIC did exactly what the bursts used say; SENDs read by the NIC are a prefix of the replies to the requests it posted, in order, each once, given field by field; the log answers each consumed request with one SEND back to its node then one RECV of its receive buffer, posted or refused, and refuses one only once 512 entries have been posted; at most 512 posts are uncompleted; at every loop head delivered = answered + waiting, answered being half the length of the log then, at most one request is taken and only that batch answered since the last one, and unanswered requests fit one batch; every turn used no more bursts than it had work, so an unanswered request was posted at most 3501 * (513 + batch size) + 10 bursts ago, plus 8 for each completion consumed, 10 for each event logged and 6 for each burst with the WQ head occupied since that turn began; once `client_done` is up the run ends within a turn and one poll; a schedule of at most 255 completions has all requests answered that were posted long enough before its end; the batching policy holds in every round; SENDs = RECVs + refused RECVs; the packet of every SEND begins with the header word; uncompleted SENDs are always in bounds, and disjoint while at most 256 of the last 512 posts are SENDs, which holds if no RECV was refused; the next header write then hits one exactly when the WQ head is valid; no abort is ever reported if the WQ is found without SABREs |
| `Workers.RunWorker` | simpNF/worker.c:121-205 | From fresh rings, stopped or not: at every loop head delivered = answered + waiting, and the log was two events long for each message answered; since the last one at most one request was taken and at most that batch answered, in order; every turn and the one under way used no more bursts than polls, completions, events and bursts with the WQ head occupied account for; in every round messages are conserved, a batch is answered whole or not at all, a timeout and each warm-up message flush it, and otherwise only full batches are answered; the "batch_counter > batch_size" warning never fires; it ends only when `client_done` was up at the last look, and at most one request beyond the pending batch is dropped |
| `Workers.WorkerTurn` | simpNF/worker.c:130-205 | One turn of the main loop leads from one loop head to the next, the batch holding exactly the requests not yet answered and the turn recorded with its cost, and keeps to the batching policy; cut short or told to leave, at most one request was taken, at most that batch answered, and no more bursts used than there was work |
| `Workers.FinishTurn` | simpNF/worker.c:163-205 | The second half of a turn: counts the message, answers the batch if it is due, and leaves the worker at a loop head |
| `Workers.Collect` | simpNF/worker.c:132-146 | The receiving half of a turn: the batch grows by the one request taken, or stays as it was |
| `Workers.Flush` | simpNF/worker.c:186-200 | A batch that has reached the batch size is answered whole and emptied, any other is left alone; it is never larger |
| `Workers.PolicyKept` | simpNF/worker.c:163-200 | The choice of batch size means: warm-up and timeout leave nothing waiting, otherwise only full batches are answered |
| `Workers.BatchProcess` | simpNF/worker.c:30-54 | Posts exactly the replies and RECVs of the collected requests, in order, with consecutive send counts, each packet headed, in ten bursts for each post and one for each time the WQ is found full; cut short, a prefix of them |
| `Workers.ServeOne` | simpNF/worker.c:37-50 | One message: the header word 0x1234 goes to its slot of the local buffer and nowhere else, then its reply with send count equal to its number, then its RECV or a refusal, and nothing else |
| `Workers.ReceiveInto` | simpNF/worker.c:132-146 | A packet extends the collected batch by the request just consumed (only the low 16 bits of the node id slot are written); a timeout or shutdown leaves it as it was, and a timeout has drained the queue or consumed one completion a poll |
| `Workers.SendCountSlot` | simpNF/worker.c:48 | The 32-bit send count selects the same buffer slot as the unbounded message number |
| `Workers.StaysSabreFree` | libzsim/zsim_nic_defines.cpp:107-117 | Whatever requests are answered, a WQ found without SABREs never holds one |
| `Rounds.TimeoutAnswersAll` | simpNF/worker.c:170-196 | After a round whose receive call timed out on a drained queue, every request posted before that call has been answered |
| `Progress.TimeoutLeavesNothing` | simpNF/worker.c:170-196 | The same up to the beginning of the last of its 500 polls |
| `Progress.AnswersInTime` | simpNF/worker.c:130-205 | From the record of the turns alone: a request posted within the first so many bursts and unanswered at the end leaves room for only so many more bursts as the worker had work |
| `Progress.LeaveInTime` | simpNF/worker.c:143-146 | Once `client_done` is raised, at most the turn under way is finished, and the run ends within a bounded number of bursts |
| `Progress.UnansweredTurns` | simpNF/worker.c:163-200 | A request that was there when a turn began is answered within 511 + batch size turns: at most one of them times out, every other brings a request |
| `Progress.FewTimeouts` | simpNF/worker.c:170-184 | While a request is unanswered at most one turn times out, and requests delivered grow by one in every other turn |
| `Progress.SmallScheduleAnswered` | simpNF/worker.c:130-205 | A schedule that offers at most 255 completions cannot fill the WQ; every request posted so many bursts before its end is answered, whatever the NIC does otherwise |
| `Progress.Pace` | simpNF/worker.c:130-205 | Any stretch of turns uses at most 3501 bursts a turn beyond those its completions, events and full-queue looks account for |
| `Endpoint.Receive` | rpc_shm/rpc.cpp:395-473 | At most 500 polls; a packet is the only request consumed by the call and the last thing consumed; the call answers shutdown if and only if `client_done` was up at its last look, which is made after the last poll, and then drops at most one request; with the flag up beforehand a single poll is made; a timeout took exactly 500 polls and 3500 bursts, consumed no request, drained what was there or consumed one completion a poll, and its last poll took what there was by then; bursts used are at most 7 a poll, 8 a completion and 6 for each with the WQ head occupied |
| `Endpoint.PollLoop` | rpc_shm/rpc.cpp:411-425 | The polling loop: ends with a request, with the flag seen up at the last look, or after 500 polls, each of which took something or found the queue drained |
| `Endpoint.PollOnce` | rpc_shm/rpc.cpp:423-425 | One turn of the polling loop: leaves it with the request consumed, or with `client_done` seen, which is certain if it was set beforehand |
| `Endpoint.Poll` | rpc_shm/rpc.cpp:423 | A poll adds a request to those taken exactly when it reports one, and that request is the entry posted; every poll consumes something or finds the queue drained |
| `Endpoint.ReadClientDone` | rpc_shm/rpc.cpp:454 | Reading the flag takes no request; the value is whether one of the bursts used before the read raised it |
| `Endpoint.PollRequests` | rpc_shm/rpc.cpp:423-425 | What a poll reports determines how the sequence of taken requests grows |
| `Endpoint.CutPollRequests` | rpc_shm/rpc.cpp:423-425 | A poll stopped anywhere has consumed at most one request |
| `Endpoint.SendToNode` | rpc_shm/rpc.cpp:252-289 | For a message of any length that ends inside the local buffer: the slot of the send count is filled, with the header word or the whole message, and no other byte changes; exactly one SEND is posted, for that slot and as many blocks as the message has, in ten bursts and one for each time the WQ head is found occupied; stopped, that SEND or nothing |
| `Endpoint.FillSlot` | rpc_shm/rpc.cpp:257-279 | The bytes 34 12 00 00 of the header word, or the message, go to the start of the slot whose address is later posted; every other byte of the local buffer is unchanged |
| `Endpoint.HeadedNext` | rpc_shm/rpc.cpp:274-276 | Writing the next header leaves the packets of all earlier sends headed, also the one whose slot it takes over |
| `Endpoint.SlotOffset` | rpc_shm/rpc.cpp:259-265 | The division by 4 loses nothing and the slot lies inside the buffer |
| `Endpoint.WholeBlocks` | libzsim/zsim_nic_defines.cpp:150-151 | A packet is announced as its exact number of cache blocks |
| `Endpoint.DoRecv` | rpc_shm/rpc.cpp:501-507 | The RECV is posted if and only if the WQ head slot is free as the call begins, otherwise lost; ten bursts are enough |
| `QueuePairs.QueuePair.CheckCq` | libzsim/zsim_nic_defines.cpp:39-136 | Consumes completions up to and including the first request, response or aborted SABRE; a message record equals the entry posted; otherwise `op` is RMC_INVAL if nothing was consumed, RMC_SABRE if the last completion names a slot that holds a SABRE, 0 if not; `success` is the verdict of the last SABRE, 1 if there was none, and no earlier SABRE was seen aborted; without message or abort everything present at the start is consumed and the WQ head is free, so the next post is accepted; every pass of the outer loop beyond the first has found the WQ head occupied; at most one turn for each completion outstanding or posted meanwhile, and bursts are bounded by passes and turns |
| `QueuePairs.QueuePair.Drain` | libzsim/zsim_nic_defines.cpp:61-126 | The inner loop: one turn for each completion consumed, hence at most those outstanding plus those posted meanwhile; ends on a message, an abort or an empty queue |
| `QueuePairs.QueuePair.Turn` | libzsim/zsim_nic_defines.cpp:67-126 | One turn of the inner loop: one completion consumed and reported, and the next entry copied, again the oldest if its phase bit matches |
| `QueuePairs.QueuePair.TakeCompletion` | libzsim/zsim_nic_defines.cpp:77-118 | Consumes exactly one completion and reports it from the copy, even if its slot is refilled at once: a message as it is; any other with operation 0 and nothing else changed, unless the slot it names holds a SABRE, and then with exactly the verdict the released slot shows at the read |
| `QueuePairs.QueuePair.TakePlain` | libzsim/zsim_nic_defines.cpp:101-117 | The branch for completions that are no messages: the operation in the named slot decides, and the verdict is that of the entry or of the one a lap later, by where the NIC was at the read |
| `QueuePairs.QueuePair.ReadOp` | libzsim/zsim_nic_defines.cpp:107 | The operation in the slot named by the completion, which no activity of the NIC changes |
| `QueuePairs.QueuePair.ReadVerdict` | libzsim/zsim_nic_defines.cpp:109 | Exactly which entry's verdict is read after the release |
| `QueuePairs.QueuePair.ReleaseTail` | libzsim/zsim_nic_defines.cpp:77-84 | The oldest completion is released, index and sense move in step, with the NIC active in between |
| `QueuePairs.QueuePair.ReadTail` | libzsim/zsim_nic_defines.cpp:63-67 | Copying field by field under interference: the phase bit matches exactly when an unconsumed completion exists, and then the copy is the oldest one, untorn |
| `QueuePairs.QueuePair.ReadTailCompletion` | libzsim/zsim_nic_defines.cpp:122 | The remaining fields of an unconsumed entry cannot change while they are read |
| `QueuePairs.QueuePair.ReadHeadValid` | libzsim/zsim_nic_defines.cpp:61 | The bit read tells whether the WQ head is free, a free head stays free, and an occupied one is on record |
| `QueuePairs.QueuePair.HwSend` | libzsim/zsim_nic_defines.cpp:139-163 | Accepted if and only if the WQ head slot is free as the call begins; then exactly that SEND is posted, otherwise nothing; never stopped with ten bursts left |
| `QueuePairs.QueuePair.HwRecv` | libzsim/zsim_nic_defines.cpp:184-204 | The same for RECV |
| `QueuePairs.QueuePair.LogRefusal` | libzsim/zsim_nic_defines.cpp:187-189 | A RECV is given up only when 512 entries have been posted |
| `QueuePairs.QueuePair.CreateWqEntry` | libzsim/zsim_nic_defines.cpp:153-182 | The WQ grows by exactly this request, or, cut short, not at all; nothing unread or in flight is touched, head and sense stay in step |
| `QueuePairs.QueuePair.StoreEntry` | libzsim/zsim_nic_defines.cpp:165-178 | The entry is stored field by field in declaration order, the NIC active after each field; until the notification the NIC sees none of it, and then the slot holds the whole entry |
| `QueuePairs.QueuePair.Notify` | libzsim/zsim_nic_defines.cpp:179-180 | At the notification the stored entry becomes the next post |
| `QueuePairs.BlocksRoundUp` | libzsim/zsim_nic_defines.cpp:150-151 | The length is rounded up to the least number of cache blocks |
| `QueuePairs.QueuePair.constructor` | libzsim/zsim_nic_defines.hpp:178-189 | Fresh rings satisfy the queue pair invariant with empty logs |
| `QueuePairs.QueuePair.NicPost` | libzsim/zsim_nic_defines.hpp:169-176 | The NIC's post succeeds exactly when fewer than 512 completions are unconsumed |
| `QueuePairs.QueuePair.NicReadRequest` | libzsim/zsim_nic_defines.hpp:156-167 | A reader that follows the phase bits reads the next posted request exactly when there is one |
| `QueuePairs.QueuePair.NicComplete` | libzsim/zsim_nic_defines.hpp:156-167 | In whatever order requests complete, the slot still holds the request read from it |
| `QueuePairs.QueuePair.NicTake` | libzsim/zsim_nic_defines.hpp:156-189 | One step with exactly its effect: a completion posted if there is room, the next request read if there is one, a slot completed, the flag raised |
| `QueuePairs.QueuePair.NicBurst` | libzsim/zsim_nic_defines.hpp:156-189 | The steps of a burst, one after the other, each with its effect |
| `QueuePairs.QueuePair.DoneFacts` | rpc_shm/rpc.cpp:425 | `client_done` is up exactly when one of the bursts used so far raised it |
| `QueuePairs.QueuePair.Interfere` | libzsim/zsim_nic_defines.hpp:156-189 | The next burst is executed with exactly the effect of its steps, in order, and the moment noted; the invariant holds, logs only grow, a free head stays free, no slot's operation changes |
| `PollReports.ReportsPlain` | libzsim/zsim_nic_defines.cpp:101-117 | What a plain completion adds to a poll's report: the operation in the slot it names decides |
| `PollReports.ReportsMessage` | libzsim/zsim_nic_defines.cpp:87-99 | What a message adds: it ends the poll, and the report is that entry |
| `PollReports.NoSabreNoAbort` | libzsim/zsim_nic_defines.cpp:107-117 | Without SABREs in the work queue `success` stays 1 |
| `Schedules.EffectInFull` | libzsim/zsim_nic_defines.hpp:156-189 | The effect of each step of the NIC, case by case |
| `Schedules.DoneExactly` | rpc_shm/rpc.cpp:425 | After any number of bursts the flag is up if and only if one of them raised it |
| `Schedules.AllPosted` | libzsim/zsim_nic_defines.hpp:169-176 | As long as at no burst more completions were offered than the ring had room for, all that were offered are posted, in order |
| `Schedules.ReplayLater` | libzsim/zsim_nic_defines.hpp:156-189 | What earlier bursts brought about does not depend on what comes later |
| `Rings.CqFront` | libzsim/zsim_nic_defines.cpp:63-67 | The phase bit under the tail matches if and only if an unconsumed entry exists, which is then the oldest; the NIC's slot is valid if and only if the ring is full |
| `Rings.CqPost` | libzsim/zsim_nic_defines.hpp:169-176 | Posting into a slot that is not valid keeps the ring a FIFO of what was posted |
| `Rings.CqRelease` | libzsim/zsim_nic_defines.cpp:77 | Clearing `valid` under the tail removes the oldest entry and no other |
| `Rings.CqReleased` | libzsim/zsim_nic_defines.cpp:109 | What a released slot holds: its old entry until the NIC is a lap ahead, then the new one |
| `Rings.CqReachableIsRing` | libzsim/zsim_nic_defines.cpp:61-126 | From a fresh ring, any number of posts by the NIC and releases by the application, each looking only at its own slot, keeps the CQ invariant |
| `StaleVerdict.StaleVerdictInput` | libzsim/zsim_nic_defines.cpp:77-109 | From any fresh CQ, for any two verdicts: a run in which entry 0 carried one and, one NIC post after its release, its slot shows the other |
| `Rings.WqFront` | libzsim/zsim_nic_defines.hpp:156-167 | The FIFO law of the WQ: new entry seen if and only if one is unread, and it is the oldest |
| `Rings.WqPost` | libzsim/zsim_nic_defines.cpp:143-161 | A post into a head slot that is not valid overwrites nothing unread or in flight |
| `Rings.WqRead` | libzsim/zsim_nic_defines.hpp:156-167 | Reading in order moves one request from unread to in flight |
| `Rings.WqComplete` | libzsim/zsim_nic_defines.hpp:160 | Completing in any order keeps every other request in place |
| `Rings.WqCapacity` | libzsim/zsim_nic_defines.cpp:143-145 | Unread and in-flight requests together never exceed 512 |
| `Rings.ReachableIsRing` | libzsim/zsim_nic_defines.cpp:139-204 | From a fresh ring, any number of posts, reads and completions in any order keeps the WQ invariant |
| `Rings.HeadValidLap` | libzsim/zsim_nic_defines.cpp:143-145 | The head slot is valid only after 512 posts |
| `Rings.WqSabreFree` | libzsim/zsim_nic_defines.cpp:107-108 | Every slot holds a posted operation or the one it was found with |
| `PhaseRing.PendingExactly` | libzsim/zsim_nic_defines.cpp:67 | The law of the phase ring, for any size: one bit of one slot tells exactly whether a producer at most a lap ahead has written it |
| `PhaseRing.AdvanceSense` | libzsim/zsim_nic_defines.cpp:78-84 | Increment, wrap and flip keep index and sense those of the unbounded position |
| `PhaseRing.WriteNext` | libzsim/zsim_nic_defines.cpp:153-161 | Writing a position changes one slot, to that position and its sense |
| `PhaseRing.LastIndexIsLatest` | libzsim/zsim_nic_defines.cpp:155-161 | The position said to be in a slot is the latest one that falls into it |
| `PhaseRing.SenseIsWriteParity` | rpc_shm/cbuf.cpp:67-69 | The bit in a slot is the parity of the writes made to that slot, counted one by one |
| `PhaseRing.DrainBound` | libzsim/zsim_nic_defines.cpp:67-126 | For any ring contents left unchanged, a drain accepts at most as many entries as the ring has |
| `Traffic.EndToEnd` | simpNF/worker.c:30-54 | If the log answers the consumed requests and the NIC has read a prefix of its posts, the SENDs read are the replies to the requests posted, in order, each once: operation, slot address, context, node, offset and length of each as the request demands |
| `Traffic.SendsAreReplies` | simpNF/worker.c:37-49 | A log that answers the requests writes exactly the replies to the first half of it, in order, each to the node in the low 16 bits of its request's `tid` |
| `Traffic.AnswersInFull` | simpNF/worker.c:37-50 | Event by event and field by field: the SEND back to the request's node, then the RECV of its receive buffer or a refusal |
| `Traffic.RequestAt` | rpc_shm/rpc.cpp:423-425 | Every completion with success code 0x7F is a request, numbered by those before it |
| `Traffic.FindRequest` | rpc_shm/rpc.cpp:423-425 | Every request is such a completion |
| `Traffic.CreditsBalance` | rpc_shm/rpc.cpp:284-287 | SENDs = RECVs + refused RECVs at message boundaries, and the WQ received everything but the refused |
| `Traffic.OnlySendsAndRecvs` | libzsim/zsim_nic_defines.cpp:153-190 | Nothing but SENDs and RECVs is ever posted |
| `Traffic.RequestsSkip` | libzsim/zsim_nic_defines.cpp:87-116 | Completions that are no requests leave the sequence of requests as it was |
| `LocalBuffers.LiveSendsInBounds` | rpc_shm/rpc.cpp:257-265 | Refusals or not, every uncompleted SEND lies inside the local buffer |
| `LocalBuffers.DisjointExactly` | rpc_shm/rpc.cpp:257-287 | After given posts, uncompleted SENDs are disjoint for every state of the NIC if and only if at most 256 of the last 512 posts are SENDs |
| `LocalBuffers.DisjointInRunsExactly` | rpc_shm/rpc.cpp:257-287 | The same over the states that runs from a fresh WQ reach: if more than 256 of the last 512 posts are SENDs, some run with just these posts ends with two uncompleted SENDs in one packet |
| `LocalBuffers.AlternationBound` | simpNF/worker.c:31-53 | With no RECV refused, at most 256 of the last 512 posts are SENDs |
| `LocalBuffers.LiveSendsDisjoint` | rpc_shm/rpc.cpp:257-287 | With no RECV refused, uncompleted SENDs use pairwise disjoint packets, in whatever order they complete |
| `LocalBuffers.HeaderHitsExactly` | rpc_shm/rpc.cpp:274-287 | Refusals or not: the header of reply s lands on an uncompleted SEND's packet if and only if SEND s - 256 or SEND s - 512 is uncompleted |
| `LocalBuffers.HeaderHitsLiveSendExactly` | rpc_shm/rpc.cpp:274-287 | The header write made before the post lands on an uncompleted SEND's packet if and only if the WQ head slot is still valid |
| `LocalBuffers.FewSendsDisjoint` | rpc_shm/rpc.cpp:257-287 | The sufficient half of `DisjointExactly`, for one state |
| `LocalBuffers.ManySendsCollide` | rpc_shm/rpc.cpp:257-287 | The necessary half: with one SEND more and the lap unread, two live SENDs share a packet |
| `RefusedRecv.HeaderHitInput` | rpc_shm/rpc.cpp:274-287 | For any 256 requests a reachable state, no RECV refused, in which the next header write hits a live SEND |
| `RefusedRecv.RefusalInput` | rpc_shm/rpc.cpp:501-507 | A reachable state in which the RECV of message 256 finds the WQ head slot valid |
| `RefusedRecv.CollisionInput` | rpc_shm/rpc.cpp:257-287 | For any 258 requests a log that answers them with a single refused RECV, refused because the head slot is valid, and a run through that state which three steps later is in a state where two uncompleted SENDs share a packet |
| `CircularBuffer.HistoryExactly` | rpc_shm/cbuf.cpp:31-58 | Through a whole history the buffer stands for the counters written and freed if and only if every write found room and every free was of entries written, shorter than the ring and not past its end |
| `CircularBuffer.WriteExactly` | rpc_shm/cbuf.cpp:31-38 | A write keeps the meaning of the indices if and only if the buffer is not full |
| `CircularBuffer.FreeExactly` | rpc_shm/cbuf.cpp:51-58 | A free keeps it if and only if `inc` is at most what is held, less than the size, and does not run past the end |
| `CircularBuffer.AvailExactly` | rpc_shm/cbuf.cpp:77-104 | `getAvailSlots` is right if and only if the buffer is not full, and then reports it empty; `getBufferSize` is right if and only if it is neither full nor empty, and its value in those two states |
| `CircularBuffer.FullBuffer` | rpc_shm/cbuf.cpp:99-104 | For every size, as many allowed writes fill the buffer, and `getAvailSlots` then reports all slots free |
| `CircularBuffer.FreeAllFails` | rpc_shm/cbuf.cpp:51-58 | For every size, a full buffer freed all at once still says that it is full |
| `CircularBuffer.FreePastEndFails` | rpc_shm/cbuf.cpp:51-58 | For every size from 3 on, an allowed history after which freeing the two entries held runs past the end and leaves one showing |
| `CircularBuffer.NeverNoneFree` | rpc_shm/cbuf.cpp:99-104 | `getAvailSlots` never returns 0 |
| `CircularBuffer.CircularReceiveBuffer.AppendEntry` | rpc_shm/rpc.cpp:345-365 | Phase bit first, then `incTail`: the assertion in `incTail` holds on every lap for every size; slots below the tail carry the buffer's bit, the rest its negation |
| `CircularBuffer.CircularReceiveBuffer.IncTail` | rpc_shm/cbuf.cpp:31-40 | The new indices, and exactly when its assertions hold |
| `CircularBuffer.CircularReceiveBuffer.IncSendersHeadToFreeSpace` | rpc_shm/cbuf.cpp:51-58 | The new indices, and exactly when its assertion holds |
| `CircularBuffer.CircularReceiveBuffer.WriteSRMetadata` | rpc_shm/cbuf.cpp:67-69 | Exactly one phase bit changes, to the buffer's own |
| `CircularBuffer.CircularReceiveBuffer.ZeroEntryNumber` | rpc_shm/cbuf.cpp:61-64 | Exactly the bytes of that entry become 0 |
| `CircularBuffer.CircularReceiveBuffer.constructor` | rpc_shm/cbuf.h:24-25 | The initial phase vector and indices stand for nothing written, nothing freed |
| `Layout.CBufIdxIsIndex` | rpc_shm/rpc.cpp:610-633 | The 32- and 64-bit computation has no wrap-around for shapes that fit and equals the unbounded formula |
| `Layout.CodeLayoutExactly` | rpc_shm/rpc.cpp:610-633 | For shapes that do not overflow, the code's own 32- and 64-bit computation is a bijection onto the buffers that keeps each server in its documented region if and only if there is one client or as many clients as threads per client |
| `Layout.LayoutExactly` | rpc_shm/rpc.cpp:610-633 | The same for the formula in unbounded arithmetic, for every shape |
| `Layout.RegionOverrun` | rpc_shm/rpc.cpp:628-629 | With fewer threads than clients the last party leaves its server's region |
| `Layout.Collision` | rpc_shm/rpc.cpp:628-629 | With more threads than clients two parties get the same buffer |
| `Layout.CodeMemoryExactly` | rpc_shm/rpc.cpp:514-526 | For the buffers the code computes: every party has one and no two (server, client, thread, entry) tuples share a byte, under exactly the same condition |
| `Layout.MemoryExactly` | rpc_shm/rpc.cpp:514-526 | The same for the formula in unbounded arithmetic |
| `Layout.SetupCircularBuffers` | rpc_shm/rpc.cpp:514-526 | Buffer number b starts b whole buffers into the context; all are fresh, distinct and empty |
| `Layout.ZeroOutRBufHead` | rpc_shm/rpc.cpp:565-570 | The head entry becomes 0 and every other entry of every buffer is unchanged |
| `WireFormat.CopyIn` | rpc_shm/rpc.cpp:278 | Exactly the given bytes are copied to the given place |
| `WireFormat.PackHeader` | rpc_shm/rpc.cpp:654-667 | The header fields land at their offsets, little-endian byte by byte, and no other byte changes |
| `WireFormat.PackPayload` | rpc_shm/rpc.cpp:650-671 | Memory afterwards is the reference layout, byte by byte, with the payload's place depending on the address |
| `WireFormat.HeaderRoundTrip` | rpc_shm/rpc.cpp:706-732 | Unpacking returns every header field and the payload length, at every address and even if the 32-bit length wraps |
| `WireFormat.PayloadExactly` | rpc_shm/rpc.cpp:668-732 | The payload comes back, whatever memory held before, if and only if the buffer is 8-byte aligned, the payload is empty, or it already was where the reader looks |
| `WireFormat.OffsetsAgree` | rpc_shm/rpc.cpp:26-35 | Packer and unpacker agree on the payload's offset exactly at multiples of 8 |
| `WireFormat.MisplacedPayload` | rpc_shm/rpc.cpp:668-671 | In every other case a memory exists for which a wrong byte comes back |

## Left out

- Workers.RunWorker: `tmp_count` counts without bound, where the source's `int` overflows after 2^31 packets; timestamps, heartbeats and the other simulator notifications are skips.
- Endpoint.Receive: the source leaves `payload_len` of a packet unset; the model takes it to differ from the two sentinels, and returns packet, timeout and shutdown as three cases.
- Endpoint.SendToNode: the payload copied is not in the local buffer itself; overlapping copies are not modelled.
- QueuePairs.QueuePair.CreateWqEntry: a NIC that reads an entry before it is notified of it is not modelled.
- QueuePairs.QueuePair.CheckCq: it need not end while the WQ head stays occupied, which is up to the NIC; `tid` and buffer address of a result that reports no message are arbitrary, as in the source.
- CircularBuffer.CircularReceiveBuffer.IncSendersHeadToFreeSpace: `size_t` overflow of the index is not modelled.
- WireFormat.PackPayload: the other platforms' branch, where packer and unpacker step differently over the type byte and no round trip exists; overlapping source and destination.
- Layout.SetupCircularBuffers: allocation of the context; whether it is large enough is the caller's concern.
- The receiver's `head` index, the poll callback and the address getters of the circular buffer: simple accessors.
- Context creation, registration of queues, buffers and contexts: allocation and foreign calls.
- `simpNF/main.c`: option parsing, thread creation and pinning.
- `StatsContainer`, `DumpHex.c`, `test_htonl.c`: file output, printing and timing.
- `libzsim/RMCdefines.h`: constants the modelled code does not include.
