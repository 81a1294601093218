/**
  The RPC endpoint operations of the worker, on top of the queue pair: receive one request, send
  one reply, give one receive buffer back.
 */
module Endpoint {
  import opened PhaseRing
  import opened Rings
  import opened Traffic
  import opened Schedules
  import opened PollReports
  import opened QueuePairs
  import opened WireFormat
  import opened LocalBuffers

  /** What a receive call brings: a packet with its receive buffer and source node, a timeout
      (`payload_len` 0xbeef), or the order to leave (`payload_len` 0xdead). */
  datatype Incoming = Packet(payload: nat, nid: nat) | Timeout | Done

  /** A poll adds a request to those received exactly when it says so. */
  lemma PollRequests(ret: PollResult, posted: seq<Completion>, from: nat, to: nat, ops: seq<nat>)
    requires Reports(ret, posted, from, to, ops)
    ensures Requests(posted[..to]) ==
            Requests(posted[..from]) + (if ret.op == RMC_INCOMING_SEND then [posted[to - 1]] else [])
  {
    if ret.IsMessage() {
      RequestsSkip(posted, from, to - 1);
      RequestsSnoc(posted, to - 1);
    } else {
      RequestsSkip(posted, from, to);
    }
  }

  /** A poll cut short has consumed at most one request. */
  lemma CutPollRequests(posted: seq<Completion>, from: nat, to: nat)
    requires from <= to <= |posted| && PlainRange(posted, from, to - 1)
    ensures AtMostOneMore(Requests(posted[..from]), Requests(posted[..to]))
  {
    if from < to {
      RequestsSkip(posted, from, to - 1);
      RequestsSnoc(posted, to - 1);
    }
  }

  ghost predicate AtMostOneMore(before: seq<Completion>, after: seq<Completion>) {
    before <= after && |after| <= |before| + 1
  }

  /** One call of `rmc_check_cq`, seen as requests received. */
  method Poll(qp: QueuePair) returns (r: Result<PollResult>)
    requires qp.Valid()
    modifies qp.wq, qp.cq, qp`nic, qp`cqTail, qp`cqSR, qp`cqConsumed
    ensures qp.Shared() && old(qp.cqConsumed) <= qp.cqConsumed && (r.Ok? ==> qp.Valid())
    ensures Took(old(qp.nic), qp.nic, r.Ok?,
                 6 + 8 * (qp.cqConsumed - old(qp.cqConsumed)) + 6 * Jams(old(qp.nic), qp.nic))
    ensures r.Ok? ==> Spent(old(qp.nic), qp.nic) >= 6
    ensures r.Ok? ==> qp.nic.trace[|old(qp.nic).trace|].consumed == old(qp.cqConsumed)
    ensures AtMostOneMore(old(qp.Taken()), qp.Taken())
    ensures r.Ok? && r.value.op == RMC_INCOMING_SEND ==>
            && 0 < qp.cqConsumed <= |qp.nic.posted|
            && qp.nic.posted[qp.cqConsumed - 1] == Completion(INCOMING_REQUEST, r.value.tid, r.value.recvBufAddr)
            && qp.Taken() == old(qp.Taken()) + [qp.nic.posted[qp.cqConsumed - 1]]
    ensures r.Ok? && r.value.op != RMC_INCOMING_SEND ==> qp.Taken() == old(qp.Taken())
    ensures r.Ok? ==> old(qp.cqConsumed) < qp.cqConsumed || |old(qp.nic).posted| <= qp.cqConsumed
    ensures r.Ok? && SabreFree(qp.wqStart, qp.wqPosted) ==> r.value.success == 1
  {
    hide qp.Shared, qp.HeadFree, qp.OpsNow, Crowded, SabreFree, Requests, Sense, Slot;
    var passes, turns;
    r, passes, turns := qp.CheckCq();
    assert old(qp.nic).posted[..old(qp.cqConsumed)] == qp.nic.posted[..old(qp.cqConsumed)];
    if r.Ok? {
      PollRequests(r.value, qp.nic.posted, old(qp.cqConsumed), qp.cqConsumed, qp.OpsNow());
    } else {
      CutPollRequests(qp.nic.posted, old(qp.cqConsumed), qp.cqConsumed);
    }
  }

  /** Reads the flag; the answer is yes exactly if it was raised before the burst that follows. */
  method ReadClientDone(qp: QueuePair) returns (r: Result<bool>)
    requires qp.Valid()
    modifies qp.wq, qp.cq, qp`nic
    ensures qp.Valid() && Took(old(qp.nic), qp.nic, r.Ok?, 1) && qp.Taken() == old(qp.Taken())
    ensures r.Ok? ==> r.value == old(qp.nic).clientDone
    ensures r.Ok? ==> (r.value <==> DoneBy(qp.script, |qp.nic.trace| - 1))
  {
    hide qp.Shared, qp.HeadFree, qp.OpsNow, qp.LastPosted, Executed, Crowded, Requests, DoneBy, Sense, Slot;
    qp.DoneFacts();
    var done := qp.nic.clientDone;
    var o := qp.Interfere();
    assert old(qp.nic).posted[..qp.cqConsumed] == qp.nic.posted[..qp.cqConsumed];
    return if o.Ok? then Ok(done) else Stopped;
  }

  /** From a to b a single poll was made: it took everything posted before it, or at least one completion. */
  ghost predicate PolledSince(a: Nic, b: Nic, had: nat, consumed: nat) {
    && Later(a, b) && |a.trace| < |b.trace| && b.trace[|a.trace|].consumed == had <= consumed
    && (|a.posted| <= consumed || had < consumed)
    && Spent(a, b) <= 7 + 8 * (consumed - had) + 6 * Jams(a, b)
  }

  /** One turn of the polling loop: poll and, if no request came, see whether the worker is to leave. */
  method PollOnce(qp: QueuePair) returns (r: Result<PollResult>, leave: bool, aborted: bool)
    requires qp.Valid()
    modifies qp.wq, qp.cq, qp`nic, qp`cqTail, qp`cqSR, qp`cqConsumed
    ensures qp.Shared() && old(qp.cqConsumed) <= qp.cqConsumed && (r.Ok? ==> qp.Valid())
    ensures Took(old(qp.nic), qp.nic, r.Ok?,
                 7 + 8 * (qp.cqConsumed - old(qp.cqConsumed)) + 6 * Jams(old(qp.nic), qp.nic))
    ensures r.Ok? ==> PolledSince(old(qp.nic), qp.nic, old(qp.cqConsumed), qp.cqConsumed)
    ensures AtMostOneMore(old(qp.Taken()), qp.Taken())
    ensures r.Ok? && r.value.op == RMC_INCOMING_SEND ==>
            && 0 < qp.cqConsumed <= |qp.nic.posted| && leave
            && qp.nic.posted[qp.cqConsumed - 1] == Completion(INCOMING_REQUEST, r.value.tid, r.value.recvBufAddr)
            && qp.Taken() == old(qp.Taken()) + [qp.nic.posted[qp.cqConsumed - 1]]
    ensures r.Ok? && r.value.op != RMC_INCOMING_SEND ==>
            && qp.Taken() == old(qp.Taken()) && Spent(old(qp.nic), qp.nic) >= 7
            && (leave <==> DoneBy(qp.script, |qp.nic.trace| - 1))
            && (old(qp.nic).clientDone ==> leave) && (leave ==> qp.nic.clientDone)
    ensures r.Ok? ==> old(qp.cqConsumed) < qp.cqConsumed || |old(qp.nic).posted| <= qp.cqConsumed
    ensures r.Ok? ==> (aborted <==> r.value.success != 1)
    ensures SabreFree(qp.wqStart, qp.wqPosted) ==> !aborted
  {
    hide qp.Shared, qp.Taken, SabreFree, Crowded, DoneBy, Sense, Slot;
    leave := true;
    r := Poll(qp);
    aborted := r.Ok? && r.value.success != 1;
    if r.Ok? && r.value.op != RMC_INCOMING_SEND {
      var done := ReadClientDone(qp);
      if done.Stopped? {
        return Stopped, leave, aborted;
      }
      leave := done.value;
    }
  }

  /** The polling loop: until a request comes, the flag is seen up, or 500 polls were made. `aborts`
      counts the polls that report an abort, and the last poll began when `looked` bursts were used. */
  method PollLoop(qp: QueuePair)
    returns (r: Result<PollResult>, timeout: bool, polls: nat, aborts: nat, looked: nat)
    requires qp.Valid()
    modifies qp.wq, qp.cq, qp`nic, qp`cqTail, qp`cqSR, qp`cqConsumed
    ensures qp.Shared() && old(qp.cqConsumed) <= qp.cqConsumed && (r.Ok? ==> qp.Valid())
    ensures Took(old(qp.nic), qp.nic, r.Ok?,
                 7 * polls + 8 * (qp.cqConsumed - old(qp.cqConsumed)) + 6 * Jams(old(qp.nic), qp.nic))
    ensures AtMostOneMore(old(qp.Taken()), qp.Taken())
    ensures 1 <= polls <= 500 && (old(qp.nic).clientDone ==> polls == 1)
    ensures |old(qp.nic).posted| <= qp.cqConsumed || polls <= qp.cqConsumed - old(qp.cqConsumed) + 1
    ensures r.Ok? && !timeout && r.value.op == RMC_INCOMING_SEND ==>
            && 0 < qp.cqConsumed <= |qp.nic.posted|
            && qp.nic.posted[qp.cqConsumed - 1] == Completion(INCOMING_REQUEST, r.value.tid, r.value.recvBufAddr)
            && qp.Taken() == old(qp.Taken()) + [qp.nic.posted[qp.cqConsumed - 1]]
    ensures r.Ok? && !timeout && r.value.op != RMC_INCOMING_SEND ==> qp.Taken() == old(qp.Taken()) && qp.nic.clientDone
    ensures r.Ok? && timeout ==>
            && polls == 500 && qp.Taken() == old(qp.Taken()) && !DoneBy(qp.script, |qp.nic.trace| - 1)
            && (|old(qp.nic).posted| <= qp.cqConsumed || old(qp.cqConsumed) + 500 <= qp.cqConsumed)
            && Spent(old(qp.nic), qp.nic) >= 7 * 500 && looked >= |old(qp.nic).trace|
            && qp.TraceShared() && LastLook(qp.script, qp.nic.trace, qp.log, qp.cqConsumed, looked)
    ensures SabreFree(qp.wqStart, qp.wqPosted) ==> aborts == 0
  {
    hide qp.Shared, qp.Taken, SabreFree, Crowded, DoneBy, TraceSide, PolledSince, LastLook, Sense, Slot, Later;
    hide Polling, Took, Spent, Jams;
    PollingStarts(qp.nic, qp.cqConsumed);
    timeout, polls, aborts, looked := false, 0, 0, |qp.nic.trace|;
    var ret := PollResult(1, RMC_INVAL, 0, 0);
    ghost var nic0: Nic, had: nat := qp.nic, qp.cqConsumed;
    qp.TraceFacts();
    while true
      invariant qp.Valid() && Polling(old(qp.nic), qp.nic, old(qp.cqConsumed), qp.cqConsumed, polls)
      invariant qp.Taken() == old(qp.Taken())
      invariant polls <= MAX_POLLS && (SabreFree(qp.wqStart, qp.wqPosted) ==> aborts == 0)
      invariant |old(qp.nic).trace| <= looked == |nic0.trace|
      invariant TraceSide(qp.script, nic0.trace, nic0.schedule, had, qp.log, nic0.Seen())
      invariant polls > 0 ==>
                  PolledSince(nic0, qp.nic, had, qp.cqConsumed) && !DoneBy(qp.script, |qp.nic.trace| - 1)
      decreases |qp.nic.schedule|
    {
      if polls + 1 > MAX_POLLS {
        LookBack(qp, nic0, had, looked);
        PollingOver(old(qp.nic), qp.nic, old(qp.cqConsumed), qp.cqConsumed, polls);
        return Ok(ret), true, polls, aborts, looked;
      }
      polls := polls + 1;
      looked := |qp.nic.trace|;
      nic0, had := qp.nic, qp.cqConsumed;
      qp.TraceFacts();
      var o, leave, aborted := PollOnce(qp);
      aborts := if aborted then aborts + 1 else aborts;
      PollingNext(old(qp.nic), nic0, qp.nic, old(qp.cqConsumed), had, qp.cqConsumed, polls - 1, o.Ok?);
      ret :- o;
      if leave {
        return Ok(ret), false, polls, aborts, looked;
      }
    }
  }

  /** What a receive call may cost and what its outcome says about time: it began at a and ended at b. */
  ghost predicate Heard(script: seq<seq<NicStep>>, a: Nic, b: Nic, c0: nat, c: nat, log: seq<Event>,
                        r: Result<Incoming>, polls: nat, looked: nat) {
    && c0 <= c && Took(a, b, r.Ok?, 7 * polls + 1 + 8 * (c - c0) + 6 * Jams(a, b))
    && 1 <= polls <= 500 && (a.clientDone ==> polls == 1)
    && (r.Ok? ==> (r.value.Done? <==> DoneBy(script, |b.trace| - 1)))
    && (r.Ok? && a.clientDone ==> r.value.Done?)
    && (r.Ok? && r.value.Timeout? ==>
          && Spent(a, b) >= 7 * 500 && looked >= |a.trace|
          && |b.trace| <= |script| && Dated(b.trace, log) && LastLook(script, b.trace, log, c, looked))
  }

  /** `receiveRPCRequest_zsim_l3fwd`: at most 500 polls. A packet is the one request consumed by the
      call, and the last thing consumed; a timeout has consumed no request, and either all that was in
      the queue to begin with or one completion a poll; on `Done` at most one request has been
      consumed, and it is dropped. It is `Done` if and only if `client_done` was up when last read,
      and a single poll is made if it was up beforehand. */
  method Receive(qp: QueuePair) returns (r: Result<Incoming>, polls: nat, aborts: nat, looked: nat)
    requires qp.Valid()
    modifies qp.wq, qp.cq, qp`nic, qp`cqTail, qp`cqSR, qp`cqConsumed
    ensures qp.Shared() && old(qp.cqConsumed) <= qp.cqConsumed && (r.Ok? ==> qp.Valid())
    ensures Took(old(qp.nic), qp.nic, r.Ok?,
                 7 * polls + 1 + 8 * (qp.cqConsumed - old(qp.cqConsumed)) + 6 * Jams(old(qp.nic), qp.nic))
    ensures AtMostOneMore(old(qp.Taken()), qp.Taken())
    ensures 1 <= polls <= 500 && (old(qp.nic).clientDone ==> polls == 1)
    ensures r.Ok? ==> (r.value.Done? <==> DoneBy(qp.script, |qp.nic.trace| - 1))
    ensures r.Ok? && r.value.Packet? ==>
            && 0 < qp.cqConsumed <= |qp.nic.posted|
            && var e := qp.nic.posted[qp.cqConsumed - 1];
            && qp.Taken() == old(qp.Taken()) + [e]
            && r.value == Packet(e.recvBufAddr, e.tid % 0x1_0000)
    ensures r.Ok? && r.value.Timeout? ==>
            && polls == 500 && qp.Taken() == old(qp.Taken())
            && (|old(qp.nic).posted| <= qp.cqConsumed || old(qp.cqConsumed) + 500 <= qp.cqConsumed)
            && Spent(old(qp.nic), qp.nic) >= 7 * polls && looked >= |old(qp.nic).trace|
            && qp.TraceShared() && LastLook(qp.script, qp.nic.trace, qp.log, qp.cqConsumed, looked)
    // as long as what was there to begin with is not all taken, every poll but the last took something
    ensures |old(qp.nic).posted| <= qp.cqConsumed || polls <= qp.cqConsumed - old(qp.cqConsumed) + 1
    ensures r.Ok? && r.value.Done? ==> qp.nic.clientDone
    ensures r.Ok? && old(qp.nic).clientDone ==> r.value.Done?
    ensures SabreFree(qp.wqStart, qp.wqPosted) ==> aborts == 0
  {
    hide qp.Shared, qp.Taken, SabreFree, Crowded, DoneBy, TraceSide, LastLook, Sense, Slot, Later;
    LaterChain();
    var timeout, ret;
    ret, timeout, polls, aborts, looked := PollLoop(qp);
    if ret.Stopped? {
      return Stopped, polls, aborts, looked;
    }
    if timeout {
      return Ok(Timeout), polls, aborts, looked;
    }
    var done :- ReadClientDone(qp);
    if done {
      return Ok(Done), polls, aborts, looked;
    }
    return Ok(Packet(ret.value.recvBufAddr, ret.value.tid % 0x1_0000)), polls, aborts, looked;
  }

  /** What the polls finished so far have cost and taken. */
  ghost predicate Polling(a: Nic, b: Nic, c0: nat, c: nat, polls: nat) {
    && Later(a, b) && c0 <= c
    && 7 * polls <= Spent(a, b) <= 7 * polls + 8 * (c - c0) + 6 * Jams(a, b)
    && (|a.posted| <= c || c0 + polls <= c)
    && (a.clientDone ==> polls == 0)
  }

  lemma PollingStarts(a: Nic, c: nat)
    ensures Polling(a, a, c, c, 0)
  {
  }

  lemma PollingNext(a: Nic, b: Nic, b': Nic, c0: nat, c: nat, c': nat, polls: nat, finished: bool)
    requires Polling(a, b, c0, c, polls) && Took(b, b', finished, 7 + 8 * (c' - c) + 6 * Jams(b, b')) && c <= c'
    requires finished ==> |b.posted| <= c' || c < c'
    ensures Took(a, b', finished, 7 * (polls + 1) + 8 * (c' - c0) + 6 * Jams(a, b')) && c0 <= c'
    ensures |a.posted| <= c' || polls + 1 <= c' - c0 + 1
    ensures a.clientDone ==> polls == 0 && b.clientDone
    ensures |b'.schedule| + Spent(b, b') == |b.schedule| && |a.trace| <= |b.trace|
    ensures finished && Spent(b, b') >= 7 && !a.clientDone ==> Polling(a, b', c0, c', polls + 1)
    ensures finished ==> Spent(b, b') >= 1
  {
    hide Crowded;
  }

  lemma PollingOver(a: Nic, b: Nic, c0: nat, c: nat, polls: nat)
    requires Polling(a, b, c0, c, polls) && polls > 0
    ensures Took(a, b, true, 7 * polls + 8 * (c - c0) + 6 * Jams(a, b)) && Spent(a, b) >= 7 * polls && c0 <= c
    ensures |a.posted| <= c || c0 + polls <= c
    ensures !a.clientDone
  {
  }

  lemma LookBack(qp: QueuePair, nic0: Nic, had: nat, looked: nat)
    requires qp.Valid() && PolledSince(nic0, qp.nic, had, qp.cqConsumed) && looked == |nic0.trace|
    requires TraceSide(qp.script, nic0.trace, nic0.schedule, had, qp.log, nic0.Seen())
    ensures qp.TraceShared() && LastLook(qp.script, qp.nic.trace, qp.log, qp.cqConsumed, looked)
  {
    hide qp.RingsShared, Crowded, Replay;
    SeenThen(qp.script, nic0.trace, nic0.schedule, had, qp.log, nic0.Seen(),
             qp.nic.trace, qp.nic.schedule, qp.cqConsumed, qp.log, qp.nic.Seen());
    assert qp.nic.trace[..looked] == nic0.trace;
  }

  /** The local buffer as the worker maps it: MSGS_PER_PAIR slots of one packet. */
  ghost predicate GoodLocalBuffer(cfg: Config, lbuf: array<byte>) {
    GoodConfig(cfg) && lbuf.Length == MSGS_PER_PAIR * cfg.packetSize
  }

  /** The offset in 32-bit words, obtained by dividing bytes by 4, lands on the first byte of a slot,
      and the whole slot is inside the buffer. */
  lemma SlotOffset(cfg: Config, slot: nat)
    requires GoodConfig(cfg) && slot < MSGS_PER_PAIR
    ensures 4 * ((slot * cfg.packetSize) / 4) == slot * cfg.packetSize
    ensures slot * cfg.packetSize + cfg.packetSize <= MSGS_PER_PAIR * cfg.packetSize
  {
    var blocks := cfg.packetSize / CACHE_BLOCK_SIZE;
    WordsOfSlot(slot, blocks);
    MulBelow(slot, MSGS_PER_PAIR, cfg.packetSize);
  }

  lemma WordsOfSlot(slot: nat, blocks: nat)
    ensures 4 * ((slot * (64 * blocks)) / 4) == slot * (64 * blocks)
  {
    assert slot * (64 * blocks) == 4 * (16 * (slot * blocks));
  }

  /** `lbuf_offset`: where the slot for a send starts, in 32-bit words. */
  function WordOffset(cfg: Config, rpcSendCount: nat): nat {
    ((rpcSendCount % MSGS_PER_PAIR) * cfg.packetSize) / 4
  }

  /** A whole number of cache blocks is sent as that number. */
  lemma WholeBlocks(cfg: Config)
    requires GoodConfig(cfg)
    ensures Blocks(cfg.packetSize) == cfg.packetSize / CACHE_BLOCK_SIZE
  {
  }

  /** The message to send: where it is, if it is copied at all, and how many bytes it has. */
  datatype Message = Message(skipcpy: bool, rawPayload: seq<byte>, messageByteSize: nat) {
    /** A message that is copied is there to be read, and ends inside the local buffer. */
    predicate Copyable(cfg: Config, slot: nat) {
      skipcpy ||
      (messageByteSize <= |rawPayload| && slot * cfg.packetSize + messageByteSize <= MSGS_PER_PAIR * cfg.packetSize)
    }

    /** What goes into the slot: a header word only, or the whole message. */
    function SlotBytes(): seq<byte>
      requires skipcpy || messageByteSize <= |rawPayload|
    {
      if skipcpy then Le32(0x1234) else rawPayload[..messageByteSize]
    }
  }

  /** The buffer after these bytes were put into it. */
  ghost predicate Filled(before: seq<byte>, after: seq<byte>, at: int, bytes: seq<byte>) {
    0 <= at <= at + |bytes| <= |before| && after == before[..at] + bytes + before[at + |bytes|..]
  }

  /** Fills the slot named by the send count, from its first byte on; no other byte changes. */
  method FillSlot(cfg: Config, lbuf: array<byte>, rpcSendCount: nat, message: Message) returns (netBuffer: nat)
    requires GoodLocalBuffer(cfg, lbuf) && message.Copyable(cfg, rpcSendCount % MSGS_PER_PAIR)
    modifies lbuf
    ensures netBuffer == SlotAddress(cfg, rpcSendCount)
    ensures Filled(old(lbuf[..]), lbuf[..], netBuffer - cfg.lbufBase,
                   if message.skipcpy then [0x34, 0x12, 0, 0] else message.rawPayload[..message.messageByteSize])
  {
    hide WordOffset, SlotAddress, GoodConfig;
    SlotStart(cfg, rpcSendCount, message);
    var lbufOffset := WordOffset(cfg, rpcSendCount);
    netBuffer := cfg.lbufBase + 4 * lbufOffset;
    CopyIn(lbuf, 4 * lbufOffset, message.SlotBytes());
  }

  lemma SlotStart(cfg: Config, rpcSendCount: nat, message: Message)
    requires GoodConfig(cfg) && message.Copyable(cfg, rpcSendCount % MSGS_PER_PAIR)
    ensures cfg.lbufBase + 4 * WordOffset(cfg, rpcSendCount) == SlotAddress(cfg, rpcSendCount)
    ensures 4 * WordOffset(cfg, rpcSendCount) + |message.SlotBytes()| <= MSGS_PER_PAIR * cfg.packetSize
  {
    SlotOffset(cfg, rpcSendCount % MSGS_PER_PAIR);
  }

  /** `sendToNode_zsim`: fill the slot named by the send count, then retry the post until the work
      queue takes it. Exactly one SEND is posted, pointing at that slot, as long as the message; cut
      short, the call has posted it or nothing. */
  method SendToNode(qp: QueuePair, cfg: Config, lbuf: array<byte>, destNode: nat, rpcSendCount: nat, message: Message)
    returns (r: Result<()>)
    requires qp.Valid() && GoodLocalBuffer(cfg, lbuf) && message.Copyable(cfg, rpcSendCount % MSGS_PER_PAIR)
    modifies lbuf, qp.wq, qp.cq, qp`nic, qp`store, qp`wqHead, qp`wqSR, qp`wqPosted, qp`log
    ensures qp.Shared() && qp.Taken() == old(qp.Taken()) && (r.Ok? ==> qp.Valid())
    ensures Took(old(qp.nic), qp.nic, r.Ok?, 10 + Jams(old(qp.nic), qp.nic))
    ensures var request := WorkRequest(RMC_SEND, SlotAddress(cfg, rpcSendCount), SR_CTX_ID, destNode, 0,
                                       Blocks(message.messageByteSize));
            qp.log == old(qp.log) + [SendPosted(request)] || (r.Stopped? && qp.log == old(qp.log))
    ensures Filled(old(lbuf[..]), lbuf[..], SlotAddress(cfg, rpcSendCount) - cfg.lbufBase,
                   if message.skipcpy then [0x34, 0x12, 0, 0] else message.rawPayload[..message.messageByteSize])
  {
    hide qp.Shared, qp.HeadFree, Crowded, Requests, SlotAddress, Blocks, Sense, Slot, Filled;
    var netBuffer := FillSlot(cfg, lbuf, rpcSendCount, message);
    ghost var filled := lbuf[..];
    ghost var posted := SendPosted(
      WorkRequest(RMC_SEND, netBuffer, SR_CTX_ID, destNode, 0, Blocks(message.messageByteSize)));
    var accepted := false;
    while !accepted
      invariant lbuf[..] == filled
      invariant qp.Valid() && Later(old(qp.nic), qp.nic)
      invariant qp.log == if accepted then old(qp.log) + [posted] else old(qp.log)
      invariant Spent(old(qp.nic), qp.nic) <= (if accepted then 10 else 0) + Jams(old(qp.nic), qp.nic)
      invariant accepted ==> Spent(old(qp.nic), qp.nic) >= 1
      decreases |qp.nic.schedule|
    {
      var o := qp.HwSend(SR_CTX_ID, netBuffer, message.messageByteSize, destNode);
      assert old(qp.nic).posted[..qp.cqConsumed] == qp.nic.posted[..qp.cqConsumed];
      if o.Stopped? {
        return Stopped;
      }
      accepted := o.value;
    }
    assert old(qp.nic).posted[..qp.cqConsumed] == qp.nic.posted[..qp.cqConsumed];
    return Ok(());
  }

  /** The packets of the first n sends begin with the header word. */
  ghost predicate Headed(cfg: Config, bytes: seq<byte>, n: nat) {
    && |bytes| == MSGS_PER_PAIR * cfg.packetSize
    && forall i: nat :: i < n ==> HeaderAt(cfg, bytes, i)
  }

  ghost predicate HeaderAt(cfg: Config, bytes: seq<byte>, i: nat) {
    var at := SlotAddress(cfg, i) - cfg.lbufBase;
    0 <= at <= at + 4 <= |bytes| && bytes[at..at + 4] == [0x34, 0x12, 0, 0]
  }

  /** The next header leaves those written before in place, also where it takes over a slot. */
  lemma HeadedNext(cfg: Config, before: seq<byte>, after: seq<byte>, n: nat)
    requires GoodConfig(cfg) && Headed(cfg, before, n)
    requires Filled(before, after, SlotAddress(cfg, n) - cfg.lbufBase, [0x34, 0x12, 0, 0])
    ensures Headed(cfg, after, n + 1)
  {
    hide SlotAddress;
    forall i: nat | i < n + 1
      ensures HeaderAt(cfg, after, i)
    {
      var at, a := SlotAddress(cfg, n) - cfg.lbufBase, SlotAddress(cfg, i) - cfg.lbufBase;
      SlotsApart(cfg, i, n);
      SameAddress(cfg, i, n);
      if i < n && a != at {
        assert HeaderAt(cfg, before, i);
        KeptSlice(before, after, at, [0x34, 0x12, 0, 0], a);
      }
    }
  }

  lemma SameAddress(cfg: Config, i: nat, n: nat)
    ensures i % MSGS_PER_PAIR == n % MSGS_PER_PAIR ==> SlotAddress(cfg, i) == SlotAddress(cfg, n)
  {
  }

  lemma KeptSlice(before: seq<byte>, after: seq<byte>, at: int, bytes: seq<byte>, a: int)
    requires Filled(before, after, at, bytes) && |bytes| == 4
    requires 0 <= a && a + 4 <= |before| && (a + 4 <= at || at + 4 <= a)
    ensures |after| == |before| && after[a..a + 4] == before[a..a + 4]
  {
  }

  /** A buffer to begin with. */
  lemma HeadedNothing(cfg: Config, bytes: seq<byte>)
    requires |bytes| == MSGS_PER_PAIR * cfg.packetSize
    ensures Headed(cfg, bytes, 0)
  {
  }

  /** `do_Recv_zsim`: one RECV for the buffer at `payload`, posted if and only if the head slot of the
      work queue is free as the call begins, and otherwise lost. */
  method DoRecv(qp: QueuePair, payload: nat, freeSizeBytes: nat) returns (r: Result<()>)
    requires qp.Valid()
    modifies qp.wq, qp.cq, qp`nic, qp`store, qp`wqHead, qp`wqSR, qp`wqPosted, qp`log
    ensures qp.Shared() && qp.Taken() == old(qp.Taken()) && (r.Ok? ==> qp.Valid())
    ensures Took(old(qp.nic), qp.nic, r.Ok?, 10) && (|old(qp.nic).schedule| >= 10 ==> r.Ok?)
    ensures var request := WorkRequest(RMC_RECV, payload, SR_CTX_ID, 0, 0, freeSizeBytes);
            var event := if old(qp.HeadFree()) then RecvPosted(request) else RecvRefused;
            qp.log == old(qp.log) + [event] || (r.Stopped? && qp.log == old(qp.log))
  {
    hide qp.Shared, qp.HeadFree, Crowded, Requests, Sense, Slot;
    r := qp.HwRecv(SR_CTX_ID, payload, freeSizeBytes);
    assert old(qp.nic).posted[..qp.cqConsumed] == qp.nic.posted[..qp.cqConsumed];
  }
}
