/**
  The worker thread: receive requests into a batch, answer the batch, stop when told to. Batching
  is off for the first WARM_UP messages and a timeout flushes whatever has been collected.
 */
module Workers {
  import opened Rings
  import opened Traffic
  import opened Schedules
  import opened QueuePairs
  import opened Rounds
  import opened Progress
  import opened WireFormat
  import opened Endpoint

  /** The first n entries of the batch arrays describe the requests from number `sent` on. */
  ghost predicate Collected(rpcs: seq<Incoming>, ids: seq<nat>, n: nat, requests: seq<Completion>, sent: nat) {
    && n <= |rpcs| && n <= |ids| && sent + n <= |requests|
    && forall j :: 0 <= j < n ==>
         && rpcs[j] == Packet(requests[sent + j].recvBufAddr, requests[sent + j].tid % 0x1_0000)
         && ids[j] == requests[sent + j].tid % 0x1_0000
  }

  /** A 32-bit send count names the same local buffer slot as the unbounded one. */
  lemma SendCountSlot(cfg: Config, sent: nat)
    ensures SlotAddress(cfg, sent % 0x1_0000_0000) == SlotAddress(cfg, sent)
  {
    assert (sent % 0x1_0000_0000) % MSGS_PER_PAIR == sent % MSGS_PER_PAIR;
  }

  /** What a stretch of posting may cost: ten bursts for each event logged, and one that was cut short. */
  function PostCost(logged: int, jams: int, finished: bool): int {
    10 * logged + jams + (if finished then 0 else 10)
  }

  /** One turn of the posting loop: the reply to request number `sent`, then its RECV. */
  method ServeOne(qp: QueuePair, cfg: Config, lbuf: array<byte>, nodeId: nat, payload: nat, sent: nat)
    returns (r: Result<()>)
    requires qp.Valid() && GoodLocalBuffer(cfg, lbuf) && Headed(cfg, lbuf[..], sent)
    requires |qp.log| == 2 * sent && Answers(cfg, qp.log, qp.Taken()) && sent < |qp.Taken()|
    requires nodeId == qp.Taken()[sent].tid % 0x1_0000 && payload == qp.Taken()[sent].recvBufAddr
    modifies lbuf, qp.wq, qp.cq, qp`nic, qp`store, qp`wqHead, qp`wqSR, qp`wqPosted, qp`log
    ensures qp.Shared() && qp.Taken() == old(qp.Taken()) && (r.Ok? ==> qp.Valid() && |qp.log| == 2 * sent + 2)
    ensures Answers(cfg, qp.log, qp.Taken()) && 2 * sent <= |qp.log| <= 2 * sent + 2 && old(qp.log) <= qp.log
    ensures Took(old(qp.nic), qp.nic, r.Ok?, PostCost(|qp.log| - 2 * sent, Jams(old(qp.nic), qp.nic), r.Ok?))
    ensures Filled(old(lbuf[..]), lbuf[..], SlotAddress(cfg, sent) - cfg.lbufBase, [0x34, 0x12, 0, 0])
    ensures Headed(cfg, lbuf[..], sent + 1)
  {
    hide qp.Shared, qp.Taken, Answers, SlotAddress, qp.HeadFree, Blocks, Filled, Headed, Crowded, Later;
    LaterChain();
    ghost var requests := qp.Taken();
    ghost var log0 := qp.log;
    SendCountSlot(cfg, sent);
    WholeBlocks(cfg);
    var o := SendToNode(qp, cfg, lbuf, nodeId, sent % 0x1_0000_0000, Message(true, [], cfg.packetSize));
    HeadedNext(cfg, old(lbuf[..]), lbuf[..], sent);
    ghost var log1 := qp.log;
    if log1 != log0 {
      assert log1 == log0 + [SendPosted(Reply(cfg, requests[sent], sent))];
      AnswersSnoc(cfg, log0, SendPosted(Reply(cfg, requests[sent], sent)), requests);
    }
    if o.Stopped? {
      return Stopped;
    }
    r := DoRecv(qp, payload, 64);
    if qp.log != log1 {
      var event := qp.log[|log1|];
      assert qp.log == log1 + [event];
      AnswersSnoc(cfg, log1, event, requests);
    }
  }

  /** `batch_process_simpNF`: for each collected request in turn, one reply and one RECV. */
  method BatchProcess(qp: QueuePair, cfg: Config, lbuf: array<byte>, rpcs: array<Incoming>, sourceNodeIds: array<nat>,
                      batchSize: nat, tmpCount: nat)
    returns (r: Result<()>)
    requires qp.Valid() && GoodLocalBuffer(cfg, lbuf)
    requires batchSize <= tmpCount == |qp.Taken()|
    requires Collected(rpcs[..], sourceNodeIds[..], batchSize, qp.Taken(), tmpCount - batchSize)
    requires |qp.log| == 2 * (tmpCount - batchSize) && Answers(cfg, qp.log, qp.Taken())
    requires Headed(cfg, lbuf[..], tmpCount - batchSize)
    modifies lbuf, qp.wq, qp.cq, qp`nic, qp`store, qp`wqHead, qp`wqSR, qp`wqPosted, qp`log
    ensures qp.Shared() && qp.Taken() == old(qp.Taken()) && (r.Ok? ==> qp.Valid() && |qp.log| == 2 * tmpCount)
    ensures Answers(cfg, qp.log, qp.Taken()) && |qp.log| <= 2 * tmpCount && old(qp.log) <= qp.log
    ensures Ran(old(qp.nic), qp.nic, r.Ok?, PostCost(|qp.log| - |old(qp.log)|, Jams(old(qp.nic), qp.nic), r.Ok?))
    ensures Headed(cfg, lbuf[..], (|qp.log| + 1) / 2)
  {
    hide qp.Shared, qp.Taken, Answers, Headed, Filled, Crowded, Later;
    LaterChain();
    StartHere(qp.nic);
    for i := 0 to batchSize
      invariant qp.Valid() && Later(old(qp.nic), qp.nic) && qp.Taken() == old(qp.Taken()) && old(qp.log) <= qp.log
      invariant Answers(cfg, qp.log, qp.Taken()) && |qp.log| == 2 * (tmpCount - batchSize + i)
      invariant Spent(old(qp.nic), qp.nic) <= PostCost(2 * i, Jams(old(qp.nic), qp.nic), true)
      invariant Headed(cfg, lbuf[..], tmpCount - batchSize + i)
    {
      assert rpcs[..][i] == rpcs[i] && sourceNodeIds[..][i] == sourceNodeIds[i];
      var o := ServeOne(qp, cfg, lbuf, sourceNodeIds[i], rpcs[i].payload, (tmpCount - batchSize) + i);
      HeadedFewer(cfg, lbuf[..], tmpCount - batchSize + i + 1, (|qp.log| + 1) / 2);
      var _ :- o;
    }
    return Ok(());
  }

  lemma HeadedFewer(cfg: Config, bytes: seq<byte>, n: nat, m: nat)
    requires Headed(cfg, bytes, n) && m <= n
    ensures Headed(cfg, bytes, m)
  {
  }

  /** A work queue found without SABREs stays without them whatever requests are answered. */
  lemma StaysSabreFree(qp: QueuePair, cfg: Config)
    requires qp.Shared() && Answers(cfg, qp.log, qp.Taken())
    ensures SabreFree(qp.wqStart, []) ==> SabreFree(qp.wqStart, qp.wqPosted)
  {
    hide qp.CqShared, qp.WqShared, qp.TraceShared;
    OnlySendsAndRecvs(cfg, qp.log, qp.Taken());
  }

  /** The receive call of the main loop, its result stored at the end of the batch. A packet extends
      the batch by the request just consumed; anything else leaves the collected part as it was. */
  method ReceiveInto(qp: QueuePair, cfg: Config, rpcs: array<Incoming>, sourceNodeIds: array<nat>, batchCounter: nat)
    returns (r: Result<Incoming>, polls: nat, aborts: nat, looked: nat)
    requires qp.Valid() && batchCounter < rpcs.Length == sourceNodeIds.Length && batchCounter <= |qp.Taken()|
    requires Collected(rpcs[..], sourceNodeIds[..], batchCounter, qp.Taken(), |qp.Taken()| - batchCounter)
    requires forall j :: 0 <= j < sourceNodeIds.Length ==> sourceNodeIds[j] < 0x1_0000
    requires Answers(cfg, qp.log, qp.Taken())
    modifies rpcs, sourceNodeIds, qp.wq, qp.cq, qp`nic, qp`cqTail, qp`cqSR, qp`cqConsumed
    ensures qp.Shared() && (r.Ok? ==> qp.Valid())
    ensures Heard(qp.script, old(qp.nic), qp.nic, old(qp.cqConsumed), qp.cqConsumed, qp.log, r, polls, looked)
    ensures Answers(cfg, qp.log, qp.Taken()) && AtMostOneMore(old(qp.Taken()), qp.Taken())
    ensures SabreFree(qp.wqStart, []) ==> aborts == 0
    ensures forall j :: 0 <= j < sourceNodeIds.Length ==> sourceNodeIds[j] < 0x1_0000
    ensures r.Ok? && r.value.Packet? ==> |qp.Taken()| == |old(qp.Taken())| + 1
    ensures r.Ok? && r.value.Timeout? ==>
            && |qp.Taken()| == |old(qp.Taken())|
            && (|old(qp.nic).posted| <= qp.cqConsumed || old(qp.cqConsumed) + 500 <= qp.cqConsumed)
    ensures r.Ok? && !r.value.Done? ==>
            var n := if r.value.Packet? then batchCounter + 1 else batchCounter;
            n <= |qp.Taken()| && Collected(rpcs[..], sourceNodeIds[..], n, qp.Taken(), |qp.Taken()| - n)
  {
    hide qp.RingsShared, qp.Taken, Answers, SabreFree, TraceSide, Replay, LastLook, Crowded, DoneBy, Later;
    StaysSabreFree(qp, cfg);
    r, polls, aborts, looked := Receive(qp);
    TraceDated(qp);
    AnswersGrow(cfg, qp.log, old(qp.Taken()), qp.Taken());
    if r.Stopped? {
      return;
    }
    if r.value.Packet? {
      var high := sourceNodeIds[batchCounter] - sourceNodeIds[batchCounter] % 0x1_0000;
      sourceNodeIds[batchCounter] := high + r.value.nid;
    }
    rpcs[batchCounter] := r.value;
  }

  lemma TraceDated(qp: QueuePair)
    requires qp.Shared()
    ensures |qp.nic.trace| <= |qp.script| && Dated(qp.nic.trace, qp.log)
  {
  }

  /** The end of a turn of the main loop: a batch that has reached the batch size is answered and
      emptied. `warned` tells whether it was found larger than that. */
  method Flush(qp: QueuePair, cfg: Config, lbuf: array<byte>, rpcs: array<Incoming>, sourceNodeIds: array<nat>,
               batchCounter: nat, batchSize: nat, tmpCount: nat)
    returns (r: Result<nat>, warned: bool)
    requires qp.Valid() && GoodLocalBuffer(cfg, lbuf)
    requires batchCounter <= batchSize && batchCounter <= tmpCount == |qp.Taken()|
    requires Collected(rpcs[..], sourceNodeIds[..], batchCounter, qp.Taken(), tmpCount - batchCounter)
    requires |qp.log| == 2 * (tmpCount - batchCounter) && Answers(cfg, qp.log, qp.Taken())
    requires Headed(cfg, lbuf[..], tmpCount - batchCounter)
    modifies lbuf, qp.wq, qp.cq, qp`nic, qp`store, qp`wqHead, qp`wqSR, qp`wqPosted, qp`log
    ensures qp.Shared() && qp.Taken() == old(qp.Taken()) && !warned
    ensures Answers(cfg, qp.log, qp.Taken()) && |qp.log| <= 2 * tmpCount && old(qp.log) <= qp.log
    ensures Ran(old(qp.nic), qp.nic, r.Ok?, PostCost(|qp.log| - |old(qp.log)|, Jams(old(qp.nic), qp.nic), r.Ok?))
    ensures Headed(cfg, lbuf[..], (|qp.log| + 1) / 2)
    ensures r.Ok? ==>
            && qp.Valid() && r.value == (if batchCounter >= batchSize then batchSize else 0)
            && |qp.log| == 2 * (tmpCount - (batchCounter - r.value))
            && Collected(rpcs[..], sourceNodeIds[..], batchCounter - r.value, qp.Taken(),
                         tmpCount - (batchCounter - r.value))
  {
    hide qp.Shared, qp.Taken, Answers, Collected, Headed, Crowded, Later;
    StartHere(qp.nic);
    warned := false;
    var served := 0;
    if batchCounter >= batchSize {
      if batchCounter > batchSize {
        warned := true;
      }
      var o := BatchProcess(qp, cfg, lbuf, rpcs, sourceNodeIds, batchSize, tmpCount);
      if o.Stopped? {
        return Stopped, warned;
      }
      served := batchSize;
      EmptyBatch(rpcs, sourceNodeIds, qp.Taken(), tmpCount);
    }
    return Ok(served), warned;
  }

  /** What holds between two turns of the main loop: the batch holds the requests not yet answered, and
      the record of the finished turns is complete. */
  ghost predicate AtLoopHead(qp: QueuePair, cfg: Config, lbuf: array<byte>, rpcs: array<Incoming>,
                             sourceNodeIds: array<nat>, batchCounter: nat, tmpCount: nat, rounds: seq<Round>)
    reads qp, qp.wq, qp.cq, lbuf, rpcs, sourceNodeIds
  {
    && qp.Valid() && tmpCount == |qp.Taken()|
    && batchCounter < cfg.batchSize == rpcs.Length == sourceNodeIds.Length
    && batchCounter <= tmpCount && (tmpCount - batchCounter < WARM_UP ==> batchCounter == 0)
    && Collected(rpcs[..], sourceNodeIds[..], batchCounter, qp.Taken(), tmpCount - batchCounter)
    && (forall j :: 0 <= j < sourceNodeIds.Length ==> sourceNodeIds[j] < 0x1_0000)
    && Answers(cfg, qp.log, qp.Taken()) && |qp.log| == 2 * (tmpCount - batchCounter)
    && Headed(cfg, lbuf[..], tmpCount - batchCounter)
    && Served(rounds) == tmpCount - batchCounter && Pending(rounds) == batchCounter
    && Consumed(rounds) == qp.cqConsumed && Logged(rounds) == |qp.log| && Used(rounds) == |qp.nic.trace|
    && Kept(qp.script, qp.nic.trace, qp.log, rounds, qp.nic.posted)
  }

  /** The record of the finished turns, as the run stands. */
  ghost predicate Kept(script: seq<seq<NicStep>>, trace: seq<Moment>, log: seq<Event>, rounds: seq<Round>,
                       posted: seq<Completion>) {
    && |trace| <= |script| && Dated(trace, log)
    && AllTimed(script, trace, log, rounds) && Delivered(rounds, posted)
  }

  lemma KeptLater(script: seq<seq<NicStep>>, trace: seq<Moment>, log: seq<Event>, rounds: seq<Round>,
                  posted: seq<Completion>, trace': seq<Moment>, log': seq<Event>, posted': seq<Completion>)
    requires Kept(script, trace, log, rounds, posted) && trace <= trace' && log <= log' && posted <= posted'
    requires |trace'| <= |script| && Dated(trace', log')
    ensures Kept(script, trace', log', rounds, posted')
  {
    AllTimedLater(script, trace, log, rounds, trace', log');
    DeliveredLater(rounds, posted, posted');
  }

  /** What holds at any moment of a turn, after the finished rounds: at most one request was taken, and
      at most that batch answered, since the last loop head. */
  ghost predicate InTurn(qp: QueuePair, cfg: Config, lbuf: array<byte>, rounds: seq<Round>)
    reads qp, qp.wq, qp.cq, lbuf
  {
    && qp.Shared() && Answers(cfg, qp.log, qp.Taken()) && Headed(cfg, lbuf[..], (|qp.log| + 1) / 2)
    && Kept(qp.script, qp.nic.trace, qp.log, rounds, qp.nic.posted)
    && Served(rounds) + Pending(rounds) <= |qp.Taken()| <= Served(rounds) + Pending(rounds) + 1
    && 2 * Served(rounds) <= |qp.log| <= 2 * |qp.Taken()|
    && Pending(rounds) < cfg.batchSize
  }

  /** The first half of a turn, up to the choice of the batch size. */
  method Collect(qp: QueuePair, cfg: Config, lbuf: array<byte>, rpcs: array<Incoming>, sourceNodeIds: array<nat>,
                 batchCounter: nat, tmpCount: nat, ghost rounds: seq<Round>)
    returns (r: Result<Incoming>, polls: nat, aborts: nat, looked: nat)
    requires AtLoopHead(qp, cfg, lbuf, rpcs, sourceNodeIds, batchCounter, tmpCount, rounds)
    modifies rpcs, sourceNodeIds, qp.wq, qp.cq, qp`nic, qp`cqTail, qp`cqSR, qp`cqConsumed
    ensures InTurn(qp, cfg, lbuf, rounds) && (r.Ok? ==> qp.Valid())
    ensures Heard(qp.script, old(qp.nic), qp.nic, old(qp.cqConsumed), qp.cqConsumed, qp.log, r, polls, looked)
    ensures SabreFree(qp.wqStart, []) ==> aborts == 0
    ensures r.Ok? && !r.value.Done? ==>
            var more := if r.value.Packet? then 1 else 0;
            && |qp.Taken()| == tmpCount + more
            && Collected(rpcs[..], sourceNodeIds[..], batchCounter + more, qp.Taken(), tmpCount - batchCounter)
            && (forall j :: 0 <= j < sourceNodeIds.Length ==> sourceNodeIds[j] < 0x1_0000)
    ensures r.Ok? && r.value.Timeout? ==>
            |old(qp.nic).posted| <= qp.cqConsumed || Consumed(rounds) + 500 <= qp.cqConsumed
  {
    hide qp.Shared, qp.Taken, Answers, SabreFree, Served, Pending, Consumed, Logged, Used, Kept, Collected, Headed;
    hide Later, LastLook, DoneBy, Crowded;
    r, polls, aborts, looked := ReceiveInto(qp, cfg, rpcs, sourceNodeIds, batchCounter);
    TraceDated(qp);
    LaterFacts(old(qp.nic), qp.nic);
    KeptLater(qp.script, old(qp.nic).trace, qp.log, rounds, old(qp.nic).posted, qp.nic.trace, qp.log, qp.nic.posted);
  }

  /** The record of a turn that began at a, heard its message at m and ended at b. */
  lemma TurnTimed(script: seq<seq<NicStep>>, rounds: seq<Round>, a: Nic, m: Nic, b: Nic, c0: nat, c: nat,
                  log0: seq<Event>, log: seq<Event>, got: Result<Incoming>, polls: nat, looked: nat, r: Round)
    requires TraceSide(script, a.trace, a.schedule, c0, log0, a.Seen())
    requires TraceSide(script, b.trace, b.schedule, c, log, b.Seen()) && c <= |b.posted| <= c + MAX_NUM_WQ
    requires Heard(script, a, m, c0, c, log0, got, polls, looked) && got.Ok? && !got.value.Done? && log0 <= log
    requires Ran(m, b, true, PostCost(|log| - |log0|, Jams(m, b), true))
    requires Used(rounds) == |a.trace| && Consumed(rounds) == c0 && Logged(rounds) == |log0|
    requires r == Round(got.value.Timeout?, r.served, r.pending, |a.posted|, c, |log|,
                        polls, looked, |m.trace|, |b.trace|)
    ensures |b.trace| <= |script| && Dated(b.trace, log) && Timed(script, b.trace, log, rounds + [r], |rounds|)
  {
    hide Replay, Crowded, LastLook, DoneBy, Used, Consumed, Logged;
    assert (rounds + [r])[..|rounds|] == rounds;
    assert b.trace[..|a.trace|] == a.trace && b.trace[..|m.trace|] == m.trace && b.trace[..|b.trace|] == b.trace;
    SeenThen(script, a.trace, a.schedule, c0, log0, a.Seen(), b.trace, b.schedule, c, log, b.Seen());
    if r.timeout {
      LastLookLater(script, m.trace, log0, c, looked, log);
    }
  }

  /** A turn that ended with its receive call: the flag was up, or the schedule used up. */
  lemma TurnCut(script: seq<seq<NicStep>>, rounds: seq<Round>, a: Nic, b: Nic, c0: nat, c: nat, log: seq<Event>,
                got: Result<Incoming>, polls: nat, looked: nat)
    requires Heard(script, a, b, c0, c, log, got, polls, looked) && (got.Ok? ==> got.value.Done?)
    requires DoneBy(script, |a.trace|) ==> a.clientDone
    requires Used(rounds) == |a.trace| && Consumed(rounds) == c0 && Logged(rounds) == |log|
    ensures LastTurn(script, b.trace, log, c, rounds, polls, got.Stopped?)
  {
    hide Crowded, DoneBy, Used, Consumed, Logged;
    assert b.trace[..|a.trace|] == a.trace && b.trace[..|b.trace|] == b.trace;
  }

  /** A turn that was cut short while it answered. */
  lemma FlushCut(script: seq<seq<NicStep>>, rounds: seq<Round>, a: Nic, m: Nic, b: Nic, c0: nat, c: nat,
                 log0: seq<Event>, log: seq<Event>, got: Result<Incoming>, polls: nat, looked: nat)
    requires Heard(script, a, m, c0, c, log0, got, polls, looked) && got.Ok? && !got.value.Done? && log0 <= log
    requires Ran(m, b, false, PostCost(|log| - |log0|, Jams(m, b), false))
    requires Used(rounds) == |a.trace| && Consumed(rounds) == c0 && Logged(rounds) == |log0|
    ensures LastTurn(script, b.trace, log, c, rounds, polls, true)
  {
    hide Crowded, Used, Consumed, Logged;
    assert b.trace[..|a.trace|] == a.trace && b.trace[..|b.trace|] == b.trace;
  }

  /** What is known half-way through a turn that began at a with c0 completions consumed: a message was
      received or the call timed out, and nothing has been answered yet. */
  ghost predicate HalfWay(qp: QueuePair, cfg: Config, lbuf: array<byte>, rpcs: array<Incoming>,
                          sourceNodeIds: array<nat>, batchCounter: nat, tmpCount: nat, rounds: seq<Round>,
                          a: Nic, c0: nat, got: Incoming, polls: nat, looked: nat)
    reads qp, qp.wq, qp.cq, lbuf, rpcs, sourceNodeIds
  {
    var more := if got.Packet? then 1 else 0;
    && qp.Valid() && InTurn(qp, cfg, lbuf, rounds) && GoodLocalBuffer(cfg, lbuf)
    && Heard(qp.script, a, qp.nic, c0, qp.cqConsumed, qp.log, Ok(got), polls, looked) && !got.Done?
    && TraceSide(qp.script, a.trace, a.schedule, c0, qp.log, a.Seen())
    && Used(rounds) == |a.trace| && Consumed(rounds) == c0 && Logged(rounds) == |qp.log|
    && batchCounter < cfg.batchSize == rpcs.Length == sourceNodeIds.Length
    && batchCounter <= tmpCount && (tmpCount - batchCounter < WARM_UP ==> batchCounter == 0)
    && |qp.Taken()| == tmpCount + more && |qp.log| == 2 * (tmpCount - batchCounter)
    && Served(rounds) == tmpCount - batchCounter && Pending(rounds) == batchCounter
    && Collected(rpcs[..], sourceNodeIds[..], batchCounter + more, qp.Taken(), tmpCount - batchCounter)
    && (forall j :: 0 <= j < sourceNodeIds.Length ==> sourceNodeIds[j] < 0x1_0000)
    && (got.Timeout? ==> |a.posted| <= qp.cqConsumed || Consumed(rounds) + 500 <= qp.cqConsumed)
  }

  /** A turn leaves less than a batch waiting, and nothing during the warm-up. */
  lemma WaitingEnough(cfg: Config, served: nat, pending: nat, r: Round)
    requires GoodRound(cfg, served, pending, r) && (served < WARM_UP ==> pending == 0)
    ensures r.pending < cfg.batchSize && (served + r.served < WARM_UP ==> r.pending == 0)
  {
  }

  lemma NextHead(qp: QueuePair, cfg: Config, lbuf: array<byte>, rpcs: array<Incoming>, sourceNodeIds: array<nat>,
                 tmpCount: nat, rounds: seq<Round>, r: Round)
    requires qp.Valid() && tmpCount == |qp.Taken()| && r.pending <= tmpCount
    requires r.pending < cfg.batchSize == rpcs.Length == sourceNodeIds.Length
    requires tmpCount - r.pending < WARM_UP ==> r.pending == 0
    requires Collected(rpcs[..], sourceNodeIds[..], r.pending, qp.Taken(), tmpCount - r.pending)
    requires forall j :: 0 <= j < sourceNodeIds.Length ==> sourceNodeIds[j] < 0x1_0000
    requires Answers(cfg, qp.log, qp.Taken()) && |qp.log| == 2 * (tmpCount - r.pending)
    requires Headed(cfg, lbuf[..], (|qp.log| + 1) / 2)
    requires Served(rounds + [r]) == tmpCount - r.pending && Pending(rounds + [r]) == r.pending
    requires Consumed(rounds + [r]) == qp.cqConsumed && Logged(rounds + [r]) == |qp.log|
    requires Used(rounds + [r]) == |qp.nic.trace|
    requires Kept(qp.script, qp.nic.trace, qp.log, rounds + [r], qp.nic.posted)
    ensures AtLoopHead(qp, cfg, lbuf, rpcs, sourceNodeIds, r.pending, tmpCount, rounds + [r])
  {
    hide qp.Valid, qp.Taken, Answers, Served, Pending, Consumed, Logged, Used, Kept, Collected, Headed;
  }

  /** The second half of a turn: count the message, answer the batch if it is due, and record the turn. */
  method FinishTurn(qp: QueuePair, cfg: Config, lbuf: array<byte>, rpcs: array<Incoming>, sourceNodeIds: array<nat>,
                    batchCounter: nat, tmpCount: nat, got: Incoming, arrived: nat, polls: nat, looked: nat,
                    ghost rounds: seq<Round>, ghost a: Nic, ghost c0: nat)
    returns (r: Result<Round>, warned: bool)
    requires HalfWay(qp, cfg, lbuf, rpcs, sourceNodeIds, batchCounter, tmpCount, rounds, a, c0, got, polls, looked)
    requires arrived == |a.posted|
    modifies lbuf, qp.wq, qp.cq, qp`nic, qp`store, qp`wqHead, qp`wqSR, qp`wqPosted, qp`log
    ensures InTurn(qp, cfg, lbuf, rounds) && !warned
    ensures if r.Ok? then |qp.nic.schedule| <= |old(qp.nic).schedule| else
              qp.nic.schedule == [] && LastTurn(qp.script, qp.nic.trace, qp.log, qp.cqConsumed, rounds, polls, true)
    ensures r.Ok? ==>
            && GoodRound(cfg, tmpCount - batchCounter, batchCounter, r.value)
            && AtLoopHead(qp, cfg, lbuf, rpcs, sourceNodeIds, r.value.pending,
                          if got.Packet? then tmpCount + 1 else tmpCount, rounds + [r.value])
  {
    hide qp.Shared, qp.Taken, Answers, Served, Pending, Consumed, Logged, Used, Kept, Collected, GoodRound;
    hide Headed, Later, LastTurn, Crowded, TraceSide, Heard, Ran, PostCost, GoodLocalBuffer, qp.TraceShared, DoneBy;
    hide AtLoopHead, qp.Valid, Took, Spent, Jams, WARM_UP;
    var batchSize := if tmpCount < WARM_UP then 1 else cfg.batchSize;
    var collected, count := batchCounter, tmpCount;
    if got.Packet? {
      collected, count := collected + 1, count + 1;
    } else {
      batchSize := batchCounter;
    }
    var heard := |qp.nic.trace|;
    var served;
    served, warned := Flush(qp, cfg, lbuf, rpcs, sourceNodeIds, collected, batchSize, count);
    StillKept(qp, rounds, old(qp.nic), old(qp.log), served.Ok?);
    HeardFacts(qp.script, a, old(qp.nic), c0, qp.cqConsumed, old(qp.log), Ok(got), polls, looked);
    if served.Stopped? {
      FlushCut(qp.script, rounds, a, old(qp.nic), qp.nic, c0, qp.cqConsumed, old(qp.log), qp.log,
               Ok(got), polls, looked);
      return Stopped, warned;
    }
    var round := Round(got.Timeout?, served.value, collected - served.value, arrived, qp.cqConsumed, |qp.log|,
                       polls, looked, heard, |qp.nic.trace|);
    PolicyKept(cfg, tmpCount - batchCounter, batchCounter, round);
    qp.TraceFacts();
    TurnTimed(qp.script, rounds, a, old(qp.nic), qp.nic, c0, qp.cqConsumed, old(qp.log), qp.log,
              Ok(got), polls, looked, round);
    CloseRound(qp, rounds, round);
    WaitingEnough(cfg, tmpCount - batchCounter, batchCounter, round);
    NextHead(qp, cfg, lbuf, rpcs, sourceNodeIds, count, rounds, round);
    return Ok(round), warned;
  }

  /** One turn of the main loop. */
  method WorkerTurn(qp: QueuePair, cfg: Config, lbuf: array<byte>, rpcs: array<Incoming>, sourceNodeIds: array<nat>,
                    batchCounter: nat, tmpCount: nat, ghost rounds: seq<Round>)
    returns (r: Result<Incoming>, round: Round, warned: bool, polls: nat, aborts: nat)
    requires AtLoopHead(qp, cfg, lbuf, rpcs, sourceNodeIds, batchCounter, tmpCount, rounds)
    requires GoodLocalBuffer(cfg, lbuf)
    modifies rpcs, sourceNodeIds, lbuf, qp, qp.wq, qp.cq
    ensures InTurn(qp, cfg, lbuf, rounds) && !warned && (SabreFree(qp.wqStart, []) ==> aborts == 0)
    ensures r.Stopped? ==> qp.nic.schedule == []
    ensures r.Stopped? || r.value.Done? ==>
            LastTurn(qp.script, qp.nic.trace, qp.log, qp.cqConsumed, rounds, polls, r.Stopped?)
    ensures r.Ok? && r.value.Done? ==> DoneBy(qp.script, |qp.nic.trace| - 1) && qp.log == old(qp.log)
    ensures r.Ok? && !r.value.Done? ==>
            && GoodRound(cfg, tmpCount - batchCounter, batchCounter, round)
            && AtLoopHead(qp, cfg, lbuf, rpcs, sourceNodeIds, round.pending,
                          if r.value.Packet? then tmpCount + 1 else tmpCount, rounds + [round])
            && |qp.nic.schedule| < |old(qp.nic).schedule|
  {
    hide qp.Shared, qp.Taken, Answers, SabreFree, Served, Pending, Consumed, Logged, Used, Kept, Collected, GoodRound;
    hide Headed, InTurn, Later, LastTurn, DoneBy, Crowded, TraceSide, Heard;
    round, warned := Round(false, 0, batchCounter, 0, 0, 0, 0, 0, 0, 0), false;
    var arrived := |qp.nic.posted|;
    var looked;
    qp.TraceFacts();
    qp.DoneFacts();
    r, polls, aborts, looked := Collect(qp, cfg, lbuf, rpcs, sourceNodeIds, batchCounter, tmpCount, rounds);
    HeardFacts(qp.script, old(qp.nic), qp.nic, old(qp.cqConsumed), qp.cqConsumed, qp.log, r, polls, looked);
    if r.Stopped? || r.value.Done? {
      TurnCut(qp.script, rounds, old(qp.nic), qp.nic, old(qp.cqConsumed), qp.cqConsumed, qp.log, r, polls, looked);
      return;
    }
    var o;
    o, warned := FinishTurn(qp, cfg, lbuf, rpcs, sourceNodeIds, batchCounter, tmpCount, r.value, arrived, polls, looked,
                            rounds, old(qp.nic), old(qp.cqConsumed));
    if o.Stopped? {
      r := Stopped;
      return;
    }
    round := o.value;
  }

  lemma HeardFacts(script: seq<seq<NicStep>>, a: Nic, b: Nic, c0: nat, c: nat, log: seq<Event>,
                   r: Result<Incoming>, polls: nat, looked: nat)
    requires Heard(script, a, b, c0, c, log, r, polls, looked)
    ensures r.Stopped? ==> b.schedule == []
    ensures r.Ok? ==> |b.schedule| < |a.schedule| && (r.value.Done? <==> DoneBy(script, |b.trace| - 1))
    ensures |a.posted| <= |b.posted|
  {
  }

  lemma StillKept(qp: QueuePair, rounds: seq<Round>, m: Nic, log0: seq<Event>, finished: bool)
    requires qp.Shared() && Kept(qp.script, m.trace, log0, rounds, m.posted) && log0 <= qp.log
    requires Ran(m, qp.nic, finished, PostCost(|qp.log| - |log0|, Jams(m, qp.nic), finished))
    ensures Kept(qp.script, qp.nic.trace, qp.log, rounds, qp.nic.posted)
    ensures |m.posted| <= |qp.nic.posted| && |qp.nic.schedule| <= |m.schedule| && (!finished ==> qp.nic.schedule == [])
  {
    hide Kept, Crowded;
    TraceDated(qp);
    LaterFacts(m, qp.nic);
    KeptLater(qp.script, m.trace, log0, rounds, m.posted, qp.nic.trace, qp.log, qp.nic.posted);
  }

  /** `run_worker`, from a fresh queue pair to its end or to the end of the schedule. `polls` counts those
      of the turn under way. */
  method RunWorker(qp: QueuePair, cfg: Config, lbuf: array<byte>)
    returns (r: Result<nat>, rounds: seq<Round>, warnings: int, polls: nat, aborts: nat)
    requires qp.Valid() && GoodLocalBuffer(cfg, lbuf)
    requires qp.cqConsumed == 0 && qp.log == [] && qp.nic.trace == []
    modifies qp, qp.wq, qp.cq, lbuf
    // at any point: delivered = answered + waiting at every loop head, and little happened since the last
    ensures InTurn(qp, cfg, lbuf, rounds)
    ensures GoodRounds(cfg, rounds) && warnings == 0
    ensures SabreFree(qp.wqStart, []) ==> aborts == 0
    // the turn under way has not used more bursts than it had work
    ensures LastTurn(qp.script, qp.nic.trace, qp.log, qp.cqConsumed, rounds, polls, r.Stopped?)
    ensures r.Stopped? ==> qp.nic.schedule == []
    // at the end: the flag was up when last read, and nothing was answered since the last loop head
    ensures r.Ok? ==> DoneBy(qp.script, |qp.nic.trace| - 1)
    ensures r.Ok? ==> r.value == Pending(rounds) && |qp.log| == 2 * Served(rounds)
  {
    hide AtLoopHead, InTurn, SabreFree, Served, Pending, GoodRounds, LastTurn, DoneBy;
    r, rounds, warnings, polls, aborts := Stopped, [], 0, 0, 0;
    var tmpCount: nat, batchCounter: nat := 0, 0;
    var rpcs := new Incoming[cfg.batchSize](_ => Timeout);
    var sourceNodeIds := new nat[cfg.batchSize](_ => 0);
    Start(qp, cfg, lbuf, rpcs, sourceNodeIds);
    while true
      invariant AtLoopHead(qp, cfg, lbuf, rpcs, sourceNodeIds, batchCounter, tmpCount, rounds)
      invariant GoodRounds(cfg, rounds) && r.Stopped? && warnings == 0 && (SabreFree(qp.wqStart, []) ==> aborts == 0)
      decreases |qp.nic.schedule|
    {
      LoopHeadCounts(qp, cfg, lbuf, rpcs, sourceNodeIds, batchCounter, tmpCount, rounds);
      var got, round, warned, more;
      got, round, warned, polls, more := WorkerTurn(qp, cfg, lbuf, rpcs, sourceNodeIds, batchCounter, tmpCount, rounds);
      warnings := if warned then warnings + 1 else warnings;
      aborts := aborts + more;
      if got.Stopped? {
        return;
      }
      if got.value.Done? {
        r := Ok(batchCounter);
        return;
      }
      RoundsSnoc(cfg, rounds, round);
      rounds := rounds + [round];
      batchCounter := round.pending;
      tmpCount := if got.value.Packet? then tmpCount + 1 else tmpCount;
    }
  }

  lemma LoopHeadCounts(qp: QueuePair, cfg: Config, lbuf: array<byte>, rpcs: array<Incoming>,
                       sourceNodeIds: array<nat>, batchCounter: nat, tmpCount: nat, rounds: seq<Round>)
    requires AtLoopHead(qp, cfg, lbuf, rpcs, sourceNodeIds, batchCounter, tmpCount, rounds)
    ensures batchCounter <= tmpCount && Served(rounds) == tmpCount - batchCounter && Pending(rounds) == batchCounter
    ensures |qp.log| == 2 * Served(rounds)
  {
    hide qp.Shared, qp.Taken, Answers, Kept, Collected, Headed;
  }

  /** The code's choice of batch size keeps to the policy. */
  lemma PolicyKept(cfg: Config, served: nat, pending: nat, r: Round)
    requires pending < cfg.batchSize && (served < WARM_UP ==> pending == 0)
    requires var count := if r.timeout then pending else pending + 1;
             var size := if r.timeout then pending else if served + pending < WARM_UP then 1 else cfg.batchSize;
             r.served == (if count >= size then size else 0) && r.pending == count - r.served
    ensures GoodRound(cfg, served, pending, r)
  {
  }

  lemma EmptyBatch(rpcs: array<Incoming>, ids: array<nat>, requests: seq<Completion>, sent: nat)
    requires sent <= |requests|
    ensures Collected(rpcs[..], ids[..], 0, requests, sent)
  {
  }

  lemma CloseRound(qp: QueuePair, rounds: seq<Round>, r: Round)
    requires qp.Valid() && Kept(qp.script, qp.nic.trace, qp.log, rounds, qp.nic.posted) && r.consumed == qp.cqConsumed
    requires |qp.nic.trace| <= |qp.script| && Dated(qp.nic.trace, qp.log)
    requires Timed(qp.script, qp.nic.trace, qp.log, rounds + [r], |rounds|)
    requires r.arrived <= |qp.nic.posted| && |qp.Taken()| == Served(rounds) + r.served + r.pending
    requires r.logged == |qp.log| == 2 * (Served(rounds) + r.served) && r.used == |qp.nic.trace|
    requires r.timeout ==> r.arrived <= r.consumed || Consumed(rounds) + 500 <= r.consumed
    ensures Kept(qp.script, qp.nic.trace, qp.log, rounds + [r], qp.nic.posted)
    ensures Consumed(rounds + [r]) == qp.cqConsumed && Logged(rounds + [r]) == |qp.log|
    ensures Used(rounds + [r]) == |qp.nic.trace|
    ensures Served(rounds + [r]) == Served(rounds) + r.served && Pending(rounds + [r]) == r.pending
  {
    hide qp.Shared, Timed;
    assert (rounds + [r])[..|rounds|] == rounds;
    DeliveredSnoc(rounds, r, qp.nic.posted);
    TimedSnoc(qp.script, qp.nic.trace, qp.log, rounds, r);
  }

  lemma Start(qp: QueuePair, cfg: Config, lbuf: array<byte>, rpcs: array<Incoming>, sourceNodeIds: array<nat>)
    requires qp.Valid() && qp.cqConsumed == 0 && qp.log == [] && qp.nic.trace == []
    requires 0 < cfg.batchSize == rpcs.Length == sourceNodeIds.Length && GoodLocalBuffer(cfg, lbuf)
    requires forall j :: 0 <= j < sourceNodeIds.Length ==> sourceNodeIds[j] == 0
    ensures AtLoopHead(qp, cfg, lbuf, rpcs, sourceNodeIds, 0, 0, []) && GoodRounds(cfg, [])
  {
    hide qp.CqShared, qp.WqShared, qp.LogShared;
    EmptyBatch(rpcs, sourceNodeIds, qp.Taken(), 0);
    HeadedNothing(cfg, lbuf[..]);
  }
}
