/**
  Whole runs: one worker on fresh rings, against any NIC schedule.
 */
module Service {
  import opened PhaseRing
  import opened Rings
  import opened Traffic
  import opened QueuePairs
  import opened WireFormat
  import opened Schedules
  import opened Rounds
  import opened Progress
  import opened Endpoint
  import opened Workers
  import opened LocalBuffers

  /** What can be seen when a run ends or is stopped: how it ended (`Ok` with the number of requests
      left in the batch, or `Stopped`); the moments at which bursts of the schedule were executed, and what
      the NIC has brought about; how much it completed and the worker consumed; what the worker did; the
      work queue as it then is, without an entry that is still being stored, and the local buffer; the
      finished turns of the main loop, and the polls of the one under way. */
  datatype Report = Report(
    end: Result<nat>, trace: seq<Moment>, nic: Sight, completed: nat, consumed: nat,
    log: seq<Event>, wq: seq<WqEntry>, lbuf: seq<byte>,
    rounds: seq<Round>, polls: nat, warnings: int, aborts: nat)
  {
    /** The requests among the completions consumed. */
    function Taken(): seq<Completion>
      requires consumed <= |nic.posted|
    {
      Requests(nic.posted[..consumed])
    }
  }

  /** Everything said of whole runs. The schedule is arbitrary and the run may stop at any access to
      shared memory, so each clause holds at every moment of every interleaving. */
  method Serve(cfg: Config, wqInit: seq<WqEntry>, wqSense: bool, cqInit: seq<CqEntry>, cqSense: bool,
               schedule: seq<seq<NicStep>>)
    returns (run: Report)
    requires GoodConfig(cfg) && FreshWq(wqInit, wqSense) && FreshCq(cqInit, cqSense)
    // the NIC did exactly what the schedule says, as far as it was used
    ensures |run.trace| <= |schedule| && Dated(run.trace, run.log)
    ensures run.nic == Replay(schedule, run.trace, run.log, |run.trace|)
    ensures run.end.Stopped? ==> |run.trace| == |schedule|
    ensures run.consumed <= |run.nic.posted| <= run.consumed + MAX_NUM_WQ
    // the log answers the consumed requests in order, each once, and in full: a SEND back to the node that
    // sent the request, from the next slot of the local buffer, one packet long; then a RECV that gives its
    // receive buffer back, or a refusal
    ensures Answers(cfg, run.log, run.Taken())
    ensures forall e :: 0 <= e < |run.log| ==>
              && e / 2 < |run.Taken()|
              && var event, request := run.log[e], run.Taken()[e / 2];
              && if e % 2 == 0 then
                   && event.SendPosted? && var r := event.request;
                   && r.op == 16 && r.cid == 7 && r.nid == request.tid % 0x1_0000 && r.offset == 0
                   && r.bufAddr == cfg.lbufBase + (e / 2 % 256) * cfg.packetSize && r.length * 64 == cfg.packetSize
                 else if event.RecvPosted? then
                   && var r := event.request;
                   && r.op == 5 && r.cid == 7 && r.nid == 0 && r.offset == 0
                   && r.bufAddr == request.recvBufAddr && r.length == 64
                 else event.RecvRefused?
    // and a RECV is refused only once a whole lap has been posted
    ensures RefusedAfterLap(run.log)
    // the SENDs the NIC has read are the replies to the requests it posted, in order, each once
    ensures SendsOf(run.nic.read) <= Replies(cfg, Requests(run.nic.posted))
    ensures forall i :: 0 <= i < |SendsOf(run.nic.read)| ==>
              && i < |Requests(run.nic.posted)|
              && var r, request := SendsOf(run.nic.read)[i], Requests(run.nic.posted)[i];
              && r.op == 16 && r.cid == 7 && r.nid == request.tid % 0x1_0000 && r.offset == 0
              && r.bufAddr == cfg.lbufBase + (i % 256) * cfg.packetSize && r.length * 64 == cfg.packetSize
    // no post is lost, duplicated or overwritten before the NIC has read it
    ensures run.nic.read <= PostsOf(run.log) && |PostsOf(run.log)| <= |run.nic.read| + MAX_NUM_WQ
    ensures run.completed <= |run.nic.read| && |PostsOf(run.log)| <= run.completed + MAX_NUM_WQ
    // at every loop head delivered = answered + waiting, and a timeout leaves nothing behind
    ensures Delivered(run.rounds, run.nic.posted)
    // since the last loop head at most one request was taken, and nothing but that batch answered
    ensures Served(run.rounds) + Pending(run.rounds) <= |run.Taken()| <= Served(run.rounds) + Pending(run.rounds) + 1
    ensures 2 * Served(run.rounds) <= |run.log| <= 2 * |run.Taken()|
    // so unanswered requests always fit one batch
    ensures Pending(run.rounds) < cfg.batchSize && |run.Taken()| <= (|run.log| + 1) / 2 + cfg.batchSize
    // every turn, and the one under way, used no more bursts than it had work
    ensures AllTimed(schedule, run.trace, run.log, run.rounds)
    ensures LastTurn(schedule, run.trace, run.log, run.consumed, run.rounds, run.polls, run.end.Stopped?)
    // so a request is answered in time, and once the flag is up the run ends in time
    ensures AnsweredInTime(cfg, schedule, run.trace, run.log, run.consumed, run.rounds, run.end.Stopped?)
    ensures LeavesInTime(schedule, run.trace, run.log, run.consumed, run.rounds, run.end.Stopped?)
    // a schedule of few completions that goes on for long enough gets every request answered
    ensures run.end.Stopped? && |AllOffered(schedule, |schedule|)| <= 255 ==>
              AnsweredButLately(cfg, schedule, run.trace, run.log)
    // the head slot is always free until a whole lap has been posted
    ensures |PostsOf(run.log)| < MAX_NUM_WQ ==> Crowded(run.trace) == 0
    // a run that is not stopped ends only when the flag was up at the last look, with all but the pending
    // requests answered
    ensures run.end.Ok? ==> DoneBy(schedule, |run.trace| - 1)
    ensures run.end.Ok? ==> run.end.value == Pending(run.rounds) && |run.log| == 2 * Served(run.rounds)
    // the batching policy in every round, and the two things that never happen
    ensures GoodRounds(cfg, run.rounds) && run.warnings == 0
    ensures SabreFree(wqInit, []) ==> run.aborts == 0
    // credits
    ensures CountSends(run.log) == (|run.log| + 1) / 2 && CountRecvs(run.log) + CountRefused(run.log) == |run.log| / 2
    // the packet of every SEND posted begins with the header word
    ensures Headed(cfg, run.lbuf, (|run.log| + 1) / 2)
    // the local buffer: in bounds always, disjoint as long as the lap does not hold too many SENDs,
    // which it does not if no RECV was refused
    ensures |run.wq| == MAX_NUM_WQ && AllInBounds(cfg, run.wq)
    ensures LapSends(PostsOf(run.log)) <= MSGS_PER_PAIR ==> AllApart(cfg, run.wq)
    ensures NoRefusal(run.log) ==> LapSends(PostsOf(run.log)) <= MSGS_PER_PAIR && AllApart(cfg, run.wq)
    // and the header of the next reply, written before the work queue is looked at
    ensures NoRefusal(run.log) && |run.log| % 2 == 0 ==>
            (HitsLiveSend(cfg, run.wq, SlotAddress(cfg, |run.log| / 2))
             <==> run.wq[Slot(|PostsOf(run.log)|, MAX_NUM_WQ)].valid)
  {
    hide CqRing, WqRing, PostsOf, Requests, Answers, RefusedAfterLap, SendsOf, Replies, NoRefusal, SabreFree, Slot;
    hide GoodRounds, Delivered, Served, Pending, HitsLiveSend, AllInBounds, AllApart, LapSends, SlotAddress;
    hide Replay, AllTimed, LastTurn, AnsweredInTime, LeavesInTime, AnsweredButLately, Crowded, DoneBy, Headed;
    var qp := new QueuePair(wqInit, wqSense, cqInit, cqSense, schedule);
    var lbuf := new byte[MSGS_PER_PAIR * cfg.packetSize];
    var end, rounds, warnings, polls, aborts := RunWorker(qp, cfg, lbuf);
    run := Report(end, qp.nic.trace, qp.nic.Seen(), qp.nic.completed, qp.cqConsumed,
                  qp.log, qp.Settled(), lbuf[..], rounds, polls, warnings, aborts);
    RingFacts(qp, cfg);
    BufferFacts(qp, cfg);
    TimeFacts(qp, cfg, rounds, polls, end.Stopped?);
    if end.Stopped? && |AllOffered(schedule, |schedule|)| <= 255 {
      SmallFacts(qp, cfg, rounds);
    }
  }

  lemma SmallFacts(qp: QueuePair, cfg: Config, rounds: seq<Round>)
    requires qp.Shared() && GoodConfig(cfg) && GoodRounds(cfg, rounds) && |qp.nic.trace| == |qp.script|
    requires Kept(qp.script, qp.nic.trace, qp.log, rounds, qp.nic.posted) && |qp.log| <= 2 * |qp.Taken()|
    requires AnsweredInTime(cfg, qp.script, qp.nic.trace, qp.log, qp.cqConsumed, rounds, true)
    requires |PostsOf(qp.log)| < MAX_NUM_WQ ==> Crowded(qp.nic.trace) == 0
    requires |AllOffered(qp.script, |qp.script|)| <= 255
    ensures |qp.nic.trace| <= |qp.script| && Dated(qp.nic.trace, qp.log)
    ensures AnsweredButLately(cfg, qp.script, qp.nic.trace, qp.log)
  {
    hide qp.RingsShared, Replay, AllTimed, AnsweredInTime, GoodRounds, Delivered, PostsOf, AllAnsweredBy;
    qp.TraceFacts();
    RequestsAmong(qp.nic.posted, 0, qp.cqConsumed);
    NoRequests(qp.nic.posted);
    forall used: nat | used + 3501 * (513 + cfg.batchSize) + 10 + 28 * 255 <= |qp.script|
      ensures AllAnsweredBy(qp.script, qp.nic.trace, qp.log, used)
    {
      SmallScheduleAnswered(cfg, qp.script, qp.nic.trace, qp.log, qp.cqConsumed, rounds, qp.nic.posted, used);
    }
  }

  /** How soon, for the run of this queue pair. */
  lemma TimeFacts(qp: QueuePair, cfg: Config, rounds: seq<Round>, polls: nat, stopped: bool)
    requires qp.Shared() && GoodConfig(cfg) && GoodRounds(cfg, rounds) && 2 * Served(rounds) <= |qp.log|
    requires Kept(qp.script, qp.nic.trace, qp.log, rounds, qp.nic.posted)
    requires LastTurn(qp.script, qp.nic.trace, qp.log, qp.cqConsumed, rounds, polls, stopped)
    ensures |qp.nic.trace| <= |qp.script| && Dated(qp.nic.trace, qp.log)
    ensures qp.nic.Seen() == Replay(qp.script, qp.nic.trace, qp.log, |qp.nic.trace|)
    ensures |qp.nic.trace| + |qp.nic.schedule| == |qp.script|
    ensures AnsweredInTime(cfg, qp.script, qp.nic.trace, qp.log, qp.cqConsumed, rounds, stopped)
    ensures LeavesInTime(qp.script, qp.nic.trace, qp.log, qp.cqConsumed, rounds, stopped)
    ensures |PostsOf(qp.log)| < MAX_NUM_WQ ==> Crowded(qp.nic.trace) == 0
  {
    hide qp.RingsShared, Replay, AllTimed, LastTurn, AnsweredInTime, LeavesInTime, GoodRounds, Delivered, PostsOf;
    AnswersInTime(cfg, qp.script, qp.nic.trace, qp.log, qp.cqConsumed, rounds, qp.nic.posted, polls, stopped);
    LeaveInTime(cfg, qp.script, qp.nic.trace, qp.log, qp.cqConsumed, rounds, qp.nic.posted, polls, stopped);
    if |PostsOf(qp.log)| < MAX_NUM_WQ {
      forall t | 0 <= t < |qp.nic.trace|
        ensures qp.nic.trace[t].room
      {
        PostsPrefix(qp.log, qp.nic.trace[t].logged);
      }
      NoJams(qp.nic.trace);
    }
  }

  /** What the invariant of the queue pair and the worker's log imply together. */
  lemma RingFacts(qp: QueuePair, cfg: Config)
    requires qp.Shared() && GoodConfig(cfg) && Answers(cfg, qp.log, qp.Taken())
    ensures qp.cqConsumed <= |qp.nic.posted| <= qp.cqConsumed + MAX_NUM_WQ
    ensures qp.Taken() == Requests(qp.nic.posted[..qp.cqConsumed])
    ensures SendsOf(qp.nic.read) <= Replies(cfg, Requests(qp.nic.posted))
    ensures forall i :: 0 <= i < |SendsOf(qp.nic.read)| ==>
              && i < |Requests(qp.nic.posted)|
              && SentBack(cfg, SendsOf(qp.nic.read)[i], Requests(qp.nic.posted)[i], i)
    ensures forall e :: 0 <= e < |qp.log| ==>
              && e / 2 < |qp.Taken()|
              && var event, request := qp.log[e], qp.Taken()[e / 2];
              && if e % 2 == 0 then event.SendPosted? && SentBack(cfg, event.request, request, e / 2)
                 else event.RecvRefused? || (event.RecvPosted? && GivenBack(event.request, request))
    ensures qp.nic.read <= PostsOf(qp.log) && |PostsOf(qp.log)| <= |qp.nic.read| + MAX_NUM_WQ
    ensures qp.nic.completed <= |qp.nic.read| && |PostsOf(qp.log)| <= qp.nic.completed + MAX_NUM_WQ
    ensures RefusedAfterLap(qp.log)
    ensures CountSends(qp.log) == (|qp.log| + 1) / 2 && CountRecvs(qp.log) + CountRefused(qp.log) == |qp.log| / 2
  {
    hide WqRing, PostsOf, SendsOf, Requests, Answers, Replies, RefusedAfterLap, qp.TraceShared;
    AnswersInFull(cfg, qp.log, qp.Taken());
    WqCapacity(qp.WqNow());
    EndToEnd(cfg, qp.nic.posted, qp.cqConsumed, qp.log, qp.nic.read);
    CreditsBalance(cfg, qp.log, qp.Taken());
  }

  /** And what they imply for the local buffer. */
  lemma BufferFacts(qp: QueuePair, cfg: Config)
    requires qp.Shared() && GoodConfig(cfg) && Answers(cfg, qp.log, qp.Taken())
    ensures |qp.Settled()| == MAX_NUM_WQ && AllInBounds(cfg, qp.Settled())
    ensures LapSends(PostsOf(qp.log)) <= MSGS_PER_PAIR ==> AllApart(cfg, qp.Settled())
    ensures NoRefusal(qp.log) ==> LapSends(PostsOf(qp.log)) <= MSGS_PER_PAIR && AllApart(cfg, qp.Settled())
    ensures NoRefusal(qp.log) && |qp.log| % 2 == 0 ==>
            (HitsLiveSend(cfg, qp.Settled(), SlotAddress(cfg, |qp.log| / 2))
             <==> qp.Settled()[Slot(|PostsOf(qp.log)|, MAX_NUM_WQ)].valid)
  {
    hide CqRing, WqRing, PostsOf, SendsOf, Requests, Answers, Replies, NoRefusal, qp.TraceShared;
    hide HitsLiveSend, AllInBounds, AllApart, LapSends, SlotAddress;
    SendsAreReplies(cfg, qp.log, qp.Taken());
    LiveSendsInBounds(cfg, qp.WqNow(), qp.Taken());
    if LapSends(PostsOf(qp.log)) <= MSGS_PER_PAIR {
      FewSendsDisjoint(cfg, qp.WqNow(), qp.Taken());
    }
    if NoRefusal(qp.log) {
      AlternationBound(cfg, qp.log, qp.Taken());
      LiveSendsDisjoint(cfg, qp.WqNow(), qp.log, qp.Taken());
      if |qp.log| % 2 == 0 {
        HeaderHitsLiveSendExactly(cfg, qp.WqNow(), qp.log, qp.Taken());
      }
    }
  }
}
