/**
  The run that goes wrong. The worker answers 256 messages while the NIC completes nothing, so the
  work queue is full: the next header write hits a packet still being sent. Then the NIC completes
  one entry at a time. The RECV of message 256 finds the head slot valid and is lost, and the SEND of
  message 257 takes local buffer slot 1 while SEND 1, which uses it too, is still waiting.
 */
module RefusedRecv {
  import opened PhaseRing
  import opened Rings
  import opened Traffic
  import opened LocalBuffers

  /** The event whose RECV is refused: the RECV of message 256. */
  const REFUSED: nat := 513

  function EventAt(cfg: Config, requests: seq<Completion>, e: nat): Event
    requires e / 2 < |requests|
  {
    if e % 2 == 0 then SendPosted(Reply(cfg, requests[e / 2], e / 2))
    else if e == REFUSED then RecvRefused
    else RecvPosted(Credit(requests[e / 2]))
  }

  /** The first n events of that run. */
  function Log(cfg: Config, requests: seq<Completion>, n: nat): (log: seq<Event>)
    requires n <= 2 * |requests|
    ensures |log| == n
  {
    seq(n, e requires 0 <= e < n => EventAt(cfg, requests, e))
  }

  lemma LogAnswers(cfg: Config, requests: seq<Completion>, n: nat)
    requires n <= 2 * |requests|
    ensures Answers(cfg, Log(cfg, requests, n), requests)
    ensures n <= REFUSED ==> NoRefusal(Log(cfg, requests, n))
  {
    forall e | 0 <= e < n
      ensures Answer(cfg, Log(cfg, requests, n)[e], e, requests)
    {
    }
  }

  lemma LogPosts(cfg: Config, requests: seq<Completion>, n: nat)
    requires n < 2 * |requests|
    ensures PostsOf(Log(cfg, requests, n + 1)) ==
            PostsOf(Log(cfg, requests, n)) + (if n == REFUSED then [] else [EventAt(cfg, requests, n).request])
  {
    assert Log(cfg, requests, n + 1) == Log(cfg, requests, n) + [EventAt(cfg, requests, n)];
    PostsSnoc(Log(cfg, requests, n), EventAt(cfg, requests, n));
  }

  lemma {:induction false} LogLength(cfg: Config, requests: seq<Completion>, n: nat)
    requires n <= 2 * |requests|
    ensures |PostsOf(Log(cfg, requests, n))| == if n <= REFUSED then n else n - 1
  {
    hide PostsOf, Log;
    if n == 0 {
      LogAnswers(cfg, requests, 0);
      PostsOfUnrefused(Log(cfg, requests, 0));
    } else {
      LogLength(cfg, requests, n - 1);
      LogPosts(cfg, requests, n - 1);
    }
  }

  /** The work queue after the first n events, the NIC freeing a slot only when a SEND waits for one. */
  function StateAt(cfg: Config, requests: seq<Completion>, start: seq<WqEntry>, init: bool, n: nat): WorkQueue
    requires n <= 2 * |requests| && |start| == MAX_NUM_WQ
  {
    Unread(start, init, PostsOf(Log(cfg, requests, n)))
  }

  /** With nothing of the last lap read, the head slot is valid from the first full lap on. */
  lemma HeadValidAt(cfg: Config, requests: seq<Completion>, start: seq<WqEntry>, init: bool, n: nat)
    requires n <= 2 * |requests| && |start| == MAX_NUM_WQ && 512 <= n
    ensures var v := StateAt(cfg, requests, start, init, n);
            WqRing(v) && |v.q| == MAX_NUM_WQ && v.q[HeadSlot(v)].valid
  {
    hide PostsOf, Log, WqRing;
    var v := StateAt(cfg, requests, start, init, n);
    LogLength(cfg, requests, n);
    UnreadIsRing(start, init, v.posts);
    LapSlot(v, |v.posts| - MAX_NUM_WQ);
    LapBack(|v.posts| - MAX_NUM_WQ);
  }

  // ---------------------------------------------------------------- the inputs

  /** After 512 events with no RECV refused the work queue is in state v, and the header of the next
      reply hits a live SEND. */
  ghost predicate HeaderHit(cfg: Config, requests: seq<Completion>, log: seq<Event>, v: WorkQueue) {
    && |log| == 512 && Answers(cfg, log, requests) && NoRefusal(log)
    && Reachable(v, 512) && v.posts == PostsOf(log)
    && HitsLiveSend(cfg, v.q, SlotAddress(cfg, 256))
  }

  /** Any 256 requests can lead to that. */
  lemma {:induction false} HeaderHitInput(cfg: Config, requests: seq<Completion>, start: seq<WqEntry>, init: bool)
    returns (log: seq<Event>, v: WorkQueue)
    requires GoodConfig(cfg) && |requests| >= 256 && FreshWq(start, init)
    ensures HeaderHit(cfg, requests, log, v)
  {
    hide Reachable, HitsLiveSend, SlotAddress, Log, PostsOf, WqRing;
    log := Log(cfg, requests, 512);
    v := StateAt(cfg, requests, start, init, 512);
    LogAnswers(cfg, requests, 512);
    LogLength(cfg, requests, 512);
    UnreadReachable(start, init, v.posts);
    HeadValidAt(cfg, requests, start, init, 512);
    HeaderHitsLiveSendExactly(cfg, v, log, requests);
  }

  /** The state in which the RECV of message 256 is refused: one entry was completed, the SEND of
      message 256 took its place, and the head slot is valid. */
  lemma {:induction false} RefusalInput(cfg: Config, requests: seq<Completion>, start: seq<WqEntry>, init: bool)
    returns (v: WorkQueue)
    requires |requests| >= 257 && FreshWq(start, init)
    ensures Reachable(v, 515) && v == WorkQueue(v.q, start, init, PostsOf(Log(cfg, requests, REFUSED)), 1, map[])
    ensures v == StateAt(cfg, requests, start, init, REFUSED)
    ensures |v.q| == MAX_NUM_WQ && v.q[HeadSlot(v)].valid
  {
    hide Reachable, Log, PostsOf, WqRing;
    v := StateAt(cfg, requests, start, init, REFUSED);
    LogLength(cfg, requests, REFUSED);
    UnreadReachable(start, init, v.posts);
    HeadValidAt(cfg, requests, start, init, REFUSED);
  }

  /** The log answers the requests and refuses a single RECV, in the reachable state `refused` where
      the head slot is valid. In three more steps, the NIC's read and completion of one entry and the
      next SEND, the same run is in state v, where two uncompleted SENDs share a packet. */
  ghost predicate Collision(cfg: Config, requests: seq<Completion>, log: seq<Event>, refused: WorkQueue, v: WorkQueue) {
    && |log| == 515 && Answers(cfg, log, requests) && CountRefused(log) == 1 && log[REFUSED] == RecvRefused
    && Reachable(refused, 515) && refused.posts == PostsOf(log[..REFUSED])
    && |refused.q| == MAX_NUM_WQ && refused.q[HeadSlot(refused)].valid
    && InThreeSteps(refused, v)
    && Reachable(v, 518) && v.posts == PostsOf(log) && LapSends(v.posts) == MSGS_PER_PAIR + 1
    && !AllApart(cfg, v.q)
  }

  /** One refused RECV is enough: any 258 requests can lead to a collision. */
  lemma {:induction false} CollisionInput(cfg: Config, requests: seq<Completion>, start: seq<WqEntry>, init: bool)
    returns (log: seq<Event>, refused: WorkQueue, v: WorkQueue)
    requires GoodConfig(cfg) && |requests| >= 258 && FreshWq(start, init)
    ensures Collision(cfg, requests, log, refused, v)
  {
    hide Reachable, InThreeSteps, PostsOf, AllApart, LapSends, CountRefused, CountSends, CountRecvs, Unread, WqRing;
    log := Log(cfg, requests, 515);
    assert log[..REFUSED] == Log(cfg, requests, REFUSED);
    LogAnswers(cfg, requests, 515);
    refused := RefusalInput(cfg, requests, start, init);
    v := StateAt(cfg, requests, start, init, 515);
    LogPosts(cfg, requests, REFUSED);
    LogPosts(cfg, requests, 514);
    LogLength(cfg, requests, REFUSED);
    assert PostsOf(log) == refused.posts + [EventAt(cfg, requests, 514).request];
    UnreadNext(start, init, refused.posts, EventAt(cfg, requests, 514).request);
    ThreeMoreSteps(refused, 515, v);
    ReachableIsRing(v, 518);
    EventCount(log);
    SendsAreReplies(cfg, log, requests);
    LapOfCollision(cfg, requests);
    UnreadPosts(start, init, PostsOf(log));
    ManySendsCollide(cfg, v, requests);
  }

  lemma UnreadPosts(start: seq<WqEntry>, init: bool, posts: seq<WorkRequest>)
    requires |start| == MAX_NUM_WQ
    ensures var v := Unread(start, init, posts); v.posts == posts && v.read == LapStart(posts)
  {
  }

  lemma LapOfCollision(cfg: Config, requests: seq<Completion>)
    requires |requests| >= 258
    ensures var posts := PostsOf(Log(cfg, requests, 515)); |posts| == 514 && LapSends(posts) == MSGS_PER_PAIR + 1
  {
    hide PostsOf, SendsOf;
    var log := Log(cfg, requests, 515);
    var posts, before := PostsOf(log), PostsOf(Log(cfg, requests, REFUSED));
    LogAnswers(cfg, requests, 515);
    LogAnswers(cfg, requests, REFUSED);
    LogPosts(cfg, requests, REFUSED);
    LogPosts(cfg, requests, 514);
    SendsAreReplies(cfg, log, requests);
    AlternatingSends(cfg, Log(cfg, requests, REFUSED), requests, 2);
    assert posts[..2] == before[..2];
    assert posts[..|posts|] == posts;
  }
}
