/**
  Reuse of the worker's local buffer. It has half as many slots as the work queue has entries, and
  nothing but the alternation of SENDs and RECVs keeps a slot from being reused while the NIC may
  still be reading it.
 */
module LocalBuffers {
  import opened PhaseRing
  import opened Rings
  import opened Traffic

  ghost predicate NoRefusal(log: seq<Event>) {
    forall e :: 0 <= e < |log| ==> !log[e].RecvRefused?
  }

  /** A SEND the NIC has not finished with. */
  predicate LiveSend(q: seq<WqEntry>, i: nat) {
    i < |q| && q[i].valid && q[i].request.op == RMC_SEND
  }

  ghost predicate InBounds(cfg: Config, address: nat) {
    cfg.lbufBase <= address && address + cfg.packetSize <= cfg.lbufBase + MSGS_PER_PAIR * cfg.packetSize
  }

  /** Packets at the two addresses share no byte. */
  predicate Apart(cfg: Config, a: nat, b: nat) {
    a + cfg.packetSize <= b || b + cfg.packetSize <= a
  }

  /** No two uncompleted SENDs share a byte of the local buffer. */
  ghost predicate AllApart(cfg: Config, q: seq<WqEntry>) {
    forall i: nat, j: nat :: LiveSend(q, i) && LiveSend(q, j) && i != j ==>
      Apart(cfg, q[i].request.bufAddr, q[j].request.bufAddr)
  }

  ghost predicate AllInBounds(cfg: Config, q: seq<WqEntry>) {
    forall i: nat :: LiveSend(q, i) ==> InBounds(cfg, q[i].request.bufAddr)
  }

  /** A packet at this address shares bytes with the packet of some uncompleted SEND. */
  ghost predicate HitsLiveSend(cfg: Config, q: seq<WqEntry>, address: nat) {
    exists i: nat :: LiveSend(q, i) && !Apart(cfg, q[i].request.bufAddr, address)
  }

  lemma SlotsApart(cfg: Config, s: nat, t: nat)
    requires GoodConfig(cfg)
    ensures InBounds(cfg, SlotAddress(cfg, s))
    ensures Apart(cfg, SlotAddress(cfg, s), SlotAddress(cfg, t)) <==> s % MSGS_PER_PAIR != t % MSGS_PER_PAIR
  {
    var a, b := s % MSGS_PER_PAIR, t % MSGS_PER_PAIR;
    MulBelow(a, MSGS_PER_PAIR, cfg.packetSize);
    if a < b {
      MulBelow(a, b, cfg.packetSize);
    } else if b < a {
      MulBelow(b, a, cfg.packetSize);
    }
  }

  // ---------------------------------------------------------------- numbering the SENDs

  /** Start of the last lap of the work queue. */
  function LapStart(posts: seq<WorkRequest>): (a: nat)
    ensures a <= |posts|
  {
    if |posts| < MAX_NUM_WQ then 0 else |posts| - MAX_NUM_WQ
  }

  /** How many SENDs there are among the first k posts; the number of the SEND at position k. */
  function SendsUpTo(posts: seq<WorkRequest>, k: nat): nat
    requires k <= |posts|
  {
    |SendsOf(posts[..k])|
  }

  /** How many of the last MAX_NUM_WQ posts are SENDs. */
  function LapSends(posts: seq<WorkRequest>): int {
    SendsUpTo(posts, |posts|) - SendsUpTo(posts, LapStart(posts))
  }

  lemma SendsNext(posts: seq<WorkRequest>, k: nat)
    requires k < |posts|
    ensures SendsOf(posts[..k + 1]) == SendsOf(posts[..k]) + (if posts[k].op == RMC_SEND then [posts[k]] else [])
  {
    SendsSnoc(posts[..k], posts[k]);
    assert posts[..k] + [posts[k]] == posts[..k + 1];
  }

  lemma PrefixAt(a: seq<WorkRequest>, r: WorkRequest, b: seq<WorkRequest>, c: seq<WorkRequest>)
    requires a + [r] <= b <= c
    ensures |a| < |c| && c[|a|] == r
  {
    assert (a + [r])[|a|] == r;
  }

  lemma ReplyAt(cfg: Config, requests: seq<Completion>, c: nat)
    requires c < |requests|
    ensures Replies(cfg, requests)[c] == Reply(cfg, requests[c], c)
  {
  }

  /** The k-th post, if a SEND, is the reply numbered by the SENDs before it. */
  lemma SendNumber(cfg: Config, posts: seq<WorkRequest>, requests: seq<Completion>, k: nat)
    requires SendsOf(posts) <= Replies(cfg, requests) && k < |posts| && posts[k].op == RMC_SEND
    ensures posts[k].bufAddr == SlotAddress(cfg, SendsUpTo(posts, k))
  {
    hide SlotAddress, SendsOf, Replies;
    SendsNext(posts, k);
    SendsPrefix(posts, k + 1);
    PrefixAt(SendsOf(posts[..k]), posts[k], SendsOf(posts), Replies(cfg, requests));
    ReplyAt(cfg, requests, SendsUpTo(posts, k));
  }

  /** The count grows by one at each SEND. */
  lemma SendsBefore(posts: seq<WorkRequest>, a: nat, b: nat)
    requires a <= b <= |posts|
    ensures SendsUpTo(posts, a) <= SendsUpTo(posts, b) <= SendsUpTo(posts, a) + (b - a)
    ensures a < b && posts[a].op == RMC_SEND ==> SendsUpTo(posts, a) < SendsUpTo(posts, b)
    decreases b - a
  {
    if a < b {
      SendsNext(posts, a);
      SendsBefore(posts, a + 1, b);
    }
  }

  /** Every number below the count is that of some SEND. */
  lemma {:induction false} FindSend(posts: seq<WorkRequest>, c: nat) returns (k: nat)
    requires c < |SendsOf(posts)|
    ensures k < |posts| && posts[k].op == RMC_SEND && SendsUpTo(posts, k) == c
  {
    var n := |posts| - 1;
    if c < |SendsOf(posts[..n])| {
      k := FindSend(posts[..n], c);
      assert posts[..n][..k] == posts[..k];
    } else {
      k := n;
    }
  }

  /** A SEND numbered no lower than the lap's start lies in the lap. */
  lemma InLap(posts: seq<WorkRequest>, k: nat)
    requires k < |posts| && posts[k].op == RMC_SEND && SendsUpTo(posts, LapStart(posts)) <= SendsUpTo(posts, k)
    ensures LapStart(posts) <= k
  {
    hide SendsUpTo;
    if k < LapStart(posts) {
      SendsBefore(posts, k, LapStart(posts));
    }
  }

  lemma RingLength(v: WorkQueue)
    requires WqRing(v)
    ensures |v.q| == MAX_NUM_WQ
  {
  }

  /** A valid slot holds a post of the last lap. */
  lemma LivePosition(v: WorkQueue, i: nat) returns (k: nat)
    requires WqRing(v) && i < |v.q| && v.q[i].valid
    ensures LapStart(v.posts) <= k < |v.posts| && Slot(k, MAX_NUM_WQ) == i && v.q[i].request == v.posts[k]
  {
    assert WqSlot(v, i);
    LastIndexIsLatest(i, |v.posts|, MAX_NUM_WQ);
    k := LastIndex(i, |v.posts|, MAX_NUM_WQ);
  }

  /** A post of the last lap is still in its slot. */
  lemma LapSlot(v: WorkQueue, k: nat)
    requires WqRing(v) && LapStart(v.posts) <= k < |v.posts|
    ensures |v.q| == MAX_NUM_WQ && v.q[Slot(k, MAX_NUM_WQ)].request == v.posts[k]
    ensures v.read <= k ==> v.q[Slot(k, MAX_NUM_WQ)].valid
  {
    PendingExactly(v.init, k, |v.posts|, MAX_NUM_WQ);
    assert WqSlot(v, Slot(k, MAX_NUM_WQ));
  }

  /** Refusals or not, every uncompleted SEND is inside the local buffer. */
  lemma LiveSendsInBounds(cfg: Config, v: WorkQueue, requests: seq<Completion>)
    requires GoodConfig(cfg) && WqRing(v) && SendsOf(v.posts) <= Replies(cfg, requests)
    ensures AllInBounds(cfg, v.q)
  {
    hide WqRing, SendsUpTo, SlotAddress, InBounds, Apart;
    forall i: nat | LiveSend(v.q, i)
      ensures InBounds(cfg, v.q[i].request.bufAddr)
    {
      var k := LivePosition(v, i);
      SendNumber(cfg, v.posts, requests, k);
      SlotsApart(cfg, SendsUpTo(v.posts, k), 0);
    }
  }

  // ---------------------------------------------------------------- when SENDs are disjoint

  lemma NumbersApart(c: nat, d: nat)
    requires c != d && c < d + MSGS_PER_PAIR && d < c + MSGS_PER_PAIR
    ensures c % MSGS_PER_PAIR != d % MSGS_PER_PAIR
  {
  }

  lemma SlotsDiffer(k: nat, l: nat)
    requires k != l && k < l + MAX_NUM_WQ && l < k + MAX_NUM_WQ
    ensures Slot(k, MAX_NUM_WQ) != Slot(l, MAX_NUM_WQ)
  {
  }

  /** At most MSGS_PER_PAIR SENDs in the last lap of posts: uncompleted SENDs are disjoint, whatever
      the order in which the NIC completes. */
  lemma FewSendsDisjoint(cfg: Config, v: WorkQueue, requests: seq<Completion>)
    requires GoodConfig(cfg) && WqRing(v) && SendsOf(v.posts) <= Replies(cfg, requests)
    requires LapSends(v.posts) <= MSGS_PER_PAIR
    ensures AllApart(cfg, v.q)
  {
    hide WqRing, SendsUpTo, SlotAddress, Apart;
    forall i: nat, j: nat | LiveSend(v.q, i) && LiveSend(v.q, j) && i != j
      ensures Apart(cfg, v.q[i].request.bufAddr, v.q[j].request.bufAddr)
    {
      var k := LivePosition(v, i);
      var l := LivePosition(v, j);
      SendNumber(cfg, v.posts, requests, k);
      SendNumber(cfg, v.posts, requests, l);
      LapNumbers(v.posts, k, l);
      NumbersApart(SendsUpTo(v.posts, k), SendsUpTo(v.posts, l));
      SlotsApart(cfg, SendsUpTo(v.posts, k), SendsUpTo(v.posts, l));
    }
  }

  /** Two SENDs of the lap have different numbers, less than the lap's SENDs apart. */
  lemma LapNumbers(posts: seq<WorkRequest>, k: nat, l: nat)
    requires LapStart(posts) <= k < |posts| && LapStart(posts) <= l < |posts| && k != l
    requires posts[k].op == posts[l].op == RMC_SEND
    ensures SendsUpTo(posts, k) != SendsUpTo(posts, l)
    ensures SendsUpTo(posts, k) < SendsUpTo(posts, l) + LapSends(posts)
    ensures SendsUpTo(posts, l) < SendsUpTo(posts, k) + LapSends(posts)
  {
    hide SendsUpTo;
    SendsBefore(posts, LapStart(posts), k);
    SendsBefore(posts, LapStart(posts), l);
    SendsBefore(posts, k, |posts|);
    SendsBefore(posts, l, |posts|);
    if k < l {
      SendsBefore(posts, k, l);
    } else {
      SendsBefore(posts, l, k);
    }
  }

  /** The lap's first SEND and the one MSGS_PER_PAIR later, if the lap has that many. */
  lemma TwoSends(posts: seq<WorkRequest>) returns (k: nat, l: nat)
    requires LapSends(posts) > MSGS_PER_PAIR
    ensures LapStart(posts) <= k < |posts| && LapStart(posts) <= l < |posts|
    ensures posts[k].op == posts[l].op == RMC_SEND
    ensures SendsUpTo(posts, l) == SendsUpTo(posts, k) + MSGS_PER_PAIR
  {
    hide SendsOf;
    assert posts[..|posts|] == posts;
    var c := SendsUpTo(posts, LapStart(posts));
    k := FindSend(posts, c);
    l := FindSend(posts, c + MSGS_PER_PAIR);
    InLap(posts, k);
    InLap(posts, l);
  }

  /** One SEND more in the lap, and all of the lap live: two SENDs use the same packet. */
  lemma ManySendsCollide(cfg: Config, v: WorkQueue, requests: seq<Completion>)
    requires GoodConfig(cfg) && WqRing(v) && SendsOf(v.posts) <= Replies(cfg, requests)
    requires LapSends(v.posts) > MSGS_PER_PAIR && v.read <= LapStart(v.posts)
    ensures !AllApart(cfg, v.q)
  {
    hide WqRing, SlotAddress, Apart, SendsOf, Replies, SendsUpTo, LapSends;
    var k, l := TwoSends(v.posts);
    LapSlot(v, k);
    LapSlot(v, l);
    SendNumber(cfg, v.posts, requests, k);
    SendNumber(cfg, v.posts, requests, l);
    SlotsApart(cfg, SendsUpTo(v.posts, k), SendsUpTo(v.posts, l));
    SlotsDiffer(k, l);
    var i, j := Slot(k, MAX_NUM_WQ), Slot(l, MAX_NUM_WQ);
    assert LiveSend(v.q, i) && LiveSend(v.q, j) && !Apart(cfg, v.q[i].request.bufAddr, v.q[j].request.bufAddr);
  }

  /** The work queue after these posts with the whole last lap still unread. */
  function Unread(start: seq<WqEntry>, init: bool, posts: seq<WorkRequest>): WorkQueue
    requires |start| == MAX_NUM_WQ
  {
    WorkQueue(seq(MAX_NUM_WQ, i requires 0 <= i < MAX_NUM_WQ => UnreadSlot(start, init, posts, i)),
              start, init, posts, LapStart(posts), map[])
  }

  function UnreadSlot(start: seq<WqEntry>, init: bool, posts: seq<WorkRequest>, i: nat): WqEntry
    requires i < |start| == MAX_NUM_WQ
  {
    var k := LastIndex(i, |posts|, MAX_NUM_WQ);
    WqEntry(SlotSense(init, i, |posts|, MAX_NUM_WQ), k >= LapStart(posts),
            if 0 <= k < |posts| then posts[k] else start[i].request)
  }

  lemma UnreadIsRing(start: seq<WqEntry>, init: bool, posts: seq<WorkRequest>)
    requires |start| == MAX_NUM_WQ
    ensures WqRing(Unread(start, init, posts))
  {
    var v := Unread(start, init, posts);
    forall i | 0 <= i < MAX_NUM_WQ
      ensures WqSlot(v, i)
    {
      LastIndexIsLatest(i, |posts|, MAX_NUM_WQ);
    }
  }

  /** Refused RECVs or not: after given posts, uncompleted SENDs are disjoint however far the NIC has
      read and whatever it has completed, if and only if at most MSGS_PER_PAIR of the last
      MAX_NUM_WQ posts are SENDs. */
  lemma DisjointExactly(cfg: Config, start: seq<WqEntry>, init: bool, posts: seq<WorkRequest>,
                        requests: seq<Completion>)
    requires GoodConfig(cfg) && |start| == MAX_NUM_WQ && SendsOf(posts) <= Replies(cfg, requests)
    ensures (forall v: WorkQueue :: WqRing(v) && v.start == start && v.init == init && v.posts == posts ==>
               AllApart(cfg, v.q))
            <==> LapSends(posts) <= MSGS_PER_PAIR
  {
    hide WqRing, LapSends, AllApart;
    if LapSends(posts) <= MSGS_PER_PAIR {
      forall v: WorkQueue | WqRing(v) && v.start == start && v.init == init && v.posts == posts
        ensures AllApart(cfg, v.q)
      {
        FewSendsDisjoint(cfg, v, requests);
      }
    } else {
      UnreadIsRing(start, init, posts);
      ManySendsCollide(cfg, Unread(start, init, posts), requests);
    }
  }

  /** A run that posts as soon as it can, the NIC freeing one slot for each post beyond the first lap,
      goes from one such state to the next. */
  lemma UnreadNext(start: seq<WqEntry>, init: bool, posts: seq<WorkRequest>, r: WorkRequest)
    requires |start| == MAX_NUM_WQ
    ensures |posts| < MAX_NUM_WQ ==> WqStep(Unread(start, init, posts), Unread(start, init, posts + [r]))
    ensures |posts| >= MAX_NUM_WQ ==> InThreeSteps(Unread(start, init, posts), Unread(start, init, posts + [r]))
  {
    hide WqRing, WqStep;
    var u, v := Unread(start, init, posts), Unread(start, init, posts + [r]);
    UnreadIsRing(start, init, posts);
    UnreadIsRing(start, init, posts + [r]);
    RingLength(u);
    if |posts| < MAX_NUM_WQ {
      PostStep(u, r);
      RingDetermined(Posted(u, r), v);
    } else {
      var a, b := FreeSteps(u);
      RingLength(b);
      PostStep(b, r);
      RingDetermined(Posted(b, r), v);
      assert WqStep(u, a) && WqStep(a, b) && WqStep(b, v);
    }
  }

  ghost predicate InThreeSteps(u: WorkQueue, v: WorkQueue) {
    exists a: WorkQueue, b: WorkQueue :: WqStep(u, a) && WqStep(a, b) && WqStep(b, v)
  }

  lemma ThreeMoreSteps(u: WorkQueue, n: nat, v: WorkQueue)
    requires Reachable(u, n) && InThreeSteps(u, v)
    ensures Reachable(v, n + 3)
  {
    hide WqStep, Reachable;
    var a, b :| WqStep(u, a) && WqStep(a, b) && WqStep(b, v);
    OneMoreStep(u, n, a);
    OneMoreStep(a, n + 1, b);
    OneMoreStep(b, n + 2, v);
  }

  lemma NothingPosted(start: seq<WqEntry>, init: bool)
    requires FreshWq(start, init)
    ensures Reachable(Unread(start, init, []), 0)
  {
    var v := WorkQueue(start, start, init, [], 0, map[]);
    WqFresh(start, init);
    UnreadIsRing(start, init, []);
    RingDetermined(v, Unread(start, init, []));
  }

  /** Whatever is posted, the state with the last lap unread can be reached. */
  lemma {:induction false} UnreadReachable(start: seq<WqEntry>, init: bool, posts: seq<WorkRequest>)
    requires FreshWq(start, init)
    ensures Reachable(Unread(start, init, posts), |posts| + 2 * LapStart(posts))
    decreases |posts|
  {
    hide WqStep, Reachable, Unread, InThreeSteps;
    if posts == [] {
      NothingPosted(start, init);
    } else {
      var before := posts[..|posts| - 1];
      UnreadReachable(start, init, before);
      UnreadNext(start, init, before, posts[|posts| - 1]);
      assert before + [posts[|posts| - 1]] == posts;
      var n := |before| + 2 * LapStart(before);
      if |before| < MAX_NUM_WQ {
        OneMoreStep(Unread(start, init, before), n, Unread(start, init, posts));
      } else {
        ThreeMoreSteps(Unread(start, init, before), n, Unread(start, init, posts));
      }
    }
  }

  /** `DisjointExactly` over the states that runs reach: if the lap holds too many SENDs, some run with
      just these posts ends with two uncompleted SENDs in the same packet. */
  lemma DisjointInRunsExactly(cfg: Config, start: seq<WqEntry>, init: bool, posts: seq<WorkRequest>,
                              requests: seq<Completion>)
    requires GoodConfig(cfg) && FreshWq(start, init) && SendsOf(posts) <= Replies(cfg, requests)
    ensures (forall v: WorkQueue, n: nat ::
               Reachable(v, n) && v.start == start && v.init == init && v.posts == posts ==> AllApart(cfg, v.q))
            <==> LapSends(posts) <= MSGS_PER_PAIR
  {
    hide WqRing, LapSends, AllApart, Reachable;
    if LapSends(posts) <= MSGS_PER_PAIR {
      forall v: WorkQueue, n: nat | Reachable(v, n) && v.start == start && v.init == init && v.posts == posts
        ensures AllApart(cfg, v.q)
      {
        ReachableIsRing(v, n);
        FewSendsDisjoint(cfg, v, requests);
      }
    } else {
      UnreadIsRing(start, init, posts);
      UnreadReachable(start, init, posts);
      ManySendsCollide(cfg, Unread(start, init, posts), requests);
    }
  }

  // ---------------------------------------------------------------- with no RECV refused

  lemma {:induction false} PostsOfUnrefused(log: seq<Event>)
    requires NoRefusal(log)
    ensures |PostsOf(log)| == |log|
    ensures forall e :: 0 <= e < |log| ==> PostsOf(log)[e] == log[e].request
  {
    if log != [] {
      PostsOfUnrefused(log[..|log| - 1]);
    }
  }

  /** SENDs and RECVs alternate, so the first k posts hold half of k SENDs. */
  lemma AlternatingSends(cfg: Config, log: seq<Event>, requests: seq<Completion>, k: nat)
    requires Answers(cfg, log, requests) && NoRefusal(log) && k <= |log|
    ensures |PostsOf(log)| == |log| && SendsUpTo(PostsOf(log), k) == (k + 1) / 2
    ensures k < |log| ==> (PostsOf(log)[k].op == RMC_SEND <==> k % 2 == 0)
  {
    PostsOfUnrefused(log);
    PostsOfUnrefused(log[..k]);
    assert PostsOf(log)[..k] == PostsOf(log[..k]);
    assert forall e :: 0 <= e < k ==> Answer(cfg, log[e], e, requests);
    SendsAreReplies(cfg, log[..k], requests);
    if k < |log| {
      assert Answer(cfg, log[k], k, requests);
    }
  }

  /** So no lap holds more SENDs than the local buffer has slots. */
  lemma AlternationBound(cfg: Config, log: seq<Event>, requests: seq<Completion>)
    requires Answers(cfg, log, requests) && NoRefusal(log)
    ensures LapSends(PostsOf(log)) <= MSGS_PER_PAIR
  {
    hide SendsUpTo, PostsOf, Answers, NoRefusal;
    AlternatingSends(cfg, log, requests, |log|);
    AlternatingSends(cfg, log, requests, LapStart(PostsOf(log)));
  }

  /** As long as no RECV was refused, uncompleted SENDs use pairwise disjoint packets. */
  lemma LiveSendsDisjoint(cfg: Config, v: WorkQueue, log: seq<Event>, requests: seq<Completion>)
    requires GoodConfig(cfg) && WqRing(v) && v.posts == PostsOf(log)
    requires Answers(cfg, log, requests) && NoRefusal(log)
    ensures AllApart(cfg, v.q)
  {
    hide WqRing, SendsUpTo, AllApart, PostsOf, SendsOf, Answers, NoRefusal;
    SendsAreReplies(cfg, log, requests);
    AlternationBound(cfg, log, requests);
    FewSendsDisjoint(cfg, v, requests);
  }

  // ---------------------------------------------------------------- the header write

  /** The SEND with number c is among the last lap of posts and not yet completed. */
  ghost predicate SendIsLive(v: WorkQueue, c: int) {
    exists k: nat :: LapStart(v.posts) <= k < |v.posts| && IsLiveAt(v, k) && SendsUpTo(v.posts, k) == c
  }

  ghost predicate IsLiveAt(v: WorkQueue, k: nat)
    requires k < |v.posts|
  {
    v.posts[k].op == RMC_SEND && |v.q| == MAX_NUM_WQ && v.q[Slot(k, MAX_NUM_WQ)].valid
  }

  /** Less than two rounds of the local buffer behind s, only s - 256 and s - 512 have its slot. */
  lemma NumbersMeet(c: nat, s: nat)
    requires c < s <= c + MAX_NUM_WQ
    ensures c % MSGS_PER_PAIR == s % MSGS_PER_PAIR <==>
            s == c + MSGS_PER_PAIR || s == c + 2 * MSGS_PER_PAIR
  {
  }

  /** Before it posts reply number s, the worker writes its header. Refusals or not, that write lands
      in the packet of an uncompleted SEND if and only if SEND s - 256 or SEND s - 512 is one. */
  lemma HeaderHitsExactly(cfg: Config, v: WorkQueue, requests: seq<Completion>)
    requires GoodConfig(cfg) && WqRing(v) && SendsOf(v.posts) <= Replies(cfg, requests)
    ensures var s := SendsUpTo(v.posts, |v.posts|);
            HitsLiveSend(cfg, v.q, SlotAddress(cfg, s)) <==>
            SendIsLive(v, s - MSGS_PER_PAIR) || SendIsLive(v, s - 2 * MSGS_PER_PAIR)
  {
    hide WqRing, SendsUpTo, SlotAddress, Apart;
    var s := SendsUpTo(v.posts, |v.posts|);
    forall i: nat | LiveSend(v.q, i) && !Apart(cfg, v.q[i].request.bufAddr, SlotAddress(cfg, s))
      ensures SendIsLive(v, s - MSGS_PER_PAIR) || SendIsLive(v, s - 2 * MSGS_PER_PAIR)
    {
      var k := LivePosition(v, i);
      HeaderAgainst(cfg, v, requests, k);
      RingLength(v);
      assert IsLiveAt(v, k);
    }
    forall k: nat | LapStart(v.posts) <= k < |v.posts| && IsLiveAt(v, k) &&
                    (SendsUpTo(v.posts, k) == s - MSGS_PER_PAIR || SendsUpTo(v.posts, k) == s - 2 * MSGS_PER_PAIR)
      ensures HitsLiveSend(cfg, v.q, SlotAddress(cfg, s))
    {
      HeaderAgainst(cfg, v, requests, k);
      LapSlot(v, k);
      assert LiveSend(v.q, Slot(k, MAX_NUM_WQ));
    }
  }

  /** The header of the next reply against the packet of the SEND at position k of the lap. */
  lemma HeaderAgainst(cfg: Config, v: WorkQueue, requests: seq<Completion>, k: nat)
    requires GoodConfig(cfg) && SendsOf(v.posts) <= Replies(cfg, requests)
    requires LapStart(v.posts) <= k < |v.posts| && v.posts[k].op == RMC_SEND
    ensures var s, c := SendsUpTo(v.posts, |v.posts|), SendsUpTo(v.posts, k);
            !Apart(cfg, v.posts[k].bufAddr, SlotAddress(cfg, s)) <==>
            c == s - MSGS_PER_PAIR || c == s - 2 * MSGS_PER_PAIR
  {
    hide SendsUpTo, SlotAddress, Apart;
    var s, c := SendsUpTo(v.posts, |v.posts|), SendsUpTo(v.posts, k);
    SendNumber(cfg, v.posts, requests, k);
    SendsBefore(v.posts, k, |v.posts|);
    NumbersMeet(c, s);
    SlotsApart(cfg, c, s);
  }

  /** With no RECV refused so far the header lands in the packet of an uncompleted SEND if and only if
      the slot under the work queue's head is still valid, which is the check made only afterwards. */
  lemma HeaderHitsLiveSendExactly(cfg: Config, v: WorkQueue, log: seq<Event>, requests: seq<Completion>)
    requires GoodConfig(cfg) && WqRing(v) && v.posts == PostsOf(log)
    requires Answers(cfg, log, requests) && NoRefusal(log) && |log| % 2 == 0
    ensures HitsLiveSend(cfg, v.q, SlotAddress(cfg, |log| / 2)) <==> v.q[HeadSlot(v)].valid
  {
    hide WqRing, SendsUpTo, PostsOf, SendsOf, Answers, NoRefusal, SlotAddress, HitsLiveSend, SendIsLive, Replies;
    SendsAreReplies(cfg, log, requests);
    AlternatingSends(cfg, log, requests, |log|);
    HeaderHitsExactly(cfg, v, requests);
    RingLength(v);
    LiveIsHead(cfg, v, log, requests);
    if v.q[HeadSlot(v)].valid {
      HeadSendIsLive(cfg, v, log, requests);
    }
  }

  /** With SENDs and RECVs alternating, SEND 256 before the next one sits in the head slot if it is
      live, and SEND 512 before it is no longer there. */
  lemma LiveIsHead(cfg: Config, v: WorkQueue, log: seq<Event>, requests: seq<Completion>)
    requires |v.q| == MAX_NUM_WQ && v.posts == PostsOf(log)
    requires Answers(cfg, log, requests) && NoRefusal(log) && |log| % 2 == 0
    ensures SendIsLive(v, |log| / 2 - MSGS_PER_PAIR) ==> v.q[HeadSlot(v)].valid
    ensures !SendIsLive(v, |log| / 2 - 2 * MSGS_PER_PAIR)
  {
    hide SendsUpTo, PostsOf, Answers, NoRefusal;
    AlternatingSends(cfg, log, requests, |log|);
    forall k: nat | LapStart(v.posts) <= k < |v.posts| && IsLiveAt(v, k)
      ensures SendsUpTo(v.posts, k) >= |log| / 2 - MSGS_PER_PAIR
      ensures SendsUpTo(v.posts, k) == |log| / 2 - MSGS_PER_PAIR ==> Slot(k, MAX_NUM_WQ) == HeadSlot(v)
    {
      AlternatingSends(cfg, log, requests, k);
      LapBack(k);
    }
  }

  /** And a valid head slot holds that SEND. */
  lemma HeadSendIsLive(cfg: Config, v: WorkQueue, log: seq<Event>, requests: seq<Completion>)
    requires WqRing(v) && v.posts == PostsOf(log) && v.q[HeadSlot(v)].valid
    requires Answers(cfg, log, requests) && NoRefusal(log) && |log| % 2 == 0
    ensures SendIsLive(v, |log| / 2 - MSGS_PER_PAIR)
  {
    hide WqRing, SendsUpTo, PostsOf, Answers, NoRefusal, Slot;
    RingLength(v);
    AlternatingSends(cfg, log, requests, |log|);
    var k := LivePosition(v, HeadSlot(v));
    HeadIsLapBack(k, |v.posts|);
    AlternatingSends(cfg, log, requests, k);
    assert IsLiveAt(v, k);
  }

  lemma LapBack(k: nat)
    ensures Slot(k + MAX_NUM_WQ, MAX_NUM_WQ) == Slot(k, MAX_NUM_WQ)
  {
  }

  lemma HeadIsLapBack(k: nat, w: nat)
    requires k < w <= k + MAX_NUM_WQ && Slot(k, MAX_NUM_WQ) == Slot(w, MAX_NUM_WQ)
    ensures w == k + MAX_NUM_WQ
  {
  }
}
