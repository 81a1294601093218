/**
  What the worker is for, said without its code: the requests among the completions the NIC
  posted, the reply each of them is owed, and which logs of application posts answer them.
 */
module Traffic {
  import opened Rings

  const MSGS_PER_PAIR: nat := 256
  const SR_CTX_ID: nat := 7
  const CACHE_BLOCK_SIZE: nat := 64

  /** Run-time parameters: `params.batch_size`, `params.packet_size`, and the byte address of the
      worker's local buffer, which has MSGS_PER_PAIR slots of `packetSize` bytes. */
  datatype Config = Config(batchSize: nat, packetSize: nat, lbufBase: nat)

  predicate GoodConfig(cfg: Config) {
    && cfg.batchSize >= 1
    && 0 < cfg.packetSize < 0x1_0000_0000
    && cfg.packetSize % CACHE_BLOCK_SIZE == 0
  }

  /** One event of the application side: a SEND entry written, a RECV entry written, or a RECV
      given up because the head slot was still valid. */
  datatype Event = SendPosted(request: WorkRequest) | RecvPosted(request: WorkRequest) | RecvRefused

  function Requests(s: seq<Completion>): seq<Completion> {
    if s == [] then []
    else
      var last := s[|s| - 1];
      Requests(s[..|s| - 1]) + (if last.success == INCOMING_REQUEST then [last] else [])
  }

  /** The entries that a log of events wrote to the work queue. */
  function PostsOf(log: seq<Event>): seq<WorkRequest> {
    if log == [] then []
    else
      var last := log[|log| - 1];
      PostsOf(log[..|log| - 1]) + (if last.RecvRefused? then [] else [last.request])
  }

  function SendsOf(posts: seq<WorkRequest>): seq<WorkRequest> {
    if posts == [] then []
    else
      var last := posts[|posts| - 1];
      SendsOf(posts[..|posts| - 1]) + (if last.op == RMC_SEND then [last] else [])
  }

  /** Byte address of the local buffer slot for the i-th send; the slots are used in turn. */
  function SlotAddress(cfg: Config, i: nat): nat {
    cfg.lbufBase + (i % MSGS_PER_PAIR) * cfg.packetSize
  }

  /** The reply owed to the i-th request: sent back to the node named by the low 16 bits of the
      request's tid, from slot i mod 256 of the local buffer, one whole packet long. */
  function Reply(cfg: Config, request: Completion, i: nat): WorkRequest {
    WorkRequest(RMC_SEND, SlotAddress(cfg, i), SR_CTX_ID, request.tid % 0x1_0000, 0, cfg.packetSize / CACHE_BLOCK_SIZE)
  }

  /** The RECV that gives a request's receive buffer back. */
  function Credit(request: Completion): WorkRequest {
    WorkRequest(RMC_RECV, request.recvBufAddr, SR_CTX_ID, 0, 0, 64)
  }

  function Replies(cfg: Config, requests: seq<Completion>): (r: seq<WorkRequest>)
    ensures |r| == |requests|
  {
    seq(|requests|, i requires 0 <= i < |requests| => Reply(cfg, requests[i], i))
  }

  /** Request number i sent back, said in full: operation, local buffer slot, context, node, and length in
      cache blocks. */
  predicate SentBack(cfg: Config, r: WorkRequest, request: Completion, i: nat) {
    && r.op == 16 && r.cid == 7 && r.offset == 0
    && r.nid == request.tid % 0x1_0000
    && r.bufAddr == cfg.lbufBase + (i % 256) * cfg.packetSize
    && r.length == cfg.packetSize / 64
  }

  /** A request's receive buffer given back, said in full. */
  predicate GivenBack(r: WorkRequest, request: Completion) {
    r.op == 5 && r.bufAddr == request.recvBufAddr && r.cid == 7 && r.nid == 0 && r.offset == 0 && r.length == 64
  }

  /** The log answers the requests one at a time and in order: event 2i is the one and only reply
      to request i, event 2i+1 is that request's RECV, posted or refused. */
  ghost predicate Answers(cfg: Config, log: seq<Event>, requests: seq<Completion>) {
    forall e :: 0 <= e < |log| ==> Answer(cfg, log[e], e, requests)
  }

  ghost predicate Answer(cfg: Config, event: Event, e: nat, requests: seq<Completion>) {
    && e / 2 < |requests|
    && if e % 2 == 0 then event == SendPosted(Reply(cfg, requests[e / 2], e / 2))
       else event == RecvPosted(Credit(requests[e / 2])) || event == RecvRefused
  }

  /** RECVs are refused only once a whole lap of the work queue has been posted. */
  ghost predicate RefusedAfterLap(log: seq<Event>) {
    forall e :: 0 <= e < |log| && log[e].RecvRefused? ==> |PostsOf(log[..e])| >= MAX_NUM_WQ
  }

  // ---------------------------------------------------------------- requests

  /** A completion with success code 0x7F is a request, numbered by those before it. */
  lemma {:induction false} RequestAt(s: seq<Completion>, k: nat)
    requires k < |s| && s[k].success == 0x7F
    ensures |Requests(s[..k])| < |Requests(s)| && Requests(s)[|Requests(s[..k])|] == s[k]
  {
    if k < |s| - 1 {
      RequestAt(s[..|s| - 1], k);
      assert s[..|s| - 1][..k] == s[..k];
    }
  }

  /** And every request is one of those. */
  lemma {:induction false} FindRequest(s: seq<Completion>, i: nat) returns (k: nat)
    requires i < |Requests(s)|
    ensures k < |s| && s[k].success == 0x7F && |Requests(s[..k])| == i
  {
    var n := |s| - 1;
    if i < |Requests(s[..n])| {
      k := FindRequest(s[..n], i);
      assert s[..n][..k] == s[..k];
    } else {
      k := n;
    }
  }

  lemma RequestsSnoc(s: seq<Completion>, k: nat)
    requires k < |s|
    ensures Requests(s[..k + 1]) == Requests(s[..k]) + (if s[k].success == INCOMING_REQUEST then [s[k]] else [])
  {
    assert s[..k + 1][..k] == s[..k];
  }

  lemma {:induction false} RequestsSkip(s: seq<Completion>, a: nat, b: nat)
    requires a <= b <= |s|
    requires forall k :: a <= k < b ==> s[k].success != INCOMING_REQUEST
    ensures Requests(s[..b]) == Requests(s[..a])
  {
    if a < b {
      RequestsSkip(s, a, b - 1);
      RequestsSnoc(s, b - 1);
    }
  }

  lemma {:induction false} RequestsGrow(s: seq<Completion>, a: nat, b: nat)
    requires a <= b <= |s|
    ensures Requests(s[..a]) <= Requests(s[..b])
  {
    if a < b {
      RequestsGrow(s, a, b - 1);
      RequestsSnoc(s, b - 1);
    }
  }

  lemma AnswersGrow(cfg: Config, log: seq<Event>, requests: seq<Completion>, more: seq<Completion>)
    requires Answers(cfg, log, requests) && requests <= more
    ensures Answers(cfg, log, more)
  {
    forall e | 0 <= e < |log|
      ensures Answer(cfg, log[e], e, more)
    {
      assert Answer(cfg, log[e], e, requests);
    }
  }

  lemma AnswersSnoc(cfg: Config, log: seq<Event>, event: Event, requests: seq<Completion>)
    requires Answers(cfg, log, requests) && Answer(cfg, event, |log|, requests)
    ensures Answers(cfg, log + [event], requests)
  {
    forall e | 0 <= e < |log| + 1
      ensures Answer(cfg, (log + [event])[e], e, requests)
    {
      assert e < |log| ==> Answer(cfg, log[e], e, requests);
    }
  }

  // ---------------------------------------------------------------- posts

  lemma PostsSnoc(log: seq<Event>, event: Event)
    ensures PostsOf(log + [event]) == PostsOf(log) + (if event.RecvRefused? then [] else [event.request])
  {
    assert (log + [event])[..|log|] == log;
  }

  lemma {:induction false} PostsPrefix(log: seq<Event>, n: nat)
    requires n <= |log|
    ensures |PostsOf(log[..n])| <= |PostsOf(log)|
  {
    if n < |log| {
      PostsPrefix(log[..|log| - 1], n);
      assert log[..|log| - 1][..n] == log[..n];
    } else {
      assert log[..n] == log;
    }
  }

  lemma RefusedSnoc(log: seq<Event>, event: Event)
    requires RefusedAfterLap(log) && (event.RecvRefused? ==> |PostsOf(log)| >= MAX_NUM_WQ)
    ensures RefusedAfterLap(log + [event])
  {
    hide PostsOf;
    var more := log + [event];
    forall e | 0 <= e < |more| && more[e].RecvRefused?
      ensures |PostsOf(more[..e])| >= MAX_NUM_WQ
    {
      if e < |log| {
        assert more[..e] == log[..e];
      } else {
        assert more[..e] == log;
      }
    }
  }

  lemma SendsSnoc(posts: seq<WorkRequest>, r: WorkRequest)
    ensures SendsOf(posts + [r]) == SendsOf(posts) + (if r.op == RMC_SEND then [r] else [])
  {
    assert (posts + [r])[..|posts|] == posts;
  }

  lemma {:induction false} SendsPrefix(posts: seq<WorkRequest>, k: nat)
    requires k <= |posts|
    ensures SendsOf(posts[..k]) <= SendsOf(posts)
  {
    if k < |posts| {
      SendsPrefix(posts[..|posts| - 1], k);
      assert posts[..|posts| - 1][..k] == posts[..k];
    } else {
      assert posts[..k] == posts;
    }
  }

  /** A log that answers the requests writes, as its SENDs, exactly the replies owed to the first
      half of them: in order, each once, nothing else. */
  lemma {:induction false} SendsAreReplies(cfg: Config, log: seq<Event>, requests: seq<Completion>)
    requires Answers(cfg, log, requests)
    ensures (|log| + 1) / 2 <= |requests|
    ensures SendsOf(PostsOf(log)) == Replies(cfg, requests)[..(|log| + 1) / 2]
    ensures forall i :: 0 <= i < (|log| + 1) / 2 ==> SentBack(cfg, SendsOf(PostsOf(log))[i], requests[i], i)
  {
    hide Reply, SlotAddress;
    if log != [] {
      var n := |log| - 1;
      assert forall e :: 0 <= e < n ==> Answer(cfg, log[e], e, requests);
      SendsAreReplies(cfg, log[..n], requests);
      assert Answer(cfg, log[n], n, requests);
      AnswerSends(cfg, PostsOf(log[..n]), log[n], n, requests);
    }
    RepliesInFull(cfg, SendsOf(PostsOf(log)), requests);
  }

  lemma AnswerSends(cfg: Config, posts: seq<WorkRequest>, event: Event, e: nat, requests: seq<Completion>)
    requires Answer(cfg, event, e, requests)
    requires SendsOf(posts) == Replies(cfg, requests)[..(e + 1) / 2]
    ensures SendsOf(posts + (if event.RecvRefused? then [] else [event.request])) ==
            Replies(cfg, requests)[..(e + 2) / 2]
  {
    if event.RecvRefused? {
      assert posts + [] == posts;
    } else {
      SendsSnoc(posts, event.request);
    }
    TakeNext(cfg, requests, e / 2);
  }

  lemma TakeNext(cfg: Config, requests: seq<Completion>, i: nat)
    requires i < |requests|
    ensures Replies(cfg, requests)[..i + 1] == Replies(cfg, requests)[..i] + [Reply(cfg, requests[i], i)]
  {
  }

  /** The main theorem about traffic. If the NIC has posted `posted`, of which the application took
      `consumed`, if the application's log answers the requests among those, and if the NIC has read
      a prefix of what that log posted, then the SENDs the NIC read are the replies to its own
      requests: the i-th SEND answers the i-th request, no request is answered twice. */
  lemma EndToEnd(cfg: Config, posted: seq<Completion>, consumed: nat, log: seq<Event>, read: seq<WorkRequest>)
    requires consumed <= |posted|
    requires Answers(cfg, log, Requests(posted[..consumed]))
    requires read <= PostsOf(log)
    ensures SendsOf(read) <= Replies(cfg, Requests(posted))
    // in full: operation, local buffer slot, context, node, offset and length of the i-th SEND
    ensures forall i :: 0 <= i < |SendsOf(read)| ==> SentBack(cfg, SendsOf(read)[i], Requests(posted)[i], i)
  {
    hide Reply, SlotAddress, Requests, PostsOf, SendsOf, Replies;
    var taken, all := Requests(posted[..consumed]), Requests(posted);
    assert posted[..|posted|] == posted;
    RequestsGrow(posted, consumed, |posted|);
    SendsAreReplies(cfg, log, taken);
    SendsPrefix(PostsOf(log), |read|);
    assert PostsOf(log)[..|read|] == read;
    RepliesGrow(cfg, taken, all);
    RepliesInFull(cfg, SendsOf(read), all);
  }

  lemma RepliesGrow(cfg: Config, requests: seq<Completion>, more: seq<Completion>)
    requires requests <= more
    ensures Replies(cfg, requests) <= Replies(cfg, more)
  {
  }

  /** Replies in full: operation, local buffer slot, context, node, offset and length. */
  lemma RepliesInFull(cfg: Config, sends: seq<WorkRequest>, requests: seq<Completion>)
    requires sends <= Replies(cfg, requests)
    ensures forall i :: 0 <= i < |sends| ==> SentBack(cfg, sends[i], requests[i], i)
  {
    forall i | 0 <= i < |sends|
      ensures sends[i] == Reply(cfg, requests[i], i)
    {
      assert sends[i] == Replies(cfg, requests)[i];
    }
  }

  /** What an answering log is made of, in full: event 2i is the SEND to the node that request i names,
      event 2i+1 the RECV that gives its receive buffer back, or the refusal of one. */
  lemma AnswersInFull(cfg: Config, log: seq<Event>, requests: seq<Completion>)
    requires Answers(cfg, log, requests)
    ensures forall e :: 0 <= e < |log| ==>
              && e / 2 < |requests|
              && if e % 2 == 0 then log[e].SendPosted? && SentBack(cfg, log[e].request, requests[e / 2], e / 2)
                 else log[e].RecvRefused? || (log[e].RecvPosted? && GivenBack(log[e].request, requests[e / 2]))
  {
    forall e | 0 <= e < |log|
      ensures e / 2 < |requests|
      ensures if e % 2 == 0 then log[e].SendPosted? && SentBack(cfg, log[e].request, requests[e / 2], e / 2)
              else log[e].RecvRefused? || (log[e].RecvPosted? && GivenBack(log[e].request, requests[e / 2]))
    {
      assert Answer(cfg, log[e], e, requests);
    }
  }

  // ---------------------------------------------------------------- credit accounting

  function CountSends(log: seq<Event>): nat {
    if log == [] then 0 else CountSends(log[..|log| - 1]) + (if log[|log| - 1].SendPosted? then 1 else 0)
  }

  function CountRecvs(log: seq<Event>): nat {
    if log == [] then 0 else CountRecvs(log[..|log| - 1]) + (if log[|log| - 1].RecvPosted? then 1 else 0)
  }

  function CountRefused(log: seq<Event>): nat {
    if log == [] then 0 else CountRefused(log[..|log| - 1]) + (if log[|log| - 1].RecvRefused? then 1 else 0)
  }

  /** SENDs = RECVs + refused RECVs whenever no message is half served, and the work queue holds
      every post but the refused ones. */
  lemma CreditsBalance(cfg: Config, log: seq<Event>, requests: seq<Completion>)
    requires Answers(cfg, log, requests)
    ensures CountSends(log) == (|log| + 1) / 2
    ensures CountRecvs(log) + CountRefused(log) == |log| / 2
    ensures |PostsOf(log)| == |log| - CountRefused(log)
  {
    SendCount(cfg, log, requests);
    EventCount(log);
  }

  lemma {:induction false} SendCount(cfg: Config, log: seq<Event>, requests: seq<Completion>)
    requires Answers(cfg, log, requests)
    ensures CountSends(log) == (|log| + 1) / 2
  {
    if log != [] {
      var n := |log| - 1;
      assert forall e :: 0 <= e < n ==> Answer(cfg, log[e], e, requests);
      SendCount(cfg, log[..n], requests);
      assert Answer(cfg, log[n], n, requests);
    }
  }

  lemma {:induction false} EventCount(log: seq<Event>)
    ensures CountSends(log) + CountRecvs(log) + CountRefused(log) == |log|
    ensures |PostsOf(log)| == |log| - CountRefused(log)
  {
    if log != [] {
      EventCount(log[..|log| - 1]);
    }
  }

  /** The application posts nothing but SENDs and RECVs. */
  lemma {:induction false} OnlySendsAndRecvs(cfg: Config, log: seq<Event>, requests: seq<Completion>)
    requires Answers(cfg, log, requests)
    ensures forall k :: 0 <= k < |PostsOf(log)| ==> PostsOf(log)[k].op == RMC_SEND || PostsOf(log)[k].op == RMC_RECV
  {
    if log != [] {
      var n := |log| - 1;
      assert forall e :: 0 <= e < n ==> Answer(cfg, log[e], e, requests);
      OnlySendsAndRecvs(cfg, log[..n], requests);
      assert Answer(cfg, log[n], n, requests);
    }
  }
}
