/**
  The entries of the two rings that the application shares with the NIC, and what each ring holds
  at any moment: the invariants of the completion queue and of the work queue as facts about
  values, with one lemma for every step that either side can take.
 */
module Rings {
  import opened PhaseRing

  const MAX_NUM_WQ: nat := 512

  const RMC_SABRE: nat := 4
  const RMC_RECV: nat := 5
  const RMC_SEND: nat := 16
  const RMC_INCOMING_SEND: nat := 18
  const RMC_INCOMING_RESP: nat := 20
  const RMC_INVAL: nat := 42

  /** `success` code of a completion that announces an incoming request. */
  const INCOMING_REQUEST: nat := 0x7F

  /** What the NIC reports in one completion queue entry. */
  datatype Completion = Completion(success: nat, tid: nat, recvBufAddr: nat)

  datatype CqEntry = CqEntry(SR: bool, valid: bool, completion: Completion)

  /** What the application asks for in one work queue entry. */
  datatype WorkRequest = WorkRequest(op: nat, bufAddr: nat, cid: nat, nid: nat, offset: nat, length: nat)

  datatype WqEntry = WqEntry(SR: bool, valid: bool, request: WorkRequest)

  /** A completion that is neither an incoming request nor an incoming response. */
  predicate Plain(e: Completion) {
    e.success != INCOMING_REQUEST && e.success != 1
  }

  /** A plain completion names the work queue slot it completes. */
  predicate GoodTid(e: Completion) {
    Plain(e) ==> e.tid < MAX_NUM_WQ
  }

  // ---------------------------------------------------------------- completion queue

  /** The completion queue at a moment: the ring `q` and the sense `init` of its first lap, all that
      the NIC has posted so far, and how many of those entries the application has released. */
  datatype CompletionQueue = CompletionQueue(q: seq<CqEntry>, init: bool, posted: seq<Completion>, consumed: nat)

  /** A slot is valid exactly while it holds an unreleased entry. */
  ghost predicate CqRing(v: CompletionQueue) {
    && |v.q| == MAX_NUM_WQ
    && v.consumed <= |v.posted| <= v.consumed + MAX_NUM_WQ
    && (forall i :: 0 <= i < MAX_NUM_WQ ==> CqSlot(v, i))
    && (forall k :: 0 <= k < |v.posted| ==> GoodTid(v.posted[k]))
  }

  ghost predicate CqSlot(v: CompletionQueue, i: nat)
    requires i < |v.q| == MAX_NUM_WQ
  {
    var e, k := v.q[i], LastIndex(i, |v.posted|, MAX_NUM_WQ);
    && e.SR == SlotSense(v.init, i, |v.posted|, MAX_NUM_WQ)
    && (e.valid <==> k >= v.consumed)
    && (0 <= k < |v.posted| ==> e.completion == v.posted[k])
  }

  /** A ring nobody has used: every phase bit differs from the ring's own, nothing is valid. */
  predicate FreshCq(q: seq<CqEntry>, init: bool) {
    |q| == MAX_NUM_WQ && forall i :: 0 <= i < MAX_NUM_WQ ==> q[i].SR != init && !q[i].valid
  }

  lemma CqFresh(q: seq<CqEntry>, init: bool)
    requires FreshCq(q, init)
    ensures CqRing(CompletionQueue(q, init, [], 0))
  {
  }

  /** The slot under the NIC's head and the one under the application's tail. */
  function NextSlot(v: CompletionQueue): nat {
    Slot(|v.posted|, MAX_NUM_WQ)
  }

  function OldestSlot(v: CompletionQueue): nat {
    Slot(v.consumed, MAX_NUM_WQ)
  }

  /** The queue after the NIC has posted e, and after the application has released the oldest entry. */
  function Arrived(v: CompletionQueue, e: Completion): CompletionQueue
    requires |v.q| == MAX_NUM_WQ
  {
    v.(q := v.q[NextSlot(v) := CqEntry(Sense(v.init, |v.posted|, MAX_NUM_WQ), true, e)], posted := v.posted + [e])
  }

  function Released(v: CompletionQueue): CompletionQueue
    requires |v.q| == MAX_NUM_WQ
  {
    v.(q := v.q[OldestSlot(v) := v.q[OldestSlot(v)].(valid := false)], consumed := v.consumed + 1)
  }

  /** The FIFO law of the completion queue. Looking only at the slot under its tail, the
      application learns whether an unconsumed entry exists, and if so finds the oldest one there;
      looking only at the `valid` bit of its own slot, the NIC learns whether there is room. */
  lemma CqFront(v: CompletionQueue)
    requires CqRing(v)
    ensures var e := v.q[OldestSlot(v)];
            && (e.SR == Sense(v.init, v.consumed, MAX_NUM_WQ) <==> v.consumed < |v.posted|)
            && (v.consumed < |v.posted| ==>
                  e.valid && e.completion == v.posted[v.consumed] && GoodTid(v.posted[v.consumed]))
    ensures v.q[NextSlot(v)].valid <==> |v.posted| == v.consumed + MAX_NUM_WQ
  {
    PendingExactly(v.init, v.consumed, |v.posted|, MAX_NUM_WQ);
    assert CqSlot(v, OldestSlot(v));
    PendingExactly(v.init, |v.posted|, |v.posted|, MAX_NUM_WQ);
    assert CqSlot(v, NextSlot(v));
  }

  /** The NIC posts into the slot after its last one, provided that slot is not valid. */
  lemma CqPost(v: CompletionQueue, e: Completion)
    requires CqRing(v) && !v.q[NextSlot(v)].valid && GoodTid(e)
    ensures CqRing(Arrived(v, e))
  {
    hide SlotSense, Sense;
    CqFront(v);
    forall i | 0 <= i < MAX_NUM_WQ
      ensures CqSlot(Arrived(v, e), i)
    {
      assert CqSlot(v, i);
      WriteNext(v.init, i, |v.posted|, MAX_NUM_WQ);
    }
  }

  /** The application releases the oldest unconsumed entry by clearing its `valid` bit. */
  lemma CqRelease(v: CompletionQueue)
    requires CqRing(v) && v.consumed < |v.posted|
    ensures CqRing(Released(v))
  {
    hide SlotSense, Sense;
    PendingExactly(v.init, v.consumed, |v.posted|, MAX_NUM_WQ);
    forall i | 0 <= i < MAX_NUM_WQ
      ensures CqSlot(Released(v), i)
    {
      assert CqSlot(v, i);
      LastIndexIsLatest(i, |v.posted|, MAX_NUM_WQ);
    }
  }

  /** What a slot holds after its entry, number `consumed` - 1, was released: that same entry until
      the NIC is a whole lap ahead, and from then on the entry that overwrote it. */
  lemma CqReleased(v: CompletionQueue)
    requires CqRing(v) && 0 < v.consumed
    ensures var lapped := |v.posted| == v.consumed + MAX_NUM_WQ;
            v.q[Slot(v.consumed - 1, MAX_NUM_WQ)].completion ==
            v.posted[if lapped then v.consumed - 1 + MAX_NUM_WQ else v.consumed - 1]
  {
    assert CqSlot(v, Slot(v.consumed - 1, MAX_NUM_WQ));
    if |v.posted| < v.consumed + MAX_NUM_WQ {
      PendingExactly(v.init, v.consumed - 1, |v.posted|, MAX_NUM_WQ);
    } else {
      PendingExactly(v.init, v.consumed - 1 + MAX_NUM_WQ, |v.posted|, MAX_NUM_WQ);
    }
  }

  /** One step of either side, each looking only at its own slot. */
  ghost predicate CqStep(v: CompletionQueue, v': CompletionQueue) {
    && |v.q| == MAX_NUM_WQ
    && (|| (!v.q[NextSlot(v)].valid && exists e: Completion :: GoodTid(e) && v' == Arrived(v, e))
        || (v.q[OldestSlot(v)].SR == Sense(v.init, v.consumed, MAX_NUM_WQ) && v' == Released(v)))
  }

  /** A fresh queue can become v in n steps. */
  ghost predicate CqReachable(v: CompletionQueue, n: nat)
    decreases n
  {
    if n == 0 then FreshCq(v.q, v.init) && v == CompletionQueue(v.q, v.init, [], 0)
    else exists u: CompletionQueue :: CqReachable(u, n - 1) && CqStep(u, v)
  }

  lemma {:induction false} CqReachableIsRing(v: CompletionQueue, n: nat)
    requires CqReachable(v, n)
    ensures CqRing(v)
    decreases n
  {
    hide CqRing, CqStep;
    if n == 0 {
      CqFresh(v.q, v.init);
    } else {
      var u: CompletionQueue :| CqReachable(u, n - 1) && CqStep(u, v);
      CqReachableIsRing(u, n - 1);
      CqStepKeepsRing(u, v);
    }
  }

  lemma CqStepKeepsRing(u: CompletionQueue, v: CompletionQueue)
    requires CqRing(u) && CqStep(u, v)
    ensures CqRing(v)
  {
    if !u.q[NextSlot(u)].valid && exists e: Completion :: GoodTid(e) && v == Arrived(u, e) {
      var e: Completion :| GoodTid(e) && v == Arrived(u, e);
      CqPost(u, e);
    } else {
      CqFront(u);
      CqRelease(u);
    }
  }

  // ---------------------------------------------------------------- work queue

  /** The work queue at a moment: the ring `q`, the ring `start` as it was found and the sense `init`
      of the first lap, all requests posted so far, how many of them the NIC has read, and the slots
      it has read and not yet completed, with the request it read there. */
  datatype WorkQueue = WorkQueue(q: seq<WqEntry>, start: seq<WqEntry>, init: bool, posts: seq<WorkRequest>,
                                 read: nat, out: map<nat, WorkRequest>)

  /** A slot is valid exactly while its request is unread or in flight, and a valid slot still holds
      the request that was posted to it. */
  ghost predicate WqRing(v: WorkQueue) {
    && |v.q| == |v.start| == MAX_NUM_WQ
    && v.read <= |v.posts| <= v.read + MAX_NUM_WQ
    && (forall i :: 0 <= i < MAX_NUM_WQ ==> WqSlot(v, i))
    && (forall i :: i in v.out ==> i < MAX_NUM_WQ)
  }

  ghost predicate WqSlot(v: WorkQueue, i: nat)
    requires i < |v.q| == |v.start| == MAX_NUM_WQ
  {
    var e, k := v.q[i], LastIndex(i, |v.posts|, MAX_NUM_WQ);
    && e.SR == SlotSense(v.init, i, |v.posts|, MAX_NUM_WQ)
    && (e.valid <==> k >= v.read || i in v.out)
    && (0 <= k < |v.posts| ==> e.request == v.posts[k])
    && (k < 0 ==> e.request == v.start[i].request)
    && (i in v.out ==> 0 <= k < v.read && v.out[i] == e.request)
  }

  /** The operation in every slot. */
  function Ops(q: seq<WqEntry>): (s: seq<nat>)
    ensures |s| == |q| && forall i :: 0 <= i < |q| ==> s[i] == q[i].request.op
  {
    seq(|q|, i requires 0 <= i < |q| => q[i].request.op)
  }

  predicate FreshWq(q: seq<WqEntry>, init: bool) {
    |q| == MAX_NUM_WQ && forall i :: 0 <= i < MAX_NUM_WQ ==> q[i].SR != init && !q[i].valid
  }

  lemma WqFresh(q: seq<WqEntry>, init: bool)
    requires FreshWq(q, init)
    ensures WqRing(WorkQueue(q, q, init, [], 0, map[]))
  {
  }

  /** The slot under the application's head and the one under the NIC's tail. */
  function HeadSlot(v: WorkQueue): nat {
    Slot(|v.posts|, MAX_NUM_WQ)
  }

  function TailSlot(v: WorkQueue): nat {
    Slot(v.read, MAX_NUM_WQ)
  }

  /** The queue after a post, after the NIC has read the next entry, and after it has completed the
      one in slot s. */
  function Posted(v: WorkQueue, r: WorkRequest): WorkQueue
    requires |v.q| == MAX_NUM_WQ
  {
    v.(q := v.q[HeadSlot(v) := WqEntry(Sense(v.init, |v.posts|, MAX_NUM_WQ), true, r)], posts := v.posts + [r])
  }

  function ReadNext(v: WorkQueue): WorkQueue
    requires |v.q| == MAX_NUM_WQ
  {
    v.(read := v.read + 1, out := v.out[TailSlot(v) := v.q[TailSlot(v)].request])
  }

  function Completed(v: WorkQueue, s: nat): WorkQueue
    requires s < |v.q|
  {
    v.(q := v.q[s := v.q[s].(valid := false)], out := v.out - {s})
  }

  /** The FIFO law of the work queue: a reader following the phase bits sees a new entry exactly
      when there is one, and it is the oldest unread one; its slot is not among those in flight. */
  lemma WqFront(v: WorkQueue)
    requires WqRing(v)
    ensures var t := TailSlot(v);
            && (v.q[t].SR == Sense(v.init, v.read, MAX_NUM_WQ) <==> v.read < |v.posts|)
            && (v.read < |v.posts| ==> v.q[t].valid && v.q[t].request == v.posts[v.read] && t !in v.out)
  {
    PendingExactly(v.init, v.read, |v.posts|, MAX_NUM_WQ);
    assert WqSlot(v, TailSlot(v));
  }

  /** The application may post exactly when the head slot is not valid; whatever is unread or in
      flight stays where it is. */
  lemma WqPost(v: WorkQueue, r: WorkRequest)
    requires WqRing(v) && !v.q[HeadSlot(v)].valid
    ensures HeadSlot(v) !in v.out && WqRing(Posted(v, r))
  {
    hide SlotSense, Sense;
    PendingExactly(v.init, |v.posts|, |v.posts|, MAX_NUM_WQ);
    assert WqSlot(v, HeadSlot(v));
    forall i | 0 <= i < MAX_NUM_WQ
      ensures WqSlot(Posted(v, r), i)
    {
      assert WqSlot(v, i);
      WriteNext(v.init, i, |v.posts|, MAX_NUM_WQ);
    }
  }

  /** The NIC reads the oldest unread entry and keeps it in flight. */
  lemma WqRead(v: WorkQueue)
    requires WqRing(v) && v.read < |v.posts|
    ensures WqRing(ReadNext(v))
  {
    hide SlotSense, Sense;
    PendingExactly(v.init, v.read, |v.posts|, MAX_NUM_WQ);
    WqFront(v);
    forall i | 0 <= i < MAX_NUM_WQ
      ensures WqSlot(ReadNext(v), i)
    {
      assert WqSlot(v, i);
      LastIndexIsLatest(i, |v.posts|, MAX_NUM_WQ);
    }
  }

  /** The NIC completes any entry it has in flight, in any order, by clearing its `valid` bit. */
  lemma WqComplete(v: WorkQueue, s: nat)
    requires WqRing(v) && s in v.out
    ensures s < MAX_NUM_WQ && WqRing(Completed(v, s))
  {
    forall i | 0 <= i < MAX_NUM_WQ
      ensures WqSlot(Completed(v, s), i)
    {
      assert WqSlot(v, i);
    }
  }

  /** An entry in flight is valid and still holds the request that the NIC read. */
  lemma InFlight(v: WorkQueue, s: nat)
    requires WqRing(v) && s in v.out
    ensures s < MAX_NUM_WQ && v.q[s].valid && v.q[s].request == v.out[s]
  {
    assert WqSlot(v, s);
  }

  /** One step of either side. */
  ghost predicate WqStep(v: WorkQueue, v': WorkQueue) {
    && |v.q| == MAX_NUM_WQ
    && (|| (!v.q[HeadSlot(v)].valid && exists r: WorkRequest :: v' == Posted(v, r))
        || (v.q[TailSlot(v)].SR == Sense(v.init, v.read, MAX_NUM_WQ) && v' == ReadNext(v))
        || (exists s: nat :: s in v.out && s < MAX_NUM_WQ && v' == Completed(v, s)))
  }

  /** A fresh queue can become v in n steps. */
  ghost predicate Reachable(v: WorkQueue, n: nat)
    decreases n
  {
    if n == 0 then FreshWq(v.q, v.init) && v == WorkQueue(v.q, v.q, v.init, [], 0, map[])
    else exists u: WorkQueue :: Reachable(u, n - 1) && WqStep(u, v)
  }

  lemma {:induction false} ReachableIsRing(v: WorkQueue, n: nat)
    requires Reachable(v, n)
    ensures WqRing(v)
    decreases n
  {
    hide WqRing, WqStep;
    if n == 0 {
      WqFresh(v.q, v.init);
    } else {
      var u: WorkQueue :| Reachable(u, n - 1) && WqStep(u, v);
      ReachableIsRing(u, n - 1);
      StepKeepsRing(u, v);
    }
  }

  lemma StepKeepsRing(u: WorkQueue, v: WorkQueue)
    requires WqRing(u) && WqStep(u, v)
    ensures WqRing(v)
  {
    if !u.q[HeadSlot(u)].valid && exists r: WorkRequest :: v == Posted(u, r) {
      var r: WorkRequest :| v == Posted(u, r);
      WqPost(u, r);
    } else if exists s: nat :: s in u.out && s < MAX_NUM_WQ && v == Completed(u, s) {
      var s: nat :| s in u.out && s < MAX_NUM_WQ && v == Completed(u, s);
      WqComplete(u, s);
    } else {
      WqFront(u);
      WqRead(u);
    }
  }

  lemma OneMoreStep(u: WorkQueue, n: nat, v: WorkQueue)
    requires Reachable(u, n) && WqStep(u, v)
    ensures Reachable(v, n + 1)
  {
  }

  /** The application can post when there is room and nothing is in flight. */
  lemma PostStep(u: WorkQueue, r: WorkRequest)
    requires WqRing(u) && u.out == map[] && |u.posts| < u.read + MAX_NUM_WQ
    ensures WqStep(u, Posted(u, r)) && WqRing(Posted(u, r))
  {
    PendingExactly(u.init, |u.posts|, |u.posts|, MAX_NUM_WQ);
    assert WqSlot(u, HeadSlot(u));
    WqPost(u, r);
  }

  /** The NIC can read the oldest unread entry and complete it at once. */
  lemma FreeSteps(u: WorkQueue) returns (w: WorkQueue, v: WorkQueue)
    requires WqRing(u) && u.out == map[] && u.read < |u.posts|
    ensures WqStep(u, w) && WqStep(w, v) && WqRing(v) && v == u.(q := v.q, read := u.read + 1)
  {
    WqFront(u);
    WqRead(u);
    w := ReadNext(u);
    WqComplete(w, TailSlot(u));
    v := Completed(w, TailSlot(u));
    assert v.out == map[];
  }

  /** The rest of the state determines what every slot holds. */
  lemma RingDetermined(u: WorkQueue, v: WorkQueue)
    requires WqRing(u) && WqRing(v) && u == v.(q := u.q)
    ensures u == v
  {
    forall i | 0 <= i < MAX_NUM_WQ
      ensures u.q[i] == v.q[i]
    {
      LastIndexIsLatest(i, |v.posts|, MAX_NUM_WQ);
      assert WqSlot(u, i) && WqSlot(v, i);
    }
  }

  /** A head slot is valid only after a whole lap of posts. */
  lemma HeadValidLap(v: WorkQueue)
    requires WqRing(v) && v.q[HeadSlot(v)].valid
    ensures |v.posts| >= MAX_NUM_WQ
  {
    PendingExactly(v.init, |v.posts|, |v.posts|, MAX_NUM_WQ);
    assert WqSlot(v, HeadSlot(v));
  }

  /** The slots of positions a..b. */
  ghost function SlotsOf(a: nat, b: nat): set<nat> {
    set k | a <= k < b :: Slot(k, MAX_NUM_WQ)
  }

  lemma {:induction false} SlotsCount(a: nat, b: nat)
    requires a <= b <= a + MAX_NUM_WQ
    ensures |SlotsOf(a, b)| == b - a
  {
    if a < b {
      SlotsCount(a, b - 1);
      var last := Slot(b - 1, MAX_NUM_WQ);
      if last in SlotsOf(a, b - 1) {
        var k :| a <= k < b - 1 && Slot(k, MAX_NUM_WQ) == last;
        SameSlot(k, b - 1, MAX_NUM_WQ);
      }
      assert SlotsOf(a, b) == SlotsOf(a, b - 1) + {last};
    } else {
      assert SlotsOf(a, b) == {};
    }
  }

  lemma {:induction false} BoundedSet(s: set<nat>, n: nat)
    requires forall i :: i in s ==> i < n
    ensures |s| <= n
  {
    if n == 0 {
      assert s == {};
    } else {
      BoundedSet(s - {n - 1}, n - 1);
      assert |s| <= |s - {n - 1}| + 1;
    }
  }

  /** Unread and in-flight requests together never exceed the ring. */
  lemma WqCapacity(v: WorkQueue)
    requires WqRing(v)
    ensures |v.out| + (|v.posts| - v.read) <= MAX_NUM_WQ
  {
    var unread := SlotsOf(v.read, |v.posts|);
    SlotsCount(v.read, |v.posts|);
    forall k: nat | v.read <= k < |v.posts|
      ensures Slot(k, MAX_NUM_WQ) !in v.out
    {
      PendingExactly(v.init, k, |v.posts|, MAX_NUM_WQ);
      assert WqSlot(v, Slot(k, MAX_NUM_WQ));
    }
    assert unread !! v.out.Keys;
    BoundedSet(unread + v.out.Keys, MAX_NUM_WQ);
    assert |unread + v.out.Keys| == |unread| + |v.out.Keys|;
  }

  /** No SABRE among the operations the ring was found with or those posted since. */
  ghost predicate SabreFree(start: seq<WqEntry>, posts: seq<WorkRequest>) {
    && (forall i :: 0 <= i < |start| ==> start[i].request.op != RMC_SABRE)
    && (forall k :: 0 <= k < |posts| ==> posts[k].op != RMC_SABRE)
  }

  /** Every slot of a reachable work queue holds a posted operation or the one it was found with. */
  lemma WqSabreFree(v: WorkQueue, i: nat)
    requires WqRing(v) && i < MAX_NUM_WQ
    ensures SabreFree(v.start, v.posts) ==> v.q[i].request.op != RMC_SABRE
  {
    LastIndexIsLatest(i, |v.posts|, MAX_NUM_WQ);
    assert WqSlot(v, i);
  }
}
