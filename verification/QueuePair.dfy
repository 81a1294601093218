/**
  The queue pair that one worker shares with the NIC (`soNUMAQP_T`): the work queue and the
  completion queue as arrays updated in place by both sides, with no shared counter.

  The NIC is not part of the program. It is modelled by what it may do, a `NicStep` at a time, and
  by a schedule that says which steps it takes at each moment: the application calls `Interfere`
  after every access it makes to shared memory, and one burst of the schedule is executed there.
  A run stops where its schedule is used up, so what is proved for all schedules is proved at every
  point of every run, for every interleaving.
 */
module QueuePairs {
  import opened PhaseRing
  import opened Rings
  import opened Traffic
  import opened Schedules
  import opened PollReports

  /** What a method returns when it may be cut short by the end of the schedule. */
  datatype Result<+T> = Ok(value: T) | Stopped {
    predicate IsFailure() {
      Stopped?
    }
    function PropagateFailure<U>(): Result<U>
      requires Stopped?
    {
      Stopped
    }
    function Extract(): T
      requires Ok?
    {
      value
    }
  }

  /** All that the NIC side owns: its index and sense on either ring, what it has posted, read, kept in
      flight and completed since the start, the flag that tells the worker to leave; and the moments at
      which bursts of its schedule were executed, with the bursts still to come. */
  datatype Nic = Nic(
    cqHead: nat, cqSR: bool, posted: seq<Completion>,
    wqTail: nat, wqSR: bool, read: seq<WorkRequest>, outstanding: map<nat, WorkRequest>, completed: nat,
    clientDone: bool, trace: seq<Moment>, schedule: seq<seq<NicStep>>)
  {
    function Seen(): Sight {
      Sight(posted, read, outstanding, clientDone)
    }
  }

  /** The NIC's logs only grow, `clientDone` stays raised, and bursts are used one after the other. */
  ghost predicate Later(a: Nic, b: Nic) {
    && a.posted <= b.posted
    && a.read <= b.read
    && (a.clientDone ==> b.clientDone)
    && a.trace <= b.trace
    && |a.trace| + |a.schedule| == |b.trace| + |b.schedule|
    && Crowded(a.trace) <= Crowded(b.trace)
  }

  /** Bursts used between a and b, and those of them at which the head slot was not free. */
  function Spent(a: Nic, b: Nic): int {
    |b.trace| - |a.trace|
  }

  function Jams(a: Nic, b: Nic): int {
    Crowded(b.trace) - Crowded(a.trace)
  }

  /** What a part of the application may use up: it takes at most `most` bursts, at least one, and stops
      only where the schedule ends, before it has had as many. */
  ghost predicate Took(a: Nic, b: Nic, finished: bool, most: int) {
    Ran(a, b, finished, most) && (finished ==> Spent(a, b) >= 1)
  }

  /** The same for what may be nothing at all. */
  ghost predicate Ran(a: Nic, b: Nic, finished: bool, most: int) {
    Later(a, b) && (if finished then Spent(a, b) <= most else Spent(a, b) < most && b.schedule == [])
  }

  /** From a to b the next burst was executed, at this moment of the application, with exactly its effect. */
  ghost predicate Executed(a: Nic, b: Nic, m: Moment, posts: seq<WorkRequest>) {
    && b.trace == a.trace + [m]
    && a.schedule != [] && b.schedule == a.schedule[1..]
    && b.Seen() == After(a.Seen(), a.schedule[0], m.consumed, posts)
  }

  lemma StartHere(a: Nic)
    ensures Later(a, a) && Spent(a, a) == 0
  {
  }

  /** One thing after the other. */
  lemma LaterChain()
    ensures forall a: Nic, b: Nic, c: Nic :: Later(a, b) && Later(b, c) ==> Later(a, c)
    ensures forall a: Nic, b: Nic :: Later(a, b) ==>
              && a.posted <= b.posted && (a.clientDone ==> b.clientDone)
              && |a.trace| <= |b.trace| && |a.trace| + |a.schedule| == |b.trace| + |b.schedule|
              && Crowded(a.trace) <= Crowded(b.trace)
  {
  }

  /** What callers need of it, to be used where `Later` is hidden. */
  lemma LaterFacts(a: Nic, b: Nic)
    requires Later(a, b)
    ensures a.posted <= b.posted && (a.clientDone ==> b.clientDone)
    ensures a.trace <= b.trace && |a.trace| + |a.schedule| == |b.trace| + |b.schedule|
    ensures Spent(a, b) >= 0 && Jams(a, b) >= 0
  {
  }

  /** The NIC's index and sense on the completion queue are in step with what it has posted. */
  ghost predicate CqSide(v: CompletionQueue, head: nat, SR: bool) {
    && CqRing(v) && |v.q| == MAX_NUM_WQ
    && v.consumed <= |v.posted| <= v.consumed + MAX_NUM_WQ
    && head == NextSlot(v)
    && SR == Sense(v.init, |v.posted|, MAX_NUM_WQ)
  }

  /** Those on the work queue are in step with what it has read, which is what was posted, and every
      request it has read is completed or in flight. */
  ghost predicate WqSide(v: WorkQueue, tail: nat, SR: bool, read: seq<WorkRequest>, completed: nat) {
    && WqRing(v) && |v.q| == MAX_NUM_WQ
    && v.read == |read| && read <= v.posts
    && tail == TailSlot(v)
    && SR == Sense(v.init, v.read, MAX_NUM_WQ)
    && completed + |v.out| == |read|
  }

  /** One entry more: the index wraps and the sense flips at the end of the ring. */
  lemma SideArrived(v: CompletionQueue, head: nat, SR: bool, e: Completion)
    requires CqSide(v, head, SR) && |v.posted| < v.consumed + MAX_NUM_WQ && GoodTid(e)
    ensures |v.q| == MAX_NUM_WQ && Arrived(v, e).q == v.q[head := CqEntry(SR, true, e)]
    ensures CqSide(Arrived(v, e), if head + 1 >= MAX_NUM_WQ then 0 else head + 1,
                   if head + 1 >= MAX_NUM_WQ then !SR else SR)
  {
    hide CqRing;
    CqFront(v);
    CqPost(v, e);
    AdvanceSense(v.init, |v.posted|, MAX_NUM_WQ);
  }

  lemma SideRead(v: WorkQueue, tail: nat, SR: bool, read: seq<WorkRequest>, completed: nat)
    requires WqSide(v, tail, SR, read, completed) && |read| < |v.posts|
    ensures |v.q| == MAX_NUM_WQ && v.q[tail].request == v.posts[|read|]
    ensures ReadNext(v) == v.(read := v.read + 1, out := v.out[tail := v.posts[|read|]])
    ensures WqSide(ReadNext(v), if tail + 1 >= MAX_NUM_WQ then 0 else tail + 1,
                   if tail + 1 >= MAX_NUM_WQ then !SR else SR, read + [v.posts[|read|]], completed)
  {
    hide WqRing;
    WqFront(v);
    WqRead(v);
    AdvanceSense(v.init, v.read, MAX_NUM_WQ);
  }

  lemma SideCompleted(v: WorkQueue, tail: nat, SR: bool, read: seq<WorkRequest>, completed: nat, s: nat)
    requires WqSide(v, tail, SR, read, completed) && s in v.out
    ensures s < |v.q| == MAX_NUM_WQ && v.q[s].valid && v.q[s].request == v.out[s]
    ensures WqSide(Completed(v, s), tail, SR, read, completed + 1)
  {
    hide WqRing;
    InFlight(v, s);
    WqComplete(v, s);
    assert (v.out - {s}).Keys == v.out.Keys - {s};
    assert |v.out - {s}| == |v.out| - 1;
  }

  /** Bytes rounded up to whole 64-byte cache blocks, in 64-bit arithmetic. */
  function Blocks(length: nat): nat {
    ((length + CACHE_BLOCK_SIZE - 1) % 0x1_0000_0000_0000_0000) / CACHE_BLOCK_SIZE
  }

  /** It is the least number of blocks that holds that many bytes, short of 64-bit overflow. */
  lemma BlocksRoundUp(length: nat)
    requires length + CACHE_BLOCK_SIZE <= 0x1_0000_0000_0000_0000
    ensures length <= Blocks(length) * CACHE_BLOCK_SIZE < length + CACHE_BLOCK_SIZE
  {
  }

  /** Whether the application is storing a work queue entry, field by field, into the head slot: if so,
      what the slot held before and what it holds so far. The NIC does not look at such an entry before
      it is notified of it, and only then does the store count as a post. */
  datatype Store = Idle | Storing(saved: WqEntry, written: WqEntry)

  class QueuePair {
    // Work queue: ring, the application's own index and sense, and its store under way.
    const wq: array<WqEntry>
    var wqHead: nat
    var wqSR: bool
    var store: Store
    // Completion queue: ring, and the application's own index and sense.
    const cq: array<CqEntry>
    var cqTail: nat
    var cqSR: bool
    // The other side, and the whole of its schedule.
    var nic: Nic
    const script: seq<seq<NicStep>>
    // How the rings were found, and what the application has done to them since.
    const wqStart: seq<WqEntry>
    const wqSense0: bool
    const cqSense0: bool
    var cqConsumed: nat
    var wqPosted: seq<WorkRequest>
    var log: seq<Event>

    /** Holds at every shared access, also while the application is between two of its own updates. */
    ghost predicate Shared()
      reads this`nic, this`cqConsumed, this`store, this`wqHead, this`wqPosted, this`log, wq, cq
    {
      RingsShared() && TraceShared()
    }

    ghost predicate RingsShared()
      reads this`nic, this`cqConsumed, this`store, this`wqHead, this`wqPosted, this`log, wq, cq
    {
      CqShared() && WqShared() && LogShared()
    }

    ghost predicate TraceShared()
      reads this`nic, this`cqConsumed, this`log
    {
      TraceSide(script, nic.trace, nic.schedule, cqConsumed, log, nic.Seen())
    }

    ghost function CqNow(): CompletionQueue
      reads this`nic, this`cqConsumed, cq
    {
      CompletionQueue(cq[..], cqSense0, nic.posted, cqConsumed)
    }

    ghost predicate CqShared()
      reads this`nic, this`cqConsumed, cq
    {
      cq.Length == MAX_NUM_WQ && CqSide(CqNow(), nic.cqHead, nic.cqSR)
    }

    /** The entries of the work queue, without a store that the NIC has not been notified of. */
    function Settled(): seq<WqEntry>
      reads this`store, this`wqHead, wq
    {
      if store.Storing? && wqHead < wq.Length then wq[..][wqHead := store.saved] else wq[..]
    }

    ghost function WqNow(): WorkQueue
      reads this`nic, this`store, this`wqHead, this`wqPosted, wq
    {
      WorkQueue(Settled(), wqStart, wqSense0, wqPosted, |nic.read|, nic.outstanding)
    }

    ghost predicate WqShared()
      reads this`nic, this`store, this`wqHead, this`wqPosted, wq
    {
      wq.Length == MAX_NUM_WQ && WqSide(WqNow(), nic.wqTail, nic.wqSR, nic.read, nic.completed) && StoreShared()
    }

    /** A store goes to the head slot, which was free and which nobody else writes to meanwhile. */
    ghost predicate StoreShared()
      reads this`store, this`wqHead, this`wqPosted, wq
    {
      store.Storing? ==>
        && wqHead == Slot(|wqPosted|, MAX_NUM_WQ) < wq.Length
        && wq[wqHead] == store.written && !store.saved.valid
    }

    ghost predicate LogShared()
      reads this`wqPosted, this`log
    {
      wqPosted == PostsOf(log) && RefusedAfterLap(log)
    }

    /** The application's private indices are in step with the logs. */
    ghost predicate InStep()
      reads this
    {
      && cqConsumed <= |nic.posted|
      && cqTail == Slot(cqConsumed, MAX_NUM_WQ)
      && cqSR == Sense(cqSense0, cqConsumed, MAX_NUM_WQ)
      && wqHead == Slot(|wqPosted|, MAX_NUM_WQ)
      && wqSR == Sense(wqSense0, |wqPosted|, MAX_NUM_WQ)
    }

    /** Holds between calls. */
    ghost predicate Valid()
      reads this, wq, cq
    {
      Shared() && InStep() && store.Idle?
    }

    /** The requests among the completions consumed so far. */
    ghost function Taken(): seq<Completion>
      reads this`nic, this`cqConsumed
    {
      if cqConsumed <= |nic.posted| then Requests(nic.posted[..cqConsumed]) else []
    }

    /** The application may post: the slot after the one posted to last is not valid. */
    predicate HeadFree()
      reads this`store, this`wqHead, this`wqPosted, wq
    {
      Slot(|wqPosted|, MAX_NUM_WQ) < |Settled()| && !Settled()[Slot(|wqPosted|, MAX_NUM_WQ)].valid
    }

    /** The operation in every slot of the work queue. */
    ghost function OpsNow(): seq<nat>
      reads wq
    {
      Ops(wq[..])
    }

    /** How many completions had been posted when the last burst began. */
    ghost function LastPosted(): nat
      reads this`nic, this`cqConsumed, this`log
    {
      if TraceShared() && nic.trace != [] then |Replay(script, nic.trace, log, |nic.trace| - 1).posted| else 0
    }

    constructor (wqInit: seq<WqEntry>, wqSense: bool, cqInit: seq<CqEntry>, cqSense: bool, steps: seq<seq<NicStep>>)
      requires FreshWq(wqInit, wqSense) && FreshCq(cqInit, cqSense)
      ensures Valid() && fresh(wq) && fresh(cq)
      ensures wqStart == wqInit && script == nic.schedule == steps && nic.trace == [] && !nic.clientDone
      ensures nic.posted == [] && cqConsumed == 0 && wqPosted == [] && nic.read == [] && log == []
    {
      wq := new WqEntry[|wqInit|](i requires 0 <= i < |wqInit| => wqInit[i]);
      cq := new CqEntry[|cqInit|](i requires 0 <= i < |cqInit| => cqInit[i]);
      wqStart, wqSense0, cqSense0, script := wqInit, wqSense, cqSense, steps;
      wqHead, wqSR, store, cqTail, cqSR := 0, wqSense, Idle, 0, cqSense;
      nic := Nic(0, cqSense, [], 0, wqSense, [], map[], 0, false, [], steps);
      cqConsumed, wqPosted, log := 0, [], [];
      new;
      assert wq[..] == wqInit && cq[..] == cqInit;
      CqFresh(cqInit, cqSense);
      WqFresh(wqInit, wqSense);
    }

    // -------------------------------------------------------------- the NIC

    /** Posting succeeds exactly when fewer than MAX_NUM_WQ completions are unconsumed. */
    method NicPost(e: Completion)
      requires CqShared()
      modifies cq, this`nic
      ensures CqShared()
      ensures nic == old(nic).(posted := nic.posted, cqHead := nic.cqHead, cqSR := nic.cqSR)
      ensures nic.posted == if |old(nic).posted| < cqConsumed + MAX_NUM_WQ && GoodTid(e)
                            then old(nic).posted + [e] else old(nic).posted
    {
      hide CqSide, GoodTid;
      RoomFacts();
      if cq[nic.cqHead].valid || !GoodTid(e) {
        return;
      }
      SideArrived(CqNow(), nic.cqHead, nic.cqSR, e);
      ghost var v := Arrived(CqNow(), e);
      cq[nic.cqHead] := CqEntry(nic.cqSR, true, e);
      var wrap := nic.cqHead + 1 >= MAX_NUM_WQ;
      nic := nic.(posted := nic.posted + [e],
                  cqHead := if wrap then 0 else nic.cqHead + 1,
                  cqSR := if wrap then !nic.cqSR else nic.cqSR);
      assert CqNow() == v;
    }

    /** The `valid` bit of its own slot tells the NIC whether there is room. */
    lemma RoomFacts()
      requires CqShared()
      ensures nic.cqHead < cq.Length && (cq[nic.cqHead].valid <==> |nic.posted| >= cqConsumed + MAX_NUM_WQ)
    {
      hide CqRing;
      CqFront(CqNow());
    }

    /** The NIC follows the phase bits of the work queue and so reads exactly what was posted. It does
        not look at an entry that is still being stored. */
    method NicReadRequest()
      requires WqShared()
      modifies this`nic
      ensures WqShared()
      ensures var n := |old(nic).read|;
              nic == if n < |wqPosted| then
                       old(nic).(read := old(nic).read + [wqPosted[n]], wqTail := nic.wqTail, wqSR := nic.wqSR,
                                 outstanding := old(nic).outstanding[Slot(n, MAX_NUM_WQ) := wqPosted[n]])
                     else old(nic)
    {
      hide WqSide, StoreShared, Slot;
      UnreadFacts();
      if store.Storing? && nic.wqTail == wqHead {
        return;
      }
      var e := wq[nic.wqTail];
      if e.SR == nic.wqSR {
        SideRead(WqNow(), nic.wqTail, nic.wqSR, nic.read, nic.completed);
        ghost var v := ReadNext(WqNow());
        var wrap := nic.wqTail + 1 >= MAX_NUM_WQ;
        nic := nic.(read := nic.read + [e.request],
                    outstanding := nic.outstanding[nic.wqTail := e.request],
                    wqTail := if wrap then 0 else nic.wqTail + 1,
                    wqSR := if wrap then !nic.wqSR else nic.wqSR);
        assert WqNow() == v;
      }
    }

    /** Its phase bit tells the NIC whether an entry is new; one being stored is not. */
    lemma UnreadFacts()
      requires WqShared()
      ensures nic.wqTail == Slot(|nic.read|, MAX_NUM_WQ)
      ensures nic.wqTail < wq.Length && |nic.read| <= |wqPosted| && (|nic.read| == |wqPosted| ==> nic.read == wqPosted)
      ensures store.Storing? && nic.wqTail == wqHead ==> |nic.read| == |wqPosted|
      ensures !(store.Storing? && nic.wqTail == wqHead) ==>
              && (wq[nic.wqTail].SR == nic.wqSR <==> |nic.read| < |wqPosted|)
              && (|nic.read| < |wqPosted| ==> wq[nic.wqTail].request == wqPosted[|nic.read|])
    {
      hide WqRing;
      WqFront(WqNow());
    }

    /** Completion in any order; the slot still holds the very request the NIC read from it. */
    method NicComplete(slot: nat)
      requires WqShared()
      modifies wq, this`nic
      ensures WqShared()
      ensures nic == old(nic).(outstanding := old(nic).outstanding - {slot}, completed := nic.completed)
      ensures slot in old(nic).outstanding ==>
              slot < wq.Length && old(wq[slot]) == WqEntry(old(wq[slot]).SR, true, old(nic).outstanding[slot])
      ensures old(HeadFree()) ==> HeadFree()
      ensures OpsNow() == old(OpsNow())
    {
      hide WqSide;
      if slot in nic.outstanding {
        SideCompleted(WqNow(), nic.wqTail, nic.wqSR, nic.read, nic.completed, slot);
        ghost var v := Completed(WqNow(), slot);
        wq[slot] := wq[slot].(valid := false);
        nic := nic.(outstanding := nic.outstanding - {slot}, completed := nic.completed + 1);
        assert WqNow() == v;
      } else {
        assert nic.outstanding - {slot} == nic.outstanding;
      }
    }

    /** One step, with exactly its effect. */
    method NicTake(step: NicStep)
      requires RingsShared()
      modifies wq, cq, this`nic
      ensures RingsShared() && Later(old(nic), nic)
      ensures nic.Seen() == Effect(old(nic).Seen(), step, cqConsumed, wqPosted)
      ensures match step
              case PostCompletion(e) =>
                nic.posted == if |old(nic).posted| < cqConsumed + 512 && GoodTid(e)
                              then old(nic).posted + [e] else old(nic).posted
              case ReadRequest =>
                nic.read == if |old(nic).read| < |wqPosted|
                            then old(nic).read + [wqPosted[|old(nic).read|]] else old(nic).read
              case CompleteRequest(slot) => nic.outstanding == old(nic).outstanding - {slot}
              case RaiseClientDone => nic.clientDone
      ensures nic.schedule == old(nic).schedule && nic.trace == old(nic).trace
      ensures (old(HeadFree()) ==> HeadFree()) && OpsNow() == old(OpsNow())
    {
      hide CqSide, WqSide, StoreShared, LogShared, Settled, GoodTid, HeadFree, Slot, Ops;
      match step {
        case PostCompletion(e) => NicPost(e);
        case ReadRequest => NicReadRequest();
        case CompleteRequest(slot) => NicComplete(slot);
        case RaiseClientDone => nic := nic.(clientDone := true);
      }
    }

    /** A burst: its steps one after the other, each with its effect. */
    method NicBurst(burst: seq<NicStep>)
      requires RingsShared()
      modifies wq, cq, this`nic
      ensures RingsShared() && Later(old(nic), nic)
      ensures nic.Seen() == After(old(nic).Seen(), burst, cqConsumed, wqPosted)
      ensures nic.schedule == old(nic).schedule && nic.trace == old(nic).trace
      ensures (old(HeadFree()) ==> HeadFree()) && OpsNow() == old(OpsNow())
    {
      hide RingsShared, HeadFree, OpsNow, Effect, After;
      AfterNothing(nic.Seen(), cqConsumed, wqPosted);
      for i := 0 to |burst|
        invariant RingsShared() && Later(old(nic), nic)
        invariant nic.Seen() == After(old(nic).Seen(), burst[..i], cqConsumed, wqPosted)
        invariant nic.schedule == old(nic).schedule && nic.trace == old(nic).trace
        invariant (old(HeadFree()) ==> HeadFree()) && OpsNow() == old(OpsNow())
      {
        NicTake(burst[i]);
        AfterSnoc(old(nic).Seen(), burst[..i], burst[i], cqConsumed, wqPosted);
        assert burst[..i + 1] == burst[..i] + [burst[i]];
      }
      assert burst[..|burst|] == burst;
    }

    /** The next burst of NIC activity, with exactly its effect, or the end of the run. */
    method Interfere() returns (r: Result<()>)
      requires Shared()
      modifies wq, cq, this`nic
      ensures Shared() && Took(old(nic), nic, r.Ok?, 1)
      ensures (old(HeadFree()) ==> HeadFree()) && OpsNow() == old(OpsNow())
      ensures if r.Ok? then Executed(old(nic), nic, Moment(cqConsumed, |log|, old(HeadFree())), wqPosted)
              else nic == old(nic)
      ensures r.Ok? ==> LastPosted() == |old(nic).posted|
      ensures r.Ok? && !old(HeadFree()) ==> Jams(old(nic), nic) == 1
    {
      hide RingsShared, HeadFree, OpsNow, TraceSide, After, Replay;
      if nic.schedule == [] {
        return Stopped;
      }
      LapFacts();
      var burst, moment := nic.schedule[0], Moment(cqConsumed, |log|, HeadFree());
      TraceNext(script, nic.trace, nic.schedule, moment, log, nic.Seen());
      CrowdedSnoc(nic.trace, moment);
      NicBurst(burst);
      MoveOn(moment);
      return Ok(());
    }

    /** The burst just executed is written down and taken off the schedule. */
    method MoveOn(moment: Moment)
      requires RingsShared() && nic.schedule != []
      modifies this`nic
      ensures RingsShared()
      ensures nic == old(nic).(trace := old(nic).trace + [moment], schedule := old(nic).schedule[1..])
    {
      hide CqSide, WqSide, StoreShared, LogShared, Settled;
      nic := nic.(trace := nic.trace + [moment], schedule := nic.schedule[1..]);
    }

    /** A head slot that is not free has been posted to. */
    lemma LapFacts()
      requires Shared()
      ensures wqPosted == PostsOf(log) && (!HeadFree() ==> |wqPosted| >= MAX_NUM_WQ)
    {
      hide CqShared, TraceShared, WqRing, RefusedAfterLap;
      if !HeadFree() {
        HeadValidLap(WqNow());
      }
    }

    // -------------------------------------------------------------- the application

    /** What the slot under the tail shows to the application. */
    lemma TailFacts()
      requires Valid()
      ensures cqTail < cq.Length && (cq[cqTail].SR == cqSR <==> cqConsumed < |nic.posted|)
      ensures cqConsumed < |nic.posted| ==>
              cq[cqTail].completion == nic.posted[cqConsumed] && GoodTid(nic.posted[cqConsumed])
    {
      hide CqRing, WqShared, LogShared, TraceShared;
      CqFront(CqNow());
    }

    /** The second half of copying the entry under the tail: the fields after the phase bit, one by
        one, with the NIC active in between. While the entry is unconsumed no field can change. */
    method ReadTailCompletion() returns (r: Result<Completion>)
      requires Valid()
      modifies wq, cq, this`nic
      ensures Valid() && Took(old(nic), nic, r.Ok?, 3) && (r.Ok? ==> Spent(old(nic), nic) == 3)
      ensures (old(HeadFree()) ==> HeadFree()) && OpsNow() == old(OpsNow())
      ensures r.Ok? && cqConsumed < |old(nic).posted| ==>
              r.value == nic.posted[cqConsumed] && GoodTid(r.value)
    {
      hide Shared, HeadFree, OpsNow, LastPosted, Executed, Crowded, Sense, Slot, Later;
      LaterChain();
      TailFacts();
      var success := cq[cqTail].completion.success;
      var _ :- Interfere();
      TailFacts();
      var tid := cq[cqTail].completion.tid;
      var _ :- Interfere();
      TailFacts();
      var recvBufAddr := cq[cqTail].completion.recvBufAddr;
      var _ :- Interfere();
      return Ok(Completion(success, tid, recvBufAddr));
    }

    /** Copies the entry under the tail field by field, in declaration order, with the NIC active
        between any two fields. If the phase bit, which is read first, matches, then the copy is
        the oldest unconsumed completion; if it does not, the queue was empty at that moment. */
    method ReadTail() returns (r: Result<CqEntry>)
      requires Valid()
      modifies wq, cq, this`nic
      ensures Valid() && Took(old(nic), nic, r.Ok?, 5) && (r.Ok? ==> Spent(old(nic), nic) == 5)
      ensures (old(HeadFree()) ==> HeadFree()) && OpsNow() == old(OpsNow())
      ensures r.Ok? ==> (r.value.SR == cqSR <==> cqConsumed < |old(nic).posted|)
      ensures r.Ok? && cqConsumed < |old(nic).posted| ==>
              r.value.completion == nic.posted[cqConsumed] && GoodTid(r.value.completion)
    {
      hide Shared, HeadFree, OpsNow, LastPosted, Executed, Crowded, Sense, Slot, Later;
      LaterChain();
      TailFacts();
      var sr := cq[cqTail].SR;
      var _ :- Interfere();
      var valid := cq[cqTail].valid;
      var _ :- Interfere();
      var completion :- ReadTailCompletion();
      return Ok(CqEntry(sr, valid, completion));
    }

    method ClearTailValid()
      requires Valid() && cqConsumed < |nic.posted|
      modifies cq, this`cqConsumed
      ensures Shared() && cqConsumed == old(cqConsumed) + 1
    {
      hide CqRing, WqShared, LogShared, TraceSide;
      CqRelease(CqNow());
      ghost var v := Released(CqNow());
      TraceLater(script, nic.trace, nic.schedule, cqConsumed, log, nic.Seen(), cqConsumed + 1, log);
      cq[cqTail] := cq[cqTail].(valid := false);
      cqConsumed := cqConsumed + 1;
      assert CqNow() == v;
    }

    /** The flag is up exactly when one of the bursts used so far raised it. */
    lemma DoneFacts()
      requires Shared()
      ensures nic.clientDone <==> DoneBy(script, |nic.trace|)
    {
      hide RingsShared;
      DoneExactly(script, nic.trace, log, |nic.trace|);
    }

    lemma TraceFacts()
      requires Shared()
      ensures TraceSide(script, nic.trace, nic.schedule, cqConsumed, log, nic.Seen())
      ensures cqConsumed <= |nic.posted| <= cqConsumed + MAX_NUM_WQ
    {
      hide WqShared, LogShared, TraceSide;
    }

    /** Releases the slot under the tail; the NIC may refill it at once. */
    method ReleaseTail() returns (r: Result<()>)
      requires Valid() && cqConsumed < |nic.posted|
      modifies wq, cq, this`nic, this`cqTail, this`cqSR, this`cqConsumed
      ensures Shared() && cqConsumed == old(cqConsumed) + 1 <= |nic.posted|
      ensures Took(old(nic), nic, r.Ok?, 1) && (r.Ok? ==> Valid())
      ensures (old(HeadFree()) ==> HeadFree()) && OpsNow() == old(OpsNow())
    {
      hide Shared, HeadFree, OpsNow, LastPosted, Executed, Crowded, Sense, Slot;
      AdvanceSense(cqSense0, cqConsumed, MAX_NUM_WQ);
      ClearTailValid();
      var _ :- Interfere();
      cqTail := cqTail + 1;
      if cqTail >= MAX_NUM_WQ {
        cqTail := 0;
        cqSR := !cqSR;
      }
      return Ok(());
    }

    lemma ReleasedFacts()
      requires Valid() && 0 < cqConsumed
      ensures var lapped, slot := |nic.posted| == cqConsumed + MAX_NUM_WQ, Slot(cqConsumed - 1, MAX_NUM_WQ);
              && slot < cq.Length && (lapped ==> cqConsumed - 1 + MAX_NUM_WQ < |nic.posted|)
              && cq[slot].completion == nic.posted[if lapped then cqConsumed - 1 + MAX_NUM_WQ else cqConsumed - 1]
    {
      hide CqRing, WqShared, LogShared, TraceShared;
      CqReleased(CqNow());
    }

    /** Reads the verdict in the slot released last, which the NIC has refilled if it is a lap ahead. */
    method ReadVerdict(slot: nat) returns (r: Result<nat>)
      requires Valid() && 0 < cqConsumed && slot == Slot(cqConsumed - 1, MAX_NUM_WQ)
      modifies wq, cq, this`nic
      ensures Valid() && Took(old(nic), nic, r.Ok?, 1)
      ensures (old(HeadFree()) ==> HeadFree()) && OpsNow() == old(OpsNow())
      ensures r.Ok? ==>
              var lapped := LastPosted() == cqConsumed + MAX_NUM_WQ;
              && (lapped ==> cqConsumed - 1 + MAX_NUM_WQ < |nic.posted|)
              && r.value == nic.posted[if lapped then cqConsumed - 1 + MAX_NUM_WQ else cqConsumed - 1].success
    {
      hide Shared, HeadFree, OpsNow, LastPosted, Executed, Crowded, Sense, Slot;
      ReleasedFacts();
      var success := cq[slot].completion.success;
      var _ :- Interfere();
      return Ok(success);
    }

    /** Reads the operation in the work queue slot that a completion names. */
    method ReadOp(tid: nat) returns (r: Result<nat>)
      requires Valid() && tid < MAX_NUM_WQ
      modifies wq, cq, this`nic
      ensures Valid() && Took(old(nic), nic, r.Ok?, 1)
      ensures (old(HeadFree()) ==> HeadFree()) && OpsNow() == old(OpsNow())
      ensures r.Ok? ==> |OpsNow()| == MAX_NUM_WQ && r.value == OpsNow()[tid]
    {
      hide Shared, HeadFree, LastPosted, Executed, Crowded, Sense, Slot;
      WqLength();
      var op := wq[tid].request.op;
      var _ :- Interfere();
      return Ok(op);
    }

    lemma WqLength()
      requires Shared()
      ensures wq.Length == MAX_NUM_WQ && |OpsNow()| == MAX_NUM_WQ
    {
    }

    /** One turn of the inner loop of `rmc_check_cq`, on the entry `raw` copied from the tail. A message is
        passed on. For any other completion the operation in the slot it names decides: only if that is
        a SABRE is the success code set, to the verdict in the slot just given back, which is that of the
        entry one lap later if the NIC is a lap ahead by then. */
    method TakeCompletion(raw: CqEntry, before: PollResult, ghost from: nat) returns (r: Result<PollResult>)
      requires Valid() && cqConsumed < |nic.posted|
      requires raw.completion == nic.posted[cqConsumed] && GoodTid(raw.completion)
      requires Reports(before, nic.posted, from, cqConsumed, OpsNow()) && !before.IsMessage() && before.success != 0
      modifies wq, cq, this`nic, this`cqTail, this`cqSR, this`cqConsumed
      ensures Shared() && cqConsumed == old(cqConsumed) + 1 <= |nic.posted|
      ensures Took(old(nic), nic, r.Ok?, 3) && (r.Ok? ==> Valid())
      ensures (old(HeadFree()) ==> HeadFree()) && OpsNow() == old(OpsNow())
      ensures PlainRange(nic.posted, from, cqConsumed - 1)
      ensures r.Ok? ==> Reports(r.value, nic.posted, from, cqConsumed, OpsNow())
      ensures r.Ok? && !Plain(raw.completion) ==>
              r.value == PollResult(before.success, if raw.completion.success == 0x7F then 18 else 20,
                                    raw.completion.tid, raw.completion.recvBufAddr)
      ensures |OpsNow()| == MAX_NUM_WQ
      ensures r.Ok? && Plain(raw.completion) && OpsNow()[raw.completion.tid] != RMC_SABRE ==>
              r.value == before.(op := 0)
      ensures r.Ok? && Plain(raw.completion) && OpsNow()[raw.completion.tid] == RMC_SABRE ==>
              var lapped := LastPosted() == cqConsumed + MAX_NUM_WQ;
              && (lapped ==> cqConsumed - 1 + MAX_NUM_WQ < |nic.posted|)
              && var v := nic.posted[if lapped then cqConsumed - 1 + MAX_NUM_WQ else cqConsumed - 1].success;
              r.value == before.(op := RMC_SABRE, success := v,
                                 tid := if v == 0 then raw.completion.tid else before.tid)
    {
      hide Shared, HeadFree, OpsNow, LastPosted, Executed, Crowded, Reports, PlainRange, Sense, Slot, Later;
      LaterChain();
      ghost var ops, to := OpsNow(), cqConsumed;
      WqLength();
      var slot := cqTail;
      var released := ReleaseTail();
      ReportsLater(before, old(nic).posted, nic.posted, from, to, ops);
      var _ :- released;
      var success, tid := raw.completion.success, raw.completion.tid;
      if success == INCOMING_REQUEST {
        r := Ok(before.(recvBufAddr := raw.completion.recvBufAddr, op := RMC_INCOMING_SEND, tid := tid));
        ReportsMessage(before, nic.posted, from, to, ops, r.value);
        return;
      }
      if success == 1 {
        r := Ok(before.(recvBufAddr := raw.completion.recvBufAddr, op := RMC_INCOMING_RESP, tid := tid));
        ReportsMessage(before, nic.posted, from, to, ops, r.value);
        return;
      }
      r := TakePlain(tid, slot, before, from);
    }

    /** The rest of the turn for a completion, just released, that is no message. */
    method TakePlain(tid: nat, slot: nat, before: PollResult, ghost from: nat) returns (r: Result<PollResult>)
      requires Valid() && 0 < cqConsumed <= |nic.posted| && slot == Slot(cqConsumed - 1, MAX_NUM_WQ)
      requires Plain(nic.posted[cqConsumed - 1]) && tid == nic.posted[cqConsumed - 1].tid < MAX_NUM_WQ
      requires Reports(before, nic.posted, from, cqConsumed - 1, OpsNow()) && !before.IsMessage() && before.success != 0
      modifies wq, cq, this`nic
      ensures Valid() && Took(old(nic), nic, r.Ok?, 2)
      ensures (old(HeadFree()) ==> HeadFree()) && OpsNow() == old(OpsNow())
      ensures PlainRange(nic.posted, from, cqConsumed - 1)
      ensures r.Ok? ==> Reports(r.value, nic.posted, from, cqConsumed, OpsNow())
      ensures |OpsNow()| == MAX_NUM_WQ
      ensures r.Ok? && OpsNow()[tid] != RMC_SABRE ==> r.value == before.(op := 0)
      ensures r.Ok? && OpsNow()[tid] == RMC_SABRE ==>
              var lapped := LastPosted() == cqConsumed + MAX_NUM_WQ;
              && (lapped ==> cqConsumed - 1 + MAX_NUM_WQ < |nic.posted|)
              && var v := nic.posted[if lapped then cqConsumed - 1 + MAX_NUM_WQ else cqConsumed - 1].success;
              r.value == before.(op := RMC_SABRE, success := v, tid := if v == 0 then tid else before.tid)
    {
      hide Shared, HeadFree, OpsNow, LastPosted, Executed, Crowded, Reports, PlainRange, Sense, Slot, Later;
      LaterChain();
      WqLength();
      ghost var ops, to := OpsNow(), cqConsumed - 1;
      var read := ReadOp(tid);
      ReportsLater(before, old(nic).posted, nic.posted, from, to, ops);
      var op :- read;
      if op != RMC_SABRE {
        r := Ok(before.(op := 0));
        ReportsPlain(before, nic.posted, from, to, ops, r.value);
        return;
      }
      var verdict := ReadVerdict(slot);
      ReportsLater(before, old(nic).posted, nic.posted, from, to, ops);
      var v :- verdict;
      r := Ok(before.(op := op, success := v, tid := if v == 0 then tid else before.tid));
      ReportsPlain(before, nic.posted, from, to, ops, r.value);
    }

    /** The entry copied is the oldest unconsumed one, if its phase bit says that it is one. */
    ghost predicate Fetched(raw: CqEntry)
      reads this`nic, this`cqConsumed, this`cqSR
    {
      raw.SR == cqSR ==>
        cqConsumed < |nic.posted| && raw.completion == nic.posted[cqConsumed] && GoodTid(raw.completion)
    }

    /** The body of the inner loop: consume the entry copied before and, unless it was a message, copy
        the next one. */
    method Turn(raw: CqEntry, before: PollResult, ghost from: nat) returns (r: Result<PollResult>, next: CqEntry)
      requires Valid() && Fetched(raw) && raw.SR == cqSR
      requires Reports(before, nic.posted, from, cqConsumed, OpsNow()) && !before.IsMessage() && before.success != 0
      modifies wq, cq, this`nic, this`cqTail, this`cqSR, this`cqConsumed
      ensures Shared() && cqConsumed == old(cqConsumed) + 1 <= |nic.posted|
      ensures Took(old(nic), nic, r.Ok?, 8) && (r.Ok? ==> Valid())
      ensures (old(HeadFree()) ==> HeadFree()) && OpsNow() == old(OpsNow())
      ensures if r.Ok? then Reports(r.value, nic.posted, from, cqConsumed, OpsNow())
              else PlainRange(nic.posted, from, cqConsumed - 1)
      ensures r.Ok? && !r.value.IsMessage() ==>
              Fetched(next) && (next.SR != cqSR ==> |old(nic).posted| <= cqConsumed)
    {
      hide Shared, HeadFree, OpsNow, LastPosted, Executed, Crowded, GoodTid, Reports, PlainRange, Sense, Slot, Later;
      LaterChain();
      next := raw;
      r := TakeCompletion(raw, before, from);
      if r.Stopped? || r.value.IsMessage() {
        return;
      }
      ghost var posted := nic.posted;
      var copied := ReadTail();
      ReportsLater(r.value, posted, nic.posted, from, cqConsumed, OpsNow());
      if copied.Stopped? {
        return Stopped, next;
      }
      next := copied.value;
    }

    /** The inner loop of `rmc_check_cq`: consume until the queue is seen empty, a message arrives
        or a SABRE is found aborted. It turns at most once for every completion outstanding at the
        start and every one posted meanwhile. */
    method Drain(before: PollResult, ghost from: nat) returns (r: Result<PollResult>, turns: nat)
      requires Valid()
      requires Reports(before, nic.posted, from, cqConsumed, OpsNow()) && !before.IsMessage() && before.success != 0
      modifies wq, cq, this`nic, this`cqTail, this`cqSR, this`cqConsumed
      ensures Shared() && old(cqConsumed) <= cqConsumed && (r.Ok? ==> Valid())
      ensures Took(old(nic), nic, r.Ok?, 5 + 8 * (cqConsumed - old(cqConsumed)))
      ensures r.Ok? ==> Spent(old(nic), nic) >= 5
      ensures (old(HeadFree()) ==> HeadFree()) && OpsNow() == old(OpsNow())
      ensures turns <= cqConsumed - old(cqConsumed) <= |nic.posted| - old(cqConsumed)
      ensures r.Ok? ==> turns == cqConsumed - old(cqConsumed)
      ensures r.Stopped? ==> PlainRange(nic.posted, from, cqConsumed - 1)
      ensures r.Ok? ==> Reports(r.value, nic.posted, from, cqConsumed, OpsNow())
      ensures r.Ok? && !r.value.IsMessage() && r.value.success != 0 ==> |old(nic).posted| <= cqConsumed
    {
      hide Shared, HeadFree, OpsNow, LastPosted, Executed, Crowded, GoodTid, Reports, PlainRange, Sense, Slot, Later;
      LaterChain();
      turns := 0;
      var ret := before;
      var copied := ReadTail();
      ReportsLater(ret, old(nic).posted, nic.posted, from, cqConsumed, OpsNow());
      var raw :- copied;
      assert Fetched(raw);
      hide Fetched;
      while raw.SR == cqSR && ret.success != 0
        invariant Valid() && Later(old(nic), nic) && turns == cqConsumed - old(cqConsumed)
        invariant 5 <= Spent(old(nic), nic) <= 5 + 8 * turns
        invariant (old(HeadFree()) ==> HeadFree()) && OpsNow() == old(OpsNow())
        invariant Reports(ret, nic.posted, from, cqConsumed, OpsNow()) && !ret.IsMessage()
        invariant Fetched(raw) && (raw.SR != cqSR ==> |old(nic).posted| <= cqConsumed)
        decreases |nic.schedule|
      {
        var o, next := Turn(raw, ret, from);
        ret :- o;
        turns := turns + 1;
        raw := next;
        if ret.IsMessage() {
          return Ok(ret), turns;
        }
      }
      return Ok(ret), turns;
    }

    lemma HeadIs()
      requires Valid()
      ensures wqHead < wq.Length && (HeadFree() <==> !wq[wqHead].valid)
    {
    }

    /** Looks at the `valid` bit under the work queue's head. A free head slot stays free. */
    method ReadHeadValid() returns (r: Result<bool>)
      requires Valid()
      modifies wq, cq, this`nic
      ensures Valid() && Took(old(nic), nic, r.Ok?, 1)
      ensures (old(HeadFree()) ==> HeadFree()) && OpsNow() == old(OpsNow())
      ensures r.Ok? ==> (r.value <==> !old(HeadFree())) && (r.value ==> Jams(old(nic), nic) == 1)
      ensures r.Ok? ==> nic.trace[|old(nic).trace|].consumed == cqConsumed
    {
      hide Shared, HeadFree, OpsNow, LastPosted, After, Crowded, Sense, Slot;
      HeadIs();
      var headValid := wq[wqHead].valid;
      var _ :- Interfere();
      return Ok(headValid);
    }

    /** `rmc_check_cq`. Consumes completions up to and including the first incoming request or
        response, or the first aborted SABRE. `passes` counts the turns of the outer loop begun and
        `turns` those of the inner one: every pass beyond the first has found the head slot valid, so
        with room in the work queue there is a single pass, and the turns are at most the completions
        outstanding at the start and those posted meanwhile. */
    method CheckCq() returns (r: Result<PollResult>, passes: nat, turns: nat)
      requires Valid()
      modifies wq, cq, this`nic, this`cqTail, this`cqSR, this`cqConsumed
      ensures Shared() && old(cqConsumed) <= cqConsumed && (r.Ok? ==> Valid())
      ensures Took(old(nic), nic, r.Ok?, 6 * passes + 8 * (cqConsumed - old(cqConsumed)))
      ensures 1 <= passes <= 1 + Jams(old(nic), nic) && (old(HeadFree()) ==> passes == 1)
      ensures r.Ok? ==> Spent(old(nic), nic) >= 6 * passes
      ensures r.Ok? ==> nic.trace[|old(nic).trace|].consumed == old(cqConsumed)
      ensures OpsNow() == old(OpsNow())
      ensures r.Stopped? ==> PlainRange(nic.posted, old(cqConsumed), cqConsumed - 1)
      ensures r.Ok? ==> Reports(r.value, nic.posted, old(cqConsumed), cqConsumed, OpsNow())
      // no message and no abort: all that was there at the start is consumed, and a post will be accepted
      ensures r.Ok? && !r.value.IsMessage() && r.value.success != 0 ==>
              |old(nic).posted| <= cqConsumed && HeadFree()
      ensures r.Ok? && SabreFree(wqStart, wqPosted) ==> r.value.success == 1
      ensures turns <= cqConsumed - old(cqConsumed) <= |nic.posted| - old(cqConsumed)
      ensures r.Ok? ==> turns == cqConsumed - old(cqConsumed)
    {
      hide Shared, HeadFree, OpsNow, LastPosted, Executed, Crowded, SabreFree, Reports, PlainRange, Sense, Slot;
      passes, turns := 0, 0;
      var ret: PollResult := *;
      ret := ret.(success := 1, op := RMC_INVAL);
      ReportsNothing(ret, nic.posted, cqConsumed, OpsNow());
      while true
        invariant old(HeadFree()) ==> HeadFree() && passes == 0
        invariant turns == cqConsumed - old(cqConsumed)
        invariant Valid() && Later(old(nic), nic) && old(cqConsumed) <= cqConsumed
        invariant 6 * passes <= Spent(old(nic), nic) <= 6 * passes + 8 * turns && passes <= Jams(old(nic), nic)
        invariant passes == 0 ==> turns == 0 && nic == old(nic)
        invariant passes > 0 ==> nic.trace[|old(nic).trace|].consumed == old(cqConsumed)
        invariant Reports(ret, nic.posted, old(cqConsumed), cqConsumed, OpsNow())
        invariant !ret.IsMessage() && ret.success != 0 && OpsNow() == old(OpsNow())
        decreases |nic.schedule|
      {
        passes := passes + 1;
        ghost var posted := nic.posted;
        var looked := ReadHeadValid();
        ReportsLater(ret, posted, nic.posted, old(cqConsumed), cqConsumed, OpsNow());
        var headValid :- looked;
        var o, more := Drain(ret, old(cqConsumed));
        turns := turns + more;
        ret :- o;
        if ret.IsMessage() || !headValid || ret.success == 0 {
          OpsFacts(ret, old(cqConsumed));
          return Ok(ret), passes, turns;
        }
      }
    }

    lemma OpsFacts(ret: PollResult, from: nat)
      requires Valid() && Reports(ret, nic.posted, from, cqConsumed, OpsNow())
      ensures SabreFree(wqStart, wqPosted) ==> ret.success == 1
    {
      hide WqRing, CqShared, LogShared, TraceShared, SabreFree, Reports;
      if SabreFree(wqStart, wqPosted) {
        forall i | 0 <= i < |OpsNow()|
          ensures OpsNow()[i] != RMC_SABRE
        {
          WqSabreFree(WqNow(), i);
        }
        NoSabreNoAbort(ret, nic.posted, from, cqConsumed, OpsNow());
      }
    }

    // -------------------------------------------------------------- posting

    method BeginStore() returns (e: WqEntry)
      requires Valid() && HeadFree()
      modifies this`store
      ensures Shared() && store.Storing? && store.written == e
    {
      hide CqShared, LogShared, TraceShared, WqSide;
      ghost var v := WqNow();
      e := wq[wqHead];
      store := Storing(wq[wqHead], wq[wqHead]);
      assert WqNow() == v;
    }

    /** One field more, after n of them: the slot then holds e, as far as the store has come. */
    method StoreField(e: WqEntry, ghost begun: Nic, ghost n: nat) returns (r: Result<()>)
      requires Shared() && store.Storing? && Later(begun, nic) && Spent(begun, nic) == n
      modifies wq, cq, this`nic, this`store
      ensures Shared() && store == old(store).(written := e) && Later(begun, nic)
      ensures if r.Ok? then Spent(begun, nic) == n + 1 else Spent(begun, nic) == n && nic.schedule == []
    {
      hide CqShared, LogShared, TraceShared, WqSide, HeadFree, Crowded;
      ghost var v := WqNow();
      store := store.(written := e);
      wq[wqHead] := e;
      assert WqNow() == v;
      r := Interfere();
    }

    /** The assignment of a whole entry to the head slot: its fields in declaration order, with the
        NIC active after each. */
    method StoreEntry(entry: WqEntry) returns (r: Result<()>)
      requires Valid() && HeadFree()
      modifies wq, cq, this`nic, this`store
      ensures Shared() && Took(old(nic), nic, r.Ok?, 8)
      ensures r.Ok? ==> store.Storing? && store.written == entry && Spent(old(nic), nic) == 8
    {
      hide Shared, Valid, HeadFree, Later, Spent;
      StartHere(nic);
      var e := BeginStore();
      e := e.(request := e.request.(op := entry.request.op));
      var _ :- StoreField(e, old(nic), 0);
      e := e.(SR := entry.SR);
      var _ :- StoreField(e, old(nic), 1);
      e := e.(valid := entry.valid);
      var _ :- StoreField(e, old(nic), 2);
      e := e.(request := e.request.(bufAddr := entry.request.bufAddr));
      var _ :- StoreField(e, old(nic), 3);
      e := e.(request := e.request.(cid := entry.request.cid));
      var _ :- StoreField(e, old(nic), 4);
      e := e.(request := e.request.(nid := entry.request.nid));
      var _ :- StoreField(e, old(nic), 5);
      e := e.(request := e.request.(offset := entry.request.offset));
      var _ :- StoreField(e, old(nic), 6);
      e := e.(request := e.request.(length := entry.request.length));
      var _ :- StoreField(e, old(nic), 7);
      return Ok(());
    }

    /** The NIC is notified of the entry (`NOTIFY_WQ_WRITE`), which is now posted. */
    method Notify(event: Event)
      requires Shared() && InStep() && !event.RecvRefused?
      requires store.Storing? && store.written == WqEntry(wqSR, true, event.request)
      modifies this`store, this`wqPosted, this`log
      ensures Shared() && store.Idle?
      ensures log == old(log) + [event] && wqPosted == old(wqPosted) + [event.request]
    {
      hide CqShared, WqRing, PostsOf, RefusedAfterLap, Sense, TraceSide;
      WqPost(WqNow(), event.request);
      ghost var v := Posted(WqNow(), event.request);
      PostsSnoc(log, event);
      RefusedSnoc(log, event);
      TraceLater(script, nic.trace, nic.schedule, cqConsumed, log, nic.Seen(), cqConsumed, log + [event]);
      store := Idle;
      wqPosted := wqPosted + [event.request];
      log := log + [event];
      assert WqNow() == v;
    }

    /** `create_wq_entry` into the head slot, and the move of the head past it. */
    method CreateWqEntry(event: Event) returns (r: Result<()>)
      requires Valid() && HeadFree() && !event.RecvRefused?
      modifies wq, cq, this`nic, this`store, this`wqHead, this`wqSR, this`wqPosted, this`log
      ensures Shared() && Took(old(nic), nic, r.Ok?, 9) && (r.Ok? ==> Valid())
      ensures log == old(log) + [event] || (r.Stopped? && log == old(log))
    {
      hide Shared, HeadFree, LastPosted, Executed, Crowded, Sense, Slot, Later;
      LaterChain();
      var _ :- StoreEntry(WqEntry(wqSR, true, event.request));
      AdvanceSense(wqSense0, |wqPosted|, MAX_NUM_WQ);
      Notify(event);
      var _ :- Interfere();
      MoveHead();
      return Ok(());
    }

    method MoveHead()
      requires Shared() && store.Idle?
      modifies this`wqHead, this`wqSR
      ensures Shared()
      ensures wqHead == if old(wqHead) + 1 >= MAX_NUM_WQ then 0 else old(wqHead) + 1
      ensures wqSR == if old(wqHead) + 1 >= MAX_NUM_WQ then !old(wqSR) else old(wqSR)
    {
      hide CqShared, LogShared, TraceShared, WqSide;
      wqHead := wqHead + 1;
      if wqHead >= MAX_NUM_WQ {
        wqHead := 0;
        wqSR := !wqSR;
      }
    }

    /** `rmc_hw_send`: accepted exactly when the head slot is not valid as the call begins; then one
        SEND entry is posted, its length counted in whole cache blocks. Ten bursts are enough for it. */
    method HwSend(ctxId: nat, dataAddress: nat, length: nat, nid: nat) returns (r: Result<bool>)
      requires Valid()
      modifies wq, cq, this`nic, this`store, this`wqHead, this`wqSR, this`wqPosted, this`log
      ensures Shared() && Took(old(nic), nic, r.Ok?, 10) && (r.Ok? ==> Valid())
      ensures |old(nic).schedule| >= 10 ==> r.Ok?
      ensures r.Ok? ==> (r.value <==> old(HeadFree()))
      ensures var request := WorkRequest(RMC_SEND, dataAddress, ctxId, nid, 0, Blocks(length));
              log == old(log) + [SendPosted(request)] || (log == old(log) && (r.Ok? ==> !r.value))
      ensures r.Ok? && !r.value ==> log == old(log) && Spent(old(nic), nic) == Jams(old(nic), nic) == 1
    {
      hide Shared, HeadFree, LastPosted, Executed, Crowded, Sense, Slot, Blocks;
      var refused :- ReadHeadValid();
      if refused {
        return Ok(false);
      }
      var _ :- CreateWqEntry(SendPosted(WorkRequest(RMC_SEND, dataAddress, ctxId, nid, 0, Blocks(length))));
      return Ok(true);
    }

    /** `rmc_hw_recv`: as `HwSend`, except that the caller never looks at a refusal. */
    method HwRecv(ctxId: nat, recvBuf: nat, length: nat) returns (r: Result<()>)
      requires Valid()
      modifies wq, cq, this`nic, this`store, this`wqHead, this`wqSR, this`wqPosted, this`log
      ensures Shared() && Took(old(nic), nic, r.Ok?, 10) && (r.Ok? ==> Valid())
      ensures |old(nic).schedule| >= 10 ==> r.Ok?
      ensures var request := WorkRequest(RMC_RECV, recvBuf, ctxId, 0, 0, length);
              var event := if old(HeadFree()) then RecvPosted(request) else RecvRefused;
              log == old(log) + [event] || (r.Stopped? && log == old(log))
    {
      hide Shared, HeadFree, LastPosted, Executed, Crowded, Sense, Slot;
      HeadIs();
      var refused := wq[wqHead].valid;
      if refused {
        LogRefusal();
      }
      var _ :- Interfere();
      if !refused {
        var _ :- CreateWqEntry(RecvPosted(WorkRequest(RMC_RECV, recvBuf, ctxId, 0, 0, length)));
      }
      return Ok(());
    }

    /** A RECV given up: the head slot is valid, so a whole lap has been posted. */
    method LogRefusal()
      requires Valid() && !HeadFree()
      modifies this`log
      ensures Valid() && log == old(log) + [RecvRefused]
    {
      hide CqShared, WqShared, PostsOf, RefusedAfterLap, TraceSide;
      LapFacts();
      PostsSnoc(log, RecvRefused);
      RefusedSnoc(log, RecvRefused);
      TraceLater(script, nic.trace, nic.schedule, cqConsumed, log, nic.Seen(), cqConsumed, log + [RecvRefused]);
      log := log + [RecvRefused];
    }
  }
}
