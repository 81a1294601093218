/**
  The verdict of another entry. `rmc_check_cq` gives a completion queue slot back and only then, for a
  SABRE, reads the verdict in it. If the ring was full, the NIC may have refilled the slot in between.
 */
module StaleVerdict {
  import opened PhaseRing
  import opened Rings

  /** The completion of the request in work queue slot 0, with this verdict. */
  function Verdict(success: nat): Completion {
    Completion(success, 0, 0)
  }

  function Verdicts(success: nat, n: nat): (s: seq<Completion>)
    ensures |s| == n && forall k :: 0 <= k < n ==> s[k] == Verdict(success)
  {
    seq(n, _ => Verdict(success))
  }

  lemma OneMoreCqStep(u: CompletionQueue, n: nat, v: CompletionQueue)
    requires CqReachable(u, n) && CqStep(u, v)
    ensures CqReachable(v, n + 1)
  {
  }

  /** The NIC can post as long as there is room. */
  lemma ArriveStep(u: CompletionQueue, n: nat, e: Completion)
    requires CqReachable(u, n) && |u.posted| < u.consumed + MAX_NUM_WQ && GoodTid(e)
    ensures |u.q| == MAX_NUM_WQ && CqStep(u, Arrived(u, e)) && CqReachable(Arrived(u, e), n + 1)
  {
    hide CqReachable;
    CqReachableIsRing(u, n);
    CqFront(u);
    OneMoreCqStep(u, n, Arrived(u, e));
  }

  lemma ReleaseStep(u: CompletionQueue, n: nat)
    requires CqReachable(u, n) && u.consumed < |u.posted|
    ensures |u.q| == MAX_NUM_WQ && CqReachable(Released(u), n + 1)
  {
    hide CqReachable;
    CqReachableIsRing(u, n);
    CqFront(u);
    OneMoreCqStep(u, n, Released(u));
  }

  lemma NothingArrived(v: CompletionQueue)
    requires FreshCq(v.q, v.init) && v.posted == [] && v.consumed == 0
    ensures CqReachable(v, 0)
  {
  }

  /** Completions with the same verdict fill the ring. */
  lemma {:induction false} FillRing(start: seq<CqEntry>, init: bool, success: nat, n: nat) returns (v: CompletionQueue)
    requires FreshCq(start, init) && n <= MAX_NUM_WQ
    ensures CqReachable(v, n) && v == CompletionQueue(v.q, init, Verdicts(success, n), 0)
  {
    hide CqReachable, CqStep;
    if n == 0 {
      v := CompletionQueue(start, init, [], 0);
      NothingArrived(v);
    } else {
      var u := FillRing(start, init, success, n - 1);
      ArriveStep(u, n - 1, Verdict(success));
      v := Arrived(u, Verdict(success));
    }
  }

  /** In the reachable state u the application has just given entry 0 back; one post by the NIC makes
      it v. Entry 0 carries one verdict and its slot shows the other. */
  ghost predicate Stale(u: CompletionQueue, v: CompletionQueue, mine: nat, other: nat) {
    && CqReachable(u, MAX_NUM_WQ + 1) && u.consumed == 1
    && CqStep(u, v) && |v.posted| == MAX_NUM_WQ + 1 && v.consumed == 1
    && v.posted[0].success == mine
    && |v.q| == MAX_NUM_WQ && v.q[Slot(0, MAX_NUM_WQ)].completion.success == other
  }

  /** From any fresh ring and for any two verdicts: success taken for an abort, and the reverse. */
  lemma {:induction false} StaleVerdictInput(start: seq<CqEntry>, init: bool, mine: nat, other: nat)
    returns (u: CompletionQueue, v: CompletionQueue)
    requires FreshCq(start, init)
    ensures Stale(u, v, mine, other)
  {
    hide CqReachable, CqStep;
    var full := FillRing(start, init, mine, MAX_NUM_WQ);
    ReleaseStep(full, MAX_NUM_WQ);
    u := Released(full);
    ArriveStep(u, MAX_NUM_WQ + 1, Verdict(other));
    v := Arrived(u, Verdict(other));
    CqReachableIsRing(v, MAX_NUM_WQ + 2);
    CqReleased(v);
  }
}
