/**
  What the NIC does to a run, said on values: the effect of each of its steps, what a schedule of
  such steps adds up to, and how many bursts of it a part of the application may use.
 */
module Schedules {
  import opened PhaseRing
  import opened Rings
  import opened Traffic

  const MAX_POLLS: nat := 500

  /** What the NIC can do. A step it is not entitled to (no room, nothing to read, a slot that is
      not in flight, a plain completion naming no work queue slot) is no step at all. */
  datatype NicStep =
    | PostCompletion(completion: Completion)
    | ReadRequest
    | CompleteRequest(slot: nat)
    | RaiseClientDone

  /** What the NIC has brought about: completions posted, requests read, those in flight by slot, and
      the flag that tells the worker to leave. */
  datatype Sight = Sight(posted: seq<Completion>, read: seq<WorkRequest>, outstanding: map<nat, WorkRequest>,
                         clientDone: bool)

  /** The effect of a step while the application has consumed so many completions and posted these
      requests. */
  function Effect(s: Sight, step: NicStep, consumed: nat, posts: seq<WorkRequest>): Sight {
    match step
    case PostCompletion(e) =>
      if |s.posted| < consumed + MAX_NUM_WQ && GoodTid(e) then s.(posted := s.posted + [e]) else s
    case ReadRequest =>
      if |s.read| < |posts| then
        s.(read := s.read + [posts[|s.read|]],
           outstanding := s.outstanding[Slot(|s.read|, MAX_NUM_WQ) := posts[|s.read|]])
      else s
    case CompleteRequest(slot) => s.(outstanding := s.outstanding - {slot})
    case RaiseClientDone => s.(clientDone := true)
  }

  /** The steps one by one: with room a completion is posted, if something is unread the next request is
      read into its slot, a slot completed is no longer in flight, and the flag is raised. */
  lemma EffectInFull(s: Sight, consumed: nat, posts: seq<WorkRequest>, e: Completion, slot: nat)
    ensures |s.posted| < consumed + 512 && GoodTid(e) ==>
              Effect(s, PostCompletion(e), consumed, posts) == s.(posted := s.posted + [e])
    ensures |s.read| < |posts| ==>
              Effect(s, ReadRequest, consumed, posts).read == s.read + [posts[|s.read|]] &&
              Effect(s, ReadRequest, consumed, posts).outstanding[|s.read| % 512] == posts[|s.read|]
    ensures slot !in Effect(s, CompleteRequest(slot), consumed, posts).outstanding
    ensures Effect(s, RaiseClientDone, consumed, posts) == s.(clientDone := true)
  {
  }

  /** The effect of a burst, step after step. */
  function After(s: Sight, burst: seq<NicStep>, consumed: nat, posts: seq<WorkRequest>): Sight {
    if burst == [] then s
    else Effect(After(s, burst[..|burst| - 1], consumed, posts), burst[|burst| - 1], consumed, posts)
  }

  lemma AfterNothing(s: Sight, consumed: nat, posts: seq<WorkRequest>)
    ensures After(s, [], consumed, posts) == s
  {
  }

  lemma AfterSnoc(s: Sight, burst: seq<NicStep>, step: NicStep, consumed: nat, posts: seq<WorkRequest>)
    ensures After(s, burst + [step], consumed, posts) == Effect(After(s, burst, consumed, posts), step, consumed, posts)
  {
    assert (burst + [step])[..|burst|] == burst;
  }

  /** Where the application stood when a burst was executed: the completions it had consumed, the length
      of its log, and whether the slot under the work queue's head was free. */
  datatype Moment = Moment(consumed: nat, logged: nat, room: bool)

  ghost predicate Dated(trace: seq<Moment>, log: seq<Event>) {
    forall t :: 0 <= t < |trace| ==> trace[t].logged <= |log|
  }

  /** What the first `used` bursts of a schedule bring about in a run with these moments. */
  function Replay(schedule: seq<seq<NicStep>>, trace: seq<Moment>, log: seq<Event>, used: nat): Sight
    requires used <= |schedule| && used <= |trace| && Dated(trace, log)
  {
    if used == 0 then Sight([], [], map[], false)
    else
      var m := trace[used - 1];
      After(Replay(schedule, trace, log, used - 1), schedule[used - 1], m.consumed, PostsOf(log[..m.logged]))
  }

  /** The NIC's doings are what the bursts used so far bring about. At each of them the application had
      done no more than by now, and a head slot that was not free had been posted to before. */
  ghost predicate TraceSide(script: seq<seq<NicStep>>, trace: seq<Moment>, schedule: seq<seq<NicStep>>,
                            consumed: nat, log: seq<Event>, s: Sight) {
    && |trace| <= |script| && schedule == script[|trace|..] && Dated(trace, log)
    && s == Replay(script, trace, log, |trace|)
    && forall t :: 0 <= t < |trace| ==>
         && trace[t].consumed <= consumed
         && (!trace[t].room ==> |PostsOf(log[..trace[t].logged])| >= MAX_NUM_WQ)
  }

  /** The flag was raised within the first `used` bursts. */
  ghost predicate DoneBy(schedule: seq<seq<NicStep>>, used: int) {
    exists t :: 0 <= t < used && t < |schedule| && RaiseClientDone in schedule[t]
  }

  /** In how many of the moments the slot under the work queue's head was not free. */
  function Crowded(trace: seq<Moment>): nat {
    if trace == [] then 0 else Crowded(trace[..|trace| - 1]) + (if trace[|trace| - 1].room then 0 else 1)
  }

  lemma CrowdedSnoc(trace: seq<Moment>, m: Moment)
    ensures Crowded(trace + [m]) == Crowded(trace) + (if m.room then 0 else 1)
  {
    assert (trace + [m])[..|trace|] == trace;
  }

  /** What earlier bursts brought about does not depend on what came later. */
  lemma {:induction false} ReplayLater(schedule: seq<seq<NicStep>>, trace: seq<Moment>, log: seq<Event>,
                                       trace': seq<Moment>, log': seq<Event>, used: nat)
    requires trace <= trace' && log <= log' && used <= |schedule| && used <= |trace|
    requires Dated(trace, log) && Dated(trace', log')
    ensures Replay(schedule, trace', log', used) == Replay(schedule, trace, log, used)
  {
    if used > 0 {
      ReplayLater(schedule, trace, log, trace', log', used - 1);
      assert log'[..trace[used - 1].logged] == log[..trace[used - 1].logged];
    }
  }

  /** The application moves on: it consumes or logs more. */
  lemma TraceLater(script: seq<seq<NicStep>>, trace: seq<Moment>, schedule: seq<seq<NicStep>>, consumed: nat,
                   log: seq<Event>, s: Sight, consumed': nat, log': seq<Event>)
    requires TraceSide(script, trace, schedule, consumed, log, s) && consumed <= consumed' && log <= log'
    ensures TraceSide(script, trace, schedule, consumed', log', s)
  {
    hide PostsOf;
    ReplayLater(script, trace, log, trace, log', |trace|);
    forall t | 0 <= t < |trace|
      ensures trace[t].logged <= |log'| && log'[..trace[t].logged] == log[..trace[t].logged]
    {
    }
  }

  /** The NIC moves on by one burst. */
  lemma TraceNext(script: seq<seq<NicStep>>, trace: seq<Moment>, schedule: seq<seq<NicStep>>, m: Moment,
                  log: seq<Event>, s: Sight)
    requires TraceSide(script, trace, schedule, m.consumed, log, s) && schedule != []
    requires m.logged == |log| && (!m.room ==> |PostsOf(log)| >= MAX_NUM_WQ)
    ensures TraceSide(script, trace + [m], schedule[1..], m.consumed, log,
                      After(s, schedule[0], m.consumed, PostsOf(log)))
    ensures Replay(script, trace + [m], log, |trace|) == s
  {
    hide PostsOf, After;
    assert log[..|log|] == log;
    ReplayLater(script, trace, log, trace + [m], log, |trace|);
  }

  /** What was seen of the NIC at an earlier moment of the run can still be replayed. */
  lemma SeenThen(script: seq<seq<NicStep>>, trace: seq<Moment>, schedule: seq<seq<NicStep>>, consumed: nat,
                 log: seq<Event>, s: Sight, trace': seq<Moment>, schedule': seq<seq<NicStep>>, consumed': nat,
                 log': seq<Event>, s': Sight)
    requires TraceSide(script, trace, schedule, consumed, log, s) && trace <= trace' && log <= log'
    requires TraceSide(script, trace', schedule', consumed', log', s')
    ensures Replay(script, trace', log', |trace|) == s
  {
    ReplayLater(script, trace, log, trace', log', |trace|);
  }

  lemma {:induction false} DoneAfter(s: Sight, burst: seq<NicStep>, consumed: nat, posts: seq<WorkRequest>)
    ensures After(s, burst, consumed, posts).clientDone <==> s.clientDone || RaiseClientDone in burst
    ensures s.posted <= After(s, burst, consumed, posts).posted
    decreases |burst|
  {
    if burst != [] {
      var before, last := burst[..|burst| - 1], burst[|burst| - 1];
      DoneAfter(s, before, consumed, posts);
      assert burst == before + [last];
    }
  }

  /** The flag is up exactly when one of the bursts raised it. */
  lemma {:induction false} DoneExactly(schedule: seq<seq<NicStep>>, trace: seq<Moment>, log: seq<Event>, used: nat)
    requires used <= |schedule| && used <= |trace| && Dated(trace, log)
    ensures Replay(schedule, trace, log, used).clientDone <==> DoneBy(schedule, used)
  {
    if used > 0 {
      var m := trace[used - 1];
      DoneExactly(schedule, trace, log, used - 1);
      DoneAfter(Replay(schedule, trace, log, used - 1), schedule[used - 1], m.consumed, PostsOf(log[..m.logged]));
    }
  }

  lemma {:induction false} PostedGrows(schedule: seq<seq<NicStep>>, trace: seq<Moment>, log: seq<Event>, a: nat, b: nat)
    requires a <= b <= |schedule| && b <= |trace| && Dated(trace, log)
    ensures Replay(schedule, trace, log, a).posted <= Replay(schedule, trace, log, b).posted
  {
    if a < b {
      var m := trace[b - 1];
      PostedGrows(schedule, trace, log, a, b - 1);
      DoneAfter(Replay(schedule, trace, log, b - 1), schedule[b - 1], m.consumed, PostsOf(log[..m.logged]));
    }
  }

  /** The last poll of a call began when `looked` bursts were used, and took everything posted by then,
      or at least one completion; and the call did not go on much longer. */
  ghost predicate LastLook(script: seq<seq<NicStep>>, trace: seq<Moment>, log: seq<Event>, consumed: nat, looked: nat)
    requires |trace| <= |script| && Dated(trace, log)
  {
    && looked < |trace|
    && var had := trace[looked].consumed;
    && had <= consumed
    && (|Replay(script, trace, log, looked).posted| <= consumed || had < consumed)
    && |trace| - looked <= 7 + 8 * (consumed - had) + 6 * (Crowded(trace) - Crowded(trace[..looked]))
  }

  lemma LastLookLater(script: seq<seq<NicStep>>, trace: seq<Moment>, log: seq<Event>, consumed: nat, looked: nat,
                      log': seq<Event>)
    requires |trace| <= |script| && Dated(trace, log) && LastLook(script, trace, log, consumed, looked) && log <= log'
    ensures Dated(trace, log') && LastLook(script, trace, log', consumed, looked)
  {
    ReplayLater(script, trace, log, trace, log', looked);
  }

  // ---------------------------------------------------------------- completions offered

  /** The completions that the steps of a burst offer, leaving out those that name no slot. */
  function Offered(burst: seq<NicStep>): seq<Completion> {
    if burst == [] then []
    else
      var last := burst[|burst| - 1];
      Offered(burst[..|burst| - 1])
      + (if last.PostCompletion? && GoodTid(last.completion) then [last.completion] else [])
  }

  function AllOffered(schedule: seq<seq<NicStep>>, used: nat): seq<Completion>
    requires used <= |schedule|
  {
    if used == 0 then [] else AllOffered(schedule, used - 1) + Offered(schedule[used - 1])
  }

  lemma {:induction false} BurstPosts(s: Sight, burst: seq<NicStep>, consumed: nat, posts: seq<WorkRequest>)
    requires |s.posted| + |Offered(burst)| <= consumed + MAX_NUM_WQ
    ensures After(s, burst, consumed, posts).posted == s.posted + Offered(burst)
    decreases |burst|
  {
    if burst != [] {
      BurstPosts(s, burst[..|burst| - 1], consumed, posts);
    }
  }

  lemma {:induction false} BurstPostsAtMost(s: Sight, burst: seq<NicStep>, consumed: nat, posts: seq<WorkRequest>)
    ensures |After(s, burst, consumed, posts).posted| <= |s.posted| + |Offered(burst)|
    decreases |burst|
  {
    if burst != [] {
      BurstPostsAtMost(s, burst[..|burst| - 1], consumed, posts);
    }
  }

  lemma {:induction false} PostedAtMost(schedule: seq<seq<NicStep>>, trace: seq<Moment>, log: seq<Event>, used: nat)
    requires used <= |schedule| && used <= |trace| && Dated(trace, log)
    ensures |Replay(schedule, trace, log, used).posted| <= |AllOffered(schedule, used)|
  {
    if used > 0 {
      var m := trace[used - 1];
      PostedAtMost(schedule, trace, log, used - 1);
      BurstPostsAtMost(Replay(schedule, trace, log, used - 1), schedule[used - 1], m.consumed,
                       PostsOf(log[..m.logged]));
    }
  }

  /** As long as no more is offered than there is room for, everything offered is posted, in order. */
  lemma {:induction false} AllPosted(schedule: seq<seq<NicStep>>, trace: seq<Moment>, log: seq<Event>, used: nat)
    requires used <= |schedule| && used <= |trace| && Dated(trace, log)
    requires forall t :: 0 <= t < used ==> |AllOffered(schedule, t + 1)| <= trace[t].consumed + MAX_NUM_WQ
    ensures Replay(schedule, trace, log, used).posted == AllOffered(schedule, used)
  {
    if used > 0 {
      var m := trace[used - 1];
      AllPosted(schedule, trace, log, used - 1);
      BurstPosts(Replay(schedule, trace, log, used - 1), schedule[used - 1], m.consumed, PostsOf(log[..m.logged]));
    }
  }
}
