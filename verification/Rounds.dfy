/**
  The turns of a worker's main loop as a record, and what such a record says: the batching policy, what
  was delivered, and how soon. Nothing here looks at the worker's code.
 */
module Rounds {
  import opened Rings
  import opened Traffic
  import opened Schedules

  const WARM_UP: nat := 1010

  /** One turn of the main loop: whether the receive call timed out, how many messages were answered
      and how many are left in the batch; how many completions had been posted when the receive call
      began, and how many the worker had consumed when it returned; the length of the log at the end of
      the turn; the polls made; and the bursts used when the last poll began, when the receive call
      returned, and at the end. */
  datatype Round = Round(timeout: bool, served: nat, pending: nat, arrived: nat, consumed: nat, logged: nat,
                         polls: nat, looked: nat, heard: nat, used: nat)

  function Served(rounds: seq<Round>): nat {
    if rounds == [] then 0 else Served(rounds[..|rounds| - 1]) + rounds[|rounds| - 1].served
  }

  function Pending(rounds: seq<Round>): nat {
    if rounds == [] then 0 else rounds[|rounds| - 1].pending
  }

  function Consumed(rounds: seq<Round>): nat {
    if rounds == [] then 0 else rounds[|rounds| - 1].consumed
  }

  function Logged(rounds: seq<Round>): nat {
    if rounds == [] then 0 else rounds[|rounds| - 1].logged
  }

  function Used(rounds: seq<Round>): nat {
    if rounds == [] then 0 else rounds[|rounds| - 1].used
  }

  // ---------------------------------------------------------------- the batching policy

  /** The batching policy for one round, after `served` messages answered and with `pending` waiting.
      No message appears or vanishes; a batch is answered whole or not at all; it never grows to the
      configured size unanswered; a timeout and the warm-up, which is the first 1010 messages, leave
      nothing waiting; and otherwise only full batches are answered. */
  ghost predicate GoodRound(cfg: Config, served: nat, pending: nat, r: Round) {
    && r.served + r.pending == pending + (if r.timeout then 0 else 1)
    && (r.served == 0 || r.pending == 0)
    && r.pending < cfg.batchSize && r.served <= cfg.batchSize
    && (r.timeout || served + pending < 1010 ==> r.pending == 0)
    && (served < 1010 ==> r.served <= 1)
    && (!r.timeout && served + pending >= 1010 && r.served > 0 ==> r.served == cfg.batchSize)
  }

  ghost predicate GoodRounds(cfg: Config, rounds: seq<Round>) {
    forall b :: 0 <= b < |rounds| ==> GoodRound(cfg, Served(rounds[..b]), Pending(rounds[..b]), rounds[b])
  }

  lemma RoundsSnoc(cfg: Config, rounds: seq<Round>, r: Round)
    requires GoodRounds(cfg, rounds) && GoodRound(cfg, Served(rounds), Pending(rounds), r)
    ensures GoodRounds(cfg, rounds + [r])
    ensures Served(rounds + [r]) == Served(rounds) + r.served && Pending(rounds + [r]) == r.pending
  {
    var more := rounds + [r];
    assert more[..|rounds|] == rounds;
    forall b | 0 <= b < |more|
      ensures GoodRound(cfg, Served(more[..b]), Pending(more[..b]), more[b])
    {
      if b < |rounds| {
        assert more[..b] == rounds[..b];
      }
    }
  }

  lemma ServedNext(rounds: seq<Round>, b: nat)
    requires b < |rounds|
    ensures Served(rounds[..b + 1]) == Served(rounds[..b]) + rounds[b].served
    ensures Pending(rounds[..b + 1]) == rounds[b].pending && Consumed(rounds[..b + 1]) == rounds[b].consumed
    ensures Logged(rounds[..b + 1]) == rounds[b].logged && Used(rounds[..b + 1]) == rounds[b].used
  {
    assert rounds[..b + 1][..b] == rounds[..b];
  }

  // ---------------------------------------------------------------- what was delivered

  /** What the first b + 1 rounds did to the completions posted: at every loop head the log is two
      events long for each message answered, the requests delivered are those answered and those
      waiting, and a timeout means that the receive call took all that had arrived when it began, or
      one completion a poll. */
  ghost predicate Delivers(rounds: seq<Round>, b: nat, posted: seq<Completion>)
    requires b < |rounds|
  {
    var r := rounds[b];
    && r.consumed <= |posted|
    && r.arrived <= |posted|
    && r.logged == 2 * Served(rounds[..b + 1])
    && |Requests(posted[..r.consumed])| == Served(rounds[..b + 1]) + r.pending
    && (r.timeout ==> r.arrived <= r.consumed || Consumed(rounds[..b]) + MAX_POLLS <= r.consumed)
  }

  ghost predicate Delivered(rounds: seq<Round>, posted: seq<Completion>) {
    forall b :: 0 <= b < |rounds| ==> Delivers(rounds, b, posted)
  }

  /** What was delivered stays delivered, whatever the NIC does next. */
  lemma DeliveredLater(rounds: seq<Round>, posted: seq<Completion>, more: seq<Completion>)
    requires Delivered(rounds, posted) && posted <= more
    ensures Delivered(rounds, more)
  {
    forall b | 0 <= b < |rounds|
      ensures Delivers(rounds, b, more)
    {
      assert Delivers(rounds, b, posted);
      assert posted[..rounds[b].consumed] == more[..rounds[b].consumed];
    }
  }

  lemma DeliveredSnoc(rounds: seq<Round>, r: Round, posted: seq<Completion>)
    requires Delivered(rounds, posted) && r.consumed <= |posted| && r.arrived <= |posted|
    requires |Requests(posted[..r.consumed])| == Served(rounds) + r.served + r.pending
    requires r.logged == 2 * (Served(rounds) + r.served)
    requires r.timeout ==> r.arrived <= r.consumed || Consumed(rounds) + MAX_POLLS <= r.consumed
    ensures Delivered(rounds + [r], posted)
  {
    var more := rounds + [r];
    forall b | 0 <= b < |more|
      ensures Delivers(more, b, posted)
    {
      if b < |rounds| {
        assert Delivers(rounds, b, posted);
        assert more[..b] == rounds[..b] && more[..b + 1] == rounds[..b + 1];
      } else {
        assert more[..b] == rounds && more[..b + 1] == more;
      }
    }
  }

  /** Nothing is left behind: after a round whose receive call timed out on a drained queue, every
      request posted before that call has been answered. */
  lemma TimeoutAnswersAll(cfg: Config, rounds: seq<Round>, posted: seq<Completion>, b: nat)
    requires GoodRounds(cfg, rounds) && Delivered(rounds, posted)
    requires b < |rounds| && rounds[b].timeout && rounds[b].arrived <= rounds[b].consumed
    ensures rounds[b].arrived <= |posted|
    ensures |Requests(posted[..rounds[b].arrived])| <= Served(rounds[..b + 1])
  {
    assert Delivers(rounds, b, posted);
    assert GoodRound(cfg, Served(rounds[..b]), Pending(rounds[..b]), rounds[b]);
    RequestsGrow(posted, rounds[b].arrived, rounds[b].consumed);
  }

  // ---------------------------------------------------------------- how soon

  /** Bursts between two moments at which the slot under the work queue's head was not free. */
  ghost function JamsBetween(trace: seq<Moment>, a: nat, b: nat): int
    requires a <= |trace| && b <= |trace|
  {
    Crowded(trace[..b]) - Crowded(trace[..a])
  }

  /** The bursts a turn of so many polls may use, given the completions it consumed, the events it logged
      and the bursts at which the head slot was not free. */
  function TurnCost(polls: nat, consumed: int, logged: int, jams: int): int {
    7 * polls + 1 + 8 * consumed + 10 * logged + 6 * jams
  }

  /** Round b as part of a run with these moments: when it began what it says had been posted was posted,
      the flag was down when it was last read, a timeout is what 500 polls took, the last of them not
      long ago, and the turn used no more bursts than it had work. */
  ghost predicate Timed(script: seq<seq<NicStep>>, trace: seq<Moment>, log: seq<Event>, rounds: seq<Round>, b: nat)
    requires b < |rounds| && |trace| <= |script| && Dated(trace, log)
  {
    var r, a := rounds[b], Used(rounds[..b]);
    var c, l := Consumed(rounds[..b]), Logged(rounds[..b]);
    && a < r.heard <= r.used <= |trace|
    && c <= r.consumed && l <= r.logged <= |log|
    && r.arrived == |Replay(script, trace, log, a).posted|
    && r.consumed <= |Replay(script, trace, log, r.used).posted| <= r.consumed + MAX_NUM_WQ
    && !DoneBy(script, r.heard - 1)
    && 1 <= r.polls <= 500
    && (r.timeout ==>
          && r.heard - a >= 7 * 500 && a <= r.looked
          && LastLook(script, trace[..r.heard], log, r.consumed, r.looked))
    && r.used - a <= TurnCost(r.polls, r.consumed - c, r.logged - l, JamsBetween(trace, a, r.used))
  }

  ghost predicate AllTimed(script: seq<seq<NicStep>>, trace: seq<Moment>, log: seq<Event>, rounds: seq<Round>)
    requires |trace| <= |script| && Dated(trace, log)
  {
    forall b :: 0 <= b < |rounds| ==> Timed(script, trace, log, rounds, b)
  }

  /** What is known of a turn does not change as the run goes on. */
  lemma AllTimedLater(script: seq<seq<NicStep>>, trace: seq<Moment>, log: seq<Event>, rounds: seq<Round>,
                      trace': seq<Moment>, log': seq<Event>)
    requires |trace| <= |script| && Dated(trace, log) && AllTimed(script, trace, log, rounds)
    requires |trace'| <= |script| && Dated(trace', log') && trace <= trace' && log <= log'
    ensures AllTimed(script, trace', log', rounds)
  {
    forall b | 0 <= b < |rounds|
      ensures Timed(script, trace', log', rounds, b)
    {
      assert Timed(script, trace, log, rounds, b);
      TimedLater(script, trace, log, rounds, trace', log', b);
    }
  }

  lemma TimedLater(script: seq<seq<NicStep>>, trace: seq<Moment>, log: seq<Event>, rounds: seq<Round>,
                   trace': seq<Moment>, log': seq<Event>, b: nat)
    requires |trace| <= |script| && Dated(trace, log) && b < |rounds| && Timed(script, trace, log, rounds, b)
    requires |trace'| <= |script| && Dated(trace', log') && trace <= trace' && log <= log'
    ensures Timed(script, trace', log', rounds, b)
  {
    hide Replay, Crowded, LastLook, DoneBy;
    var r, a := rounds[b], Used(rounds[..b]);
    assert trace'[..a] == trace[..a] && trace'[..r.used] == trace[..r.used] && trace'[..r.heard] == trace[..r.heard];
    ReplayLater(script, trace, log, trace', log', a);
    ReplayLater(script, trace, log, trace', log', r.used);
    if r.timeout {
      LastLookLater(script, trace[..r.heard], log, r.consumed, r.looked, log');
    }
  }

  lemma TimedSnoc(script: seq<seq<NicStep>>, trace: seq<Moment>, log: seq<Event>, rounds: seq<Round>, r: Round)
    requires |trace| <= |script| && Dated(trace, log) && AllTimed(script, trace, log, rounds)
    requires Timed(script, trace, log, rounds + [r], |rounds|)
    ensures AllTimed(script, trace, log, rounds + [r])
  {
    forall b | 0 <= b < |rounds| + 1
      ensures Timed(script, trace, log, rounds + [r], b)
    {
      if b < |rounds| {
        assert Timed(script, trace, log, rounds, b);
        assert (rounds + [r])[..b] == rounds[..b];
      }
    }
  }
}
