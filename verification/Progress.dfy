/**
  How soon. A run that stops has used up its schedule; these lemmas bound the bursts it can have used
  while a request was left unanswered, or after it was told to leave, by the work it did in them.
 */
module Progress {
  import opened Rings
  import opened Traffic
  import opened Schedules
  import opened Rounds

  /** The turn that was under way when the run ended, or the one that was told to leave. */
  ghost predicate LastTurn(script: seq<seq<NicStep>>, trace: seq<Moment>, log: seq<Event>, consumed: nat,
                           rounds: seq<Round>, polls: nat, stopped: bool) {
    var a := Used(rounds);
    && a <= |trace| && Consumed(rounds) <= consumed && Logged(rounds) <= |log| && 1 <= polls <= 500
    // with the flag up beforehand there is one poll and nothing is answered
    && (DoneBy(script, a) ==> polls == 1 && |log| == Logged(rounds))
    && |trace| - a + (if stopped then 1 else 0) <=
         TurnCost(polls, consumed - Consumed(rounds), |log| - Logged(rounds), JamsBetween(trace, a, |trace|))
         + (if stopped && !DoneBy(script, a) then 10 else 0)
  }

  /** After h turns, when `used` bursts were used, the next turn had begun and not yet ended. */
  ghost predicate InTurnAfter(rounds: seq<Round>, h: nat, used: nat) {
    h <= |rounds| && Used(rounds[..h]) <= used && (h < |rounds| ==> used <= rounds[h].used)
  }

  /** The bursts that the work done since turn h began accounts for: completions consumed, events logged,
      and bursts at which the head slot was not free. */
  ghost function WorkSince(trace: seq<Moment>, log: seq<Event>, consumed: nat, rounds: seq<Round>, h: nat): int
    requires h <= |rounds| && Used(rounds[..h]) <= |trace|
  {
    8 * (consumed - Consumed(rounds[..h])) + 10 * (|log| - Logged(rounds[..h]))
    + 6 * JamsBetween(trace, Used(rounds[..h]), |trace|)
  }

  lemma {:induction false} Pace(script: seq<seq<NicStep>>, trace: seq<Moment>, log: seq<Event>, rounds: seq<Round>,
                                a: nat, b: nat)
    requires |trace| <= |script| && Dated(trace, log) && AllTimed(script, trace, log, rounds)
    requires a <= b <= |rounds|
    ensures Used(rounds[..a]) <= Used(rounds[..b]) <= |trace| && Consumed(rounds[..a]) <= Consumed(rounds[..b])
    ensures Logged(rounds[..a]) <= Logged(rounds[..b]) <= |log|
    ensures Used(rounds[..b]) - Used(rounds[..a]) <=
            3501 * (b - a) + 8 * (Consumed(rounds[..b]) - Consumed(rounds[..a]))
            + 10 * (Logged(rounds[..b]) - Logged(rounds[..a]))
            + 6 * JamsBetween(trace, Used(rounds[..a]), Used(rounds[..b]))
    decreases b
  {
    hide Replay, Crowded, LastLook, DoneBy, Used, Consumed, Logged;
    if a < b {
      Pace(script, trace, log, rounds, a, b - 1);
      assert Timed(script, trace, log, rounds, b - 1);
      ServedNext(rounds, b - 1);
    } else if b > 0 {
      assert Timed(script, trace, log, rounds, b - 1);
      ServedNext(rounds, b - 1);
    } else {
      NothingYet(rounds);
    }
  }

  lemma NothingYet(rounds: seq<Round>)
    ensures Used(rounds[..0]) == Consumed(rounds[..0]) == Logged(rounds[..0]) == 0
    ensures Served(rounds[..0]) == Pending(rounds[..0]) == 0
  {
  }

  // ---------------------------------------------------------------- how many turns

  /** The turns a..b that brought a request. */
  function Packets(rounds: seq<Round>, a: nat, b: nat): nat
    requires a <= b <= |rounds|
  {
    if a == b then 0 else Packets(rounds, a, b - 1) + (if rounds[b - 1].timeout then 0 else 1)
  }

  /** No more requests than completions. */
  lemma {:induction false} RequestsAmong(s: seq<Completion>, a: nat, b: nat)
    requires a <= b <= |s|
    ensures |Requests(s[..b])| <= |Requests(s[..a])| + (b - a)
  {
    if a < b {
      RequestsAmong(s, a, b - 1);
      RequestsSnoc(s, b - 1);
    }
  }

  /** What a loop head says about completions: all that was consumed had been posted, at most a lap more
      was, and the requests consumed are those answered and those waiting. */
  ghost predicate AtHead(script: seq<seq<NicStep>>, trace: seq<Moment>, log: seq<Event>, rounds: seq<Round>, h: nat,
                         posted: seq<Completion>)
    requires |trace| <= |script| && Dated(trace, log)
  {
    && h <= |rounds| && Used(rounds[..h]) <= |trace|
    && var there := Replay(script, trace, log, Used(rounds[..h])).posted;
    && Consumed(rounds[..h]) <= |there| <= Consumed(rounds[..h]) + MAX_NUM_WQ && there <= posted
    && |Requests(posted[..Consumed(rounds[..h])])| == Served(rounds[..h]) + Pending(rounds[..h])
  }

  /** A run as its record: timed, delivered and according to the batching policy. */
  ghost predicate Recorded(cfg: Config, script: seq<seq<NicStep>>, trace: seq<Moment>, log: seq<Event>,
                           rounds: seq<Round>, posted: seq<Completion>) {
    && |trace| <= |script| && Dated(trace, log) && AllTimed(script, trace, log, rounds)
    && GoodRounds(cfg, rounds) && Delivered(rounds, posted) && cfg.batchSize >= 1
    && posted == Replay(script, trace, log, |trace|).posted
  }

  lemma HeadFacts(cfg: Config, script: seq<seq<NicStep>>, trace: seq<Moment>, log: seq<Event>, rounds: seq<Round>,
                  h: nat, posted: seq<Completion>)
    requires Recorded(cfg, script, trace, log, rounds, posted) && h <= |rounds|
    ensures AtHead(script, trace, log, rounds, h, posted) && Pending(rounds[..h]) < cfg.batchSize
  {
    hide Crowded, LastLook, DoneBy, Requests, Replay;
    Pace(script, trace, log, rounds, h, h);
    PostedGrows(script, trace, log, Used(rounds[..h]), |trace|);
    if h == 0 {
      NothingYet(rounds);
      NothingReplayed(script, trace, log);
      NoRequests(posted);
    } else {
      assert Timed(script, trace, log, rounds, h - 1) && Delivers(rounds, h - 1, posted);
      assert GoodRound(cfg, Served(rounds[..h - 1]), Pending(rounds[..h - 1]), rounds[h - 1]);
      ServedNext(rounds, h - 1);
    }
  }

  lemma NothingReplayed(script: seq<seq<NicStep>>, trace: seq<Moment>, log: seq<Event>)
    requires Dated(trace, log)
    ensures Replay(script, trace, log, 0) == Sight([], [], map[], false)
  {
  }

  lemma NoRequests(posted: seq<Completion>)
    ensures Requests(posted[..0]) == []
  {
  }

  /** While a request that was there when turn a began stays unanswered, at most one turn times out, and
      every other turn brings a request. */
  lemma {:induction false} FewTimeouts(cfg: Config, script: seq<seq<NicStep>>, trace: seq<Moment>, log: seq<Event>,
                                       rounds: seq<Round>, posted: seq<Completion>, a: nat, b: nat, k: nat)
    requires Recorded(cfg, script, trace, log, rounds, posted) && a <= b <= |rounds|
    requires AtHead(script, trace, log, rounds, a, posted)
    requires k < |Requests(Replay(script, trace, log, Used(rounds[..a])).posted)| && Served(rounds[..b]) <= k
    ensures Served(rounds[..b]) + Pending(rounds[..b]) ==
            Served(rounds[..a]) + Pending(rounds[..a]) + Packets(rounds, a, b)
    ensures b - a - Packets(rounds, a, b) <= 1
    ensures b - a - Packets(rounds, a, b) == 1 ==> Consumed(rounds[..b]) >= Consumed(rounds[..a]) + 500
    decreases b
  {
    hide Crowded, LastLook, DoneBy, Requests, Replay, Used, Consumed, Served, Pending, Logged;
    if a < b {
      var r := rounds[b - 1];
      ServedNext(rounds, b - 1);
      FewTimeouts(cfg, script, trace, log, rounds, posted, a, b - 1, k);
      Pace(script, trace, log, rounds, a, b - 1);
      assert Timed(script, trace, log, rounds, b - 1) && Delivers(rounds, b - 1, posted);
      assert GoodRound(cfg, Served(rounds[..b - 1]), Pending(rounds[..b - 1]), r);
      if r.timeout {
        StillThere(cfg, script, trace, log, rounds, posted, a, b - 1, k);
      }
    }
  }

  /** If a turn times out and that request is still unanswered, it is not consumed: the turn took one
      completion a poll instead. */
  lemma StillThere(cfg: Config, script: seq<seq<NicStep>>, trace: seq<Moment>, log: seq<Event>, rounds: seq<Round>,
                   posted: seq<Completion>, a: nat, b: nat, k: nat)
    requires Recorded(cfg, script, trace, log, rounds, posted) && a <= b < |rounds| && rounds[b].timeout
    requires AtHead(script, trace, log, rounds, a, posted)
    requires k < |Requests(Replay(script, trace, log, Used(rounds[..a])).posted)| && Served(rounds[..b + 1]) <= k
    ensures rounds[b].consumed < |Replay(script, trace, log, Used(rounds[..a])).posted|
    ensures rounds[b].consumed >= Consumed(rounds[..b]) + 500
  {
    hide Crowded, LastLook, DoneBy, Requests, Replay;
    var there := Replay(script, trace, log, Used(rounds[..a])).posted;
    assert Timed(script, trace, log, rounds, b) && Delivers(rounds, b, posted);
    assert GoodRound(cfg, Served(rounds[..b]), Pending(rounds[..b]), rounds[b]);
    assert posted[..|there|] == there;
    if rounds[b].consumed >= |there| {
      RequestsGrow(posted, |there|, rounds[b].consumed);
    }
    Pace(script, trace, log, rounds, a, b);
    PostedGrows(script, trace, log, Used(rounds[..a]), Used(rounds[..b]));
  }

  /** So it is answered within so many turns. */
  lemma UnansweredTurns(cfg: Config, script: seq<seq<NicStep>>, trace: seq<Moment>, log: seq<Event>,
                        rounds: seq<Round>, posted: seq<Completion>, a: nat, b: nat, k: nat)
    requires Recorded(cfg, script, trace, log, rounds, posted) && a <= b <= |rounds| && Used(rounds[..a]) <= |trace|
    requires k < |Requests(Replay(script, trace, log, Used(rounds[..a])).posted)| && Served(rounds[..b]) <= k
    ensures b - a <= MAX_NUM_WQ - 1 + cfg.batchSize
  {
    hide Crowded, LastLook, DoneBy, Requests, Replay, AllTimed, GoodRounds, Delivered;
    HeadFacts(cfg, script, trace, log, rounds, a, posted);
    HeadFacts(cfg, script, trace, log, rounds, b, posted);
    FewTimeouts(cfg, script, trace, log, rounds, posted, a, b, k);
    var there := Replay(script, trace, log, Used(rounds[..a])).posted;
    assert posted[..|there|] == there;
    RequestsAmong(posted, Consumed(rounds[..a]), |there|);
  }

  /** A timeout leaves nothing behind: whatever had been posted when the last poll began is answered, unless
      that poll was kept busy and left some of it in the queue. */
  lemma TimeoutLeavesNothing(cfg: Config, script: seq<seq<NicStep>>, trace: seq<Moment>, log: seq<Event>,
                             rounds: seq<Round>, posted: seq<Completion>, b: nat)
    requires Recorded(cfg, script, trace, log, rounds, posted) && b < |rounds| && rounds[b].timeout
    ensures rounds[b].looked < |trace|
    ensures var there := Replay(script, trace, log, rounds[b].looked).posted;
            |there| <= rounds[b].consumed ==> |Requests(there)| <= Served(rounds[..b + 1])
  {
    hide Crowded, DoneBy, Requests, Replay;
    var r := rounds[b];
    assert Timed(script, trace, log, rounds, b) && Delivers(rounds, b, posted);
    assert GoodRound(cfg, Served(rounds[..b]), Pending(rounds[..b]), r);
    var there := Replay(script, trace, log, r.looked).posted;
    PostedGrows(script, trace, log, r.looked, |trace|);
    if |there| <= r.consumed {
      RequestsOfMore(there, posted[..r.consumed]);
    }
  }

  // ---------------------------------------------------------------- in bursts

  /** Request k was posted within the first `used` bursts, and its reply is not in the log. */
  ghost predicate Unanswered(script: seq<seq<NicStep>>, trace: seq<Moment>, log: seq<Event>, used: nat, k: nat)
    requires used <= |trace| <= |script| && Dated(trace, log)
  {
    k < |Requests(Replay(script, trace, log, used).posted)| && |log| <= 2 * k
  }

  /** A request that was posted within the first `used` bursts and is not answered at the end: the run has
      not used many bursts since. */
  ghost predicate AnsweredInTime(cfg: Config, script: seq<seq<NicStep>>, trace: seq<Moment>, log: seq<Event>,
                                 consumed: nat, rounds: seq<Round>, stopped: bool)
    requires |trace| <= |script| && Dated(trace, log)
  {
    forall used: nat, h: nat, k: nat ::
      used <= |trace| && InTurnAfter(rounds, h, used) && Unanswered(script, trace, log, used, k) ==>
        |trace| - used + (if stopped then 1 else 0) <=
        3501 * (513 + cfg.batchSize) + 10 + WorkSince(trace, log, consumed, rounds, h)
  }

  /** Once the flag is up: the same, until the run is over. */
  ghost predicate LeavesInTime(script: seq<seq<NicStep>>, trace: seq<Moment>, log: seq<Event>,
                               consumed: nat, rounds: seq<Round>, stopped: bool)
    requires |trace| <= |script| && Dated(trace, log)
  {
    forall used: nat, h: nat ::
      used <= |trace| && InTurnAfter(rounds, h, used) && DoneBy(script, used) ==>
        && h + 1 >= |rounds|
        && |trace| - used + (if stopped then 1 else 0) <= 3519 + WorkSince(trace, log, consumed, rounds, h)
  }

  /** The time since turn h began. */
  lemma SinceHead(script: seq<seq<NicStep>>, trace: seq<Moment>, log: seq<Event>, consumed: nat,
                  rounds: seq<Round>, polls: nat, stopped: bool, h: nat)
    requires |trace| <= |script| && Dated(trace, log) && AllTimed(script, trace, log, rounds) && h <= |rounds|
    requires LastTurn(script, trace, log, consumed, rounds, polls, stopped)
    ensures Used(rounds[..h]) <= |trace|
    ensures |trace| - Used(rounds[..h]) + (if stopped then 1 else 0) <=
            3501 * (|rounds| - h) + 7 * polls + 1 + (if stopped && !DoneBy(script, Used(rounds)) then 10 else 0)
            + WorkSince(trace, log, consumed, rounds, h)
  {
    hide Replay, Crowded, LastLook, DoneBy, AllTimed;
    Pace(script, trace, log, rounds, h, |rounds|);
    assert rounds[..|rounds|] == rounds;
  }

  lemma AnswersInTime(cfg: Config, script: seq<seq<NicStep>>, trace: seq<Moment>, log: seq<Event>, consumed: nat,
                      rounds: seq<Round>, posted: seq<Completion>, polls: nat, stopped: bool)
    requires Recorded(cfg, script, trace, log, rounds, posted) && 2 * Served(rounds) <= |log|
    requires LastTurn(script, trace, log, consumed, rounds, polls, stopped)
    ensures AnsweredInTime(cfg, script, trace, log, consumed, rounds, stopped)
  {
    hide Replay, Crowded, LastLook, DoneBy, AllTimed, WorkSince, GoodRounds, Delivered, Requests;
    forall used: nat, h: nat, k: nat |
      used <= |trace| && InTurnAfter(rounds, h, used) && Unanswered(script, trace, log, used, k)
      ensures |trace| - used + (if stopped then 1 else 0) <=
              3501 * (513 + cfg.batchSize) + 10 + WorkSince(trace, log, consumed, rounds, h)
    {
      SinceHead(script, trace, log, consumed, rounds, polls, stopped, h);
      assert rounds[..|rounds|] == rounds;
      if h < |rounds| {
        ServedNext(rounds, h);
        Pace(script, trace, log, rounds, h + 1, |rounds|);
        PostedGrows(script, trace, log, used, Used(rounds[..h + 1]));
        RequestsOfMore(Replay(script, trace, log, used).posted,
                       Replay(script, trace, log, Used(rounds[..h + 1])).posted);
        UnansweredTurns(cfg, script, trace, log, rounds, posted, h + 1, |rounds|, k);
      }
    }
  }

  lemma RequestsOfMore(s: seq<Completion>, more: seq<Completion>)
    requires s <= more
    ensures |Requests(s)| <= |Requests(more)|
  {
    RequestsGrow(more, |s|, |more|);
    assert more[..|s|] == s && more[..|more|] == more;
  }

  /** The flag was down when a finished turn began. */
  lemma FlagDown(script: seq<seq<NicStep>>, trace: seq<Moment>, log: seq<Event>, rounds: seq<Round>, h: nat, used: nat)
    requires |trace| <= |script| && Dated(trace, log) && h < |rounds| && Timed(script, trace, log, rounds, h)
    requires used <= Used(rounds[..h])
    ensures !DoneBy(script, used)
  {
    hide Replay, Crowded, LastLook;
  }

  lemma LeaveInTime(cfg: Config, script: seq<seq<NicStep>>, trace: seq<Moment>, log: seq<Event>, consumed: nat,
                    rounds: seq<Round>, posted: seq<Completion>, polls: nat, stopped: bool)
    requires Recorded(cfg, script, trace, log, rounds, posted)
    requires LastTurn(script, trace, log, consumed, rounds, polls, stopped)
    ensures LeavesInTime(script, trace, log, consumed, rounds, stopped)
  {
    hide Replay, Crowded, LastLook, WorkSince, GoodRounds, Delivered, Requests;
    forall used: nat, h: nat | used <= |trace| && InTurnAfter(rounds, h, used) && DoneBy(script, used)
      ensures h + 1 >= |rounds|
      ensures |trace| - used + (if stopped then 1 else 0) <= 3519 + WorkSince(trace, log, consumed, rounds, h)
    {
      SinceHead(script, trace, log, consumed, rounds, polls, stopped, h);
      assert rounds[..|rounds|] == rounds;
      if h < |rounds| {
        ServedNext(rounds, h);
        if h + 1 < |rounds| {
          FlagDown(script, trace, log, rounds, h + 1, used);
        }
      }
    }
  }

  // ---------------------------------------------------------------- from the schedule alone

  lemma {:induction false} NoJams(trace: seq<Moment>)
    requires forall t :: 0 <= t < |trace| ==> trace[t].room
    ensures Crowded(trace) == 0
  {
    if trace != [] {
      NoJams(trace[..|trace| - 1]);
    }
  }

  /** Every request posted by then is answered. */
  ghost predicate AllAnsweredBy(script: seq<seq<NicStep>>, trace: seq<Moment>, log: seq<Event>, used: nat)
    requires used <= |trace| <= |script| && Dated(trace, log)
  {
    forall k: nat :: !Unanswered(script, trace, log, used, k)
  }

  /** Every request is answered that was posted so many bursts before the end. */
  ghost predicate AnsweredButLately(cfg: Config, script: seq<seq<NicStep>>, trace: seq<Moment>, log: seq<Event>)
    requires |trace| <= |script| && Dated(trace, log)
  {
    forall used: nat :: used + 3501 * (513 + cfg.batchSize) + 10 + 28 * 255 <= |trace| ==>
      AllAnsweredBy(script, trace, log, used)
  }

  /** A schedule that offers at most 255 completions in all, and goes on for long enough, gets every request
      answered, whatever it does otherwise; the work queue cannot fill up. */
  lemma SmallScheduleAnswered(cfg: Config, script: seq<seq<NicStep>>, trace: seq<Moment>, log: seq<Event>,
                              consumed: nat, rounds: seq<Round>, posted: seq<Completion>, used: nat)
    requires Recorded(cfg, script, trace, log, rounds, posted) && |trace| == |script|
    requires AnsweredInTime(cfg, script, trace, log, consumed, rounds, true)
    requires |log| <= 2 * consumed <= 2 * |posted|
    requires |PostsOf(log)| < MAX_NUM_WQ ==> Crowded(trace) == 0
    requires |AllOffered(script, |script|)| <= 255 && used + 3501 * (513 + cfg.batchSize) + 10 + 28 * 255 <= |script|
    ensures AllAnsweredBy(script, trace, log, used)
  {
    hide Replay, AllTimed, GoodRounds, Delivered, Requests, PostsOf;
    EventCount(log);
    var h := FindTurn(rounds, used);
    PostedAtMost(script, trace, log, |trace|);
    Pace(script, trace, log, rounds, h, h);
    NotNegative(trace, Used(rounds[..h]));
  }

  /** Every moment lies in some turn. */
  lemma {:induction false} FindTurn(rounds: seq<Round>, used: nat) returns (h: nat)
    ensures InTurnAfter(rounds, h, used)
  {
    if rounds == [] || Used(rounds) <= used {
      h := |rounds|;
      assert rounds[..h] == rounds;
    } else {
      var n := |rounds| - 1;
      h := FindTurn(rounds[..n], used);
      assert rounds[..n][..h] == rounds[..h];
    }
  }

  lemma NotNegative(trace: seq<Moment>, a: nat)
    requires a <= |trace|
    ensures JamsBetween(trace, a, |trace|) <= Crowded(trace)
  {
    assert trace[..|trace|] == trace;
  }
}
