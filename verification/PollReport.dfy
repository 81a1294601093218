/**
  What one poll of the completion queue may report, in terms of the completions it consumed and of the
  operations in the work queue slots that they name.
 */
module PollReports {
  import opened Rings

  /** `successStruct`. */
  datatype PollResult = PollResult(success: nat, op: nat, tid: nat, recvBufAddr: nat) {
    predicate IsMessage() {
      op == RMC_INCOMING_SEND || op == RMC_INCOMING_RESP
    }
  }

  /** Completions a..b are all plain: none is an incoming request or response. */
  ghost predicate PlainRange(posted: seq<Completion>, a: nat, b: int) {
    b <= |posted| && forall k :: a <= k < b ==> Plain(posted[k])
  }

  /** Completion k is that of a SABRE, by the operation in the slot it names. */
  predicate SabreAt(posted: seq<Completion>, k: nat, ops: seq<nat>)
    requires k < |posted|
  {
    Plain(posted[k]) && posted[k].tid < |ops| && ops[posted[k].tid] == RMC_SABRE
  }

  /** The verdict read for completion k can be v: its own, or that of the entry one lap later. */
  predicate MaybeVerdict(posted: seq<Completion>, k: nat, v: nat)
    requires k < |posted|
  {
    posted[k].success == v || (k + MAX_NUM_WQ < |posted| && posted[k + MAX_NUM_WQ].success == v)
  }

  /** The verdict read for completion k need not be an abort. */
  predicate MaybeSuccess(posted: seq<Completion>, k: nat)
    requires k < |posted|
  {
    posted[k].success != 0 || (k + MAX_NUM_WQ < |posted| && posted[k + MAX_NUM_WQ].success != 0)
  }

  /** The last SABRE among completions from..to; -1 if there is none. */
  function LastSabre(posted: seq<Completion>, from: nat, to: nat, ops: seq<nat>): (k: int)
    requires from <= to <= |posted|
    ensures k == -1 || (from <= k < to && SabreAt(posted, k, ops))
    ensures forall j :: from <= j < to && j > k ==> !SabreAt(posted, j, ops)
  {
    if to == from then -1
    else if SabreAt(posted, to - 1, ops) then to - 1
    else LastSabre(posted, from, to - 1, ops)
  }

  /** What a poll reports, in terms of the completions it consumed, numbered from..to. */
  ghost predicate Reports(ret: PollResult, posted: seq<Completion>, from: nat, to: nat, ops: seq<nat>) {
    && from <= to <= |posted|
    && (if ret.IsMessage() then
          // the record is the entry posted last, and the first of its kind
          && from < to
          && PlainRange(posted, from, to - 1)
          && posted[to - 1].success == (if ret.op == RMC_INCOMING_SEND then INCOMING_REQUEST else 1)
          && posted[to - 1].tid == ret.tid && posted[to - 1].recvBufAddr == ret.recvBufAddr
        else
          // the operation tells whether the last completion was that of a SABRE
          && PlainRange(posted, from, to)
          && ret.op == (if from == to then 42 else if SabreAt(posted, to - 1, ops) then RMC_SABRE else 0)
          && (ret.success == 0 ==> from < to && SabreAt(posted, to - 1, ops) && ret.tid == posted[to - 1].tid))
    // the success code is the verdict of the last SABRE, and no earlier one was seen aborted
    && var last := LastSabre(posted, from, to, ops);
    && (if last < 0 then ret.success == 1 else MaybeVerdict(posted, last, ret.success))
    && (forall k :: from <= k < to - 1 && SabreAt(posted, k, ops) ==> MaybeSuccess(posted, k))
  }

  lemma {:induction false} LastSabreLater(posted: seq<Completion>, more: seq<Completion>, from: nat, to: nat,
                                          ops: seq<nat>)
    requires from <= to <= |posted| && posted <= more
    ensures LastSabre(more, from, to, ops) == LastSabre(posted, from, to, ops)
  {
    if from < to {
      LastSabreLater(posted, more, from, to - 1, ops);
    }
  }

  /** The NIC may have posted more by now; a poll without a message has consumed plain completions. */
  lemma ReportsLater(ret: PollResult, posted: seq<Completion>, more: seq<Completion>, from: nat, to: nat, ops: seq<nat>)
    requires Reports(ret, posted, from, to, ops) && posted <= more
    ensures Reports(ret, more, from, to, ops) && PlainRange(more, from, to - 1)
    ensures !ret.IsMessage() ==> PlainRange(more, from, to)
  {
    LastSabreLater(posted, more, from, to, ops);
    forall k | from <= k < to - 1 && SabreAt(more, k, ops)
      ensures MaybeSuccess(more, k)
    {
      assert SabreAt(posted, k, ops);
    }
  }

  /** How a poll begins: nothing is consumed. */
  lemma ReportsNothing(ret: PollResult, posted: seq<Completion>, from: nat, ops: seq<nat>)
    requires from <= |posted| && ret.success == 1 && ret.op == RMC_INVAL
    ensures Reports(ret, posted, from, from, ops)
  {
  }

  /** A message ends the poll. */
  lemma ReportsMessage(before: PollResult, posted: seq<Completion>, from: nat, to: nat, ops: seq<nat>, ret: PollResult)
    requires Reports(before, posted, from, to, ops) && !before.IsMessage() && before.success != 0
    requires to < |posted| && !Plain(posted[to]) && ret.success == before.success
    requires ret.op == if posted[to].success == INCOMING_REQUEST then RMC_INCOMING_SEND else RMC_INCOMING_RESP
    requires ret.tid == posted[to].tid && ret.recvBufAddr == posted[to].recvBufAddr
    ensures Reports(ret, posted, from, to + 1, ops) && PlainRange(posted, from, to)
  {
  }

  /** A plain completion: the operation in the slot it names decides what is reported. */
  lemma ReportsPlain(before: PollResult, posted: seq<Completion>, from: nat, to: nat, ops: seq<nat>, ret: PollResult)
    requires Reports(before, posted, from, to, ops) && !before.IsMessage() && before.success != 0
    requires to < |posted| && Plain(posted[to])
    requires if SabreAt(posted, to, ops) then
               && MaybeVerdict(posted, to, ret.success) && ret.op == RMC_SABRE
               && (ret.success == 0 ==> ret.tid == posted[to].tid)
             else
               ret == before.(op := 0)
    ensures Reports(ret, posted, from, to + 1, ops) && PlainRange(posted, from, to)
  {
  }

  /** Without SABREs the success code stays 1. */
  lemma NoSabreNoAbort(ret: PollResult, posted: seq<Completion>, from: nat, to: nat, ops: seq<nat>)
    requires Reports(ret, posted, from, to, ops) && forall s :: 0 <= s < |ops| ==> ops[s] != RMC_SABRE
    ensures ret.success == 1
  {
  }
}
