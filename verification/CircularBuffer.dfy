/**
  The flow-controlled circular buffer. A sender's copy tracks what it has written and what the
  receiver has freed with two indices and a flag; the abstract state behind them is a pair of
  counters that never wrap, `w` entries written and `f` entries freed.
 */
module CircularBuffer {
  import opened PhaseRing

  /** The part of the state that decides how much room there is. */
  datatype Cursor = Cursor(n: nat, tail: nat, sendersHead: nat, isFull: bool) {
    predicate Valid() {
      tail < n && sendersHead < n
    }

    predicate IsEmpty() {
      !isFull && sendersHead == tail
    }

    /** `getBufferSize` */
    function BufferSize(): nat
      requires Valid()
    {
      if !IsEmpty() then
        if tail >= sendersHead then tail - sendersHead else (n - sendersHead) + tail
      else n
    }

    /** `getAvailSlots` */
    function AvailSlots(): nat
      requires Valid()
    {
      if !IsEmpty() then n - BufferSize() else n
    }

    /** The effect of `incTail`. */
    function Wrote(): Cursor {
      var t := if tail + 1 >= n then 0 else tail + 1;
      this.(tail := t, isFull := isFull || t == sendersHead)
    }

    /** The effect of `incSendersHeadToFreeSpace`. */
    function Freed(inc: nat): Cursor {
      var h := if sendersHead + inc >= n then 0 else sendersHead + inc;
      this.(sendersHead := h, isFull := isFull && tail == h)
    }
  }

  /** The cursor stands for w entries written, f of them freed. */
  ghost predicate Refines(c: Cursor, w: nat, f: nat) {
    && c.n > 0
    && f <= w <= f + c.n
    && c.tail == Slot(w, c.n)
    && c.sendersHead == Slot(f, c.n)
    && (c.isFull <==> w == f + c.n)
  }

  lemma LapOn(k: nat, n: nat)
    requires n > 0
    ensures Slot(k + n, n) == Slot(k, n)
  {
    assert k == (k / n) * n + k % n;
    assert (k / n + 1) * n == (k / n) * n + n;
    DivModUnique(k + n, k / n + 1, k % n, n);
  }

  /** Writing is sound exactly when the buffer is not full. */
  lemma WriteExactly(c: Cursor, w: nat, f: nat)
    requires Refines(c, w, f)
    ensures Refines(c.Wrote(), w + 1, f) <==> !c.isFull
  {
    Advance(w, c.n);
    LapOn(f, c.n);
    if w + 1 < f + c.n && Slot(f, c.n) == Slot(w + 1, c.n) {
      SameSlot(f, w + 1, c.n);
    }
  }

  /** Where f lands after freeing `inc`, against the code's "past the end means 0". */
  lemma FreedSlot(f: nat, inc: nat, n: nat)
    requires n > 0 && inc <= n
    ensures Slot(f + inc, n) == (if Slot(f, n) + inc >= n then 0 else Slot(f, n) + inc) <==> Slot(f, n) + inc <= n
  {
    assert f == (f / n) * n + f % n;
    if f % n + inc < n {
      DivModUnique(f + inc, f / n, f % n + inc, n);
    } else {
      assert (f / n + 1) * n == (f / n) * n + n;
      DivModUnique(f + inc, f / n + 1, f % n + inc - n, n);
    }
  }

  /** Freeing is sound exactly when no more is freed than was written, the freed stretch does not
      run past the end of the ring, and it is not a full buffer freed whole. */
  lemma FreeExactly(c: Cursor, w: nat, f: nat, inc: nat)
    requires Refines(c, w, f)
    ensures Refines(c.Freed(inc), w, f + inc) <==> inc <= w - f && c.sendersHead + inc <= c.n && inc < c.n
  {
    hide Slot;
    LapOn(f, c.n);
    if inc <= w - f {
      FreedSlot(f, inc, c.n);
      if w < f + inc + c.n && Slot(f + inc, c.n) == Slot(w, c.n) {
        SameSlot(f + inc, w, c.n);
      }
    }
  }

  /** `getAvailSlots` is right in every state but the full one, where it reports an empty buffer;
      `getBufferSize` is right in every state but the full and the empty one. */
  lemma AvailExactly(c: Cursor, w: nat, f: nat)
    requires Refines(c, w, f)
    ensures c.AvailSlots() == c.n - (w - f) <==> !c.isFull
    ensures c.isFull ==> c.AvailSlots() == c.n
    ensures c.BufferSize() == w - f <==> 0 < w - f < c.n
    ensures c.BufferSize() == if w == f then c.n else if c.isFull then 0 else w - f
  {
    Laps(f, w, c.n);
    LapOn(f, c.n);
  }

  /** So the test "no slot free" that the writer makes can never succeed. */
  lemma NeverNoneFree(c: Cursor)
    requires c.Valid()
    ensures 0 < c.AvailSlots() <= c.n
  {
  }

  // ---------------------------------------------------------------- whole histories

  datatype Op = Write | Free(inc: nat)

  function Apply(c: Cursor, op: Op): Cursor {
    match op
    case Write => c.Wrote()
    case Free(inc) => c.Freed(inc)
  }

  function Run(n: nat, ops: seq<Op>): Cursor {
    if ops == [] then Cursor(n, 0, 0, false) else Apply(Run(n, ops[..|ops| - 1]), ops[|ops| - 1])
  }

  function Written(ops: seq<Op>): nat {
    if ops == [] then 0 else Written(ops[..|ops| - 1]) + (if ops[|ops| - 1].Write? then 1 else 0)
  }

  function FreedBy(ops: seq<Op>): nat {
    if ops == [] then 0 else FreedBy(ops[..|ops| - 1]) + (if ops[|ops| - 1].Free? then ops[|ops| - 1].inc else 0)
  }

  /** What a caller who keeps the two counters can check before each operation. */
  predicate Allowed(op: Op, n: nat, w: nat, f: nat)
    requires n > 0
  {
    match op
    case Write => w < f + n
    case Free(inc) => f + inc <= w && inc < n && f % n + inc <= n
  }

  predicate AllAllowed(n: nat, ops: seq<Op>)
    requires n > 0
  {
    forall k :: 0 <= k < |ops| ==> Allowed(ops[k], n, Written(ops[..k]), FreedBy(ops[..k]))
  }

  /** After every operation of the history the cursor stands for the counters. */
  ghost predicate RefinesThroughout(n: nat, ops: seq<Op>) {
    forall k :: 0 <= k <= |ops| ==> Refines(Run(n, ops[..k]), Written(ops[..k]), FreedBy(ops[..k]))
  }

  lemma StepExactly(n: nat, ops: seq<Op>, k: nat)
    requires n > 0 && k < |ops|
    requires Refines(Run(n, ops[..k]), Written(ops[..k]), FreedBy(ops[..k])) && Run(n, ops[..k]).n == n
    ensures Run(n, ops[..k + 1]).n == n
    ensures Refines(Run(n, ops[..k + 1]), Written(ops[..k + 1]), FreedBy(ops[..k + 1])) <==>
            Allowed(ops[k], n, Written(ops[..k]), FreedBy(ops[..k]))
  {
    assert ops[..k + 1][..k] == ops[..k];
    var c, w, f := Run(n, ops[..k]), Written(ops[..k]), FreedBy(ops[..k]);
    match ops[k]
    case Write => WriteExactly(c, w, f);
    case Free(inc) => FreeExactly(c, w, f, inc);
  }

  lemma {:induction false} RunKeepsSize(n: nat, ops: seq<Op>)
    ensures Run(n, ops).n == n
  {
    if ops != [] {
      RunKeepsSize(n, ops[..|ops| - 1]);
    }
  }

  /** The circular buffer refines the two counters through a whole history if and only if every
      operation was allowed when it was made. */
  lemma HistoryExactly(n: nat, ops: seq<Op>)
    requires n > 0
    ensures RefinesThroughout(n, ops) <==> AllAllowed(n, ops)
  {
    if RefinesThroughout(n, ops) {
      forall k | 0 <= k < |ops|
        ensures Allowed(ops[k], n, Written(ops[..k]), FreedBy(ops[..k]))
      {
        assert Refines(Run(n, ops[..k + 1]), Written(ops[..k + 1]), FreedBy(ops[..k + 1]));
        RunKeepsSize(n, ops[..k]);
        StepExactly(n, ops, k);
      }
    }
    if AllAllowed(n, ops) {
      forall k | 0 <= k <= |ops|
        ensures Refines(Run(n, ops[..k]), Written(ops[..k]), FreedBy(ops[..k]))
      {
        AllowedPrefix(n, ops, k);
      }
    }
  }

  lemma {:induction false} AllowedPrefix(n: nat, ops: seq<Op>, k: nat)
    requires n > 0 && AllAllowed(n, ops) && k <= |ops|
    ensures Refines(Run(n, ops[..k]), Written(ops[..k]), FreedBy(ops[..k])) && Run(n, ops[..k]).n == n
  {
    if k > 0 {
      AllowedPrefix(n, ops, k - 1);
      StepExactly(n, ops, k - 1);
    }
  }

  // ---------------------------------------------------------------- histories that go wrong

  function Writes(n: nat): (ops: seq<Op>)
    ensures |ops| == n
  {
    seq(n, _ => Write)
  }

  lemma {:induction false} WritesCount(n: nat)
    ensures Written(Writes(n)) == n && FreedBy(Writes(n)) == 0
  {
    if n > 0 {
      WritesCount(n - 1);
      assert Writes(n)[..n - 1] == Writes(n - 1);
    }
  }

  lemma WritesAllowed(n: nat)
    requires n > 0
    ensures AllAllowed(n, Writes(n))
  {
    forall k | 0 <= k < n
      ensures Allowed(Writes(n)[k], n, Written(Writes(n)[..k]), FreedBy(Writes(n)[..k]))
    {
      assert Writes(n)[..k] == Writes(k);
      WritesCount(k);
    }
  }

  /** One more operation on an allowed history: what the counters and the cursor are afterwards. */
  lemma AllowedNext(n: nat, ops: seq<Op>, op: Op)
    requires n > 0 && AllAllowed(n, ops)
    ensures Refines(Run(n, ops), Written(ops), FreedBy(ops)) && Run(n, ops).n == n
    ensures Run(n, ops + [op]) == Apply(Run(n, ops), op)
    ensures Written(ops + [op]) == Written(ops) + (if op.Write? then 1 else 0)
    ensures FreedBy(ops + [op]) == FreedBy(ops) + (if op.Free? then op.inc else 0)
    ensures AllAllowed(n, ops + [op]) <==> Allowed(op, n, Written(ops), FreedBy(ops))
  {
    var more := ops + [op];
    assert ops[..|ops|] == ops && more[..|ops|] == ops && more[|ops|] == op;
    AllowedPrefix(n, ops, |ops|);
    forall k | 0 <= k < |ops|
      ensures Allowed(more[k], n, Written(more[..k]), FreedBy(more[..k]))
    {
      assert more[..k] == ops[..k];
      assert Allowed(ops[k], n, Written(ops[..k]), FreedBy(ops[..k]));
    }
  }

  /** Every buffer can be filled, by allowed writes, and then reports all of its slots as free. */
  lemma FullBuffer(n: nat)
    requires n > 0
    ensures AllAllowed(n, Writes(n))
    ensures var c := Run(n, Writes(n)); c.Valid() && c.isFull && c.AvailSlots() == n
  {
    WritesAllowed(n);
    WritesCount(n);
    AllowedNext(n, Writes(n), Write);
    AvailExactly(Run(n, Writes(n)), n, 0);
  }

  /** A full buffer freed all at once: everything written is freed and the buffer still says full. */
  lemma FreeAllFails(n: nat)
    requires n > 0
    ensures AllAllowed(n, Writes(n))
    ensures var ops := Writes(n) + [Free(n)];
            Written(ops) == FreedBy(ops) && Run(n, ops).isFull && !RefinesThroughout(n, ops)
  {
    FullBuffer(n);
    WritesCount(n);
    AllowedNext(n, Writes(n), Free(n));
    HistoryExactly(n, Writes(n) + [Free(n)]);
    DivModUnique(0, 0, 0, n);
    DivModUnique(n, 1, 0, n);
  }

  /** n writes, all but one entry freed, one write more: two entries are held, across the end. */
  function AcrossTheEnd(n: nat): seq<Op>
    requires n > 0
  {
    Writes(n) + [Free(n - 1)] + [Write]
  }

  lemma HeldAcrossTheEnd(n: nat)
    requires n >= 2
    ensures AllAllowed(n, AcrossTheEnd(n)) && Run(n, AcrossTheEnd(n)) == Cursor(n, 1, n - 1, n == 2)
    ensures Written(AcrossTheEnd(n)) == n + 1 && FreedBy(AcrossTheEnd(n)) == n - 1
  {
    hide AllAllowed, Written, FreedBy, Run;
    var one := Writes(n) + [Free(n - 1)];
    FullBuffer(n);
    WritesCount(n);
    DivModUnique(0, 0, 0, n);
    DivModUnique(n, 1, 0, n);
    AllowedNext(n, Writes(n), Free(n - 1));
    DivModUnique(n - 1, 0, n - 1, n);
    AllowedNext(n, one, Write);
  }

  /** Both are freed, which runs past the end: everything written is freed and one entry still shows. */
  lemma FreePastEndFails(n: nat)
    requires n >= 3
    ensures AllAllowed(n, AcrossTheEnd(n))
    ensures var ops := AcrossTheEnd(n) + [Free(2)]; var c := Run(n, ops);
            Written(ops) == FreedBy(ops) && c.Valid() && c.BufferSize() == 1 && !RefinesThroughout(n, ops)
  {
    hide AllAllowed, Written, FreedBy, Run, RefinesThroughout, AcrossTheEnd;
    HeldAcrossTheEnd(n);
    AllowedNext(n, AcrossTheEnd(n), Free(2));
    DivModUnique(n - 1, 0, n - 1, n);
    HistoryExactly(n, AcrossTheEnd(n) + [Free(2)]);
  }

  // ---------------------------------------------------------------- the class

  class CircularReceiveBuffer {
    const basePointer: nat
    const entryByteSize: nat
    const numEntries: nat
    const isSender: bool
    var head: nat
    var tail: nat
    var sendersHead: nat
    var isFull: bool
    var bufferSr: bool
    const srVector: array<bool>

    ghost predicate Valid()
      reads this
    {
      head < numEntries && tail < numEntries && sendersHead < numEntries == srVector.Length
    }

    function View(): Cursor
      reads this
    {
      Cursor(numEntries, tail, sendersHead, isFull)
    }

    /** After w writes made in the writer's order: the slots below the tail carry the buffer's own
        phase bit, the others its negation. */
    ghost predicate Phased(w: nat)
      reads this, srVector
    {
      && Valid()
      && tail == Slot(w, numEntries)
      && bufferSr == Sense(false, w, numEntries)
      && forall i :: 0 <= i < numEntries ==> srVector[i] == SlotSense(false, i, w, numEntries)
    }

    constructor (base: nat, size: nat, entries: nat, senderCopy: bool)
      requires entries > 0
      ensures Phased(0) && Refines(View(), 0, 0) && head == 0 && fresh(srVector)
      ensures basePointer == base && entryByteSize == size && numEntries == entries && isSender == senderCopy
    {
      basePointer, entryByteSize, numEntries, isSender := base, size, entries, senderCopy;
      head, tail, sendersHead, isFull, bufferSr := 0, 0, 0, false, false;
      srVector := new bool[entries](_ => true);
      new;
      DivModUnique(0, 0, 0, entries);
    }

    /** `writeSRMetadata` */
    method WriteSRMetadata(entry: nat)
      requires Valid() && entry < numEntries
      modifies srVector
      ensures srVector[..] == old(srVector[..])[entry := bufferSr]
    {
      srVector[entry] := bufferSr;
    }

    /** `incTail`; the result tells whether both of its assertions held. */
    method IncTail() returns (asserted: bool)
      requires Valid()
      modifies this`tail, this`bufferSr, this`isFull
      ensures Valid() && View() == if isSender then old(View()).Wrote() else old(View())
      ensures bufferSr == if isSender && tail == 0 then !old(bufferSr) else old(bufferSr)
      ensures asserted <==> isSender && srVector[tail] != bufferSr
    {
      if !isSender {
        return false;
      }
      tail := tail + 1;
      if tail >= numEntries {
        tail := 0;
        bufferSr := !bufferSr;
      }
      if tail == sendersHead {
        isFull := true;
      }
      return srVector[tail] != bufferSr;
    }

    /** The writer's order, phase bit first and then `incTail`: on a sender's copy the assertion at
        the end of `incTail` holds, on every lap, for every number of entries. */
    method AppendEntry(ghost w: nat) returns (asserted: bool)
      requires Phased(w) && isSender
      modifies srVector, this`tail, this`bufferSr, this`isFull
      ensures asserted && Phased(w + 1) && View() == old(View()).Wrote()
    {
      AdvanceSense(false, w, numEntries);
      forall i | 0 <= i < numEntries
        ensures SlotSense(false, i, w + 1, numEntries) ==
                if i == tail then bufferSr else srVector[i]
      {
        WriteNext(false, i, w, numEntries);
      }
      WriteSRMetadata(tail);
      asserted := IncTail();
      PendingExactly(false, w + 1, w + 1, numEntries);
    }

    /** `incSendersHeadToFreeSpace`; the result tells whether its assertion held. */
    method IncSendersHeadToFreeSpace(inc: nat) returns (asserted: bool)
      requires Valid()
      modifies this`sendersHead, this`isFull
      ensures Valid() && View() == if isSender then old(View()).Freed(inc) else old(View())
      ensures asserted == isSender
    {
      if !isSender {
        return false;
      }
      sendersHead := sendersHead + inc;
      if sendersHead >= numEntries {
        sendersHead := 0;
      }
      if tail != sendersHead {
        isFull := false;
      }
      return true;
    }

    /** `zeroEntryNumber`: exactly the bytes of that entry become 0. */
    method ZeroEntryNumber(mem: array<nat>, index: nat)
      requires basePointer + index * entryByteSize + entryByteSize <= mem.Length
      modifies mem
      ensures forall a :: 0 <= a < mem.Length ==>
                mem[a] == if 0 <= a - (basePointer + index * entryByteSize) < entryByteSize then 0 else old(mem[a])
    {
      var offset := index * entryByteSize;
      var i := 0;
      while i < entryByteSize
        invariant i <= entryByteSize
        invariant forall a :: 0 <= a < mem.Length ==>
                    mem[a] == if basePointer + offset <= a < basePointer + offset + i then 0 else old(mem[a])
      {
        mem[basePointer + offset + i] := 0;
        i := i + 1;
      }
    }
  }
}
