/**
  Which circular buffer belongs to which (server thread, client, client thread), and which bytes of
  the shared context belong to which buffer and entry.
 */
module Layout {
  import opened PhaseRing
  import opened Traffic
  import opened CircularBuffer

  const UINT32: nat := 0x1_0000_0000
  const UINT64: nat := 0x1_0000_0000_0000_0000
  const EMULATOR_SW_PAGE_SIZE: nat := 8192

  // ---------------------------------------------------------------- buffer numbers

  /** `getCBufIdx` in the source's own 32- and 64-bit unsigned arithmetic. */
  function CBufIdx(totalNodeCount: nat, threadsPerClient: nat, clNid: nat, clTid: nat, srThread: nat): nat {
    BufferOf((totalNodeCount - 1) % UINT32, threadsPerClient, (clNid - 1) % UINT32, clTid, srThread)
  }

  function BufferOf(numClients: nat, threadsPerClient: nat, zeroShiftedClNid: nat, clTid: nat, srThread: nat): nat {
    var servRegionIdx := ServRegion(srThread, (numClients * threadsPerClient) % UINT32);
    var clientBuffer := ((zeroShiftedClNid * numClients) % UINT32 + clTid) % UINT32;
    (servRegionIdx + clientBuffer) % UINT64
  }

  function ServRegion(srThread: nat, bufsPerServThread: nat): nat {
    (srThread * bufsPerServThread) % UINT64
  }

  /** The same in unbounded arithmetic, for client m (counted from 0) and thread t of it. */
  function Index(n: nat, T: nat, s: nat, m: nat, t: nat): nat {
    s * (n * T) + (m * n + t)
  }

  /** S server threads, n clients with T threads each, small enough not to overflow: the buffers of a
      server thread and a client's place among them are counted in 32 bits, their sum in 64. */
  predicate GoodShape(S: nat, n: nat, T: nat) {
    S >= 1 && n >= 1 && T >= 1 && n * T < UINT32 && S * (n * T) <= UINT64 - UINT32 && n * n + T <= UINT32
  }

  predicate Party(S: nat, n: nat, T: nat, s: nat, m: nat, t: nat) {
    s < S && m < n && t < T
  }

  /** Without overflow the code computes Index; client numbers start at 1. */
  lemma CBufIdxIsIndex(S: nat, n: nat, T: nat, s: nat, m: nat, t: nat)
    requires GoodShape(S, n, T) && Party(S, n, T, s, m, t)
    ensures CBufIdx(n + 1, T, m + 1, t, s) == Index(n, T, s, m, t)
  {
    hide BufferOf, Index;
    MulBelow(0, n, n);
    assert n < UINT32;
    BufferOfIsIndex(S, n, T, s, m, t);
  }

  lemma BufferOfIsIndex(S: nat, n: nat, T: nat, s: nat, m: nat, t: nat)
    requires GoodShape(S, n, T) && Party(S, n, T, s, m, t)
    ensures BufferOf(n, T, m, t, s) == Index(n, T, s, m, t)
  {
    hide ServRegion;
    var b, mn := n * T, m * n;
    BufsSmall(S, s, b);
    ClientSmall(n, T, m, t);
    SmallRegion(s, b);
    assert ServRegion(s, b % UINT32) == s * b;
    SmallSum(s * b, mn, t);
  }

  lemma SmallSum(region: nat, mn: nat, t: nat)
    requires region <= UINT64 - UINT32 && mn + t < UINT32
    ensures (region + (mn % UINT32 + t) % UINT32) % UINT64 == region + (mn + t)
  {
  }

  lemma BufsSmall(S: nat, s: nat, b: nat)
    requires s < S && S * b <= UINT64 - UINT32
    ensures s * b <= UINT64 - UINT32
  {
    MulBelow(s, S, b);
  }

  lemma ClientSmall(n: nat, T: nat, m: nat, t: nat)
    requires n * n + T <= UINT32 && m < n && t < T
    ensures m * n + t < UINT32
  {
    MulBelow(m, n, n);
  }

  lemma SmallRegion(s: nat, b: nat)
    requires s * b < UINT64
    ensures ServRegion(s, b) == s * b
  {
  }

  /** Each server thread keeps to the region documented for it. */
  ghost predicate InRegions(S: nat, n: nat, T: nat) {
    forall s: nat, m: nat, t: nat :: Party(S, n, T, s, m, t) ==>
      s * (n * T) <= Index(n, T, s, m, t) < (s + 1) * (n * T)
  }

  /** No two parties share a buffer. */
  ghost predicate Injective(S: nat, n: nat, T: nat) {
    forall s: nat, m: nat, t: nat, s': nat, m': nat, t': nat ::
      Party(S, n, T, s, m, t) && Party(S, n, T, s', m', t') && Index(n, T, s, m, t) == Index(n, T, s', m', t') ==>
        s == s' && m == m' && t == t'
  }

  /** No buffer is left over. */
  ghost predicate Onto(S: nat, n: nat, T: nat) {
    forall i: nat :: i < S * (n * T) ==> Owned(S, n, T, i)
  }

  ghost predicate Owned(S: nat, n: nat, T: nat, i: nat) {
    exists s: nat, m: nat, t: nat :: Party(S, n, T, s, m, t) && Index(n, T, s, m, t) == i
  }

  /** Inside a region, when the layout is sound: m and t are recovered by division. */
  lemma ClientBuffer(n: nat, T: nat, m: nat, t: nat)
    requires n >= 1 && (n == 1 || n == T) && m < n && t < T
    ensures m * n + t < n * T
    ensures n == T ==> (m * n + t) / n == m && (m * n + t) % n == t
  {
    MulBelow(m, n, n);
    if n == T {
      DivModUnique(m * n + t, m, t, n);
    }
  }

  lemma IndexDivides(S: nat, n: nat, T: nat, s: nat, m: nat, t: nat)
    requires n >= 1 && (n == 1 || n == T) && Party(S, n, T, s, m, t)
    ensures Index(n, T, s, m, t) / (n * T) == s && Index(n, T, s, m, t) % (n * T) == m * n + t < n * T
    ensures s * (n * T) <= Index(n, T, s, m, t) < (s + 1) * (n * T)
  {
    ClientBuffer(n, T, m, t);
    DivModUnique(Index(n, T, s, m, t), s, m * n + t, n * T);
    assert (s + 1) * (n * T) == s * (n * T) + n * T;
  }

  lemma OwnerOf(S: nat, n: nat, T: nat, i: nat)
    requires n >= 1 && T >= 1 && (n == 1 || n == T) && i < S * (n * T)
    ensures Owned(S, n, T, i)
  {
    hide Index;
    MulBelow(0, n, T);
    var s := QuotientBelow(i, S, n * T);
    var m, t := Client(n, T, i - s * (n * T));
    assert Party(S, n, T, s, m, t) && Index(n, T, s, m, t) == i by {
      IndexIs(n, T, s, m, t);
    }
  }

  lemma IndexIs(n: nat, T: nat, s: nat, m: nat, t: nat)
    ensures Index(n, T, s, m, t) == s * (n * T) + (m * n + t)
  {
  }

  lemma QuotientBelow(i: nat, S: nat, b: nat) returns (s: nat)
    requires b > 0 && i < S * b
    ensures s < S && s * b <= i < s * b + b
  {
    s := i / b;
    assert i == s * b + i % b;
    assert (s - S) * b == s * b - S * b;
    MultipleGap(s - S, b);
  }

  lemma Client(n: nat, T: nat, r: nat) returns (m: nat, t: nat)
    requires n >= 1 && (n == 1 || n == T) && r < n * T
    ensures m < n && t < T && r == m * n + t
  {
    if n == 1 {
      m, t := 0, r;
    } else {
      m := QuotientBelow(r, n, n);
      t := r - m * n;
    }
  }

  /** A region is left at its upper end when a client has fewer threads than there are clients. */
  lemma RegionOverrun(S: nat, n: nat, T: nat)
    requires S >= 1 && n >= 2 && 1 <= T < n
    ensures Party(S, n, T, 0, n - 1, T - 1) && Index(n, T, 0, n - 1, T - 1) >= n * T
  {
    MulBelow(T, n, n - 1);
    assert (n - 1) * n == n * (n - 1) && n * T == T * (n - 1) + T;
  }

  /** Two parties collide when a client has more threads than there are clients. */
  lemma Collision(S: nat, n: nat, T: nat)
    requires S >= 1 && 2 <= n < T
    ensures Party(S, n, T, 0, 0, n) && Party(S, n, T, 0, 1, 0)
    ensures Index(n, T, 0, 0, n) == Index(n, T, 0, 1, 0)
  {
  }

  /** `getCBufIdx` is a bijection onto the buffers that keeps every server thread in its region if
      and only if there is one client, or as many clients as threads per client. */
  lemma LayoutExactly(S: nat, n: nat, T: nat)
    requires S >= 1 && n >= 1 && T >= 1
    ensures InRegions(S, n, T) && Injective(S, n, T) && Onto(S, n, T) <==> n == 1 || n == T
  {
    if n == 1 || n == T {
      SoundLayout(S, n, T);
    } else if T < n {
      RegionOverrun(S, n, T);
      assert !InRegions(S, n, T);
    } else {
      Collision(S, n, T);
      assert !Injective(S, n, T);
    }
  }

  lemma SoundLayout(S: nat, n: nat, T: nat)
    requires n >= 1 && T >= 1 && (n == 1 || n == T)
    ensures InRegions(S, n, T) && Injective(S, n, T) && Onto(S, n, T)
  {
    forall s: nat, m: nat, t: nat | Party(S, n, T, s, m, t)
      ensures s * (n * T) <= Index(n, T, s, m, t) < (s + 1) * (n * T)
    {
      IndexDivides(S, n, T, s, m, t);
    }
    forall s: nat, m: nat, t: nat, s': nat, m': nat, t': nat |
      Party(S, n, T, s, m, t) && Party(S, n, T, s', m', t') && Index(n, T, s, m, t) == Index(n, T, s', m', t')
      ensures s == s' && m == m' && t == t'
    {
      SameParty(S, n, T, s, m, t, s', m', t');
    }
    forall i: nat | i < S * (n * T)
      ensures Owned(S, n, T, i)
    {
      OwnerOf(S, n, T, i);
    }
  }

  lemma SameParty(S: nat, n: nat, T: nat, s: nat, m: nat, t: nat, s': nat, m': nat, t': nat)
    requires n >= 1 && (n == 1 || n == T)
    requires Party(S, n, T, s, m, t) && Party(S, n, T, s', m', t') && Index(n, T, s, m, t) == Index(n, T, s', m', t')
    ensures s == s' && m == m' && t == t'
  {
    IndexDivides(S, n, T, s, m, t);
    IndexDivides(S, n, T, s', m', t');
    ClientBuffer(n, T, m, t);
    ClientBuffer(n, T, m', t');
  }

  /** The buffer that the code gives to a party. */
  function CodeIndex(n: nat, T: nat, s: nat, m: nat, t: nat): nat {
    CBufIdx(n + 1, T, m + 1, t, s)
  }

  /** The code's own arithmetic keeps every party in its server's region, gives no buffer twice and
      leaves none over. */
  ghost predicate CodeLayout(S: nat, n: nat, T: nat) {
    && (forall s: nat, m: nat, t: nat :: Party(S, n, T, s, m, t) ==>
          s * (n * T) <= CodeIndex(n, T, s, m, t) < (s + 1) * (n * T))
    && (forall s: nat, m: nat, t: nat, s': nat, m': nat, t': nat ::
          Party(S, n, T, s, m, t) && Party(S, n, T, s', m', t') &&
          CodeIndex(n, T, s, m, t) == CodeIndex(n, T, s', m', t') ==>
            s == s' && m == m' && t == t')
    && (forall i: nat :: i < S * (n * T) ==> CodeOwned(S, n, T, i))
  }

  ghost predicate CodeOwned(S: nat, n: nat, T: nat, i: nat) {
    exists s: nat, m: nat, t: nat :: Party(S, n, T, s, m, t) && CodeIndex(n, T, s, m, t) == i
  }

  lemma CodeIsIndex(S: nat, n: nat, T: nat)
    requires GoodShape(S, n, T)
    ensures forall s: nat, m: nat, t: nat :: Party(S, n, T, s, m, t) ==>
              CodeIndex(n, T, s, m, t) == Index(n, T, s, m, t)
  {
    forall s: nat, m: nat, t: nat | Party(S, n, T, s, m, t)
      ensures CodeIndex(n, T, s, m, t) == Index(n, T, s, m, t)
    {
      CBufIdxIsIndex(S, n, T, s, m, t);
    }
  }

  /** `LayoutExactly` for the 32- and 64-bit computation itself, for shapes that do not overflow it. */
  lemma CodeLayoutExactly(S: nat, n: nat, T: nat)
    requires GoodShape(S, n, T)
    ensures CodeLayout(S, n, T) <==> n == 1 || n == T
  {
    hide CodeIndex, Index, GoodShape;
    CodeIsIndex(S, n, T);
    LayoutExactly(S, n, T) by { PositiveShape(S, n, T); }
    forall i: nat | i < S * (n * T)
      ensures Owned(S, n, T, i) <==> CodeOwned(S, n, T, i)
    {
    }
    assert CodeLayout(S, n, T) <==> InRegions(S, n, T) && Injective(S, n, T) && Onto(S, n, T);
  }

  lemma PositiveShape(S: nat, n: nat, T: nat)
    requires GoodShape(S, n, T)
    ensures S >= 1 && n >= 1 && T >= 1
  {
  }

  // ---------------------------------------------------------------- memory

  /** First byte of entry e of buffer number b. */
  function EntryStart(pgas: nat, b: nat, e: nat): nat {
    pgas + b * (MSGS_PER_PAIR * EMULATOR_SW_PAGE_SIZE) + e * EMULATOR_SW_PAGE_SIZE
  }

  predicate EntriesApart(pgas: nat, b: nat, e: nat, b': nat, e': nat) {
    || EntryStart(pgas, b, e) + EMULATOR_SW_PAGE_SIZE <= EntryStart(pgas, b', e')
    || EntryStart(pgas, b', e') + EMULATOR_SW_PAGE_SIZE <= EntryStart(pgas, b, e)
  }

  lemma DistinctEntriesApart(pgas: nat, b: nat, e: nat, b': nat, e': nat)
    requires e < MSGS_PER_PAIR && e' < MSGS_PER_PAIR && (b != b' || e != e')
    ensures EntriesApart(pgas, b, e, b', e')
  {
  }

  /** Every party has a buffer among those set up. */
  ghost predicate AllHaveBuffers(S: nat, n: nat, T: nat) {
    forall s: nat, m: nat, t: nat :: Party(S, n, T, s, m, t) ==> Index(n, T, s, m, t) < S * (n * T)
  }

  /** Distinct (server, client, thread, entry) tuples never share a byte. */
  ghost predicate NoSharedBytes(pgas: nat, S: nat, n: nat, T: nat) {
    forall s: nat, m: nat, t: nat, e: nat, s': nat, m': nat, t': nat, e': nat ::
      && Party(S, n, T, s, m, t) && e < MSGS_PER_PAIR
      && Party(S, n, T, s', m', t') && e' < MSGS_PER_PAIR && (s, m, t, e) != (s', m', t', e') ==>
        EntriesApart(pgas, Index(n, T, s, m, t), e, Index(n, T, s', m', t'), e')
  }

  /** The memory side of the same condition. */
  lemma MemoryExactly(pgas: nat, S: nat, n: nat, T: nat)
    requires S >= 1 && n >= 1 && T >= 1
    ensures AllHaveBuffers(S, n, T) && NoSharedBytes(pgas, S, n, T) <==> n == 1 || n == T
  {
    if n == 1 || n == T {
      SoundMemory(pgas, S, n, T);
    } else if T < n {
      LastServerOverrun(S, n, T);
      assert !AllHaveBuffers(S, n, T);
    } else {
      Collision(S, n, T);
      assert !EntriesApart(pgas, Index(n, T, 0, 0, n), 0, Index(n, T, 0, 1, 0), 0);
      assert !NoSharedBytes(pgas, S, n, T);
    }
  }

  lemma LastServerOverrun(S: nat, n: nat, T: nat)
    requires S >= 1 && n >= 2 && 1 <= T < n
    ensures Party(S, n, T, S - 1, n - 1, T - 1) && Index(n, T, S - 1, n - 1, T - 1) >= S * (n * T)
  {
    RegionOverrun(S, n, T);
    assert S * (n * T) == (S - 1) * (n * T) + n * T;
  }

  lemma SoundMemory(pgas: nat, S: nat, n: nat, T: nat)
    requires n >= 1 && T >= 1 && (n == 1 || n == T)
    ensures AllHaveBuffers(S, n, T) && NoSharedBytes(pgas, S, n, T)
  {
    hide Index;
    forall s: nat, m: nat, t: nat | Party(S, n, T, s, m, t)
      ensures Index(n, T, s, m, t) < S * (n * T)
    {
      IndexDivides(S, n, T, s, m, t);
      MulBelow(s, S, n * T);
      assert (s + 1) * (n * T) == s * (n * T) + n * T;
    }
    forall s: nat, m: nat, t: nat, e: nat, s': nat, m': nat, t': nat, e': nat |
      && Party(S, n, T, s, m, t) && e < MSGS_PER_PAIR
      && Party(S, n, T, s', m', t') && e' < MSGS_PER_PAIR && (s, m, t, e) != (s', m', t', e')
      ensures EntriesApart(pgas, Index(n, T, s, m, t), e, Index(n, T, s', m', t'), e')
    {
      PartiesApart(pgas, S, n, T, s, m, t, e, s', m', t', e');
    }
  }

  lemma PartiesApart(pgas: nat, S: nat, n: nat, T: nat, s: nat, m: nat, t: nat, e: nat,
                     s': nat, m': nat, t': nat, e': nat)
    requires n >= 1 && (n == 1 || n == T)
    requires Party(S, n, T, s, m, t) && Party(S, n, T, s', m', t') && e < MSGS_PER_PAIR && e' < MSGS_PER_PAIR
    requires (s, m, t, e) != (s', m', t', e')
    ensures EntriesApart(pgas, Index(n, T, s, m, t), e, Index(n, T, s', m', t'), e')
  {
    if Index(n, T, s, m, t) == Index(n, T, s', m', t') {
      SameParty(S, n, T, s, m, t, s', m', t');
    }
    DistinctEntriesApart(pgas, Index(n, T, s, m, t), e, Index(n, T, s', m', t'), e');
  }

  /** The code's buffers exist and share no byte between distinct (server, client, thread, entry). */
  ghost predicate CodeMemory(pgas: nat, S: nat, n: nat, T: nat) {
    && (forall s: nat, m: nat, t: nat :: Party(S, n, T, s, m, t) ==> CodeIndex(n, T, s, m, t) < S * (n * T))
    && (forall s: nat, m: nat, t: nat, e: nat, s': nat, m': nat, t': nat, e': nat ::
          && Party(S, n, T, s, m, t) && e < MSGS_PER_PAIR
          && Party(S, n, T, s', m', t') && e' < MSGS_PER_PAIR && (s, m, t, e) != (s', m', t', e') ==>
            EntriesApart(pgas, CodeIndex(n, T, s, m, t), e, CodeIndex(n, T, s', m', t'), e'))
  }

  /** `MemoryExactly` for the code's own arithmetic. */
  lemma CodeMemoryExactly(pgas: nat, S: nat, n: nat, T: nat)
    requires GoodShape(S, n, T)
    ensures CodeMemory(pgas, S, n, T) <==> n == 1 || n == T
  {
    hide CodeIndex, Index, GoodShape, EntriesApart;
    CodeIsIndex(S, n, T);
    MemoryExactly(pgas, S, n, T) by { PositiveShape(S, n, T); }
    assert CodeMemory(pgas, S, n, T) <==> AllHaveBuffers(S, n, T) && NoSharedBytes(pgas, S, n, T);
  }

  /** Buffer number b sits at its place in the context, with the entry size and count the setup
      loop uses. */
  ghost predicate LaidOut(bufs: seq<CircularReceiveBuffer>, pgas: nat)
    reads bufs
  {
    forall b :: 0 <= b < |bufs| ==>
      && bufs[b].Valid()
      && bufs[b].basePointer == EntryStart(pgas, b, 0)
      && bufs[b].entryByteSize == EMULATOR_SW_PAGE_SIZE
      && bufs[b].numEntries == MSGS_PER_PAIR
  }

  lemma NextBuffer(pgas: nat, b: nat)
    ensures EntryStart(pgas, 0, 0) == pgas
    ensures EntryStart(pgas, b + 1, 0) == EntryStart(pgas, b, 0) + MSGS_PER_PAIR * EMULATOR_SW_PAGE_SIZE
  {
  }

  /** `setupCircularBuffers`. The entry size and count passed by the caller are not used. */
  method SetupCircularBuffers(pgas: nat, entryByteSize: nat, numEntries: nat, senders: nat, receivers: nat,
                              areSendersCopies: bool)
    returns (bufs: seq<CircularReceiveBuffer>)
    ensures |bufs| == senders * receivers && LaidOut(bufs, pgas)
    ensures forall b :: 0 <= b < |bufs| ==>
              fresh(bufs[b]) && bufs[b].isSender == areSendersCopies && Refines(bufs[b].View(), 0, 0)
    ensures forall b, b' :: 0 <= b < b' < |bufs| ==> bufs[b] != bufs[b']
  {
    hide EntryStart, Refines;
    NextBuffer(pgas, 0);
    var bufferBasePointer := pgas;
    var numBuffers := senders * receivers;
    bufs := [];
    while |bufs| < numBuffers
      invariant |bufs| <= numBuffers && LaidOut(bufs, pgas)
      invariant bufferBasePointer == EntryStart(pgas, |bufs|, 0)
      invariant forall b :: 0 <= b < |bufs| ==>
                  fresh(bufs[b]) && bufs[b].isSender == areSendersCopies && Refines(bufs[b].View(), 0, 0)
      invariant forall b, b' :: 0 <= b < b' < |bufs| ==> bufs[b] != bufs[b']
    {
      var buf := new CircularReceiveBuffer(bufferBasePointer, EMULATOR_SW_PAGE_SIZE, MSGS_PER_PAIR, areSendersCopies);
      NextBuffer(pgas, |bufs|);
      bufs := bufs + [buf];
      bufferBasePointer := bufferBasePointer + buf.numEntries * buf.entryByteSize;
    }
  }

  /** Byte a of the context belongs to entry e of buffer number b. */
  predicate ByteOf(pgas: nat, b: nat, e: nat, a: int) {
    EntryStart(pgas, b, e) <= a < EntryStart(pgas, b, e) + EMULATOR_SW_PAGE_SIZE
  }

  /** `zeroOutRBufHead`: every byte of the buffer's head entry becomes 0, and the bytes of every
      other entry of every buffer stay as they were. */
  method ZeroOutRBufHead(bufs: seq<CircularReceiveBuffer>, pgas: nat, mem: array<nat>, bufferNumber: nat)
    requires LaidOut(bufs, pgas) && bufferNumber < |bufs|
    requires EntryStart(pgas, |bufs|, 0) <= mem.Length
    modifies mem
    ensures forall a :: 0 <= a < mem.Length && ByteOf(pgas, bufferNumber, bufs[bufferNumber].head, a) ==> mem[a] == 0
    ensures forall b: nat, e: nat, a ::
              && b < |bufs| && e < MSGS_PER_PAIR && (b, e) != (bufferNumber, bufs[bufferNumber].head)
              && 0 <= a < mem.Length && ByteOf(pgas, b, e, a) ==>
                mem[a] == old(mem[a])
  {
    var buf := bufs[bufferNumber];
    buf.ZeroEntryNumber(mem, buf.head);
    forall b: nat, e: nat | b < |bufs| && e < MSGS_PER_PAIR && (b, e) != (bufferNumber, buf.head)
      ensures EntriesApart(pgas, b, e, bufferNumber, buf.head)
    {
      DistinctEntriesApart(pgas, b, e, bufferNumber, buf.head);
    }
  }
}
