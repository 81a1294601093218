/**
  The encapsulation of an RPC in a network buffer (the ZSIM branch), on byte-addressed memory: an
  address is an index into the memory, so the padding that depends on an address is modelled as is.
 */
module WireFormat {

  type byte = x: nat | x < 0x100
  type uint16 = x: nat | x < 0x1_0000
  type uint32 = x: nat | x < 0x1_0000_0000

  const ALIGNMENT: nat := 8

  /** `calcTotalHeaderBytes`: the fields, with the type counted twice, plus their remainder mod 8. */
  const FIELD_BYTES: nat := 4 + 2 * 1 + 2 + 2 + 2
  const HEADER_BYTES: nat := FIELD_BYTES + FIELD_BYTES % ALIGNMENT

  /** `RPCWithHeader`; `payload` is an address. */
  datatype Rpc = Rpc(rpcLen: uint32, rpcType: byte, rpcId: uint16, sendersQp: uint16, sendersNid: uint16,
                     payload: nat, payloadLen: uint32)

  function CreateRpc(rpcType: byte, rpcId: uint16, qp: uint16, nid: uint16, payloadLen: uint32, payload: nat): Rpc {
    Rpc((HEADER_BYTES + payloadLen) % 0x1_0000_0000, rpcType, rpcId, qp, nid, payload, payloadLen)
  }

  /** Built by `createRPCStruct`: the length on the wire counts header and payload. */
  predicate WellBuilt(rpc: Rpc) {
    rpc.rpcLen == (HEADER_BYTES + rpc.payloadLen) % 0x1_0000_0000
  }

  function Le16(x: uint16): (s: seq<byte>)
    ensures |s| == 2
  {
    [x % 0x100, x / 0x100]
  }

  function Le32(x: uint32): (s: seq<byte>)
    ensures |s| == 4
  {
    [x % 0x100, x / 0x100 % 0x100, x / 0x1_0000 % 0x100, x / 0x100_0000]
  }

  function FromLe16(a: byte, b: byte): uint16 {
    a + 0x100 * b
  }

  function FromLe32(a: byte, b: byte, c: byte, d: byte): uint32 {
    a + 0x100 * b + 0x1_0000 * c + 0x100_0000 * d
  }

  /** Where the packer puts the payload: after the fields, stepped on by the address mod 8. */
  function PayloadOffset(buf: nat): (offset: nat)
    ensures FIELD_BYTES <= offset < FIELD_BYTES + ALIGNMENT
  {
    FIELD_BYTES + (buf + FIELD_BYTES) % ALIGNMENT
  }

  /** The bytes the packer writes and the payload it reads are in memory and do not overlap. */
  predicate Fits(size: nat, rpc: Rpc, buf: nat) {
    var end := buf + PayloadOffset(buf) + rpc.payloadLen;
    && end <= size
    && rpc.payload + rpc.payloadLen <= size
    && (rpc.payload + rpc.payloadLen <= buf || end <= rpc.payload)
  }

  /** The reference layout, byte by byte: what address i, which held `was`, holds once the header
      fields are packed, and what it holds after the payload is. */
  function HeaderByte(was: byte, rpc: Rpc, buf: nat, i: nat): byte {
    if buf <= i < buf + 4 then Le32(rpc.rpcLen)[i - buf]
    else if i == buf + 4 then rpc.rpcType
    else if buf + 6 <= i < buf + 8 then Le16(rpc.rpcId)[i - buf - 6]
    else if buf + 8 <= i < buf + 10 then Le16(rpc.sendersQp)[i - buf - 8]
    else if buf + 10 <= i < buf + 12 then Le16(rpc.sendersNid)[i - buf - 10]
    else was
  }

  function PackedByte(m: seq<byte>, rpc: Rpc, buf: nat, i: nat): byte
    requires Fits(|m|, rpc, buf) && i < |m|
  {
    var at := buf + PayloadOffset(buf);
    if at <= i < at + rpc.payloadLen then m[rpc.payload + (i - at)] else HeaderByte(m[i], rpc, buf, i)
  }

  function Packed(m: seq<byte>, rpc: Rpc, buf: nat): (r: seq<byte>)
    requires Fits(|m|, rpc, buf)
    ensures |r| == |m|
  {
    seq(|m|, i requires 0 <= i < |m| => PackedByte(m, rpc, buf, i))
  }

  /** `memcpy` of given bytes to an address. */
  method CopyIn(mem: array<byte>, at: nat, bytes: seq<byte>)
    requires at + |bytes| <= mem.Length
    modifies mem
    ensures forall i :: 0 <= i < mem.Length ==> mem[i] == if at <= i < at + |bytes| then bytes[i - at] else old(mem[i])
  {
    for k := 0 to |bytes|
      invariant forall i :: 0 <= i < mem.Length ==> mem[i] == if at <= i < at + k then bytes[i - at] else old(mem[i])
    {
      mem[at + k] := bytes[k];
    }
  }

  /** `packPayload`: a moving pointer, one field after the other, the payload last. */
  method PackPayload(mem: array<byte>, rpc: Rpc, buf: nat)
    requires Fits(mem.Length, rpc, buf)
    modifies mem
    ensures mem[..] == Packed(old(mem[..]), rpc, buf)
  {
    hide HeaderByte;
    var p := PackHeader(mem, rpc, buf);
    if p % ALIGNMENT != 0 {
      p := p + p % ALIGNMENT;
    }
    OutsideHeader(mem.Length, rpc, buf);
    var payload := mem[rpc.payload..rpc.payload + rpc.payloadLen];
    assert payload == old(mem[..])[rpc.payload..rpc.payload + rpc.payloadLen];
    CopyIn(mem, p, payload);
  }

  method PackHeader(mem: array<byte>, rpc: Rpc, buf: nat) returns (p: nat)
    requires buf + FIELD_BYTES <= mem.Length
    modifies mem
    ensures p == buf + 12
    // little-endian: length at 0, type at 4, id at 6, queue pair at 8, node at 10
    ensures mem[buf..buf + 4] == [rpc.rpcLen % 0x100, rpc.rpcLen / 0x100 % 0x100,
                                  rpc.rpcLen / 0x1_0000 % 0x100, rpc.rpcLen / 0x100_0000]
    ensures mem[buf + 4..buf + 12] == [rpc.rpcType, old(mem[buf + 5]), rpc.rpcId % 0x100, rpc.rpcId / 0x100,
                                       rpc.sendersQp % 0x100, rpc.sendersQp / 0x100,
                                       rpc.sendersNid % 0x100, rpc.sendersNid / 0x100]
    ensures forall i :: 0 <= i < mem.Length ==> mem[i] == HeaderByte(old(mem[i]), rpc, buf, i)
  {
    hide Le16, Le32;
    p := buf;
    CopyIn(mem, p, Le32(rpc.rpcLen));
    p := p + 4;
    CopyIn(mem, p, [rpc.rpcType]);
    p := p + 2;
    CopyIn(mem, p, Le16(rpc.rpcId));
    p := p + 2;
    CopyIn(mem, p, Le16(rpc.sendersQp));
    p := p + 2;
    CopyIn(mem, p, Le16(rpc.sendersNid));
    p := p + 2;
    HeaderBytes(old(mem[..]), mem[..], rpc, buf);
  }

  lemma HeaderBytes(m: seq<byte>, m': seq<byte>, rpc: Rpc, buf: nat)
    requires buf + FIELD_BYTES <= |m| == |m'|
    requires forall i :: 0 <= i < |m| ==> m'[i] == HeaderByte(m[i], rpc, buf, i)
    ensures m'[buf..buf + 4] == [rpc.rpcLen % 0x100, rpc.rpcLen / 0x100 % 0x100,
                                 rpc.rpcLen / 0x1_0000 % 0x100, rpc.rpcLen / 0x100_0000]
    ensures m'[buf + 4..buf + 12] == [rpc.rpcType, m[buf + 5], rpc.rpcId % 0x100, rpc.rpcId / 0x100,
                                      rpc.sendersQp % 0x100, rpc.sendersQp / 0x100,
                                      rpc.sendersNid % 0x100, rpc.sendersNid / 0x100]
  {
  }

  /** The header fields are not written over the payload that is still to be copied. */
  lemma OutsideHeader(size: nat, rpc: Rpc, buf: nat)
    requires Fits(size, rpc, buf)
    ensures forall was, i :: rpc.payload <= i < rpc.payload + rpc.payloadLen ==> HeaderByte(was, rpc, buf, i) == was
  {
  }

  /** `unpackBufferToRPCLayer`, which takes the payload to be HEADER_BYTES into the buffer. */
  function Unpack(m: seq<byte>, buf: nat): Rpc
    requires buf + FIELD_BYTES <= |m|
  {
    var rpcLen := FromLe32(m[buf], m[buf + 1], m[buf + 2], m[buf + 3]);
    CreateRpc(m[buf + 4], FromLe16(m[buf + 6], m[buf + 7]), FromLe16(m[buf + 8], m[buf + 9]),
              FromLe16(m[buf + 10], m[buf + 11]), (rpcLen - HEADER_BYTES) % 0x1_0000_0000, buf + HEADER_BYTES)
  }

  lemma Le16RoundTrip(x: uint16)
    ensures FromLe16(Le16(x)[0], Le16(x)[1]) == x
  {
  }

  lemma Le32RoundTrip(x: uint32)
    ensures FromLe32(Le32(x)[0], Le32(x)[1], Le32(x)[2], Le32(x)[3]) == x
  {
    var a, b := x / 0x100, x / 0x1_0000;
    assert a == a % 0x100 + 0x100 * b;
    assert b == b % 0x100 + 0x100 * (x / 0x100_0000);
  }

  /** Every header field and the payload length survive, at every address and for every length the
      length field can wrap around to. */
  lemma HeaderRoundTrip(m: seq<byte>, rpc: Rpc, buf: nat)
    requires Fits(|m|, rpc, buf) && WellBuilt(rpc)
    ensures Unpack(Packed(m, rpc, buf), buf) == rpc.(payload := buf + HEADER_BYTES)
  {
    hide Le16, Le32, FromLe16, FromLe32, PayloadOffset;
    Le32RoundTrip(rpc.rpcLen);
    Le16RoundTrip(rpc.rpcId);
    Le16RoundTrip(rpc.sendersQp);
    Le16RoundTrip(rpc.sendersNid);
    LengthRoundTrip(rpc);
  }

  /** Header size added and taken off again in 32-bit arithmetic. */
  lemma LengthRoundTrip(rpc: Rpc)
    requires WellBuilt(rpc)
    ensures (rpc.rpcLen - HEADER_BYTES) % 0x1_0000_0000 == rpc.payloadLen
  {
  }

  /** The bytes at the unpacked payload pointer are the payload's. */
  ghost predicate Returned(m: seq<byte>, rpc: Rpc, buf: nat)
    requires Fits(|m|, rpc, buf) && buf + HEADER_BYTES + rpc.payloadLen <= |m|
  {
    Packed(m, rpc, buf)[buf + HEADER_BYTES..buf + HEADER_BYTES + rpc.payloadLen] ==
    m[rpc.payload..rpc.payload + rpc.payloadLen]
  }

  /** They are, whatever memory held before. */
  ghost predicate PayloadSurvives(size: nat, rpc: Rpc, buf: nat)
    requires Fits(size, rpc, buf) && buf + HEADER_BYTES + rpc.payloadLen <= size
  {
    forall m: seq<byte> :: |m| == size ==> Returned(m, rpc, buf)
  }

  /** The two sides agree on where the payload is exactly at addresses that are multiples of 8. */
  lemma OffsetsAgree(buf: nat)
    ensures PayloadOffset(buf) == HEADER_BYTES <==> buf % ALIGNMENT == 0
  {
  }

  /** The byte the reader takes for payload byte j: the one the writer put there, which came from
      another place of the payload unless the offsets agree, or one the writer never wrote. */
  lemma ReaderByte(m: seq<byte>, rpc: Rpc, buf: nat, j: nat)
    requires Fits(|m|, rpc, buf) && j < rpc.payloadLen && buf + HEADER_BYTES + j < |m|
    ensures var at, i := buf + PayloadOffset(buf), buf + HEADER_BYTES + j;
            Packed(m, rpc, buf)[i] == if at <= i < at + rpc.payloadLen then m[rpc.payload + (i - at)] else m[i]
  {
  }

  lemma PlacedPayload(m: seq<byte>, rpc: Rpc, buf: nat)
    requires Fits(|m|, rpc, buf) && buf + HEADER_BYTES + rpc.payloadLen <= |m|
    requires buf % ALIGNMENT == 0 || rpc.payloadLen == 0 || rpc.payload == buf + HEADER_BYTES
    ensures Returned(m, rpc, buf)
  {
    hide Packed, PayloadOffset;
    OffsetsAgree(buf);
    var got := Packed(m, rpc, buf)[buf + HEADER_BYTES..buf + HEADER_BYTES + rpc.payloadLen];
    var sent := m[rpc.payload..rpc.payload + rpc.payloadLen];
    forall j | 0 <= j < |got|
      ensures got[j] == sent[j]
    {
      ReaderByte(m, rpc, buf, j);
    }
  }

  /** Packing then unpacking returns the payload, whatever memory held before, if and only if the
      buffer is 8-byte aligned, or there is no payload, or it already was where the reader looks. */
  lemma PayloadExactly(size: nat, rpc: Rpc, buf: nat)
    requires Fits(size, rpc, buf) && buf + HEADER_BYTES + rpc.payloadLen <= size
    ensures PayloadSurvives(size, rpc, buf) <==>
            buf % ALIGNMENT == 0 || rpc.payloadLen == 0 || rpc.payload == buf + HEADER_BYTES
  {
    hide PayloadSurvives, Fits;
    if buf % ALIGNMENT == 0 || rpc.payloadLen == 0 || rpc.payload == buf + HEADER_BYTES {
      PlacedSurvives(size, rpc, buf);
    } else {
      MisplacedPayload(size, rpc, buf);
    }
  }

  lemma PlacedSurvives(size: nat, rpc: Rpc, buf: nat)
    requires Fits(size, rpc, buf) && buf + HEADER_BYTES + rpc.payloadLen <= size
    requires buf % ALIGNMENT == 0 || rpc.payloadLen == 0 || rpc.payload == buf + HEADER_BYTES
    ensures PayloadSurvives(size, rpc, buf)
  {
    hide Returned, Fits;
    forall m: seq<byte> | |m| == size
      ensures Returned(m, rpc, buf)
    {
      PlacedPayload(m, rpc, buf);
    }
  }

  function OneAt(size: nat, k: nat): (m: seq<byte>)
    ensures |m| == size && forall i :: 0 <= i < size ==> m[i] == if i == k then 1 else 0
  {
    seq(size, i => if i == k then 1 else 0)
  }

  /** Otherwise a memory that is zero except for the payload's first byte shows it: the reader finds
      a zero there. */
  lemma MisplacedPayload(size: nat, rpc: Rpc, buf: nat)
    requires Fits(size, rpc, buf) && buf + HEADER_BYTES + rpc.payloadLen <= size
    requires buf % ALIGNMENT != 0 && rpc.payloadLen != 0 && rpc.payload != buf + HEADER_BYTES
    ensures !PayloadSurvives(size, rpc, buf)
  {
    hide Returned, Fits, OneAt;
    NotReturned(size, rpc, buf);
  }

  lemma NotReturned(size: nat, rpc: Rpc, buf: nat)
    requires Fits(size, rpc, buf) && buf + HEADER_BYTES + rpc.payloadLen <= size
    requires buf % ALIGNMENT != 0 && rpc.payloadLen != 0 && rpc.payload != buf + HEADER_BYTES
    ensures !Returned(OneAt(size, rpc.payload), rpc, buf)
  {
    hide Packed, PayloadOffset, OneAt;
    var m := OneAt(size, rpc.payload);
    ReaderFindsZero(size, rpc, buf);
    SlicesDiffer(Packed(m, rpc, buf), buf + HEADER_BYTES, m, rpc.payload, rpc.payloadLen);
  }

  lemma ReaderFindsZero(size: nat, rpc: Rpc, buf: nat)
    requires Fits(size, rpc, buf) && buf + HEADER_BYTES < size
    requires buf % ALIGNMENT != 0 && rpc.payloadLen != 0 && rpc.payload != buf + HEADER_BYTES
    ensures Packed(OneAt(size, rpc.payload), rpc, buf)[buf + HEADER_BYTES] == 0
  {
    hide Packed, PayloadOffset, OneAt;
    OffsetsAgree(buf);
    ReaderByte(OneAt(size, rpc.payload), rpc, buf, 0);
  }

  lemma SlicesDiffer(s: seq<byte>, a: nat, t: seq<byte>, b: nat, n: nat)
    requires 0 < n && a + n <= |s| && b + n <= |t| && s[a] != t[b]
    ensures s[a..a + n] != t[b..b + n]
  {
    assert s[a..a + n][0] == s[a] && t[b..b + n][0] == t[b];
  }
}
