/**
  * The three layers a graphics PDU goes through on its way out (bulk segments,
  * dynamic-channel DATA header, static-channel chunks) and the receiver that
  * undoes them: the static reassembler, the channel-id reader and the segment
  * concatenation of section 2.2.5.1 of MS-RDPEGFX.
  */
module GraphicsFraming {
  import opened Bytes
  import VC = VirtualChannel
  import DVC = DynamicChannel
  import DW = DynamicWire

  const SEGMENTED_SINGLE: byte := 0xE0
  const SEGMENTED_MULTIPART: byte := 0xE1
  const COMPR_TYPE_RDP8: byte := 0x04
  const SEG_MAX: nat := 65535

  // ---- Bulk segments -----------------------------------------------------

  function SegmentCount(len: nat): nat {
    if len == 0 then 0 else 1 + SegmentCount(len - Min(len, SEG_MAX))
  }

  lemma {:induction false} CountIsCeiling(len: nat)
    ensures SegmentCount(len) == (len + SEG_MAX - 1) / SEG_MAX
  {
    if len > SEG_MAX {
      CountIsCeiling(len - SEG_MAX);
    } else if len > 0 {
      assert SegmentCount(len - len) == 0;
    }
  }

  function SegLen(data: Bytes, off: nat): nat
    requires off <= |data|
  {
    Min(|data| - off, SEG_MAX)
  }

  function Segment(data: Bytes, off: nat): Bytes
    requires off <= |data|
  {
    Le32(SegLen(data, off) + 1) + [COMPR_TYPE_RDP8] + data[off..off + SegLen(data, off)]
  }

  function SegmentsFrom(data: Bytes, off: nat): Bytes
    requires off <= |data|
    decreases |data| - off
  {
    if off == |data| then [] else Segment(data, off) + SegmentsFrom(data, off + SegLen(data, off))
  }

  function MultipartHeader(len: nat): Bytes {
    [SEGMENTED_MULTIPART] + Le16(SegmentCount(len) % 0x1_0000) + Le32(len % U32)
  }

  function Wrap(data: Bytes): Bytes {
    if |data| <= SEG_MAX then [SEGMENTED_SINGLE, COMPR_TYPE_RDP8] + data
    else MultipartHeader(|data|) + SegmentsFrom(data, 0)
  }

  method AppendSegments(header: Bytes, nseg: nat, data: Bytes) returns (z: Bytes)
    requires nseg == SegmentCount(|data|)
    ensures z == header + SegmentsFrom(data, 0)
  {
    var off := 0;
    z := header;
    for i := 0 to nseg
      invariant 0 <= off <= |data| && nseg - i == SegmentCount(|data| - off)
      invariant z + SegmentsFrom(data, off) == header + SegmentsFrom(data, 0)
    {
      var chunk := |data| - off;
      if chunk > SEG_MAX {
        chunk := SEG_MAX;
      }
      var segment := Le32(chunk + 1) + [COMPR_TYPE_RDP8] + data[off..off + chunk];
      assert z + (segment + SegmentsFrom(data, off + chunk)) == (z + segment) + SegmentsFrom(data, off + chunk);
      z := z + segment;
      off := off + chunk;
    }
  }

  method WrapPdu(data: Bytes) returns (z: Bytes)
    ensures z == Wrap(data)
  {
    if |data| <= SEG_MAX {
      return [SEGMENTED_SINGLE, COMPR_TYPE_RDP8] + data;
    }
    var nseg := (|data| + SEG_MAX - 1) / SEG_MAX;
    CountIsCeiling(|data|);
    z := AppendSegments([SEGMENTED_MULTIPART] + Le16(nseg % 0x1_0000) + Le32(|data| % U32), nseg, data);
  }

  /** A short PDU goes out in one segment. A longer one starts with the multipart
      descriptor, the number of 65535-octet segments and its length. */
  lemma WrapOnTheWire(data: Bytes)
    ensures |data| <= 65535 ==> Wrap(data) == [0xE0, 0x04] + data
    ensures 65535 < |data| ==>
              Wrap(data) == [0xE1] + Le16((|data| + 65534) / 65535 % 0x1_0000) + Le32(|data| % U32)
                            + SegmentsFrom(data, 0)
  {
    CountIsCeiling(|data|);
  }

  /** Each segment is as long as it may be, and its length counts the octet before it. */
  lemma SegmentOnTheWire(data: Bytes, off: nat, k: nat)
    requires off < |data| && k == Min(|data| - off, 65535)
    ensures SegmentsFrom(data, off)
         == (Le32(k + 1) + [0x04] + data[off..off + k]) + SegmentsFrom(data, off + k)
  {}

  function UnwrapSegments(z: Bytes, n: nat): Option<Bytes> {
    if n == 0 then (if z == [] then Some([]) else None)
    else if |z| < 5 then None
    else
      var size := Ld32(z, 0);
      if size < 1 || size - 1 > SEG_MAX || 4 + size > |z| || z[4] != COMPR_TYPE_RDP8 then None
      else
        var rest := UnwrapSegments(z[4 + size..], n - 1);
        if rest.None? then None else Some(z[5..4 + size] + rest.value)
  }

  /** The receiver's side: rejects a wrong descriptor, segment count, total or
      a segment over the 64 KiB decode buffer. */
  function Unwrap(z: Bytes): Option<Bytes> {
    if |z| >= 2 && z[0] == SEGMENTED_SINGLE && z[1] == COMPR_TYPE_RDP8 then Some(z[2..])
    else if |z| >= 7 && z[0] == SEGMENTED_MULTIPART then
      var data := UnwrapSegments(z[7..], Ld16(z, 1));
      if data.Some? && |data.value| == Ld32(z, 3) then data else None
    else None
  }

  lemma UnwrapOneSegment(z: Bytes, len: nat, n: nat, rest: Bytes)
    requires |z| >= 5 + len && len <= SEG_MAX && Ld32(z, 0) == len + 1 && z[4] == COMPR_TYPE_RDP8
    requires UnwrapSegments(z[5 + len..], n) == Some(rest)
    ensures UnwrapSegments(z, n + 1) == Some(z[5..5 + len] + rest)
  {}

  lemma SegmentFields(body: Bytes, rest: Bytes)
    requires |body| <= SEG_MAX
    ensures var z := Le32(|body| + 1) + [COMPR_TYPE_RDP8] + body + rest;
            && |z| >= 5 + |body| && Ld32(z, 0) == |body| + 1 && z[4] == COMPR_TYPE_RDP8
            && z[5..5 + |body|] == body && z[5 + |body|..] == rest
  {
    var z := Le32(|body| + 1) + [COMPR_TYPE_RDP8] + body + rest;
    assert z == [] + Le32(|body| + 1) + ([COMPR_TYPE_RDP8] + body + rest);
    Ld32OfLe32([], |body| + 1, [COMPR_TYPE_RDP8] + body + rest);
  }

  lemma FirstSegmentUnwraps(data: Bytes, off: nat, rest: Bytes, n: nat, tail: Bytes)
    requires off <= |data| && UnwrapSegments(rest, n) == Some(tail)
    ensures UnwrapSegments(Segment(data, off) + rest, n + 1) == Some(data[off..off + SegLen(data, off)] + tail)
  {
    var body := data[off..off + SegLen(data, off)];
    SegmentFields(body, rest);
    UnwrapOneSegment(Segment(data, off) + rest, |body|, n, tail);
  }

  lemma {:induction false} SegmentsLength(data: Bytes, off: nat)
    requires off <= |data|
    ensures |SegmentsFrom(data, off)| == 5 * SegmentCount(|data| - off) + |data| - off
    decreases |data| - off
  {
    if off < |data| {
      SegmentsLength(data, off + SegLen(data, off));
    }
  }

  lemma Rejoin(data: Bytes, off: nat, next: nat)
    requires off <= next <= |data|
    ensures data[off..next] + data[next..] == data[off..]
  {}

  /** The `n` segments from `off` on unwrap to the data from there on. */
  predicate Unwraps(data: Bytes, off: nat, n: nat)
    requires off <= |data|
  {
    UnwrapSegments(SegmentsFrom(data, off), n) == Some(data[off..])
  }

  lemma SegmentStep(data: Bytes, off: nat, next: nat, n: nat)
    requires off < |data| && next == off + SegLen(data, off) && Unwraps(data, next, n)
    ensures Unwraps(data, off, n + 1)
  {
    FirstSegmentUnwraps(data, off, SegmentsFrom(data, next), n, data[next..]);
    Rejoin(data, off, next);
  }

  lemma CountStep(data: Bytes, off: nat)
    requires off < |data|
    ensures SegmentCount(|data| - off) == SegmentCount(|data| - (off + SegLen(data, off))) + 1
  {}

  lemma LastUnwraps(data: Bytes)
    ensures Unwraps(data, |data|, 0)
  {
    assert data[|data|..] == [];
  }

  lemma {:induction false} SegmentsUnwrap(data: Bytes, off: nat)
    requires off <= |data|
    ensures Unwraps(data, off, SegmentCount(|data| - off))
    decreases |data| - off
  {
    if off == |data| {
      LastUnwraps(data);
    } else {
      var next := off + SegLen(data, off);
      SegmentsUnwrap(data, next);
      SegmentStep(data, off, next, SegmentCount(|data| - next));
      CountStep(data, off);
    }
  }

  lemma MultipartFields(count: u16, size: u32, body: Bytes)
    ensures var z := [SEGMENTED_MULTIPART] + Le16(count) + Le32(size) + body;
            Ld16(z, 1) == count && Ld32(z, 3) == size && z[7..] == body
  {
    var z := [SEGMENTED_MULTIPART] + Le16(count) + Le32(size) + body;
    Ld16OfLe16([SEGMENTED_MULTIPART], count, Le32(size) + body);
    assert z == [SEGMENTED_MULTIPART] + Le16(count) + (Le32(size) + body);
    Ld32OfLe32([SEGMENTED_MULTIPART] + Le16(count), size, body);
  }

  lemma MultipartUnwraps(count: u16, body: Bytes, data: Bytes)
    requires |data| < U32 && UnwrapSegments(body, count) == Some(data)
    ensures Unwrap([SEGMENTED_MULTIPART] + Le16(count) + Le32(|data|) + body) == Some(data)
  {
    MultipartFields(count, |data|, body);
  }

  lemma SmallModulus(x: nat, m: nat)
    requires x < m
    ensures x % m == x
  {}

  lemma HeaderIsExact(len: nat)
    requires len < U32 && SegmentCount(len) < 0x1_0000
    ensures MultipartHeader(len) == [SEGMENTED_MULTIPART] + Le16(SegmentCount(len)) + Le32(len)
  {
    SmallModulus(SegmentCount(len), 0x1_0000);
    SmallModulus(len, U32);
  }

  lemma CountFits(len: nat)
    requires 7 + 5 * SegmentCount(len) + len < U32
    ensures SegmentCount(len) < 0x1_0000
  {
    CountIsCeiling(len);
  }

  /** While the framed length fits in 32 bits, the segment count fits its 16-bit
      field and the receiver gets back the PDU. */
  lemma WrapRoundTrip(data: Bytes)
    requires |Wrap(data)| < U32
    ensures |data| > SEG_MAX ==> SegmentCount(|data|) < 0x1_0000
    ensures |data| > SEG_MAX ==> |Wrap(data)| == 7 + 5 * SegmentCount(|data|) + |data|
    ensures Unwrap(Wrap(data)) == Some(data)
  {
    if |data| <= SEG_MAX {
      assert Wrap(data)[2..] == data;
    } else {
      SegmentsUnwrap(data, 0);
      SegmentsLength(data, 0);
      CountFits(|data|);
      assert data[0..] == data;
      MultipartUnwraps(SegmentCount(|data|), SegmentsFrom(data, 0), data);
      HeaderIsExact(|data|);
    }
  }

  // ---- Dynamic-channel DATA header ---------------------------------------

  /** A channel id as the C `int` the callers hold; it is open, hence not negative. */
  type ChannelId = c: int | 0 <= c < 0x8000_0000

  function IdSize(chan: ChannelId): nat {
    if chan <= 0xff then 0 else if chan <= 0xffff then 1 else 2
  }

  function DataPdu(chan: ChannelId, data: Bytes): Bytes {
    DW.DataMore(chan, IdSize(chan), 0, data)
  }

  lemma DataPduParses(chan: ChannelId, data: Bytes)
    ensures DVC.Parse(DataPdu(chan, data)) == DVC.Data(chan, DVC.Fragment(false, 0, data))
  {
    DW.DataMoreParses(chan, IdSize(chan), 0, data);
  }

  // ---- The whole stack ---------------------------------------------------

  function Framed(chan: ChannelId, data: Bytes): Bytes {
    DataPdu(chan, Wrap(data))
  }

  method SendGraphics(chan: ChannelId, data: Bytes) returns (sent: seq<Bytes>)
    ensures sent == VC.ChunksFrom(Framed(chan, data), 0)
  {
    var z := WrapPdu(data);
    var cb := 0;
    if chan > 0xff {
      cb := if chan <= 0xffff then 1 else 2;
    }
    var id := if cb == 0 then [chan] else if cb == 1 then Le16(chan) else Le32(chan);
    sent := VC.SendPdu([16 * DVC.CMD_DATA + cb] + id + z);
  }

  /** What a receiver in state `a` makes of a run of channel payloads. */
  function Receive(a: VC.Accumulator, payloads: seq<Bytes>): Option<(u32, Bytes)> {
    var outcomes := VC.DeliverAll(a, U32, payloads).outcomes;
    if outcomes == [] || !outcomes[|outcomes| - 1].Complete? then None
    else
      match DVC.Parse(outcomes[|outcomes| - 1].pdu)
      case Data(chan, f) =>
        if f.first || Unwrap(f.body).None? then None else Some((chan, Unwrap(f.body).value))
      case _ => None
  }

  lemma {:induction false} AwaitingLast(n: nat, p: Bytes)
    requires n > 0
    ensures |VC.Awaiting(n, p)| == n && VC.Awaiting(n, p)[n - 1] == VC.Complete(p)
  {
    if n > 1 {
      AwaitingLast(n - 1, p);
    }
  }

  /** Composing the three layers and undoing them gives back the channel id and
      the octets, for every graphics PDU whose framed length fits in 32 bits and
      whatever the receiver's accumulator held before. */
  lemma GraphicsRoundTrip(a: VC.Accumulator, chan: ChannelId, data: Bytes)
    requires |Framed(chan, data)| < U32
    ensures Receive(a, VC.ChunksFrom(Framed(chan, data), 0)) == Some((chan, data))
  {
    var pdu := Framed(chan, data);
    VC.ChunksReassemble(a, pdu, U32);
    AwaitingLast(|VC.ChunksFrom(pdu, 0)|, pdu);
    DataPduParses(chan, Wrap(data));
    WrapRoundTrip(data);
  }
}
