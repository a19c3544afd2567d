/**
  * Static virtual channels (section 2.2.6.1 of MS-RDPBCGR): the chunker every
  * outbound channel PDU goes through and the inbound accumulator.
  */
module VirtualChannel {
  import opened Bytes

  const PDU_HDR_LEN: nat := 8
  const CHUNK_SIZE: nat := 16000
  const FLAG_FIRST: u32 := 1
  const FLAG_LAST: u32 := 2

  predicate HasFirst(flags: u32) { flags % 2 == 1 }
  predicate HasLast(flags: u32) { flags / 2 % 2 == 1 }

  /** What the accumulator holds: nothing, or the `data` of a PDU announced as `cap` octets. */
  datatype Accumulator = Idle | Collecting(cap: nat, data: Bytes)

  datatype Outcome = Malformed | More | Complete(pdu: Bytes)

  datatype Fed = Fed(acc: Accumulator, outcome: Outcome)

  // ---- Inbound: one chunk ------------------------------------------------

  function FeedChunk(a: Accumulator, maxPdu: nat, frag: Bytes, total: u32, flags: u32): Fed {
    if HasFirst(flags) && HasLast(flags) then
      Fed(Idle, Complete(frag))
    else if HasFirst(flags) && (total == 0 || total > maxPdu) then
      Fed(Idle, Malformed)
    else
      var a' := if HasFirst(flags) then Collecting(total, []) else a;
      if a'.Idle? || |a'.data| + |frag| > a'.cap then
        Fed(Idle, Malformed)
      else
        var data := a'.data + frag;
        Fed(Collecting(a'.cap, data), if HasLast(flags) then Complete(data) else More)
  }

  function FeedPayload(a: Accumulator, maxPdu: nat, payload: Bytes): Fed {
    if |payload| < PDU_HDR_LEN then
      Fed(a, Malformed)
    else
      FeedChunk(a, maxPdu, payload[PDU_HDR_LEN..], Ld32(payload, 0), Ld32(payload, 4))
  }

  /** A rejected chunk leaves nothing behind, except that a payload too short
      for its header is rejected without touching the accumulator. */
  lemma ErrorLeavesAccumulatorEmpty(a: Accumulator, maxPdu: nat, payload: Bytes)
    requires FeedPayload(a, maxPdu, payload).outcome == Malformed
    ensures FeedPayload(a, maxPdu, payload).acc.Idle? <==> |payload| >= PDU_HDR_LEN || a.Idle?
  {
    if |payload| >= PDU_HDR_LEN {
      var flags := Ld32(payload, 4);
      assert !(HasFirst(flags) && HasLast(flags));
    }
  }

  /** The accumulator of the imperative model, with the buffer it owns. */
  class Reassembler {
    const maxPdu: nat
    var buf: array?<byte>
    var cap: nat
    var len: nat
    var active: bool

    ghost predicate Valid()
      reads this, buf
    {
      if active then buf != null && buf.Length == cap && len <= cap
      else buf == null && cap == 0 && len == 0
    }

    ghost function Contents(): Accumulator
      reads this, buf
      requires Valid()
    {
      if active then Collecting(cap, buf[..len]) else Idle
    }

    constructor (maxPdu: nat)
      ensures Valid() && Contents() == Idle && this.maxPdu == maxPdu
    {
      this.maxPdu := maxPdu;
      buf, cap, len, active := null, 0, 0, false;
    }

    method Reset()
      modifies this
      ensures Valid() && Contents() == Idle
    {
      buf, cap, len, active := null, 0, 0, false;
    }

    method Feed(frag: Bytes, total: u32, flags: u32) returns (o: Outcome)
      requires Valid()
      modifies this, buf
      ensures Valid()
      ensures buf == old(buf) || buf == null || fresh(buf)
      ensures Fed(Contents(), o) == FeedChunk(old(Contents()), maxPdu, frag, total, flags)
    {
      if HasFirst(flags) && HasLast(flags) {
        Reset();
        return Complete(frag);
      }
      if HasFirst(flags) {
        Reset();
        if total == 0 || total > maxPdu {
          return Malformed;
        }
        buf := new byte[total];
        cap, active := total, true;
      }
      if !active {
        return Malformed;
      }
      if |frag| > cap - len {
        Reset();
        return Malformed;
      }
      ghost var before := buf[..len];
      forall i | 0 <= i < |frag| {
        buf[len + i] := frag[i];
      }
      len := len + |frag|;
      assert buf[..len] == before + frag;
      if HasLast(flags) {
        return Complete(buf[..len]);
      }
      return More;
    }

    method FeedMessage(payload: Bytes) returns (o: Outcome)
      requires Valid()
      modifies this, buf
      ensures Valid()
      ensures buf == old(buf) || buf == null || fresh(buf)
      ensures Fed(Contents(), o) == FeedPayload(old(Contents()), maxPdu, payload)
    {
      if |payload| < PDU_HDR_LEN {
        return Malformed;
      }
      o := Feed(payload[PDU_HDR_LEN..], Ld32(payload, 0), Ld32(payload, 4));
    }
  }

  // ---- Outbound: the chunker ---------------------------------------------

  function ChunkLen(p: Bytes, off: nat): nat
    requires off <= |p|
  {
    Min(|p| - off, CHUNK_SIZE)
  }

  function ChunkFlags(p: Bytes, off: nat): u32
    requires off <= |p|
  {
    (if off == 0 then FLAG_FIRST else 0)
    + (if off + ChunkLen(p, off) >= |p| then FLAG_LAST else 0)
  }

  function Chunk(p: Bytes, off: nat): Bytes
    requires off <= |p|
  {
    Le32(|p| % U32) + Le32(ChunkFlags(p, off)) + p[off..off + ChunkLen(p, off)]
  }

  function ChunksFrom(p: Bytes, off: nat): seq<Bytes>
    requires off <= |p|
    decreases |p| - off
  {
    if off == |p| then [] else [Chunk(p, off)] + ChunksFrom(p, off + ChunkLen(p, off))
  }

  method SendPdu(p: Bytes) returns (sent: seq<Bytes>)
    ensures sent == ChunksFrom(p, 0)
  {
    sent := [];
    var off := 0;
    while off < |p|
      invariant off <= |p|
      invariant sent + ChunksFrom(p, off) == ChunksFrom(p, 0)
    {
      var chunk := |p| - off;
      if chunk > CHUNK_SIZE {
        chunk := CHUNK_SIZE;
      }
      var flags: u32 := 0;
      if off == 0 {
        flags := flags + FLAG_FIRST;
      }
      if off + chunk >= |p| {
        flags := flags + FLAG_LAST;
      }
      var c := Le32(|p| % U32) + Le32(flags) + p[off..off + chunk];
      NextChunk(sent, p, off);
      sent := sent + [c];
      off := off + chunk;
    }
  }

  lemma NextChunk(sent: seq<Bytes>, p: Bytes, off: nat)
    requires off < |p|
    ensures sent + ChunksFrom(p, off) == (sent + [Chunk(p, off)]) + ChunksFrom(p, off + ChunkLen(p, off))
  {}

  // ---- Whole runs --------------------------------------------------------

  datatype Run = Run(acc: Accumulator, outcomes: seq<Outcome>)

  /** One received payload; both dispatchers reset the accumulator after a complete PDU. */
  function Deliver(a: Accumulator, maxPdu: nat, payload: Bytes): Fed {
    var f := FeedPayload(a, maxPdu, payload);
    if f.outcome.Complete? then Fed(Idle, f.outcome) else f
  }

  function DeliverAll(a: Accumulator, maxPdu: nat, payloads: seq<Bytes>): Run
    decreases payloads
  {
    if payloads == [] then Run(a, [])
    else
      var f := Deliver(a, maxPdu, payloads[0]);
      var rest := DeliverAll(f.acc, maxPdu, payloads[1..]);
      Run(rest.acc, [f.outcome] + rest.outcomes)
  }

  /** `n - 1` times "more", then the PDU. */
  function Awaiting(n: nat, p: Bytes): seq<Outcome>
    requires n > 0
  {
    if n == 1 then [Complete(p)] else [More] + Awaiting(n - 1, p)
  }

  lemma ChunkFields(p: Bytes, off: nat)
    requires off <= |p|
    ensures |Chunk(p, off)| == PDU_HDR_LEN + ChunkLen(p, off)
    ensures Ld32(Chunk(p, off), 0) == |p| % U32
    ensures Ld32(Chunk(p, off), 4) == ChunkFlags(p, off)
    ensures Chunk(p, off)[PDU_HDR_LEN..] == p[off..off + ChunkLen(p, off)]
  {
    var total, flags, body := Le32(|p| % U32), Le32(ChunkFlags(p, off)), p[off..off + ChunkLen(p, off)];
    assert Chunk(p, off) == [] + total + (flags + body);
    Ld32OfLe32([], |p| % U32, flags + body);
    Ld32OfLe32(total, ChunkFlags(p, off), body);
  }

  lemma FirstOctetOfTwo()
    ensures FeedPayload(Idle, 16, [2, 0, 0, 0, 1, 0, 0, 0, 7]) == Fed(Collecting(2, [7]), More)
  {
    var p: Bytes := [2, 0, 0, 0, 1, 0, 0, 0, 7];
    assert p == [] + Le32(2) + (Le32(FLAG_FIRST) + [7]);
    Ld32OfLe32([], 2, Le32(FLAG_FIRST) + [7]);
    Ld32OfLe32(Le32(2), FLAG_FIRST, [7]);
    assert p[PDU_HDR_LEN..] == [7] == [] + [7];
  }

  /** So an error does not always leave it empty: the first octet of a two-octet PDU,
      then a payload of no octets at all. */
  lemma ShortPayloadKeepsFragment()
    ensures DeliverAll(Idle, 16, [[2, 0, 0, 0, 1, 0, 0, 0, 7], []]) == Run(Collecting(2, [7]), [More, Malformed])
  {
    FirstOctetOfTwo();
    var first: Bytes := [2, 0, 0, 0, 1, 0, 0, 0, 7];
    var none: seq<Bytes> := [[]];
    assert [first, []] == [first] + none && none == none + [];
    DeliverCons(Idle, 16, first, none);
    DeliverCons(Collecting(2, [7]), 16, [], []);
  }

  lemma FieldsFeed(a: Accumulator, maxPdu: nat, payload: Bytes, body: Bytes, total: u32, flags: u32)
    requires |payload| >= PDU_HDR_LEN && payload[PDU_HDR_LEN..] == body
    requires Ld32(payload, 0) == total && Ld32(payload, 4) == flags
    ensures FeedPayload(a, maxPdu, payload) == FeedChunk(a, maxPdu, body, total, flags)
  {}

  lemma ChunkFeeds(a: Accumulator, maxPdu: nat, p: Bytes, off: nat)
    requires off <= |p|
    ensures FeedPayload(a, maxPdu, Chunk(p, off))
         == FeedChunk(a, maxPdu, p[off..off + ChunkLen(p, off)], |p| % U32, ChunkFlags(p, off))
  {
    ChunkFields(p, off);
  }

  lemma FirstChunkFlags(p: Bytes)
    requires 0 < |p| < U32
    ensures var n := ChunkLen(p, 0);
            0 < n <= |p| && ChunkFlags(p, 0) == (FLAG_FIRST + if n == |p| then FLAG_LAST else 0) && |p| % U32 == |p|
  {}

  lemma FeedFirst(a: Accumulator, maxPdu: nat, p: Bytes, n: nat)
    requires 0 < |p| <= maxPdu && |p| < U32 && 0 < n <= |p|
    ensures FeedChunk(a, maxPdu, p[..n], |p|, FLAG_FIRST + if n == |p| then FLAG_LAST else 0)
         == if n == |p| then Fed(Idle, Complete(p)) else Fed(Collecting(|p|, p[..n]), More)
  {
    assert [] + p[..n] == p[..n] && p[..|p|] == p;
  }

  lemma DeliverNext(p: Bytes, off: nat, maxPdu: nat)
    requires 0 < off < |p| < U32
    ensures var n := ChunkLen(p, off);
            Deliver(Collecting(|p|, p[..off]), maxPdu, Chunk(p, off))
            == if off + n == |p| then Fed(Idle, Complete(p)) else Fed(Collecting(|p|, p[..off + n]), More)
  {
    var n := ChunkLen(p, off);
    ChunkFields(p, off);
    assert p[..off] + p[off..off + n] == p[..off + n];
    assert p[..|p|] == p;
  }

  lemma DeliverCons(a: Accumulator, maxPdu: nat, c: Bytes, rest: seq<Bytes>)
    ensures var f := Deliver(a, maxPdu, c);
            var r := DeliverAll(f.acc, maxPdu, rest);
            DeliverAll(a, maxPdu, [c] + rest) == Run(r.acc, [f.outcome] + r.outcomes)
  {
    assert ([c] + rest)[1..] == rest;
  }

  lemma {:induction false} DeliverTail(p: Bytes, off: nat, maxPdu: nat)
    requires 0 < off < |p| < U32
    ensures |ChunksFrom(p, off)| > 0
    ensures DeliverAll(Collecting(|p|, p[..off]), maxPdu, ChunksFrom(p, off))
         == Run(Idle, Awaiting(|ChunksFrom(p, off)|, p))
    decreases |p| - off
  {
    var n := ChunkLen(p, off);
    DeliverNext(p, off, maxPdu);
    DeliverCons(Collecting(|p|, p[..off]), maxPdu, Chunk(p, off), ChunksFrom(p, off + n));
    if off + n == |p| {
      assert [Complete(p)] + [] == [Complete(p)];
    } else {
      DeliverTail(p, off + n, maxPdu);
    }
  }

  lemma FeedHead(a: Accumulator, p: Bytes, maxPdu: nat, n: nat, flags: u32)
    requires |p| < U32 && n == ChunkLen(p, 0) && flags == ChunkFlags(p, 0)
    ensures FeedPayload(a, maxPdu, Chunk(p, 0)) == FeedChunk(a, maxPdu, p[..n], |p|, flags)
  {
    ChunkFields(p, 0);
    WholeModulus(|p|);
    assert p[0..n] == p[..n];
    FieldsFeed(a, maxPdu, Chunk(p, 0), p[..n], |p|, flags);
  }

  lemma WholeModulus(n: nat)
    requires n < U32
    ensures n % U32 == n
  {}

  lemma DeliverHead(a: Accumulator, p: Bytes, maxPdu: nat)
    requires 0 < |p| <= maxPdu && |p| < U32
    ensures var n := ChunkLen(p, 0);
            Deliver(a, maxPdu, Chunk(p, 0))
            == if n == |p| then Fed(Idle, Complete(p)) else Fed(Collecting(|p|, p[..n]), More)
  {
    var n := ChunkLen(p, 0);
    FirstChunkFlags(p);
    FeedFirst(a, maxPdu, p, n);
    FeedHead(a, p, maxPdu, n, ChunkFlags(p, 0));
  }

  /** From whatever an earlier history left in the accumulator, the chunks made
      from a PDU yield "more" for every chunk but the last and then that PDU. */
  lemma ChunksReassemble(a: Accumulator, p: Bytes, maxPdu: nat)
    requires 0 < |p| <= maxPdu && |p| < U32
    ensures |ChunksFrom(p, 0)| > 0
    ensures DeliverAll(a, maxPdu, ChunksFrom(p, 0)) == Run(Idle, Awaiting(|ChunksFrom(p, 0)|, p))
  {
    var n := ChunkLen(p, 0);
    DeliverHead(a, p, maxPdu);
    DeliverCons(a, maxPdu, Chunk(p, 0), ChunksFrom(p, n));
    if n == |p| {
      assert [Complete(p)] + [] == [Complete(p)];
    } else {
      DeliverTail(p, n, maxPdu);
    }
  }

  /** A PDU goes out in chunks of 16000 octets, the last one shorter. */
  lemma {:induction false} ChunkCount(p: Bytes, off: nat)
    requires off <= |p|
    ensures |ChunksFrom(p, off)| == (|p| - off + 15999) / 16000
    ensures forall i | 0 <= i < |ChunksFrom(p, off)| :: |ChunksFrom(p, off)[i]| <= 8 + 16000
    decreases |p| - off
  {
    if off < |p| {
      var next := off + ChunkLen(p, off);
      ChunkCount(p, next);
      ChunkFields(p, off);
      assert ChunksFrom(p, off) == [Chunk(p, off)] + ChunksFrom(p, next);
    }
  }

  // ---- Any peer's chunks -------------------------------------------------------

  /** A chunk as any peer may send it: only the two low bits of the flags, and the total of
      a first chunk, have a meaning here. */
  datatype Piece = Piece(total: u32, flags: u32, body: Bytes)

  function Octets(c: Piece): Bytes {
    Le32(c.total) + Le32(c.flags) + c.body
  }

  function Payloads(cs: seq<Piece>): seq<Bytes> {
    if cs == [] then [] else [Octets(cs[0])] + Payloads(cs[1..])
  }

  function Bodies(cs: seq<Piece>): seq<Bytes> {
    if cs == [] then [] else [cs[0].body] + Bodies(cs[1..])
  }

  lemma PieceFeeds(a: Accumulator, maxPdu: nat, c: Piece)
    ensures FeedPayload(a, maxPdu, Octets(c)) == FeedChunk(a, maxPdu, c.body, c.total, c.flags)
  {
    var s := Octets(c);
    assert s == [] + Le32(c.total) + (Le32(c.flags) + c.body);
    Ld32OfLe32([], c.total, Le32(c.flags) + c.body);
    Ld32OfLe32(Le32(c.total), c.flags, c.body);
    FieldsFeed(a, maxPdu, s, c.body, c.total, c.flags);
  }

  /** No chunk but the last is flagged LAST, and none FIRST. */
  predicate Later(cs: seq<Piece>) {
    && cs != []
    && forall i | 0 <= i < |cs| :: cs[i].flags % 2 == 0 && (cs[i].flags / 2 % 2 == 1 <==> i == |cs| - 1)
  }

  lemma DeliverLater(done: Bytes, c: Piece, rest: Bytes, p: Bytes, maxPdu: nat)
    requires c.flags % 2 == 0 && done + (c.body + rest) == p && (c.flags / 2 % 2 == 1 ==> rest == [])
    ensures Deliver(Collecting(|p|, done), maxPdu, Octets(c))
         == if c.flags / 2 % 2 == 1 then Fed(Idle, Complete(p)) else Fed(Collecting(|p|, done + c.body), More)
  {
    PieceFeeds(Collecting(|p|, done), maxPdu, c);
    assert |done| + |c.body| + |rest| == |p|;
    if rest == [] {
      assert c.body + rest == c.body;
    }
  }

  lemma {:induction false} LaterReassemble(done: Bytes, cs: seq<Piece>, p: Bytes, maxPdu: nat)
    requires Later(cs) && done + Concat(Bodies(cs)) == p
    ensures DeliverAll(Collecting(|p|, done), maxPdu, Payloads(cs)) == Run(Idle, Awaiting(|cs|, p))
    decreases |cs|
  {
    var c, more := cs[0], cs[1..];
    var rest := Concat(Bodies(more));
    assert Bodies(cs)[1..] == Bodies(more);
    DeliverLater(done, c, rest, p, maxPdu);
    DeliverCons(Collecting(|p|, done), maxPdu, Octets(c), Payloads(more));
    if more == [] {
      assert [Complete(p)] + [] == [Complete(p)];
    } else {
      Assoc(done, c.body, rest);
      LaterReassemble(done + c.body, more, p, maxPdu);
    }
  }

  /** Any split of a PDU into two or more chunks, whatever other flags they carry, is
      reassembled from any state of the accumulator; so is one chunk flagged both. */
  lemma AnySplitReassembles(a: Accumulator, cs: seq<Piece>, p: Bytes, maxPdu: nat)
    requires cs != [] && cs[0].flags % 2 == 1 && Concat(Bodies(cs)) == p
    requires if |cs| == 1 then cs[0].flags / 2 % 2 == 1
             else cs[0].flags / 2 % 2 == 0 && Later(cs[1..]) && cs[0].total == |p| && 0 < |p| <= maxPdu
    ensures DeliverAll(a, maxPdu, Payloads(cs)) == Run(Idle, Awaiting(|cs|, p))
  {
    var c, more := cs[0], cs[1..];
    assert Bodies(cs)[1..] == Bodies(more);
    PieceFeeds(a, maxPdu, c);
    DeliverCons(a, maxPdu, Octets(c), Payloads(more));
    if more == [] {
      assert c.body + [] == c.body && [Complete(p)] + [] == [Complete(p)];
    } else {
      assert [] + c.body == c.body;
      LaterReassemble(c.body, more, p, maxPdu);
    }
  }

  /** When a chunk is refused: a first one that announces nothing, more than the limit or
      less than it carries, a later one with nothing in progress or past the announced size.
      Otherwise the PDU is complete exactly with the chunk flagged last. */
  lemma OutcomeIff(a: Accumulator, maxPdu: nat, c: Piece)
    ensures var first, last := c.flags % 2 == 1, c.flags / 2 % 2 == 1;
            var o := FeedPayload(a, maxPdu, Octets(c)).outcome;
            && (o == Malformed <==>
                  || (first && !last && (c.total == 0 || c.total > maxPdu || |c.body| > c.total))
                  || (!first && (a == Idle || |a.data| + |c.body| > a.cap)))
            && (o.Complete? <==> o != Malformed && last)
  {
    PieceFeeds(a, maxPdu, c);
  }

  lemma LowBits(flags: u32)
    ensures HasFirst(flags % 4) == HasFirst(flags) && HasLast(flags % 4) == HasLast(flags)
  {}

  lemma FlagsDecide(a: Accumulator, maxPdu: nat, body: Bytes, total: u32, f: u32, g: u32)
    requires HasFirst(f) == HasFirst(g) && HasLast(f) == HasLast(g)
    ensures FeedChunk(a, maxPdu, body, total, f) == FeedChunk(a, maxPdu, body, total, g)
  {}

  /** What a chunk does depends on the two low bits of its flags alone. */
  lemma OtherFlagsAreIgnored(a: Accumulator, maxPdu: nat, total: u32, flags: u32, body: Bytes)
    ensures FeedPayload(a, maxPdu, Octets(Piece(total, flags, body)))
         == FeedPayload(a, maxPdu, Octets(Piece(total, flags % 4, body)))
  {
    PieceFeeds(a, maxPdu, Piece(total, flags, body));
    PieceFeeds(a, maxPdu, Piece(total, flags % 4, body));
    LowBits(flags);
    FlagsDecide(a, maxPdu, body, total, flags, flags % 4);
  }

  /** A PDU put together stays in the accumulator until the caller drops it; one that came
      in a single chunk was never there. */
  lemma CompletePduStays(a: Accumulator, maxPdu: nat, total: u32, flags: u32, body: Bytes)
    requires FeedChunk(a, maxPdu, body, total, flags).outcome.Complete?
    ensures var t := FeedChunk(a, maxPdu, body, total, flags);
            if flags % 4 == 3 then t.acc.Idle?
            else a.Collecting? && t.acc == Collecting(a.cap, t.outcome.pdu)
  {
    LowBits(flags);
  }

  /** The bodies of the chunks received since the last one flagged FIRST, oldest first. */
  function SinceFirst(payloads: seq<Bytes>): seq<Bytes> {
    if payloads == [] then []
    else
      var prior, last := payloads[..|payloads| - 1], payloads[|payloads| - 1];
      if |last| < PDU_HDR_LEN then SinceFirst(prior)
      else if HasFirst(Ld32(last, 4)) then [last[PDU_HDR_LEN..]]
      else SinceFirst(prior) + [last[PDU_HDR_LEN..]]
  }

  function AccAfter(maxPdu: nat, payloads: seq<Bytes>): Accumulator {
    if payloads == [] then Idle
    else Deliver(AccAfter(maxPdu, payloads[..|payloads| - 1]), maxPdu, payloads[|payloads| - 1]).acc
  }

  lemma {:induction false} AccHoldsFragments(maxPdu: nat, payloads: seq<Bytes>)
    ensures var a := AccAfter(maxPdu, payloads);
            a.Collecting? ==> a.data == Concat(SinceFirst(payloads)) && |a.data| <= a.cap <= maxPdu
  {
    if payloads != [] {
      var prior, last := payloads[..|payloads| - 1], payloads[|payloads| - 1];
      AccHoldsFragments(maxPdu, prior);
      if |last| >= PDU_HDR_LEN {
        ConcatAppend(SinceFirst(prior), last[PDU_HDR_LEN..]);
        assert Concat([last[PDU_HDR_LEN..]]) == last[PDU_HDR_LEN..];
      }
    }
  }

  /** Soundness on arbitrary input: whatever the peer sent before, a PDU is only
      ever the concatenation of the fragments since the last FIRST chunk. */
  lemma CompletePduIsItsFragments(maxPdu: nat, history: seq<Bytes>, payload: Bytes)
    requires Deliver(AccAfter(maxPdu, history), maxPdu, payload).outcome.Complete?
    ensures Deliver(AccAfter(maxPdu, history), maxPdu, payload).outcome.pdu
         == Concat(SinceFirst(history + [payload]))
  {
    var all := history + [payload];
    assert all[..|all| - 1] == history && all[|all| - 1] == payload;
    AccHoldsFragments(maxPdu, history);
    ConcatAppend(SinceFirst(history), payload[PDU_HDR_LEN..]);
    assert Concat([payload[PDU_HDR_LEN..]]) == payload[PDU_HDR_LEN..];
  }
}
