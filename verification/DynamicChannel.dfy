/**
  * Dynamic virtual channels (MS-RDPEDYC): the DATA_FIRST / DATA reassembler of
  * one channel and the dispatch of inbound PDUs over all server-opened channels.
  */
module DynamicChannel {
  import opened Bytes

  const CMD_CREATE: nat := 1
  const CMD_DATA_FIRST: nat := 2
  const CMD_DATA: nat := 3
  const CMD_CLOSE: nat := 4
  const REASM_MAX: nat := 0x40_0000

  // ---- One channel's reassembler -----------------------------------------

  /** `total` is zero when no PDU is in progress; `cap` is the buffer kept between PDUs. */
  datatype Slot = Slot(cap: nat, total: nat, data: Bytes)

  const EMPTY: Slot := Slot(0, 0, [])

  /** Between calls, either nothing is in progress or len < total <= cap <= 4 MiB. */
  predicate SlotOk(s: Slot) {
    && s.cap <= REASM_MAX
    && if s.total == 0 then s.data == [] else |s.data| < s.total <= s.cap
  }

  /** One DATA_FIRST (`first`, declaring `total`) or DATA body. */
  datatype Fragment = Fragment(first: bool, total: u32, body: Bytes)

  datatype Outcome = Bad | More | Ready(pdu: Bytes)

  predicate GoodTotal(total: u32) { 0 < total <= REASM_MAX }

  function Feed(s: Slot, f: Fragment): (r: (Slot, Outcome))
    requires SlotOk(s)
    ensures SlotOk(r.0)
  {
    if f.first && !GoodTotal(f.total) then
      (s.(total := 0, data := []), Bad)
    else if !f.first && s.total == 0 then
      (s, Ready(f.body))
    else
      var s' := if f.first then Started(s, f.total) else s;
      var data := s'.data + f.body[..Min(|f.body|, s'.total - |s'.data|)];
      if |data| < s'.total then (s'.(data := data), More)
      else (s'.(total := 0, data := []), Ready(data))
  }

  /** A slot in which a PDU of this size begins. */
  function Started(s: Slot, total: u32): Slot {
    Slot(if total > s.cap then total else s.cap, total, [])
  }

  class Reassembler {
    var buf: array?<byte>
    var cap: nat
    var len: nat
    var total: nat

    ghost predicate Valid()
      reads this, buf
    {
      && (if buf == null then cap == 0 else buf.Length == cap)
      && len <= cap
      && SlotOk(Contents())
    }

    ghost function Contents(): Slot
      reads this, buf
    {
      Slot(cap, total, if buf == null || len > buf.Length then [] else buf[..len])
    }

    constructor ()
      ensures Valid() && Contents() == EMPTY && buf == null
    {
      buf, cap, len, total := null, 0, 0, 0;
    }

    /** Copies what still fits of `data` and hands the PDU over once it is whole. */
    method Append(data: Bytes) returns (o: Outcome)
      requires Valid() && total > 0
      modifies this, buf
      ensures Valid() && buf == old(buf)
      ensures (Contents(), o) == Feed(old(Contents()), Fragment(false, 0, data))
    {
      var n := |data|;
      if n > total - len {
        n := total - len;
      }
      ghost var before := buf[..len];
      forall i | 0 <= i < n {
        buf[len + i] := data[i];
      }
      len := len + n;
      assert buf[..len] == before + data[..n];
      if len < total {
        return More;
      }
      o := Ready(buf[..len]);
      len, total := 0, 0;
      assert buf[..len] == [];
    }

    method Clear()
      requires Valid()
      modifies this
      ensures Valid() && buf == old(buf) && Contents() == old(Contents()).(total := 0, data := [])
    {
      len, total := 0, 0;
      assert Contents().data == [];
    }

    /** A new PDU of this size, in a buffer that takes it. */
    method Start(totalLen: u32)
      requires Valid() && total == 0 && GoodTotal(totalLen)
      modifies this
      ensures Valid() && (buf == old(buf) || fresh(buf))
      ensures Contents() == Started(old(Contents()), totalLen)
    {
      if totalLen > cap {
        buf := new byte[totalLen];
        cap := totalLen;
      }
      total := totalLen;
      assert buf[..len] == [];
    }

    method FeedFragment(first: bool, totalLen: u32, data: Bytes) returns (o: Outcome)
      requires Valid()
      modifies this, buf
      ensures Valid()
      ensures buf == old(buf) || fresh(buf)
      ensures (Contents(), o) == Feed(old(Contents()), Fragment(first, totalLen, data))
    {
      if first {
        Clear();
        if totalLen == 0 || totalLen > REASM_MAX {
          return Bad;
        }
        Start(totalLen);
      } else if total == 0 {
        return Ready(data);
      }
      o := Append(data);
    }
  }

  // ---- What one channel delivers, over any history -----------------------

  function SlotAfter(h: seq<Fragment>): (s: Slot)
    ensures SlotOk(s)
  {
    if h == [] then EMPTY else Feed(SlotAfter(h[..|h| - 1]), h[|h| - 1]).0
  }

  /** The PDU in progress: its declared total and its fragments so far, unclamped. */
  datatype Open = Open(total: nat, parts: seq<Bytes>)

  function StillOpen(o: Open): Open {
    if |Concat(o.parts)| < o.total then o else Open(0, [])
  }

  /** The PDU `f` belongs to, given the one in progress before it. */
  function Extended(o: Open, f: Fragment): Open {
    if f.first then (if GoodTotal(f.total) then Open(f.total, [f.body]) else Open(0, []))
    else if o.total == 0 then o
    else Open(o.total, o.parts + [f.body])
  }

  function OpenAfter(h: seq<Fragment>): Open {
    if h == [] then Open(0, [])
    else StillOpen(Extended(OpenAfter(h[..|h| - 1]), h[|h| - 1]))
  }

  lemma ClampedAppend(a: Bytes, b: Bytes, total: nat)
    requires |a| < total
    ensures a + b[..Min(|b|, total - |a|)] == (a + b)[..Min(|a + b|, total)]
  {}

  lemma {:induction false} SlotTracksOpen(h: seq<Fragment>)
    ensures SlotAfter(h).total == OpenAfter(h).total
    ensures SlotAfter(h).data == Concat(OpenAfter(h).parts)
  {
    if h != [] {
      var prior, f := h[..|h| - 1], h[|h| - 1];
      SlotTracksOpen(prior);
      var s, o := SlotAfter(prior), OpenAfter(prior);
      ConcatAppend(o.parts, f.body);
      assert Concat([f.body]) == f.body == [] + f.body;
      if f.first {
        if GoodTotal(f.total) {
          ClampedAppend([], f.body, f.total);
        }
      } else if s.total > 0 {
        ClampedAppend(s.data, f.body, s.total);
      }
    }
  }

  /** What a fragment should deliver, given the PDU in progress before it. */
  function Clamped(o: Open, f: Fragment): Outcome {
    var e := Extended(o, f);
    if f.first && !GoodTotal(f.total) then Bad
    else if e.total == 0 then Ready(f.body)
    else if |Concat(e.parts)| < e.total then More
    else Ready(Concat(e.parts)[..e.total])
  }

  /** Every reassembled PDU is exactly the first `total` octets of its fragments'
      concatenation; a DATA with nothing in progress is a PDU by itself. */
  lemma DeliveredPduIsClampedConcatenation(h: seq<Fragment>, f: Fragment)
    ensures Feed(SlotAfter(h), f).1 == Clamped(OpenAfter(h), f)
  {
    SlotTracksOpen(h);
    var s, o := SlotAfter(h), OpenAfter(h);
    ConcatAppend(o.parts, f.body);
    assert Concat([f.body]) == f.body == [] + f.body;
    if f.first {
      if GoodTotal(f.total) {
        ClampedAppend([], f.body, f.total);
      }
    } else if s.total > 0 {
      ClampedAppend(s.data, f.body, s.total);
    }
  }

  // ---- Dispatch over all channels ----------------------------------------

  /** The ids of the channels with a reassembler, in the order they are tried;
      -1 for a channel that is not open. */
  datatype Ids = Ids(gfx: int, audioIn: int, touch: int, camEnum: int, camDev: int)

  const CHANNELS: nat := 5

  /** The C cast from uint32_t to int. */
  function AsInt(id: u32): int {
    if id < 0x8000_0000 then id else id - U32
  }

  function ReadChannelId(p: Bytes, cbId: nat): Option<(u32, nat)> {
    match cbId
    case 0 => if |p| < 1 then None else Some((p[0], 1))
    case 1 => if |p| < 2 then None else Some((Ld16(p, 0), 2))
    case 2 => if |p| < 4 then None else Some((Ld32(p, 0), 4))
    case _ => None
  }

  datatype Message = Garbled | ChannelChange | Other | Data(chan: u32, f: Fragment)

  function Command(pdu: Bytes): nat
    requires |pdu| > 0
  {
    pdu[0] / 16
  }

  function Parse(pdu: Bytes): Message {
    if |pdu| < 1 then Garbled
    else if Command(pdu) == CMD_CREATE || Command(pdu) == CMD_CLOSE then ChannelChange
    else if Command(pdu) != CMD_DATA && Command(pdu) != CMD_DATA_FIRST then Other
    else
      var id := ReadChannelId(pdu[1..], pdu[0] % 4);
      if id.None? then Garbled
      else
        var data := pdu[1 + id.value.1..];
        if Command(pdu) == CMD_DATA then Data(id.value.0, Fragment(false, 0, data))
        else
          match pdu[0] / 4 % 4
          case 0 => if |data| < 1 then Garbled else Data(id.value.0, Fragment(true, data[0], data[1..]))
          case 1 => if |data| < 2 then Garbled else Data(id.value.0, Fragment(true, Ld16(data, 0), data[2..]))
          case 2 => if |data| < 4 then Garbled else Data(id.value.0, Fragment(true, Ld32(data, 0), data[4..]))
          case _ => Data(id.value.0, Fragment(true, 0, data))
  }

  /** The reassembler a channel id is fed to, or -1. */
  function Route(ids: Ids, chan: u32): (i: int)
    ensures -1 <= i < CHANNELS
  {
    var c := AsInt(chan);
    if c == ids.gfx then 0
    else if c == ids.audioIn && ids.audioIn >= 0 then 1
    else if c == ids.touch && ids.touch >= 0 then 2
    else if c == ids.camEnum && ids.camEnum > 0 then 3
    else if c == ids.camDev && ids.camDev > 0 then 4
    else -1
  }

  /** Two channel ids never share a reassembler, whichever channels are open. */
  lemma RouteIsInjective(ids: Ids, c1: u32, c2: u32)
    requires Route(ids, c1) == Route(ids, c2) >= 0
    ensures c1 == c2
  {
    assert AsInt(c1) == AsInt(c2);
  }

  type Slots = s: seq<Slot> | |s| == CHANNELS && forall i | 0 <= i < CHANNELS :: SlotOk(s[i])
    witness seq(CHANNELS, i => EMPTY)

  datatype Delivery = Delivery(chan: u32, outcome: Outcome)

  datatype Handled = Handled(slots: Slots, out: seq<Delivery>)

  /** A PDU that neither creates nor closes a channel, so `ids` stays as it is. */
  predicate KeepsChannels(pdu: Bytes) { !Parse(pdu).ChannelChange? }

  function Handle(ids: Ids, slots: Slots, pdu: Bytes): Handled
    requires KeepsChannels(pdu)
  {
    match Parse(pdu)
    case Data(chan, f) =>
      var i := Route(ids, chan);
      if i < 0 then Handled(slots, [])
      else
        var (s, o) := Feed(slots[i], f);
        Handled(slots[i := s], [Delivery(chan, o)])
    case _ => Handled(slots, [])
  }

  class Dispatcher {
    const ids: Ids
    const reasm: seq<Reassembler>

    ghost predicate Valid()
      reads this, reasm, set r | r in reasm :: r.buf
    {
      && |reasm| == CHANNELS
      && (forall i | 0 <= i < CHANNELS :: reasm[i].Valid())
      && (forall i, j | 0 <= i < j < CHANNELS :: reasm[i] != reasm[j])
      && (forall i, j | 0 <= i < j < CHANNELS :: reasm[i].buf == null || reasm[i].buf != reasm[j].buf)
    }

    ghost function Contents(): (s: Slots)
      reads this, reasm, set r | r in reasm :: r.buf
      requires Valid()
      ensures forall i | 0 <= i < CHANNELS :: s[i] == reasm[i].Contents()
    {
      seq(CHANNELS, i requires 0 <= i < CHANNELS && Valid()
                    reads this, reasm, set r | r in reasm :: r.buf => reasm[i].Contents())
    }

    /** Takes over five reassemblers that hold no buffer yet. */
    constructor (ids: Ids, reasm: seq<Reassembler>)
      requires |reasm| == CHANNELS && forall i | 0 <= i < CHANNELS :: reasm[i].Valid() && reasm[i].buf == null
      requires forall i, j | 0 <= i < j < CHANNELS :: reasm[i] != reasm[j]
      ensures Valid() && this.ids == ids && this.reasm == reasm
    {
      this.ids, this.reasm := ids, reasm;
    }

    /** Feeds one reassembler; the others keep what they hold. */
    method FeedChannel(i: nat, f: Fragment) returns (o: Outcome)
      requires Valid() && i < CHANNELS
      modifies reasm, set r | r in reasm :: r.buf
      ensures Valid()
      ensures Contents() == old(Contents())[i := Feed(old(Contents())[i], f).0]
      ensures o == Feed(old(Contents())[i], f).1
    {
      ghost var was := Contents();
      o := reasm[i].FeedFragment(f.first, f.total, f.body);
      forall j | 0 <= j < CHANNELS && j != i
        ensures reasm[j].Valid() && reasm[j].Contents() == was[j]
      {
        assert reasm[j] != reasm[i];
      }
      ghost var now := Contents();
      assert forall j | 0 <= j < CHANNELS && j != i :: now[j] == was[j];
      assert now == was[i := now[i]];
    }

    method HandlePdu(pdu: Bytes) returns (out: seq<Delivery>)
      requires Valid() && KeepsChannels(pdu)
      modifies reasm, set r | r in reasm :: r.buf
      ensures Valid()
      ensures Handled(Contents(), out) == Handle(ids, old(Contents()), pdu)
    {
      out := [];
      match Parse(pdu)
      case Data(chan, f) =>
        var i := Route(ids, chan);
        if i >= 0 {
          var o := FeedChannel(i, f);
          out := [Delivery(chan, o)];
        }
      case _ =>
    }
  }

  const NO_PDUS: Slots := seq(CHANNELS, i => EMPTY)

  /** The dispatcher of a new connection. */
  method NewDispatcher(ids: Ids) returns (d: Dispatcher)
    ensures fresh(d) && fresh(d.reasm) && d.Valid() && d.ids == ids && d.Contents() == NO_PDUS
  {
    var reasm: seq<Reassembler> := [];
    while |reasm| < CHANNELS
      invariant |reasm| <= CHANNELS && fresh(reasm)
      invariant forall i | 0 <= i < |reasm| ::
        reasm[i].Valid() && reasm[i].buf == null && reasm[i].Contents() == EMPTY
      invariant forall i, j | 0 <= i < j < |reasm| :: reasm[i] != reasm[j]
    {
      var r := new Reassembler();
      reasm := reasm + [r];
    }
    d := new Dispatcher(ids, reasm);
    assert d.Contents() == NO_PDUS;
  }

  // ---- Non-interference --------------------------------------------------

  function RunAll(ids: Ids, slots: Slots, pdus: seq<Bytes>): seq<Delivery>
    requires forall p | p in pdus :: KeepsChannels(p)
    decreases pdus
  {
    if pdus == [] then []
    else
      var h := Handle(ids, slots, pdus[0]);
      h.out + RunAll(ids, h.slots, pdus[1..])
  }

  predicate Addressed(pdu: Bytes, chan: u32) {
    Parse(pdu).Data? && Parse(pdu).chan == chan
  }

  function OnlyFor(pdus: seq<Bytes>, chan: u32): (r: seq<Bytes>)
    ensures forall p | p in r :: p in pdus && Addressed(p, chan)
  {
    if pdus == [] then []
    else (if Addressed(pdus[0], chan) then [pdus[0]] else []) + OnlyFor(pdus[1..], chan)
  }

  function DeliveredOn(out: seq<Delivery>, chan: u32): seq<Outcome> {
    if out == [] then []
    else (if out[0].chan == chan then [out[0].outcome] else []) + DeliveredOn(out[1..], chan)
  }

  lemma {:induction false} DeliveredOnAppend(a: seq<Delivery>, b: seq<Delivery>, chan: u32)
    ensures DeliveredOn(a + b, chan) == DeliveredOn(a, chan) + DeliveredOn(b, chan)
  {
    if a == [] {
      assert a + b == b;
    } else {
      assert (a + b)[0] == a[0] && (a + b)[1..] == a[1..] + b;
      DeliveredOnAppend(a[1..], b, chan);
      var head := if a[0].chan == chan then [a[0].outcome] else [];
      assert DeliveredOn(a + b, chan) == head + (DeliveredOn(a[1..], chan) + DeliveredOn(b, chan));
    }
  }

  /** Two dispatchers that agree on the reassembler of `chan`. */
  predicate AgreeOn(ids: Ids, chan: u32, s: Slots, t: Slots) {
    Route(ids, chan) >= 0 ==> s[Route(ids, chan)] == t[Route(ids, chan)]
  }

  lemma ForeignPduIsInvisible(ids: Ids, chan: u32, s: Slots, pdu: Bytes)
    requires KeepsChannels(pdu) && !Addressed(pdu, chan)
    ensures AgreeOn(ids, chan, Handle(ids, s, pdu).slots, s)
    ensures DeliveredOn(Handle(ids, s, pdu).out, chan) == []
  {
    if Parse(pdu).Data? && Route(ids, Parse(pdu).chan) >= 0 && Route(ids, Parse(pdu).chan) == Route(ids, chan) {
      RouteIsInjective(ids, Parse(pdu).chan, chan);
    }
  }

  lemma {:induction false} AgreeingRunsDeliverAlike(ids: Ids, s: Slots, t: Slots, pdus: seq<Bytes>, chan: u32)
    requires forall p | p in pdus :: KeepsChannels(p)
    requires AgreeOn(ids, chan, s, t)
    ensures DeliveredOn(RunAll(ids, s, pdus), chan) == DeliveredOn(RunAll(ids, t, OnlyFor(pdus, chan)), chan)
    decreases pdus
  {
    if pdus != [] {
      var pdu := pdus[0];
      var h := Handle(ids, s, pdu);
      DeliveredOnAppend(h.out, RunAll(ids, h.slots, pdus[1..]), chan);
      if Addressed(pdu, chan) {
        var k := Handle(ids, t, pdu);
        assert OnlyFor(pdus, chan)[0] == pdu && OnlyFor(pdus, chan)[1..] == OnlyFor(pdus[1..], chan);
        DeliveredOnAppend(k.out, RunAll(ids, k.slots, OnlyFor(pdus[1..], chan)), chan);
        AgreeingRunsDeliverAlike(ids, h.slots, k.slots, pdus[1..], chan);
      } else {
        ForeignPduIsInvisible(ids, chan, s, pdu);
        AgreeingRunsDeliverAlike(ids, h.slots, t, pdus[1..], chan);
        assert OnlyFor(pdus, chan) == OnlyFor(pdus[1..], chan);
      }
    }
  }

  /** For any interleaving of PDUs over the open channels, what one channel
      delivers is what it delivers when fed its own PDUs alone. */
  lemma ChannelsDoNotInterfere(ids: Ids, slots: Slots, pdus: seq<Bytes>, chan: u32)
    requires forall p | p in pdus :: KeepsChannels(p)
    ensures DeliveredOn(RunAll(ids, slots, pdus), chan)
         == DeliveredOn(RunAll(ids, slots, OnlyFor(pdus, chan)), chan)
  {
    AgreeingRunsDeliverAlike(ids, slots, slots, pdus, chan);
  }

  // ---- What a channel delivers, in any interleaving --------------------------

  function FragmentsFor(pdus: seq<Bytes>, chan: u32): seq<Fragment> {
    if pdus == [] then []
    else (if Addressed(pdus[0], chan) then [Parse(pdus[0]).f] else []) + FragmentsFor(pdus[1..], chan)
  }

  function Outcomes(s: Slot, h: seq<Fragment>): seq<Outcome>
    requires SlotOk(s)
    decreases h
  {
    if h == [] then [] else [Feed(s, h[0]).1] + Outcomes(Feed(s, h[0]).0, h[1..])
  }

  /** The clamped concatenations a history delivers, from the PDU in progress on. */
  function ClampedFrom(o: Open, h: seq<Fragment>): seq<Outcome>
    decreases h
  {
    if h == [] then [] else [Clamped(o, h[0])] + ClampedFrom(StillOpen(Extended(o, h[0])), h[1..])
  }

  lemma {:induction false} OutcomesAreClamped(done: seq<Fragment>, h: seq<Fragment>)
    ensures Outcomes(SlotAfter(done), h) == ClampedFrom(OpenAfter(done), h)
    decreases h
  {
    if h != [] {
      DeliveredPduIsClampedConcatenation(done, h[0]);
      assert (done + [h[0]])[..|done|] == done;
      OutcomesAreClamped(done + [h[0]], h[1..]);
    }
  }

  lemma FirstOnChannel(ids: Ids, s: Slots, pdu: Bytes, chan: u32)
    requires KeepsChannels(pdu) && Addressed(pdu, chan) && Route(ids, chan) >= 0
    ensures var i, f := Route(ids, chan), Parse(pdu).f;
            && Handle(ids, s, pdu).slots[i] == Feed(s[i], f).0
            && DeliveredOn(Handle(ids, s, pdu).out, chan) == [Feed(s[i], f).1]
  {
    var o := Feed(s[Route(ids, chan)], Parse(pdu).f).1;
    assert [Delivery(chan, o)][1..] == [];
    assert [o] + [] == [o];
  }

  lemma {:induction false} ChannelRunsAlone(ids: Ids, s: Slots, pdus: seq<Bytes>, chan: u32)
    requires (forall p | p in pdus :: KeepsChannels(p)) && Route(ids, chan) >= 0
    ensures DeliveredOn(RunAll(ids, s, pdus), chan) == Outcomes(s[Route(ids, chan)], FragmentsFor(pdus, chan))
    decreases pdus
  {
    if pdus != [] {
      var h, more := Handle(ids, s, pdus[0]), FragmentsFor(pdus[1..], chan);
      DeliveredOnAppend(h.out, RunAll(ids, h.slots, pdus[1..]), chan);
      ChannelRunsAlone(ids, h.slots, pdus[1..], chan);
      if Addressed(pdus[0], chan) {
        FirstOnChannel(ids, s, pdus[0], chan);
        assert ([Parse(pdus[0]).f] + more)[1..] == more;
      } else {
        ForeignPduIsInvisible(ids, chan, s, pdus[0]);
        assert FragmentsFor(pdus, chan) == more;
      }
    }
  }

  /** On a new connection, in any interleaving, what an open channel delivers is the
      clamped concatenations of its own fragments. */
  lemma ChannelDeliversItsOwnPdus(ids: Ids, pdus: seq<Bytes>, chan: u32)
    requires (forall p | p in pdus :: KeepsChannels(p)) && Route(ids, chan) >= 0
    ensures DeliveredOn(RunAll(ids, NO_PDUS, pdus), chan) == ClampedFrom(Open(0, []), FragmentsFor(pdus, chan))
  {
    ChannelRunsAlone(ids, NO_PDUS, pdus, chan);
    OutcomesAreClamped([], FragmentsFor(pdus, chan));
  }
}
