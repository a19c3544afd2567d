/**
  * Dynamic virtual channels from the octets a peer sends (section 2.2.3 of MS-RDPEDYC)
  * to the PDUs delivered.
  */
module DynamicWire {
  import opened Bytes
  import opened DynamicChannel

  // ---- What a peer puts on the wire ------------------------------------------

  /** A channel id or a total in 1, 2 or 4 octets (section 2.2.3 of MS-RDPEDYC). */
  predicate FieldFits(v: u32, form: nat) {
    form <= 2 && (form == 0 ==> v < 0x100) && (form == 1 ==> v < 0x1_0000)
  }

  function Field(v: u32, form: nat): Bytes
    requires FieldFits(v, form)
  {
    if form == 0 then [v] else if form == 1 then Le16(v) else Le32(v)
  }

  /** DATA_FIRST: Cmd 2, Len, cbId; channel id; total length; data. */
  function DataFirst(chan: u32, cb: nat, total: u32, len: nat, body: Bytes): Bytes
    requires FieldFits(chan, cb) && FieldFits(total, len)
  {
    [0x20 + 4 * len + cb] + Field(chan, cb) + Field(total, len) + body
  }

  /** DATA: Cmd 3, two bits without meaning, cbId; channel id; data. */
  function DataMore(chan: u32, cb: nat, sp: nat, body: Bytes): Bytes
    requires FieldFits(chan, cb) && sp < 4
  {
    [0x30 + 4 * sp + cb] + Field(chan, cb) + body
  }

  lemma FieldReads(v: u32, form: nat, rest: Bytes)
    requires FieldFits(v, form)
    ensures ReadChannelId(Field(v, form) + rest, form) == Some((v, |Field(v, form)|))
    ensures form == 1 ==> Ld16(Field(v, form) + rest, 0) == v
    ensures form == 2 ==> Ld32(Field(v, form) + rest, 0) == v
  {
    var s := [] + Field(v, form) + rest;
    assert s == Field(v, form) + rest;
    if form == 1 {
      Ld16OfLe16([], v, rest);
    } else if form == 2 {
      Ld32OfLe32([], v, rest);
    }
  }

  lemma ThreePieces(h: byte, a: Bytes, b: Bytes)
    ensures ([h] + a + b)[0] == h && ([h] + a + b)[1..] == a + b && ([h] + a + b)[1 + |a|..] == b
  {}

  lemma HeaderBits(cmd: nat, two: nat, cb: nat)
    requires cmd < 16 && two < 4 && cb < 4
    ensures var h := 16 * cmd + 4 * two + cb; h / 16 == cmd && h / 4 % 4 == two && h % 4 == cb
  {}

  /** The id of a data PDU was read, and `data` is left. */
  predicate IdIsRead(pdu: Bytes, chan: u32, data: Bytes) {
    && |pdu| > 0
    && var id := ReadChannelId(pdu[1..], pdu[0] % 4);
       id.Some? && id.value.0 == chan && 1 + id.value.1 <= |pdu| && pdu[1 + id.value.1..] == data
  }

  lemma IdReads(h: byte, chan: u32, cb: nat, data: Bytes)
    requires FieldFits(chan, cb) && h % 4 == cb
    ensures IdIsRead([h] + Field(chan, cb) + data, chan, data)
  {
    ThreePieces(h, Field(chan, cb), data);
    FieldReads(chan, cb, data);
  }

  lemma ParseMore(pdu: Bytes, chan: u32, data: Bytes)
    requires IdIsRead(pdu, chan, data) && pdu[0] / 16 == 3
    ensures Parse(pdu) == Data(chan, Fragment(false, 0, data))
  {}

  lemma ParseFirst(pdu: Bytes, chan: u32, data: Bytes, total: u32, len: nat, body: Bytes)
    requires IdIsRead(pdu, chan, data) && pdu[0] / 16 == 2 && pdu[0] / 4 % 4 == len
    requires FieldFits(total, len) && data == Field(total, len) + body
    ensures Parse(pdu) == Data(chan, Fragment(true, total, body))
  {
    FieldReads(total, len, body);
    assert data[|Field(total, len)|..] == body;
  }

  lemma DataMoreParses(chan: u32, cb: nat, sp: nat, body: Bytes)
    requires FieldFits(chan, cb) && sp < 4
    ensures Parse(DataMore(chan, cb, sp, body)) == Data(chan, Fragment(false, 0, body))
  {
    HeaderBits(3, sp, cb);
    IdReads(0x30 + 4 * sp + cb, chan, cb, body);
    ParseMore(DataMore(chan, cb, sp, body), chan, body);
  }

  lemma DataFirstParses(chan: u32, cb: nat, total: u32, len: nat, body: Bytes)
    requires FieldFits(chan, cb) && FieldFits(total, len)
    ensures Parse(DataFirst(chan, cb, total, len, body)) == Data(chan, Fragment(true, total, body))
  {
    var pdu, rest := DataFirst(chan, cb, total, len, body), Field(total, len) + body;
    assert pdu == [0x20 + 4 * len + cb] + Field(chan, cb) + rest;
    HeaderBits(2, len, cb);
    IdReads(0x20 + 4 * len + cb, chan, cb, rest);
    ParseFirst(pdu, chan, rest, total, len, body);
  }

  // ---- From the wire to the delivery -------------------------------------------

  /** The channel is one of the five, by the id it was given. */
  predicate IsOpen(ids: Ids, chan: u32) {
    || chan == ids.gfx || chan == ids.audioIn || chan == ids.touch
    || (chan == ids.camEnum && chan > 0) || (chan == ids.camDev && chan > 0)
  }

  /** Each of the five channels has a reassembler of its own, the earlier ones first. */
  lemma RouteByName(ids: Ids, chan: u32)
    requires chan < 0x8000_0000
    ensures Route(ids, chan) >= 0 <==> IsOpen(ids, chan)
    ensures chan == ids.gfx ==> Route(ids, chan) == 0
    ensures chan == ids.audioIn && chan != ids.gfx ==> Route(ids, chan) == 1
    ensures chan == ids.touch && chan != ids.gfx && chan != ids.audioIn ==> Route(ids, chan) == 2
    ensures chan == ids.camEnum > 0 && chan !in {ids.gfx, ids.audioIn, ids.touch} ==> Route(ids, chan) == 3
    ensures chan == ids.camDev > 0 && chan !in {ids.gfx, ids.audioIn, ids.touch, ids.camEnum} ==> Route(ids, chan) == 4
  {}

  ghost predicate CarriesFirst(w: Bytes, chan: u32, total: u32, body: Bytes) {
    exists cb, len :: FieldFits(chan, cb) && FieldFits(total, len) && w == DataFirst(chan, cb, total, len, body)
  }

  ghost predicate CarriesMore(w: Bytes, chan: u32, body: Bytes) {
    exists cb, sp: nat :: FieldFits(chan, cb) && sp < 4 && w == DataMore(chan, cb, sp, body)
  }

  /** The PDUs carry the parts: a DATA_FIRST announcing `total`, then DATA. */
  ghost predicate Carry(ws: seq<Bytes>, chan: u32, total: u32, parts: seq<Bytes>) {
    && |ws| == |parts| > 0 && CarriesFirst(ws[0], chan, total, parts[0])
    && forall i | 0 < i < |ws| :: CarriesMore(ws[i], chan, parts[i])
  }

  function Mores(parts: seq<Bytes>): seq<Fragment> {
    if parts == [] then [] else [Fragment(false, 0, parts[0])] + Mores(parts[1..])
  }

  function ParsedAll(ws: seq<Bytes>): seq<Fragment>
    requires forall i | 0 <= i < |ws| :: Parse(ws[i]).Data?
  {
    if ws == [] then [] else [Parse(ws[0]).f] + ParsedAll(ws[1..])
  }

  lemma {:induction false} OnlyForParses(pdus: seq<Bytes>, chan: u32)
    ensures (forall i | 0 <= i < |OnlyFor(pdus, chan)| :: Parse(OnlyFor(pdus, chan)[i]).Data?)
    ensures FragmentsFor(pdus, chan) == ParsedAll(OnlyFor(pdus, chan))
  {
    if pdus != [] {
      OnlyForParses(pdus[1..], chan);
      var rest := OnlyFor(pdus[1..], chan);
      if Addressed(pdus[0], chan) {
        assert OnlyFor(pdus, chan) == [pdus[0]] + rest && ([pdus[0]] + rest)[1..] == rest;
      } else {
        assert OnlyFor(pdus, chan) == rest;
      }
    }
  }

  lemma MoreIsParsed(w: Bytes, chan: u32, body: Bytes)
    requires CarriesMore(w, chan, body)
    ensures Parse(w) == Data(chan, Fragment(false, 0, body))
  {
    var cb, sp: nat :| FieldFits(chan, cb) && sp < 4 && w == DataMore(chan, cb, sp, body);
    DataMoreParses(chan, cb, sp, body);
  }

  lemma ParsedCons(w: Bytes, ws: seq<Bytes>)
    requires Parse(w).Data? && forall i | 0 <= i < |ws| :: Parse(ws[i]).Data?
    ensures forall i | 0 <= i < |[w] + ws| :: Parse(([w] + ws)[i]).Data?
    ensures ParsedAll([w] + ws) == [Parse(w).f] + ParsedAll(ws)
  {
    assert ([w] + ws)[1..] == ws;
  }

  lemma {:induction false} MoresParse(ws: seq<Bytes>, chan: u32, parts: seq<Bytes>)
    requires |ws| == |parts| && forall i | 0 <= i < |ws| :: CarriesMore(ws[i], chan, parts[i])
    ensures (forall i | 0 <= i < |ws| :: Parse(ws[i]).Data?) && ParsedAll(ws) == Mores(parts)
  {
    if ws != [] {
      MoreIsParsed(ws[0], chan, parts[0]);
      forall i | 0 <= i < |ws| - 1 ensures CarriesMore(ws[1..][i], chan, parts[1..][i]) {
        assert CarriesMore(ws[i + 1], chan, parts[i + 1]);
      }
      MoresParse(ws[1..], chan, parts[1..]);
      ParsedCons(ws[0], ws[1..]);
      assert ws == [ws[0]] + ws[1..];
    }
  }

  lemma FirstIsParsed(w: Bytes, chan: u32, total: u32, body: Bytes)
    requires CarriesFirst(w, chan, total, body)
    ensures Parse(w) == Data(chan, Fragment(true, total, body))
  {
    var cb, len :| FieldFits(chan, cb) && FieldFits(total, len) && w == DataFirst(chan, cb, total, len, body);
    DataFirstParses(chan, cb, total, len, body);
  }

  lemma TailCarries(ws: seq<Bytes>, chan: u32, total: u32, parts: seq<Bytes>)
    requires Carry(ws, chan, total, parts)
    ensures forall i | 0 <= i < |ws| - 1 :: CarriesMore(ws[1..][i], chan, parts[1..][i])
  {
    forall i | 0 <= i < |ws| - 1 ensures CarriesMore(ws[1..][i], chan, parts[1..][i]) {
      assert CarriesMore(ws[i + 1], chan, parts[i + 1]);
    }
  }

  lemma CarriedParse(ws: seq<Bytes>, chan: u32, total: u32, parts: seq<Bytes>)
    requires Carry(ws, chan, total, parts)
    ensures forall i | 0 <= i < |ws| :: Parse(ws[i]).Data?
    ensures ParsedAll(ws) == [Fragment(true, total, parts[0])] + Mores(parts[1..])
  {
    FirstIsParsed(ws[0], chan, total, parts[0]);
    TailCarries(ws, chan, total, parts);
    MoresParse(ws[1..], chan, parts[1..]);
    ParsedCons(ws[0], ws[1..]);
    assert ws == [ws[0]] + ws[1..];
  }

  /** `n - 1` times "more", then the PDU. */
  function Awaited(n: nat, p: Bytes): seq<Outcome>
    requires n > 0
  {
    if n == 1 then [Ready(p)] else [More] + Awaited(n - 1, p)
  }

  lemma FeedPart(s: Slot, body: Bytes, rest: Bytes, p: Bytes)
    requires SlotOk(s) && s.total == |p| > 0 && s.data + (body + rest) == p
    ensures Feed(s, Fragment(false, 0, body))
         == if rest == [] then (s.(total := 0, data := []), Ready(p)) else (s.(data := s.data + body), More)
  {
    assert |s.data| + |body| + |rest| == |p|;
    assert body[..|body|] == body;
    if rest == [] {
      assert body + rest == body;
    }
  }

  lemma OutcomesCons(s: Slot, f: Fragment, h: seq<Fragment>)
    requires SlotOk(s)
    ensures Outcomes(s, [f] + h) == [Feed(s, f).1] + Outcomes(Feed(s, f).0, h)
  {
    assert ([f] + h)[1..] == h;
  }

  lemma {:induction false} PartsDeliver(s: Slot, parts: seq<Bytes>, p: Bytes)
    requires SlotOk(s) && s.total == |p| > 0 && parts != [] && parts[|parts| - 1] != [] && s.data + Concat(parts) == p
    ensures Outcomes(s, Mores(parts)) == Awaited(|parts|, p)
    decreases |parts|
  {
    var more, rest := parts[1..], Concat(parts[1..]);
    LastIsThere(parts);
    FeedPart(s, parts[0], rest, p);
    OutcomesCons(s, Fragment(false, 0, parts[0]), Mores(more));
    if more != [] {
      var t := s.(data := s.data + parts[0]);
      assert t.data + rest == p by {
        Assoc(s.data, parts[0], rest);
      }
      PartsDeliver(t, more, p);
    }
  }

  lemma {:induction false} LastIsThere(parts: seq<Bytes>)
    requires parts != [] && parts[|parts| - 1] != []
    ensures Concat(parts[1..]) == [] <==> |parts| == 1
  {
    if |parts| > 1 {
      LastIsThere(parts[1..]);
    }
  }

  /** A DATA_FIRST starts over, whatever was in progress. */
  lemma FirstStartsOver(s: Slot, total: u32, body: Bytes)
    requires SlotOk(s) && GoodTotal(total)
    ensures SlotOk(Started(s, total))
    ensures Feed(s, Fragment(true, total, body)) == Feed(Started(s, total), Fragment(false, 0, body))
  {}

  lemma FirstThenMore(s: Slot, total: u32, body: Bytes, more: seq<Fragment>)
    requires SlotOk(s) && GoodTotal(total)
    ensures SlotOk(Started(s, total))
    ensures Outcomes(s, [Fragment(true, total, body)] + more)
         == Outcomes(Started(s, total), [Fragment(false, 0, body)] + more)
  {
    FirstStartsOver(s, total, body);
    OutcomesCons(s, Fragment(true, total, body), more);
    OutcomesCons(Started(s, total), Fragment(false, 0, body), more);
  }

  lemma SplitDelivers(s: Slot, parts: seq<Bytes>, p: Bytes)
    requires SlotOk(s) && 0 < |p| <= 0x40_0000 && parts != [] && parts[|parts| - 1] != [] && Concat(parts) == p
    ensures Outcomes(s, [Fragment(true, |p|, parts[0])] + Mores(parts[1..])) == Awaited(|parts|, p)
  {
    FirstThenMore(s, |p|, parts[0], Mores(parts[1..]));
    assert [] + p == p;
    PartsDeliver(Started(s, |p|), parts, p);
  }

  /** End to end: a PDU of up to 4 MiB, split into a DATA_FIRST and any DATA in any of the
      wire forms, on an open channel, from any state of the reassemblers and in any
      interleaving with other PDUs, is delivered whole with its last part. */
  lemma AnySplitIsDelivered(ids: Ids, slots: Slots, pdus: seq<Bytes>, chan: u32, parts: seq<Bytes>, p: Bytes)
    requires (forall x | x in pdus :: KeepsChannels(x)) && chan < 0x8000_0000 && IsOpen(ids, chan)
    requires 0 < |p| <= 0x40_0000 && parts != [] && parts[|parts| - 1] != [] && Concat(parts) == p
    requires Carry(OnlyFor(pdus, chan), chan, |p|, parts)
    ensures DeliveredOn(RunAll(ids, slots, pdus), chan) == Awaited(|parts|, p)
  {
    RouteByName(ids, chan);
    ChannelRunsAlone(ids, slots, pdus, chan);
    OnlyForParses(pdus, chan);
    CarriedParse(OnlyFor(pdus, chan), chan, |p|, parts);
    SplitDelivers(slots[Route(ids, chan)], parts, p);
  }

  /** A DATA on an open channel with nothing in progress is a PDU by itself. */
  lemma LoneDataIsDelivered(ids: Ids, slots: Slots, chan: u32, cb: nat, sp: nat, p: Bytes)
    requires chan < 0x8000_0000 && IsOpen(ids, chan) && FieldFits(chan, cb) && sp < 4
    requires Route(ids, chan) >= 0 ==> slots[Route(ids, chan)].total == 0
    ensures var pdu := DataMore(chan, cb, sp, p);
            KeepsChannels(pdu) && Handle(ids, slots, pdu) == Handled(slots, [Delivery(chan, Ready(p))])
  {
    RouteByName(ids, chan);
    DataMoreParses(chan, cb, sp, p);
    var i := Route(ids, chan);
    assert slots[i := slots[i]] == slots;
  }

  /** A total of zero or above 4 MiB is refused, and the channel then has nothing in progress. */
  lemma BadTotalIsRefused(ids: Ids, slots: Slots, chan: u32, cb: nat, total: u32, len: nat, body: Bytes)
    requires chan < 0x8000_0000 && IsOpen(ids, chan) && FieldFits(chan, cb) && FieldFits(total, len)
    requires total == 0 || total > 4194304
    ensures var pdu := DataFirst(chan, cb, total, len, body);
            && KeepsChannels(pdu) && Route(ids, chan) >= 0
            && Handle(ids, slots, pdu).out == [Delivery(chan, Bad)]
            && Handle(ids, slots, pdu).slots[Route(ids, chan)].total == 0
  {
    RouteByName(ids, chan);
    DataFirstParses(chan, cb, total, len, body);
  }
}
