/**
  * The redirected-device table of a connection and the Device List Announce
  * message that fills it (sections 2.2.2.9 and 2.2.1.3 of MS-RDPEFS).
  */
module DeviceTable {
  import opened Bytes

  const CTYP_CORE: u16 := 0x4472
  const PAKID_DEVICE_LIST: u16 := 0x4441

  const MAX_DEVICES: nat := 32
  const DTYP_PRINT: u32 := 4
  const ENTRY_HDR: nat := 20

  datatype Device = Device(id: u32, kind: u32)

  /** The type of the first device with this id. */
  function Kind(devices: seq<Device>, id: u32): Option<u32> {
    if devices == [] then None
    else if devices[0].id == id then Some(devices[0].kind)
    else Kind(devices[1..], id)
  }

  predicate IsPrinter(devices: seq<Device>, id: u32) {
    Kind(devices, id) == Some(DTYP_PRINT)
  }

  /** The device records of an announce body, up to the declared count, the end
      of the body or the first record that runs past it. */
  function Entries(body: Bytes, off: nat, count: nat): seq<Device>
    decreases count
  {
    if count == 0 || off + ENTRY_HDR > |body| then []
    else
      var n := Ld32(body, off + 16);
      if n > |body| - off - ENTRY_HDR then []
      else [Device(Ld32(body, off + 4), Ld32(body, off))] + Entries(body, off + ENTRY_HDR + n, count - 1)
  }

  function Announced(body: Bytes): seq<Device> {
    if |body| < 4 then [] else Entries(body, 4, Ld32(body, 0))
  }

  function Register(devices: seq<Device>, d: Device): seq<Device> {
    if Kind(devices, d.id).Some? || |devices| >= MAX_DEVICES then devices else devices + [d]
  }

  function RegisterAll(devices: seq<Device>, ds: seq<Device>): seq<Device>
    decreases ds
  {
    if ds == [] then devices else RegisterAll(Register(devices, ds[0]), ds[1..])
  }

  lemma {:induction false} KindOfAppend(devices: seq<Device>, d: Device, id: u32)
    ensures Kind(devices + [d], id)
         == if Kind(devices, id).Some? then Kind(devices, id) else if d.id == id then Some(d.kind) else None
  {
    if devices == [] {
      assert devices + [d] == [d] && [d][1..] == [];
    } else {
      assert (devices + [d])[0] == devices[0] && (devices + [d])[1..] == devices[1..] + [d];
      KindOfAppend(devices[1..], d, id);
    }
  }

  /** An announced id keeps its type, and the table stays within its bound,
      however many lists the client announces. */
  lemma {:induction false} AnnouncedTypeNeverChanges(devices: seq<Device>, ds: seq<Device>, id: u32)
    requires |devices| <= MAX_DEVICES
    ensures |RegisterAll(devices, ds)| <= MAX_DEVICES
    ensures Kind(devices, id).Some? ==> Kind(RegisterAll(devices, ds), id) == Kind(devices, id)
    decreases ds
  {
    if ds != [] {
      KindOfAppend(devices, ds[0], id);
      AnnouncedTypeNeverChanges(Register(devices, ds[0]), ds[1..], id);
    }
  }

  // ---- The announcement on the wire ----------------------------------------------

  /** A device record: type, id, eight octets of name, and its data with their length. */
  datatype Announce = Announce(kind: u32, id: u32, name: Bytes, data: Bytes)

  predicate OneOk(r: Announce) {
    |r.name| == 8 && |r.data| < U32
  }

  predicate AllOk(rs: seq<Announce>) {
    forall i | 0 <= i < |rs| :: OneOk(rs[i])
  }

  function OneOctets(r: Announce): Bytes
    requires OneOk(r)
  {
    Le32(r.kind) + Le32(r.id) + r.name + Le32(|r.data|) + r.data
  }

  function AnnounceOctets(rs: seq<Announce>): Bytes
    requires AllOk(rs)
  {
    if rs == [] then [] else OneOctets(rs[0]) + AnnounceOctets(rs[1..])
  }

  function Devices(rs: seq<Announce>): seq<Device> {
    if rs == [] then [] else [Device(rs[0].id, rs[0].kind)] + Devices(rs[1..])
  }

  lemma OneFields(pre: Bytes, r: Announce, post: Bytes)
    requires OneOk(r)
    ensures var s, at := pre + OneOctets(r) + post, |pre|;
            && at + 20 + |r.data| <= |s| && Ld32(s, at) == r.kind && Ld32(s, at + 4) == r.id
            && Ld32(s, at + 16) == |r.data|
  {
    var s := pre + OneOctets(r) + post;
    var tail := Le32(|r.data|) + r.data + post;
    assert s == pre + Le32(r.kind) + (Le32(r.id) + r.name + tail);
    Ld32OfLe32(pre, r.kind, Le32(r.id) + r.name + tail);
    assert s == (pre + Le32(r.kind)) + Le32(r.id) + (r.name + tail);
    Ld32OfLe32(pre + Le32(r.kind), r.id, r.name + tail);
    var head := pre + Le32(r.kind) + Le32(r.id) + r.name;
    assert s == head + Le32(|r.data|) + (r.data + post);
    Ld32OfLe32(head, |r.data|, r.data + post);
  }

  lemma EntriesStep(s: Bytes, off: nat, count: nat, kind: u32, id: u32, n: u32)
    requires count > 0 && off + 20 + n <= |s|
             && Ld32(s, off) == kind && Ld32(s, off + 4) == id && Ld32(s, off + 16) == n
    ensures Entries(s, off, count) == [Device(id, kind)] + Entries(s, off + 20 + n, count - 1)
  {}

  /** The records from `off` on announce these devices. */
  predicate Lists(s: Bytes, off: nat, ds: seq<Device>) {
    Entries(s, off, |ds|) == ds
  }

  lemma ListsOneMore(s: Bytes, pre: Bytes, r: Announce, rest: Bytes, ds: seq<Device>)
    requires OneOk(r) && s == pre + OneOctets(r) + rest && Lists(s, |pre + OneOctets(r)|, ds)
    ensures Lists(s, |pre|, [Device(r.id, r.kind)] + ds)
  {
    OneFields(pre, r, rest);
    EntriesStep(s, |pre|, |ds| + 1, r.kind, r.id, |r.data|);
  }

  lemma {:induction false} EntriesReadBack(s: Bytes, pre: Bytes, rs: seq<Announce>)
    requires AllOk(rs) && s == pre + AnnounceOctets(rs)
    ensures Lists(s, |pre|, Devices(rs)) && |Devices(rs)| == |rs|
    decreases |rs|
  {
    if rs == [] {
      assert Lists(s, |pre|, []);
    } else {
      var r, rest := rs[0], AnnounceOctets(rs[1..]);
      Assoc(pre, OneOctets(r), rest);
      EntriesReadBack(s, pre + OneOctets(r), rs[1..]);
      ListsOneMore(s, pre, r, rest, Devices(rs[1..]));
    }
  }

  lemma CountThen(n: u32, body: Bytes)
    ensures Announced(Le32(n) + body) == Entries(Le32(n) + body, 4, n)
  {
    assert Le32(n) + body == [] + Le32(n) + body;
    Ld32OfLe32([], n, body);
  }

  /** A list of records announces exactly their ids and types, in order. */
  lemma AnnouncementReadsBack(rs: seq<Announce>)
    requires AllOk(rs) && |rs| < U32
    ensures Announced(Le32(|rs|) + AnnounceOctets(rs)) == Devices(rs)
  {
    CountThen(|rs|, AnnounceOctets(rs));
    EntriesReadBack(Le32(|rs|) + AnnounceOctets(rs), Le32(|rs|), rs);
  }

  /** While there is room, a new id gets the type it is first announced with. */
  lemma {:induction false} NewIdGetsItsType(devices: seq<Device>, ds: seq<Device>, id: u32)
    requires |devices| + |ds| <= 32 && Kind(devices, id).None?
    ensures Kind(RegisterAll(devices, ds), id) == Kind(ds, id)
    decreases ds
  {
    if ds != [] {
      KindOfAppend(devices, ds[0], id);
      if ds[0].id == id {
        AnnouncedTypeNeverChanges(Register(devices, ds[0]), ds[1..], id);
      } else {
        NewIdGetsItsType(Register(devices, ds[0]), ds[1..], id);
      }
    }
  }

  method FindKind(devices: seq<Device>, id: u32) returns (k: Option<u32>)
    ensures k == Kind(devices, id)
  {
    var i := 0;
    while i < |devices|
      invariant i <= |devices|
      invariant Kind(devices, id) == Kind(devices[i..], id)
    {
      assert devices[i..][1..] == devices[i + 1..];
      if devices[i].id == id {
        return Some(devices[i].kind);
      }
      i := i + 1;
    }
    return None;
  }

  /** The table once the records from `off` on are registered too. */
  function Registered(devices: seq<Device>, body: Bytes, off: nat, count: nat): seq<Device> {
    RegisterAll(devices, Entries(body, off, count))
  }

  function RecordAt(body: Bytes, off: nat): Device
    requires off + ENTRY_HDR <= |body|
  {
    Device(Ld32(body, off + 4), Ld32(body, off))
  }

  function RecordEnd(body: Bytes, off: nat): nat
    requires off + ENTRY_HDR <= |body|
  {
    off + ENTRY_HDR + Ld32(body, off + 16)
  }

  lemma RegisterNext(devices: seq<Device>, body: Bytes, off: nat, count: nat)
    requires count > 0 && off + ENTRY_HDR <= |body| && RecordEnd(body, off) <= |body|
    ensures Registered(devices, body, off, count)
         == Registered(Register(devices, RecordAt(body, off)), body, RecordEnd(body, off), count - 1)
  {
    var rest := Entries(body, RecordEnd(body, off), count - 1);
    assert Entries(body, off, count) == [RecordAt(body, off)] + rest;
    assert ([RecordAt(body, off)] + rest)[1..] == rest;
  }

  lemma NothingRegistered(devices: seq<Device>, body: Bytes, off: nat, count: nat)
    requires off + ENTRY_HDR <= |body| < RecordEnd(body, off)
    ensures Registered(devices, body, off, count) == devices
  {}

  lemma NoRecordLeft(devices: seq<Device>, body: Bytes, off: nat, count: nat)
    requires count == 0 || off + ENTRY_HDR > |body|
    ensures Registered(devices, body, off, count) == devices
  {}

  method AddDevice(devices: seq<Device>, d: Device) returns (r: seq<Device>)
    ensures r == Register(devices, d)
  {
    var k := FindKind(devices, d.id);
    return if k.None? && |devices| < MAX_DEVICES then devices + [d] else devices;
  }

  /** One record: the table with it and where the next starts, or None if it runs past the end. */
  method RegisterRecord(devices: seq<Device>, body: Bytes, off: nat, ghost count: nat)
    returns (r: seq<Device>, next: Option<nat>)
    requires count > 0 && off + ENTRY_HDR <= |body|
    ensures next.None? ==> r == devices == Registered(devices, body, off, count)
    ensures next.Some? ==> off <= next.value <= |body|
    ensures next.Some? ==> Registered(devices, body, off, count) == Registered(r, body, next.value, count - 1)
  {
    if RecordEnd(body, off) > |body| {
      NothingRegistered(devices, body, off, count);
      return devices, None;
    }
    RegisterNext(devices, body, off, count);
    r := AddDevice(devices, RecordAt(body, off));
    next := Some(RecordEnd(body, off));
  }

  method RegisterRecords(devices: seq<Device>, body: Bytes, count: nat) returns (r: seq<Device>)
    requires |body| >= 4
    ensures r == Registered(devices, body, 4, count)
  {
    ghost var goal := Registered(devices, body, 4, count);
    r := devices;
    var left: nat, off: nat := count, 4;
    while left > 0 && off + ENTRY_HDR <= |body|
      invariant off <= |body| && Registered(r, body, off, left) == goal
      decreases left
    {
      var next;
      r, next := RegisterRecord(r, body, off, left);
      if next.None? {
        return;
      }
      off, left := next.value, left - 1;
    }
    NoRecordLeft(r, body, off, left);
  }

  method HandleDeviceList(devices: seq<Device>, body: Bytes) returns (r: seq<Device>)
    ensures r == RegisterAll(devices, Announced(body))
  {
    if |body| < 4 {
      return devices;
    }
    r := RegisterRecords(devices, body, Ld32(body, 0));
  }
}
