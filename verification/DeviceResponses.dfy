/**
  * The worker's answers to a device-redirection message: the handler appends
  * them to one buffer and the caller cuts the buffer back into PDUs.
  */
module DeviceResponses {
  import opened Bytes
  import opened DeviceTable

  const PAKID_SERVER_ANNOUNCE: u16 := 0x496E
  const PAKID_CLIENTID_CONFIRM: u16 := 0x4343
  const PAKID_CLIENT_NAME: u16 := 0x434E
  const PAKID_DEVICE_REPLY: u16 := 0x6472
  const PAKID_SERVER_CAPABILITY: u16 := 0x5350
  const PAKID_CLIENT_CAPABILITY: u16 := 0x4350
  const PAKID_USER_LOGGEDON: u16 := 0x554C

  // ---- The PDUs ----------------------------------------------------------

  function Header(pid: u16): Bytes {
    Le16(CTYP_CORE) + Le16(pid)
  }

  function CapSet(kind: u16, len: u16, body: Bytes): Bytes {
    Le16(kind) + Le16(len) + body
  }

  function GeneralBody(): Bytes {
    Le32(1) + Le32(1) + Le32(0) + Le16(1) + Le16(13) + Le32(0xFFFF) + Le32(0) + Le32(7) + Le32(0) + Le32(0)
  }

  function Capabilities(): Bytes {
    Header(PAKID_SERVER_CAPABILITY) + Le16(5) + Le16(0)
    + CapSet(1, 40, GeneralBody())
    + CapSet(2, 8, Le32(1)) + CapSet(3, 8, Le32(1)) + CapSet(4, 8, Le32(1)) + CapSet(5, 8, Le32(1))
  }

  function ClientIdConfirm(clientId: u32): Bytes {
    Header(PAKID_CLIENTID_CONFIRM) + Le16(1) + Le16(13) + Le32(clientId)
  }

  function UserLoggedOn(): Bytes {
    Header(PAKID_USER_LOGGEDON)
  }

  function DeviceReply(id: u32): Bytes {
    Header(PAKID_DEVICE_REPLY) + Le32(id) + Le32(0)
  }

  // ---- Cutting a buffer --------------------------------------------------

  /** Walks `n` capability sets of a Server Core Capability Request from `off`. */
  function CapsEnd(pdu: Bytes, n: nat, off: nat): nat {
    if n == 0 || off + 4 > |pdu| then off
    else CapsEnd(pdu, n - 1, off + if Ld16(pdu, off + 2) < 4 then 4 else Ld16(pdu, off + 2))
  }

  /** The wire length of the PDU that starts `pdu`. */
  function PduLen(pdu: Bytes): nat {
    if |pdu| < 4 then 0
    else if Ld16(pdu, 0) != CTYP_CORE then |pdu|
    else
      var pid := Ld16(pdu, 2);
      if pid == PAKID_SERVER_ANNOUNCE || pid == PAKID_CLIENTID_CONFIRM || pid == PAKID_DEVICE_REPLY then 12
      else if pid == PAKID_USER_LOGGEDON then 4
      else if pid == PAKID_SERVER_CAPABILITY then (if |pdu| < 8 then |pdu| else CapsEnd(pdu, Ld16(pdu, 4), 8))
      else |pdu|
  }

  function Cut(resp: Bytes): seq<Bytes>
    decreases |resp|
  {
    var n := PduLen(resp);
    if |resp| < 4 || n == 0 || n > |resp| then [] else [resp[..n]] + Cut(resp[n..])
  }

  method CapsLength(pdu: Bytes) returns (off: nat)
    requires |pdu| >= 8
    ensures off == CapsEnd(pdu, Ld16(pdu, 4), 8)
  {
    off := 8;
    var i, n := 0, Ld16(pdu, 4);
    while i < n && off + 4 <= |pdu|
      invariant 0 <= i <= n
      invariant CapsEnd(pdu, n - i, off) == CapsEnd(pdu, n, 8)
      decreases n - i
    {
      var len := Ld16(pdu, off + 2);
      if len < 4 {
        len := 4;
      }
      off := off + len;
      i := i + 1;
    }
  }

  method PduLength(pdu: Bytes) returns (n: nat)
    ensures n == PduLen(pdu)
  {
    if |pdu| < 4 {
      return 0;
    }
    if Ld16(pdu, 0) != CTYP_CORE {
      return |pdu|;
    }
    var pid := Ld16(pdu, 2);
    if pid == PAKID_SERVER_ANNOUNCE || pid == PAKID_CLIENTID_CONFIRM || pid == PAKID_DEVICE_REPLY {
      return 12;
    } else if pid == PAKID_USER_LOGGEDON {
      return 4;
    } else if pid == PAKID_SERVER_CAPABILITY && |pdu| >= 8 {
      n := CapsLength(pdu);
    } else {
      return |pdu|;
    }
  }

  method SendResponses(resp: Bytes) returns (sent: seq<Bytes>)
    ensures sent == Cut(resp)
  {
    sent := [];
    var rest := resp;
    while |rest| >= 4
      invariant sent + Cut(rest) == Cut(resp)
      decreases |rest|
    {
      var n := PduLength(rest);
      if n == 0 || n > |rest| {
        break;
      }
      assert sent + ([rest[..n]] + Cut(rest[n..])) == (sent + [rest[..n]]) + Cut(rest[n..]);
      sent := sent + [rest[..n]];
      rest := rest[n..];
    }
  }

  // ---- What the handler appends ------------------------------------------

  function Fitting(p: Bytes, cap: nat): seq<Bytes> {
    if |p| <= cap then [p] else []
  }

  /** One reply for each announced device, while replies fit. */
  function DeviceReplies(ds: seq<Device>, cap: nat): seq<Bytes> {
    if ds == [] || cap < 12 then [] else [DeviceReply(ds[0].id)] + DeviceReplies(ds[1..], cap - 12)
  }

  const CAPS_BUFFER: nat := 84

  /** The PDUs appended for one message, in order; `clientId` is the id last announced. */
  function Responses(clientId: u32, pdu: Bytes, cap: nat): seq<Bytes> {
    if |pdu| < 4 || Ld16(pdu, 0) != CTYP_CORE then []
    else if Ld16(pdu, 2) == PAKID_CLIENT_NAME then
      if cap < CAPS_BUFFER then Fitting(ClientIdConfirm(clientId), cap)
      else [Capabilities()] + Fitting(ClientIdConfirm(clientId), cap - |Capabilities()|)
    else if Ld16(pdu, 2) == PAKID_CLIENT_CAPABILITY then Fitting(UserLoggedOn(), cap)
    else if Ld16(pdu, 2) == PAKID_DEVICE_LIST then DeviceReplies(Announced(pdu[4..]), cap)
    else []
  }

  function WithReply(resp: Bytes, d: Device, cap: nat): Bytes {
    if |resp| + 12 <= cap then resp + DeviceReply(d.id) else resp
  }

  function WithReplies(resp: Bytes, ds: seq<Device>, cap: nat): Bytes
    decreases ds
  {
    if ds == [] then resp else WithReplies(WithReply(resp, ds[0], cap), ds[1..], cap)
  }

  lemma ConcatShort(a: Bytes, b: Bytes)
    ensures Concat([a]) == a && Concat([a] + [b]) == a + b && Concat([b]) == b
  {
    assert [a][1..] == [] && [b][1..] == [] && ([a] + [b])[1..] == [b];
  }

  /** Replies appended one by one are the reply list concatenated. */
  lemma {:induction false} RepliesConcat(resp: Bytes, ds: seq<Device>, cap: nat)
    requires |resp| <= cap
    ensures WithReplies(resp, ds, cap) == resp + Concat(DeviceReplies(ds, cap - |resp|))
    decreases ds
  {
    if ds != [] {
      RepliesConcat(WithReply(resp, ds[0], cap), ds[1..], cap);
      if |resp| + 12 <= cap {
        var tail := DeviceReplies(ds[1..], cap - |resp| - 12);
        assert ([DeviceReply(ds[0].id)] + tail)[1..] == tail;
        Assoc(resp, DeviceReply(ds[0].id), Concat(tail));
      } else {
        assert DeviceReplies(ds, cap - |resp|) == [] == DeviceReplies(ds[1..], cap - |resp|);
      }
    }
  }

  /** The buffer once the records from `off` on are answered too. */
  function Replied(resp: Bytes, body: Bytes, off: nat, count: nat, cap: nat): Bytes {
    WithReplies(resp, Entries(body, off, count), cap)
  }

  /** The first record left in an announce body is answered first. */
  lemma ReplyToNext(resp: Bytes, body: Bytes, off: nat, count: nat, cap: nat)
    requires count > 0 && off + ENTRY_HDR <= |body| && off + ENTRY_HDR + Ld32(body, off + 16) <= |body|
    ensures var d, next := Device(Ld32(body, off + 4), Ld32(body, off)), off + ENTRY_HDR + Ld32(body, off + 16);
            Replied(resp, body, off, count, cap) == Replied(WithReply(resp, d, cap), body, next, count - 1, cap)
  {
    var d, next := Device(Ld32(body, off + 4), Ld32(body, off)), off + ENTRY_HDR + Ld32(body, off + 16);
    var rest := Entries(body, next, count - 1);
    assert Entries(body, off, count) == [d] + rest;
    assert ([d] + rest)[1..] == rest;
  }

  lemma NothingLeft(resp: Bytes, body: Bytes, off: nat, count: nat, cap: nat)
    requires count == 0 || off + ENTRY_HDR > |body| || Ld32(body, off + 16) > |body| - off - ENTRY_HDR
    ensures Replied(resp, body, off, count, cap) == resp
  {}

  /** One record: its reply and where the next starts, or None if it runs past the end. */
  method AnswerRecord(resp: Bytes, body: Bytes, off: nat, ghost count: nat, cap: nat)
    returns (more: Bytes, next: Option<nat>)
    requires count > 0 && off + ENTRY_HDR <= |body|
    ensures next.None? ==> more == resp == Replied(resp, body, off, count, cap)
    ensures next.Some? ==> off <= next.value <= |body|
    ensures next.Some? ==> Replied(resp, body, off, count, cap) == Replied(more, body, next.value, count - 1, cap)
  {
    var n := Ld32(body, off + 16);
    if n > |body| - off - ENTRY_HDR {
      NothingLeft(resp, body, off, count, cap);
      return resp, None;
    }
    ReplyToNext(resp, body, off, count, cap);
    more := WithReply(resp, Device(Ld32(body, off + 4), Ld32(body, off)), cap);
    next := Some(off + ENTRY_HDR + n);
  }

  lemma NoRoomLeft(resp: Bytes, body: Bytes, off: nat, count: nat, cap: nat)
    requires count == 0 || off + ENTRY_HDR > |body|
    ensures Replied(resp, body, off, count, cap) == resp
  {}

  method AnswerEntries(body: Bytes, count: nat, cap: nat) returns (resp: Bytes)
    requires |body| >= 4
    ensures resp == Replied([], body, 4, count, cap)
  {
    ghost var goal := Replied([], body, 4, count, cap);
    resp := [];
    var left: nat, off: nat := count, 4;
    while left > 0 && off + ENTRY_HDR <= |body|
      invariant off <= |body| && Replied(resp, body, off, left, cap) == goal
      decreases left
    {
      var next;
      resp, next := AnswerRecord(resp, body, off, left, cap);
      if next.None? {
        return;
      }
      off, left := next.value, left - 1;
    }
    NoRoomLeft(resp, body, off, left, cap);
  }

  method AnswerDeviceList(body: Bytes, cap: nat) returns (resp: Bytes)
    ensures resp == Concat(DeviceReplies(Announced(body), cap))
  {
    if |body| < 4 {
      return [];
    }
    resp := AnswerEntries(body, Ld32(body, 0), cap);
    RepliesConcat([], Announced(body), cap);
  }

  /** The handler's whole response buffer for one message. */
  method Answer(clientId: u32, pdu: Bytes, cap: nat) returns (resp: Bytes)
    ensures resp == Concat(Responses(clientId, pdu, cap))
  {
    resp := [];
    if |pdu| < 4 || Ld16(pdu, 0) != CTYP_CORE {
      return;
    }
    var pid := Ld16(pdu, 2);
    if pid == PAKID_CLIENT_NAME {
      if cap >= CAPS_BUFFER {
        resp := Capabilities();
      }
      var confirm := ClientIdConfirm(clientId);
      if |confirm| <= cap - |resp| {
        resp := resp + confirm;
      }
      ConcatShort(confirm, []);
      ConcatShort(Capabilities(), confirm);
    } else if pid == PAKID_CLIENT_CAPABILITY {
      if |UserLoggedOn()| <= cap {
        resp := UserLoggedOn();
      }
    } else if pid == PAKID_DEVICE_LIST {
      resp := AnswerDeviceList(pdu[4..], cap);
    }
  }

  /** The answers, octet by octet: a client id confirmation, a user logged on, and the
      device reply with success. */
  lemma AnswersOnTheWire(clientId: u32, id: u32)
    ensures ClientIdConfirm(clientId) == [0x72, 0x44, 0x43, 0x43, 1, 0, 13, 0] + Le32(clientId)
    ensures UserLoggedOn() == [0x72, 0x44, 0x4C, 0x55]
    ensures DeviceReply(id) == [0x72, 0x44, 0x72, 0x64] + Le32(id) + [0, 0, 0, 0]
  {
    Le32Octets(0);
  }

  lemma SmallOnTheWire(n: byte)
    ensures Le32(n) == [n, 0, 0, 0] && Le16(n) == [n, 0]
  {
    Le32Octets(n);
  }

  lemma GeneralBodyOnTheWire()
    ensures GeneralBody()
         == [1, 0, 0, 0] + [1, 0, 0, 0] + [0, 0, 0, 0] + [1, 0] + [13, 0] + [0xFF, 0xFF, 0, 0] + [0, 0, 0, 0]
            + [7, 0, 0, 0] + [0, 0, 0, 0] + [0, 0, 0, 0]
  {
    SmallOnTheWire(0);
    SmallOnTheWire(1);
    SmallOnTheWire(7);
    SmallOnTheWire(13);
    assert Le32(0xFFFF) == [0xFF, 0xFF, 0, 0] by {
      Le32Octets(0xFFFF);
    }
  }

  lemma CapSetOnTheWire(kind: byte, len: byte, body: Bytes)
    ensures CapSet(kind, len, body) == [kind, 0, len, 0] + body
  {}

  /** The capabilities, octet by octet: five sets, the general one first. */
  lemma CapabilitiesOnTheWire()
    ensures Capabilities()
         == [0x72, 0x44, 0x50, 0x53] + [5, 0] + [0, 0]
            + ([1, 0, 40, 0]
               + ([1, 0, 0, 0] + [1, 0, 0, 0] + [0, 0, 0, 0] + [1, 0] + [13, 0] + [0xFF, 0xFF, 0, 0] + [0, 0, 0, 0]
                  + [7, 0, 0, 0] + [0, 0, 0, 0] + [0, 0, 0, 0]))
            + ([2, 0, 8, 0] + [1, 0, 0, 0]) + ([3, 0, 8, 0] + [1, 0, 0, 0])
            + ([4, 0, 8, 0] + [1, 0, 0, 0]) + ([5, 0, 8, 0] + [1, 0, 0, 0])
  {
    SmallOnTheWire(1);
    GeneralBodyOnTheWire();
    CapSetOnTheWire(1, 40, GeneralBody());
    CapSetOnTheWire(2, 8, Le32(1));
    CapSetOnTheWire(3, 8, Le32(1));
    CapSetOnTheWire(4, 8, Le32(1));
    CapSetOnTheWire(5, 8, Le32(1));
    assert Header(PAKID_SERVER_CAPABILITY) == [0x72, 0x44, 0x50, 0x53];
    assert Le16(5) == [5, 0] && Le16(0) == [0, 0];
  }

  /** What each message is answered with, by its first four octets, in a buffer that takes it. */
  lemma AnswersByMessage(clientId: u32, pdu: Bytes, cap: nat)
    requires |pdu| >= 4 && cap >= 96
    ensures pdu[..4] == [0x72, 0x44, 0x4E, 0x43]
            ==> Responses(clientId, pdu, cap) == [Capabilities(), ClientIdConfirm(clientId)]
    ensures pdu[..4] == [0x72, 0x44, 0x50, 0x43] ==> Responses(clientId, pdu, cap) == [UserLoggedOn()]
    ensures pdu[..4] == [0x72, 0x44, 0x41, 0x44]
            ==> Responses(clientId, pdu, cap) == DeviceReplies(Announced(pdu[4..]), cap)
  {
    assert pdu[..4] == [pdu[0], pdu[1], pdu[2], pdu[3]];
    assert |Capabilities()| == 80;
  }

  // ---- Nothing is lost ---------------------------------------------------

  /** A PDU whose length can be read off its own start, whatever follows it. */
  ghost predicate SelfDelimiting(p: Bytes) {
    |p| >= 4 && forall rest: Bytes :: PduLen(p + rest) == |p|
  }

  lemma {:induction false} CutUndoesConcat(ps: seq<Bytes>)
    requires forall i | 0 <= i < |ps| :: SelfDelimiting(ps[i])
    ensures Cut(Concat(ps)) == ps
  {
    if ps != [] {
      var rest := Concat(ps[1..]);
      assert Concat(ps) == ps[0] + rest;
      assert PduLen(ps[0] + rest) == |ps[0]|;
      assert (ps[0] + rest)[..|ps[0]|] == ps[0] && (ps[0] + rest)[|ps[0]|..] == rest;
      CutUndoesConcat(ps[1..]);
    }
  }

  lemma HeaderFields(pid: u16, rest: Bytes)
    ensures Ld16(Header(pid) + rest, 0) == CTYP_CORE && Ld16(Header(pid) + rest, 2) == pid
  {
    assert Header(pid) + rest == [] + Le16(CTYP_CORE) + (Le16(pid) + rest);
    Ld16OfLe16([], CTYP_CORE, Le16(pid) + rest);
    Ld16OfLe16(Le16(CTYP_CORE), pid, rest);
  }

  lemma FixedPdusDelimit(pid: u16, body: Bytes)
    requires pid in {PAKID_CLIENTID_CONFIRM, PAKID_DEVICE_REPLY, PAKID_USER_LOGGEDON}
    requires |body| == if pid == PAKID_USER_LOGGEDON then 0 else 8
    ensures SelfDelimiting(Header(pid) + body)
  {
    var p := Header(pid) + body;
    forall rest: Bytes ensures PduLen(p + rest) == |p| {
      assert p + rest == Header(pid) + (body + rest);
      HeaderFields(pid, body + rest);
    }
  }

  lemma CapabilitySetsEnd(p: Bytes)
    requires |p| >= 80
    requires Ld16(p, 10) == 40 && Ld16(p, 50) == 8 && Ld16(p, 58) == 8 && Ld16(p, 66) == 8 && Ld16(p, 74) == 8
    ensures CapsEnd(p, 5, 8) == 80
  {
    assert CapsEnd(p, 0, 80) == 80;
    assert CapsEnd(p, 1, 72) == 80;
    assert CapsEnd(p, 2, 64) == 80;
    assert CapsEnd(p, 3, 56) == 80;
    assert CapsEnd(p, 4, 48) == 80;
  }

  /** The two length octets of each set, where the walk reads them. */
  lemma CapabilityOctets()
    ensures var p := Capabilities();
            && |p| == 80 && p[4] == 5 && p[5] == 0 && p[10] == 40 && p[11] == 0
            && p[50] == 8 && p[51] == 0 && p[58] == 8 && p[59] == 0
            && p[66] == 8 && p[67] == 0 && p[74] == 8 && p[75] == 0
  {
    var head := Header(PAKID_SERVER_CAPABILITY) + Le16(5) + Le16(0);
    var general := CapSet(1, 40, GeneralBody());
    assert |head| == 8 && |general| == 40;
    assert head[4] == 5 && head[5] == 0 && general[2] == 40 && general[3] == 0;
    forall kind: u16
      ensures var c := CapSet(kind, 8, Le32(1)); |c| == 8 && c[2] == 8 && c[3] == 0
    {}
  }

  lemma CapabilitiesDelimit()
    ensures SelfDelimiting(Capabilities())
  {
    var p := Capabilities();
    CapabilityOctets();
    forall rest: Bytes ensures PduLen(p + rest) == |p| {
      var q := p + rest;
      assert forall i | 0 <= i < 80 :: q[i] == p[i];
      HeaderFields(PAKID_SERVER_CAPABILITY, q[4..]);
      assert q == Header(PAKID_SERVER_CAPABILITY) + q[4..];
      CapabilitySetsEnd(q);
    }
  }

  lemma {:induction false} DeviceRepliesDelimit(ds: seq<Device>, cap: nat)
    ensures |DeviceReplies(ds, cap)| == Min(|ds|, cap / 12)
    ensures forall i | 0 <= i < |DeviceReplies(ds, cap)| ::
              DeviceReplies(ds, cap)[i] == DeviceReply(ds[i].id) && SelfDelimiting(DeviceReplies(ds, cap)[i])
    decreases ds
  {
    if ds != [] && cap >= 12 {
      DeviceRepliesDelimit(ds[1..], cap - 12);
      FixedPdusDelimit(PAKID_DEVICE_REPLY, Le32(ds[0].id) + Le32(0));
      assert DeviceReply(ds[0].id) == Header(PAKID_DEVICE_REPLY) + (Le32(ds[0].id) + Le32(0));
    }
  }

  lemma ConfirmDelimits(clientId: u32)
    ensures SelfDelimiting(ClientIdConfirm(clientId))
  {
    FixedPdusDelimit(PAKID_CLIENTID_CONFIRM, Le16(1) + Le16(13) + Le32(clientId));
    assert ClientIdConfirm(clientId) == Header(PAKID_CLIENTID_CONFIRM) + (Le16(1) + Le16(13) + Le32(clientId));
  }

  lemma LoggedOnDelimits()
    ensures SelfDelimiting(UserLoggedOn())
  {
    FixedPdusDelimit(PAKID_USER_LOGGEDON, []);
    assert UserLoggedOn() == Header(PAKID_USER_LOGGEDON) + [];
  }

  /** For every message and buffer size, cutting the response buffer yields
      exactly the PDUs the handler appended, in order. */
  lemma EveryResponseIsRecovered(clientId: u32, pdu: Bytes, cap: nat)
    ensures Cut(Concat(Responses(clientId, pdu, cap))) == Responses(clientId, pdu, cap)
  {
    CapabilitiesDelimit();
    ConfirmDelimits(clientId);
    LoggedOnDelimits();
    if |pdu| >= 4 {
      DeviceRepliesDelimit(Announced(pdu[4..]), cap);
    }
    CutUndoesConcat(Responses(clientId, pdu, cap));
  }

  /** The dispatch loop's use of the two: what goes out is what was answered. */
  method AnswerAndSend(clientId: u32, pdu: Bytes, cap: nat) returns (sent: seq<Bytes>)
    ensures sent == Responses(clientId, pdu, cap)
  {
    var resp := Answer(clientId, pdu, cap);
    sent := SendResponses(resp);
    EveryResponseIsRecovered(clientId, pdu, cap);
  }
}
