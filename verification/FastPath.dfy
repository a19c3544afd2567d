/**
  * Fast-path update packets (section 2.2.9.1.2 of MS-RDPBCGR): their size, their octets,
  * and a client that reads them back from its stream.
  */
module FastPath {
  import opened Bytes
  import opened PduFraming

  const MAX_PACKET: nat := 0x3FFF

  /** A one- or two-octet length, and five or six octets in all before the body. */
  function PacketLen(n: nat): nat {
    if 5 + n < 0x80 then 5 + n else 6 + n
  }

  /** An update by its type and fragment flag. */
  datatype FastUpdate = FastUpdate(kind: nat, fragment: nat, body: Bytes)

  predicate UpdateOk(u: FastUpdate) {
    u.kind < 16 && u.fragment < 4 && PacketLen(|u.body|) <= MAX_PACKET
  }

  function LengthOctets(n: nat): Bytes
    requires n <= MAX_PACKET
  {
    if n <= 0x7F then [n] else [0x80 + n / 0x100, n % 0x100]
  }

  function UpdateOctets(u: FastUpdate): Bytes
    requires UpdateOk(u)
  {
    [0] + LengthOctets(PacketLen(|u.body|)) + [u.kind + 16 * u.fragment] + Le16(|u.body|) + u.body
  }

  /** The size that is compared with the limit is the size that is written. */
  lemma UpdateLength(u: FastUpdate)
    requires UpdateOk(u)
    ensures |UpdateOctets(u)| == PacketLen(|u.body|)
  {}

  /** A client: the header octet and the size behind the length, then the body. */
  function ReadUpdate(p: Bytes): Option<FastUpdate> {
    if |p| < 5 then None
    else
      var at := if p[1] < 0x80 then 2 else 3;
      if |p| < at + 3 || Ld16(p, at + 1) != |p| - at - 3 then None
      else Some(FastUpdate(p[at] % 16, p[at] / 16 % 4, p[at + 3..]))
  }

  lemma UpdateReadsBack(u: FastUpdate)
    requires UpdateOk(u)
    ensures ReadUpdate(UpdateOctets(u)) == Some(u)
  {
    var len := LengthOctets(PacketLen(|u.body|));
    var p, h := UpdateOctets(u), [0] + len + [u.kind + 16 * u.fragment];
    var at := 1 + |len|;
    assert p == h + Le16(|u.body|) + u.body;
    Ld16OfLe16(h, |u.body|, u.body);
    assert p[1] == len[0] && p[at] == u.kind + 16 * u.fragment && p[at + 3..] == u.body;
  }

  /** Its framer finds the packet, whatever follows it. */
  lemma UpdateIsFramed(u: FastUpdate, t: Bytes)
    requires UpdateOk(u)
    ensures Frame(UpdateOctets(u) + t) == Complete(Kind.FastPath, |UpdateOctets(u)|)
  {
    var n, p := PacketLen(|u.body|), UpdateOctets(u);
    UpdateLength(u);
    if n <= 0x7F {
      assert p == Wire(Short(0, p[2..]));
      PacketIsFramed(Short(0, p[2..]), t);
    } else {
      assert p == Wire(Long(0, p[3..]));
      PacketIsFramed(Long(0, p[3..]), t);
    }
  }

  // ---- A stream of updates -----------------------------------------------------------

  predicate AllOk(us: seq<FastUpdate>) {
    forall i | 0 <= i < |us| :: UpdateOk(us[i])
  }

  function Stream(us: seq<FastUpdate>): Bytes
    requires AllOk(us)
  {
    if us == [] then [] else UpdateOctets(us[0]) + Stream(us[1..])
  }

  /** The updates in the PDUs a client framed, up to the first it cannot read. */
  function Updates(pdus: seq<Pdu>): seq<FastUpdate> {
    if pdus == [] || ReadUpdate(pdus[0].octets).None? then []
    else [ReadUpdate(pdus[0].octets).value] + Updates(pdus[1..])
  }

  /** What a client makes of its stream. */
  function Arrived(s: Bytes): seq<FastUpdate> {
    Updates(Cut(Frame, s).pdus)
  }

  lemma UpdatesCons(p: Pdu, rest: seq<Pdu>, u: FastUpdate)
    requires ReadUpdate(p.octets) == Some(u)
    ensures Updates([p] + rest) == [u] + Updates(rest)
  {
    assert ([p] + rest)[1..] == rest;
  }

  /** A client reading the stream gets the updates that were built, in order. */
  lemma {:induction false} StreamReadsBack(us: seq<FastUpdate>)
    requires AllOk(us)
    ensures Arrived(Stream(us)) == us
  {
    if us != [] {
      var w, rest := UpdateOctets(us[0]), Stream(us[1..]);
      UpdateLength(us[0]);
      UpdateIsFramed(us[0], rest);
      CutFirst(Frame, w, rest, Kind.FastPath);
      UpdateReadsBack(us[0]);
      UpdatesCons(Pdu(Kind.FastPath, w), Cut(Frame, rest).pdus, us[0]);
      StreamReadsBack(us[1..]);
    }
  }

  // ---- The builder -----------------------------------------------------------------

  /** rdp_fp_build_update_frag: the packet, or None if it does not fit or is over a limit. */
  method BuildUpdate(kind: nat, fragment: nat, body: Bytes, cap: nat) returns (r: Option<Bytes>)
    requires fragment < 4
    ensures r.Some? <==> PacketLen(|body|) <= cap && PacketLen(|body|) <= MAX_PACKET
    ensures r.Some? ==> r.value == UpdateOctets(FastUpdate(kind % 16, fragment, body))
  {
    var inner := 3 + |body|;
    var total := 2 + inner;
    if total >= 0x80 {
      total := 3 + inner;
    }
    if total > cap || |body| > 0xFFFF || total > MAX_PACKET {
      return None;
    }
    var b: Bytes := [0];
    if total <= 0x7F {
      b := b + [total];
    } else {
      b := b + [0x80 + total / 0x100 % 0x80, total % 0x100];
    }
    b := b + [kind % 16 + 16 * fragment];
    b := b + Le16(|body|);
    return Some(b + body);
  }
}
