/**
  * Cutting the client's byte stream into PDUs: TPKT packets (section 6 of RFC 1006)
  * and fast-path packets, from a buffer that fills in arbitrary portions, and by the
  * blocking reader used before the buffer exists.
  */
module PduFraming {
  import opened Bytes

  const TPKT_MIN: nat := 7

  datatype Kind = Tpkt | FastPath

  datatype Verdict = NeedMore | Malformed | Complete(kind: Kind, len: nat)

  function TpktLen(s: Bytes): Option<nat>
    requires |s| >= 4
  {
    var len := s[2] as int * 0x100 + s[3];
    if s[0] != 3 || s[1] != 0 || len < TPKT_MIN then None else Some(len)
  }

  function Frame(s: Bytes): (v: Verdict)
    ensures v.Complete? ==> 2 <= v.len <= |s|
  {
    if |s| < 1 then NeedMore
    else if s[0] == 3 then
      if |s| < 4 then NeedMore
      else
        var len := TpktLen(s);
        if len.None? then Malformed
        else if |s| < len.value then NeedMore else Complete(Tpkt, len.value)
    else if |s| < 2 then NeedMore
    else if s[1] < 0x80 then
      var total := if s[1] < 2 then 2 else s[1];
      if |s| < total then NeedMore else Complete(FastPath, total)
    else if |s| < 3 then NeedMore
    else
      var n := (s[1] as int - 0x80) * 0x100 + s[2];
      var total := if n < 3 then 3 else n;
      if |s| < total then NeedMore else Complete(FastPath, total)
  }

  /** A complete or malformed verdict is unchanged by later bytes. */
  lemma VerdictIsFinal(s: Bytes, t: Bytes)
    requires !Frame(s).NeedMore?
    ensures Frame(s + t) == Frame(s)
  {}

  // ---- The whole stream, for any sound framer ------------------------------

  type Framer = Bytes -> Verdict

  ghost predicate Stable(f: Framer, s: Bytes, t: Bytes) {
    f(s).NeedMore? || f(s + t) == f(s)
  }

  /** A framer that cuts within the data and does not change its mind. */
  ghost predicate Sound(f: Framer) {
    && (forall s: Bytes :: f(s).Complete? ==> 2 <= f(s).len <= |s|)
    && (forall s: Bytes, t: Bytes :: Stable(f, s, t))
  }

  lemma FrameIsSound()
    ensures Sound(Frame)
  {
    forall s: Bytes, t: Bytes ensures Stable(Frame, s, t) {
      if !Frame(s).NeedMore? {
        VerdictIsFinal(s, t);
      }
    }
  }

  datatype Pdu = Pdu(kind: Kind, octets: Bytes)

  /** The PDUs of a stream, the bytes left, and whether they start with a bad header. */
  datatype Framed = Framed(pdus: seq<Pdu>, rest: Bytes, bad: bool)

  function Prefixed(front: seq<Pdu>, c: Framed): Framed {
    c.(pdus := front + c.pdus)
  }

  lemma PrefixedTwice(a: seq<Pdu>, b: seq<Pdu>, c: Framed)
    ensures Prefixed(a, Prefixed(b, c)) == Prefixed(a + b, c)
  {
    assert a + (b + c.pdus) == (a + b) + c.pdus;
  }

  function Cut(f: Framer, s: Bytes): Framed {
    var v := f(s);
    if !v.Complete? || v.len == 0 || v.len > |s| then Framed([], s, v.Malformed?)
    else Prefixed([Pdu(v.kind, s[..v.len])], Cut(f, s[v.len..]))
  }

  function Octets(pdus: seq<Pdu>): Bytes {
    if pdus == [] then [] else pdus[0].octets + Octets(pdus[1..])
  }

  lemma Rejoin(s: Bytes, n: nat, a: Bytes, b: Bytes)
    requires n <= |s| && a + b == s[n..]
    ensures (s[..n] + a) + b == s
  {
    Assoc(s[..n], a, b);
    assert s[..n] + s[n..] == s;
  }

  lemma OctetsCons(p: Pdu, rest: seq<Pdu>)
    ensures Octets([p] + rest) == p.octets + Octets(rest)
  {
    assert ([p] + rest)[1..] == rest;
  }

  /** The PDUs and the remainder make up the stream; no PDU is shorter than two bytes. */
  lemma {:induction false} CutLosesNothing(f: Framer, s: Bytes)
    requires Sound(f)
    ensures Octets(Cut(f, s).pdus) + Cut(f, s).rest == s
    ensures forall i | 0 <= i < |Cut(f, s).pdus| :: |Cut(f, s).pdus[i].octets| >= 2
    decreases |s|
  {
    var v := f(s);
    if v.Complete? {
      CutLosesNothing(f, s[v.len..]);
      var r := Cut(f, s[v.len..]);
      OctetsCons(Pdu(v.kind, s[..v.len]), r.pdus);
      Rejoin(s, v.len, Octets(r.pdus), r.rest);
    }
  }

  /** What more bytes do to a cut. */
  function Extended(f: Framer, c: Framed, more: Bytes): Framed {
    if c.bad then c.(rest := c.rest + more) else Prefixed(c.pdus, Cut(f, c.rest + more))
  }

  lemma PrefixedExtends(f: Framer, front: seq<Pdu>, c: Framed, more: Bytes)
    ensures Extended(f, Prefixed(front, c), more) == Prefixed(front, Extended(f, c, more))
  {
    if !c.bad {
      PrefixedTwice(front, c.pdus, Cut(f, c.rest + more));
    }
  }

  lemma CutStep(f: Framer, s: Bytes, t: Bytes)
    requires Sound(f) && f(s).Complete?
    ensures var v := f(s);
            Cut(f, s + t) == Prefixed([Pdu(v.kind, s[..v.len])], Cut(f, s[v.len..] + t))
  {
    assert Stable(f, s, t);
    var v := f(s);
    assert (s + t)[v.len..] == s[v.len..] + t && (s + t)[..v.len] == s[..v.len];
  }

  lemma {:induction false} CutExtends(f: Framer, s: Bytes, t: Bytes)
    requires Sound(f)
    ensures Cut(f, s + t) == Extended(f, Cut(f, s), t)
    decreases |s|
  {
    var v := f(s);
    if v.Complete? {
      CutStep(f, s, t);
      CutExtends(f, s[v.len..], t);
      PrefixedExtends(f, [Pdu(v.kind, s[..v.len])], Cut(f, s[v.len..]), t);
    } else {
      assert Stable(f, s, t);
      assert [] + Cut(f, s + t).pdus == Cut(f, s + t).pdus;
    }
  }

  // ---- The buffered loop -------------------------------------------------

  /** The inbound buffer, the PDUs framed so far, and whether the loop has ended on a
      malformed header. */
  datatype Loop = Loop(buf: Bytes, framed: seq<Pdu>, ended: bool)

  /** One pass: an optional read, then at most one PDU is framed. */
  function Pass(f: Framer, l: Loop, read: Bytes): Loop {
    if l.ended then l.(buf := l.buf + read) else FrameOne(f, l.buf + read, l.framed)
  }

  function FrameOne(f: Framer, buf: Bytes, framed: seq<Pdu>): Loop {
    var v := f(buf);
    if !v.Complete? || v.len > |buf| then Loop(buf, framed, v.Malformed?)
    else Loop(buf[v.len..], framed + [Pdu(v.kind, buf[..v.len])], false)
  }

  function Passes(f: Framer, l: Loop, portions: seq<Bytes>): Loop
    decreases portions
  {
    if portions == [] then l else Passes(f, Pass(f, l, portions[0]), portions[1..])
  }

  /** What the loop has framed and what its buffer will yield. */
  function Outlook(f: Framer, l: Loop): Framed {
    if l.ended then Framed(l.framed, l.buf, true) else Prefixed(l.framed, Cut(f, l.buf))
  }

  lemma PassKeepsOutlook(f: Framer, l: Loop, read: Bytes)
    requires Sound(f)
    ensures Outlook(f, Pass(f, l, read)) == Extended(f, Outlook(f, l), read)
  {
    if !l.ended {
      CutExtends(f, l.buf, read);
      PrefixedExtends(f, l.framed, Cut(f, l.buf), read);
      FrameFirst(f, l.framed, l.buf + read);
    }
  }

  /** Framing one PDU moves it from the buffer to what was framed. */
  lemma FrameFirst(f: Framer, framed: seq<Pdu>, buf: Bytes)
    requires Sound(f)
    ensures Outlook(f, FrameOne(f, buf, framed)) == Prefixed(framed, Cut(f, buf))
  {
    var v := f(buf);
    if v.Complete? {
      PrefixedTwice(framed, [Pdu(v.kind, buf[..v.len])], Cut(f, buf[v.len..]));
    } else {
      assert framed + [] == framed;
    }
  }

  lemma {:induction false} PassesKeepOutlook(f: Framer, l: Loop, portions: seq<Bytes>, stream: Bytes)
    requires Sound(f) && Outlook(f, l) == Cut(f, stream)
    ensures Outlook(f, Passes(f, l, portions)) == Cut(f, stream + Concat(portions))
    decreases portions
  {
    if portions == [] {
      assert stream + Concat(portions) == stream;
    } else {
      PassKeepsOutlook(f, l, portions[0]);
      CutExtends(f, stream, portions[0]);
      PassesKeepOutlook(f, Pass(f, l, portions[0]), portions[1..], stream + portions[0]);
      Assoc(stream, portions[0], Concat(portions[1..]));
    }
  }

  function Begin(): Loop {
    Loop([], [], false)
  }

  lemma LoopFramesStream(f: Framer, portions: seq<Bytes>)
    requires Sound(f)
    ensures Outlook(f, Passes(f, Begin(), portions)) == Cut(f, Concat(portions))
  {
    assert [] + Cut(f, []).pdus == Cut(f, []).pdus;
    PassesKeepOutlook(f, Begin(), portions, []);
    assert [] + Concat(portions) == Concat(portions);
  }

  /** Passes that read nothing. */
  function Idle(n: nat): seq<Bytes> {
    if n == 0 then [] else [[]] + Idle(n - 1)
  }

  lemma {:induction false} PassesAppend(f: Framer, l: Loop, a: seq<Bytes>, b: seq<Bytes>)
    ensures Passes(f, l, a + b) == Passes(f, Passes(f, l, a), b)
    decreases a
  {
    if a == [] {
      assert a + b == b;
    } else {
      assert (a + b)[1..] == a[1..] + b;
      PassesAppend(f, Pass(f, l, a[0]), a[1..], b);
    }
  }

  lemma IdleStep(f: Framer, l: Loop, n: nat)
    requires n > 0
    ensures Passes(f, l, Idle(n)) == Passes(f, if l.ended then l else FrameOne(f, l.buf, l.framed), Idle(n - 1))
  {
    assert l.buf + [] == l.buf;
    assert Idle(n)[1..] == Idle(n - 1);
  }

  /** Where a loop stands once its buffer yields nothing more. */
  function Drained(c: Framed): Loop {
    Loop(c.rest, c.pdus, c.bad)
  }

  lemma Settled(f: Framer, l: Loop)
    requires !f(l.buf).Complete? && !l.ended
    ensures FrameOne(f, l.buf, l.framed) == Drained(Outlook(f, l))
  {
    assert l.framed + [] == l.framed;
  }

  lemma {:induction false} IdleStays(f: Framer, l: Loop, n: nat)
    requires l.ended || (!f(l.buf).Complete? && !f(l.buf).Malformed?)
    ensures Passes(f, l, Idle(n)) == l
  {
    if n > 0 {
      IdleStep(f, l, n);
      IdleStays(f, l, n - 1);
    }
  }

  lemma NothingMoreComes(f: Framer, l: Loop, n: nat)
    requires n > 0 && (l.ended || !f(l.buf).Complete?)
    ensures Passes(f, l, Idle(n)) == Drained(Outlook(f, l))
  {
    IdleStep(f, l, n);
    if l.ended {
      IdleStays(f, l, n - 1);
    } else {
      Settled(f, l);
      IdleStays(f, FrameOne(f, l.buf, l.framed), n - 1);
    }
  }

  lemma CompleteStep(f: Framer, l: Loop)
    requires Sound(f) && f(l.buf).Complete? && !l.ended
    ensures var next := FrameOne(f, l.buf, l.framed);
            Outlook(f, next) == Outlook(f, l) && |next.framed| == |l.framed| + 1 && !next.ended
            && |Outlook(f, next).pdus| >= |next.framed|
  {
    FrameFirst(f, l.framed, l.buf);
  }

  /** One pass more than there are PDUs in the buffer frames them all, and then finds
      the malformed header if there is one. */
  lemma {:induction false} IdlePassesDrain(f: Framer, l: Loop, n: nat)
    requires Sound(f) && n > |Outlook(f, l).pdus| - |l.framed| >= 0
    ensures Passes(f, l, Idle(n)) == Drained(Outlook(f, l))
    decreases n
  {
    if !l.ended && f(l.buf).Complete? {
      IdleStep(f, l, n);
      CompleteStep(f, l);
      IdlePassesDrain(f, FrameOne(f, l.buf, l.framed), n - 1);
    } else {
      NothingMoreComes(f, l, n);
    }
  }

  // ---- The client's stream -------------------------------------------------

  /** However the client's stream is split into reads, the PDUs framed so far, followed
      by those still in the buffer, are the PDUs of the stream. */
  lemma FramingIgnoresSplits(portions: seq<Bytes>)
    ensures Outlook(Frame, Passes(Frame, Begin(), portions)) == Cut(Frame, Concat(portions))
    ensures Octets(Cut(Frame, Concat(portions)).pdus) + Cut(Frame, Concat(portions)).rest == Concat(portions)
  {
    FrameIsSound();
    LoopFramesStream(Frame, portions);
    CutLosesNothing(Frame, Concat(portions));
  }

  /** After the stream, as many idle passes as it has PDUs and one more leave exactly its
      PDUs framed and its remainder in the buffer, and the loop ended if that is malformed. */
  lemma LoopDrains(portions: seq<Bytes>, n: nat)
    requires n > |Cut(Frame, Concat(portions)).pdus|
    ensures Passes(Frame, Begin(), portions + Idle(n)) == Drained(Cut(Frame, Concat(portions)))
  {
    FrameIsSound();
    FramingIgnoresSplits(portions);
    PassesAppend(Frame, Begin(), portions, Idle(n));
    IdlePassesDrain(Frame, Passes(Frame, Begin(), portions), n);
  }

  /** So two splits of one stream frame the same PDUs and leave the same bytes. */
  lemma SplitsAgree(a: seq<Bytes>, b: seq<Bytes>, n: nat, m: nat)
    requires Concat(a) == Concat(b) && n > |Cut(Frame, Concat(a)).pdus| && m > |Cut(Frame, Concat(a)).pdus|
    ensures Passes(Frame, Begin(), a + Idle(n)) == Passes(Frame, Begin(), b + Idle(m))
  {
    LoopDrains(a, n);
    LoopDrains(b, m);
  }

  // ---- The packets a client sends ----------------------------------------------

  /** A packet by what follows its length: TPKT, and fast-path with a length of one or two
      octets. */
  datatype Packet = Slow(body: Bytes) | Short(lead: byte, body: Bytes) | Long(lead: byte, body: Bytes)

  predicate Sendable(p: Packet) {
    match p
    case Slow(x) => 7 <= |x| + 4 < 0x1_0000
    case Short(a, x) => a != 3 && |x| + 2 < 0x80
    case Long(a, x) => a != 3 && |x| + 3 < 0x8000
  }

  /** The octets: section 6 of RFC 1006, and section 2.2.8.1.2 of MS-RDPBCGR. */
  function Wire(p: Packet): Bytes
    requires Sendable(p)
  {
    match p
    case Slow(x) => [3, 0, (|x| + 4) / 0x100, (|x| + 4) % 0x100] + x
    case Short(a, x) => [a, |x| + 2] + x
    case Long(a, x) => [a, 0x80 + (|x| + 3) / 0x100, (|x| + 3) % 0x100] + x
  }

  function KindOf(p: Packet): Kind {
    if p.Slow? then Tpkt else FastPath
  }

  /** A whole packet is framed as itself, whatever follows it. */
  lemma PacketIsFramed(p: Packet, t: Bytes)
    requires Sendable(p)
    ensures Frame(Wire(p) + t) == Complete(KindOf(p), |Wire(p)|)
  {
    var s := Wire(p) + t;
    match p
    case Slow(x) =>
      assert s[0] == 3 && s[1] == 0 && s[2] == (|x| + 4) / 0x100 && s[3] == (|x| + 4) % 0x100;
    case Short(a, x) =>
      assert s[0] == a && s[1] == |x| + 2;
    case Long(a, x) =>
      assert s[0] == a && s[1] == 0x80 + (|x| + 3) / 0x100 && s[2] == (|x| + 3) % 0x100;
  }

  /** Anything less of it waits for more. */
  lemma PartIsAwaited(p: Packet, n: nat)
    requires Sendable(p) && n < |Wire(p)|
    ensures Frame(Wire(p)[..n]) == NeedMore
  {
    var s := Wire(p)[..n];
    match p
    case Slow(x) =>
      assert n >= 4 ==> s[0] == 3 && s[1] == 0 && s[2] == (|x| + 4) / 0x100 && s[3] == (|x| + 4) % 0x100;
    case Short(a, x) =>
      assert n >= 2 ==> s[0] == a && s[1] == |x| + 2;
    case Long(a, x) =>
      assert n >= 3 ==> s[0] == a && s[1] == 0x80 + (|x| + 3) / 0x100 && s[2] == (|x| + 3) % 0x100;
  }

  /** A TPKT header is malformed exactly for a second octet other than 0 or a length below 7. */
  lemma MalformedIff(b: byte, hi: byte, lo: byte, t: Bytes)
    ensures Frame([3, b, hi, lo] + t).Malformed? <==> b != 0 || (hi == 0 && lo < 7)
  {
    var s := [3, b, hi, lo] + t;
    assert s[0] == 3 && s[1] == b && s[2] == hi && s[3] == lo;
  }

  /** A fast-path length shorter than its own header counts as the header. */
  lemma ShortLengthIsHeader(a: byte, n: byte, t: Bytes)
    requires a != 3
    ensures n < 2 ==> Frame([a, n] + t) == Complete(FastPath, 2)
    ensures n < 3 ==> Frame([a, 0x80, n] + t) == Complete(FastPath, 3)
  {
    assert ([a, n] + t)[0] == a && ([a, n] + t)[1] == n;
    assert ([a, 0x80, n] + t)[0] == a && ([a, 0x80, n] + t)[1] == 0x80 && ([a, 0x80, n] + t)[2] == n;
  }

  function Wires(ps: seq<Packet>): Bytes
    requires forall i | 0 <= i < |ps| :: Sendable(ps[i])
  {
    if ps == [] then [] else Wire(ps[0]) + Wires(ps[1..])
  }

  function Sent(ps: seq<Packet>): seq<Pdu>
    requires forall i | 0 <= i < |ps| :: Sendable(ps[i])
  {
    if ps == [] then [] else [Pdu(KindOf(ps[0]), Wire(ps[0]))] + Sent(ps[1..])
  }

  lemma CutFirst(f: Framer, w: Bytes, t: Bytes, k: Kind)
    requires f(w + t) == Complete(k, |w|) && |w| > 0
    ensures Cut(f, w + t) == Prefixed([Pdu(k, w)], Cut(f, t))
  {
    assert (w + t)[..|w|] == w && (w + t)[|w|..] == t;
  }

  /** Cutting the packets' octets gives the packets, and nothing is left. */
  lemma {:induction false} PacketsAreCut(ps: seq<Packet>)
    requires forall i | 0 <= i < |ps| :: Sendable(ps[i])
    ensures Cut(Frame, Wires(ps)) == Framed(Sent(ps), [], false)
  {
    if ps != [] {
      PacketIsFramed(ps[0], Wires(ps[1..]));
      CutFirst(Frame, Wire(ps[0]), Wires(ps[1..]), KindOf(ps[0]));
      PacketsAreCut(ps[1..]);
    }
  }

  lemma {:induction false} OneForEach(ps: seq<Packet>)
    requires forall i | 0 <= i < |ps| :: Sendable(ps[i])
    ensures |Sent(ps)| == |ps|
  {
    if ps != [] {
      OneForEach(ps[1..]);
    }
  }

  /** So whatever packets a client sends and however its stream is read, the loop frames
      exactly those packets, in order, and is left with an empty buffer. */
  lemma ClientPacketsArrive(ps: seq<Packet>, portions: seq<Bytes>, n: nat)
    requires (forall i | 0 <= i < |ps| :: Sendable(ps[i])) && Concat(portions) == Wires(ps) && n > |ps|
    ensures Passes(Frame, Begin(), portions + Idle(n)) == Loop([], Sent(ps), false)
  {
    PacketsAreCut(ps);
    OneForEach(ps);
    LoopDrains(portions, n);
  }

  // ---- The end of the stream -------------------------------------------------

  /** What was framed when the reads end: an end of file leaves the loop before it looks
      at its buffer again. */
  function AtClose(portions: seq<Bytes>): seq<Pdu> {
    Passes(Frame, Begin(), portions).framed
  }

  /** Whether the loop has a PDU in its buffer that it has not framed. */
  predicate Unframed(l: Loop) {
    !l.ended && Frame(l.buf).Complete?
  }

  lemma OutlookBeyond(f: Framer, l: Loop)
    requires Sound(f)
    ensures l.framed <= Outlook(f, l).pdus
    ensures l.framed == Outlook(f, l).pdus <==> l.ended || !f(l.buf).Complete?
  {
    if !l.ended && f(l.buf).Complete? {
      CompleteStep(f, l);
    } else if !l.ended {
      assert l.framed + [] == l.framed;
    }
  }

  lemma {:induction false} OnePduAPass(f: Framer, l: Loop, portions: seq<Bytes>)
    ensures |Passes(f, l, portions).framed| <= |l.framed| + |portions|
    decreases portions
  {
    if portions != [] {
      OnePduAPass(f, Pass(f, l, portions[0]), portions[1..]);
    }
  }

  /** However the stream is split, the PDUs framed before it closes are its first ones, at
      most one a pass; they are all of them exactly if the buffer holds no whole PDU. */
  lemma CloseFramesPrefix(portions: seq<Bytes>)
    ensures AtClose(portions) <= Cut(Frame, Concat(portions)).pdus && |AtClose(portions)| <= |portions|
    ensures AtClose(portions) == Cut(Frame, Concat(portions)).pdus <==> !Unframed(Passes(Frame, Begin(), portions))
  {
    FrameIsSound();
    FramingIgnoresSplits(portions);
    OutlookBeyond(Frame, Passes(Frame, Begin(), portions));
    OnePduAPass(Frame, Begin(), portions);
  }

  /** So at a close the reads matter: two PDUs in one read, or in two. */
  lemma CloseDependsOnReads()
    ensures Concat([[0, 2, 0, 2]]) == Concat([[0, 2], [0, 2]])
    ensures |AtClose([[0, 2, 0, 2]])| == 1 && |AtClose([[0, 2], [0, 2]])| == 2
  {
    var one: Bytes := [0, 2];
    var both: Bytes := [0, 2, 0, 2];
    assert [both][1..] == [] && [one, one][1..] == [one] && [one][1..] == [];
    assert both + [] == both && one + (one + []) == both;
    var none: Bytes := [];
    assert none + both == both && none + one == one;
    var l := FrameOne(Frame, both, []);
    assert Passes(Frame, Begin(), [both]) == Passes(Frame, l, []) == l;
    var a := FrameOne(Frame, one, []);
    assert a.buf == [] && !a.ended;
    var b := FrameOne(Frame, one, a.framed);
    assert Passes(Frame, Begin(), [one, one]) == Passes(Frame, a, [one]) == Passes(Frame, b, []) == b;
  }

  // ---- The blocking reader -------------------------------------------------

  datatype Outcome = Eof | Error | Got(kind: Kind, len: nat)

  /** read_one_rdp_pdu on a stream that ends after `s`: a body cut short by the end is
      not noticed, and `stale` is what the buffer holds where a length octet is missing. */
  function ReadOne(s: Bytes, cap: nat, stale: byte): Outcome {
    if s == [] then Eof
    else if s[0] == 3 then
      if |s| < 4 || TpktLen(s).None? || TpktLen(s).value > cap then Error else Got(Tpkt, TpktLen(s).value)
    else if |s| < 2 then Error
    else if s[1] < 0x80 then
      var total := if s[1] < 2 then 2 else s[1];
      if total > cap then Error else Got(FastPath, total)
    else
      var n := (s[1] as int - 0x80) * 0x100 + if |s| < 3 then stale else s[2];
      var total := if n < 3 then 3 else n;
      if total > cap then Error else Got(FastPath, total)
  }

  /** On PDUs that are all there and fit its buffer the blocking reader agrees with the
      framer, in both directions; it refuses what the framer calls malformed. */
  lemma ReadersAgree(s: Bytes, cap: nat, stale: byte, kind: Kind, len: nat)
    requires len <= cap
    ensures Frame(s) == Complete(kind, len) <==> ReadOne(s, cap, stale) == Got(kind, len) && len <= |s|
    ensures Frame(s).Malformed? ==> ReadOne(s, cap, stale) == Error
  {}

  /** So the blocking reader too returns each packet whole, or refuses one over `cap`. */
  lemma ReaderGetsPacket(p: Packet, t: Bytes, cap: nat, stale: byte)
    requires Sendable(p)
    ensures ReadOne(Wire(p) + t, cap, stale)
         == if |Wire(p)| <= cap then Got(KindOf(p), |Wire(p)|) else Error
  {
    PacketIsFramed(p, t);
    ReadersAgree(Wire(p) + t, |Wire(p)|, stale, KindOf(p), |Wire(p)|);
    SmallerCap(Wire(p) + t, |Wire(p)|, cap, stale, KindOf(p));
  }

  lemma SmallerCap(s: Bytes, len: nat, cap: nat, stale: byte, k: Kind)
    requires ReadOne(s, len, stale) == Got(k, len)
    ensures ReadOne(s, cap, stale) == if len <= cap then Got(k, len) else Error
  {}

  // ---- The loop in place ---------------------------------------------------

  const FIRST_CAPACITY: nat := 16384

  class Inbound {
    var store: array<byte>
    var off: nat
    var len: nat
    var ended: bool

    ghost predicate Valid()
      reads this
    {
      off <= len <= store.Length
    }

    /** What was read and not yet consumed. */
    ghost function Contents(): Bytes
      requires Valid()
      reads this, store
    {
      store[off..len]
    }

    ghost function Abs(framed: seq<Pdu>): Loop
      requires Valid()
      reads this, store
    {
      Loop(Contents(), framed, ended)
    }

    constructor ()
      ensures Valid() && fresh(store) && Abs([]) == Begin()
    {
      store := new byte[0];
      off, len, ended := 0, 0, false;
    }

    /** Moves what is left to the front. */
    method Compact()
      requires Valid()
      modifies this, store
      ensures Valid() && store == old(store) && ended == old(ended)
      ensures off == 0 && Contents() == old(Contents())
    {
      if off == 0 {
        return;
      }
      var i, n := 0, len - off;
      while i < n
        invariant 0 <= i <= n && off == old(off) && len == old(len) && store == old(store) && ended == old(ended)
        invariant forall k | 0 <= k < i :: store[k] == old(store[off + k])
        invariant forall k | i <= k < store.Length :: store[k] == old(store[k])
      {
        store[i] := store[off + i];
        i := i + 1;
      }
      off, len := 0, n;
    }

    method Grow(need: nat)
      requires Valid() && off == 0
      modifies this
      ensures Valid() && off == 0 && len == old(len) && ended == old(ended)
      ensures store.Length >= need && (store == old(store) || fresh(store)) && Contents() == old(Contents())
    {
      if need <= store.Length {
        return;
      }
      var cap := if store.Length > 0 then store.Length else FIRST_CAPACITY;
      while cap < need
        invariant cap > 0
      {
        cap := cap * 2;
      }
      var bigger := new byte[cap];
      Copy(bigger, 0, store[..len]);
      store := bigger;
    }

    /** Appends what was read. */
    method Fill(read: Bytes)
      requires Valid()
      modifies this, store
      ensures Valid() && ended == old(ended) && (store == old(store) || fresh(store))
      ensures Contents() == old(Contents()) + read
    {
      Compact();
      Grow(len + |read|);
      Copy(store, len, read);
      len := len + |read|;
    }

    method Consume(n: nat)
      requires Valid()
      modifies this`off
      ensures Valid()
      ensures Contents() == if n <= |old(Contents())| then old(Contents())[n..] else []
    {
      off := off + n;
      if off > len {
        off := len;
      }
    }

    /** One pass of the proxy loop; a PDU larger than `cap` is consumed and skipped. */
    method OnePass(read: Bytes, cap: nat, ghost framed: seq<Pdu>) returns (pdu: Option<Pdu>, ghost after: seq<Pdu>)
      requires Valid()
      modifies this, store
      ensures Valid() && (store == old(store) || fresh(store))
      ensures Abs(after) == Pass(Frame, old(Abs(framed)), read)
      ensures if after == framed then pdu.None?
              else pdu == if |after[|after| - 1].octets| <= cap then Some(after[|after| - 1]) else None
    {
      Fill(read);
      after := framed;
      if ended {
        return None, after;
      }
      var data := store[off..len];
      var v := Frame(data);
      if v.Malformed? {
        ended := true;
      }
      if !v.Complete? {
        return None, after;
      }
      var p := Pdu(v.kind, data[..v.len]);
      Consume(v.len);
      after := framed + [p];
      pdu := if |p.octets| <= cap then Some(p) else None;
    }
  }
}
