/**
  * Flow control of the graphics channel: a window of unacknowledged frames, and a
  * byte budget read from a ring of cumulative byte counts. All counters are the
  * source's unsigned 32-bit and 64-bit ones.
  */
module GraphicsFlow {
  import opened Bytes

  const RING: nat := 8
  const BUDGET: nat := 0x10_0000
  const SUSPENDED: u32 := 0xFFFF_FFFF

  datatype Gfx = Gfx(frameId: u32, lastAck: u32, depth: u32, bytes: u64, ring: seq<u64>)

  function Window(depth: u32): nat {
    if depth >= 2 then 1 else if depth == 1 then 2 else 4
  }

  function Pending(g: Gfx): u32 {
    (g.frameId - g.lastAck) as int % U32
  }

  function InFlight(g: Gfx): u64
    requires |g.ring| == RING
  {
    (g.bytes as int - g.ring[g.lastAck as int % RING]) % U64
  }

  predicate Unthrottled(g: Gfx) {
    g.lastAck == 0 || g.depth == SUSPENDED
  }

  predicate MaySend(g: Gfx)
    requires |g.ring| == RING
  {
    || Unthrottled(g)
    || (Pending(g) < Window(g.depth) && (Pending(g) == 0 || InFlight(g) < BUDGET))
  }

  // ---- The frame builders ----------------------------------------------------

  /** What an encoder hands over: the octets of one stream, or of the main and the
      auxiliary stream. */
  datatype Encoded = Avc420(len: nat) | Avc444(main: nat, aux: nat) | Progressive(len: nat)

  const HEADER: nat := 8
  const META: nat := 14
  const MAX_MAIN: nat := 0x3FFF_FFFF

  /** The octets a builder puts, in order: StartFrame, the wire-to-surface head, the
      stream or streams, EndFrame. */
  function Puts(e: Encoded): seq<nat> {
    match e
    case Avc420(len) => [HEADER, 4, 4] + ([HEADER, 2, 2] + ([1, 8, 4] + ([META, len] + [HEADER, 4])))
    case Avc444(main, aux) =>
      [HEADER, 4, 4] + ([HEADER, 2, 2] + ([1, 8, 4] + ([4, META, main] + ([META, aux] + [HEADER, 4]))))
    case Progressive(len) => [HEADER, 4, 4] + ([HEADER, 2, 2] + ([4, 1, 4] + ([len] + [HEADER, 4])))
  }

  /** The total a builder compares with its buffer. */
  function FrameLen(e: Encoded): nat {
    match e
    case Avc420(len) => HEADER + 8 + (HEADER + (17 + 4 + 8 + 2 + len)) + (HEADER + 4)
    case Avc444(main, aux) => HEADER + 8 + (HEADER + (17 + (4 + (META + main) + (META + aux)))) + (HEADER + 4)
    case Progressive(len) => HEADER + 8 + (HEADER + (2 + 2 + 4 + 1 + 4 + len)) + (HEADER + 4)
  }

  /** The buffer each call site allocates. */
  function Room(e: Encoded): nat {
    match e
    case Avc420(len) => len + 256
    case Avc444(main, aux) => main + aux + 256
    case Progressive(len) => len + 256
  }

  function Sum(ns: seq<nat>): nat {
    if ns == [] then 0 else Sum(ns[..|ns| - 1]) + ns[|ns| - 1]
  }

  /** Each put succeeds while the buffer has room. */
  predicate PutsFit(ns: seq<nat>, cap: nat) {
    ns == [] || (PutsFit(ns[..|ns| - 1], cap) && Sum(ns) <= cap)
  }

  /** The built frame's length; None when the builder refuses. */
  function Built(e: Encoded): Option<nat> {
    if e.Avc444? && META + e.main > MAX_MAIN then None
    else if FrameLen(e) > Room(e) || !PutsFit(Puts(e), Room(e)) then None
    else Some(Sum(Puts(e)))
  }

  lemma {:induction false} SumConcat(a: seq<nat>, b: seq<nat>)
    ensures Sum(a + b) == Sum(a) + Sum(b)
    decreases |b|
  {
    if b == [] {
      assert a + b == a;
    } else {
      var c := b[..|b| - 1];
      SumConcat(a, c);
      assert (a + b)[..|a + b| - 1] == a + c;
    }
  }

  lemma Sum1(x: nat, b: seq<nat>)
    ensures Sum([x] + b) == x + Sum(b)
  {
    SumConcat([x], b);
  }

  lemma Sum2(x: nat, y: nat, b: seq<nat>)
    ensures Sum([x, y] + b) == x + y + Sum(b)
  {
    assert [x, y] + b == [x] + ([y] + b);
    Sum1(x, [y] + b);
    Sum1(y, b);
  }

  lemma Sum3(x: nat, y: nat, z: nat, b: seq<nat>)
    ensures Sum([x, y, z] + b) == x + y + z + Sum(b)
  {
    assert [x, y, z] + b == [x, y] + ([z] + b);
    Sum2(x, y, [z] + b);
    Sum1(z, b);
  }

  lemma {:induction false} SumFits(ns: seq<nat>, cap: nat)
    requires Sum(ns) <= cap
    ensures PutsFit(ns, cap)
  {
    if ns != [] {
      SumFits(ns[..|ns| - 1], cap);
    }
  }

  lemma EndAddsUp()
    ensures Sum([HEADER, 4]) == HEADER + 4
  {
    Sum2(HEADER, 4, []);
    assert [HEADER, 4] + [] == [HEADER, 4];
  }

  lemma HeadAddsUp(x: nat, y: nat, z: nat, b: seq<nat>)
    ensures Sum([HEADER, 4, 4] + ([HEADER, 2, 2] + ([x, y, z] + b))) == 2 * HEADER + 12 + x + y + z + Sum(b)
  {
    Sum3(HEADER, 4, 4, [HEADER, 2, 2] + ([x, y, z] + b));
    Sum3(HEADER, 2, 2, [x, y, z] + b);
    Sum3(x, y, z, b);
  }

  /** What is put adds up to the total that was compared. */
  lemma PutsAddUp(e: Encoded)
    ensures Sum(Puts(e)) == FrameLen(e)
  {
    EndAddsUp();
    match e
    case Avc420(len) =>
      HeadAddsUp(1, 8, 4, [META, len] + [HEADER, 4]);
      Sum2(META, len, [HEADER, 4]);
    case Avc444(main, aux) =>
      HeadAddsUp(1, 8, 4, [4, META, main] + ([META, aux] + [HEADER, 4]));
      Sum3(4, META, main, [META, aux] + [HEADER, 4]);
      Sum2(META, aux, [HEADER, 4]);
    case Progressive(len) =>
      HeadAddsUp(4, 1, 4, [len] + [HEADER, 4]);
      Sum1(len, [HEADER, 4]);
  }

  /** In the buffer its call site allocates, every AVC420 and progressive frame is built;
      an AVC444 frame exactly if its main stream fits the 30-bit length field. */
  lemma BuildSucceedsIff(e: Encoded)
    ensures Built(e).Some? <==> e.Avc444? ==> e.main <= MAX_MAIN - META
    ensures Built(e).Some? ==> Built(e).value == FrameLen(e)
  {
    PutsAddUp(e);
    SumFits(Puts(e), Room(e));
  }

  // ---- Steps -------------------------------------------------------------------

  /** A frame is encoded and offered; or the client acknowledges. */
  datatype Event = Offer(frame: Encoded) | Ack(id: u32, depth: u32)

  /** The flow state and, for every frame id used so far, what was sent under it. */
  datatype System = System(g: Gfx, log: seq<Option<nat>>)

  function Sent(g: Gfx, size: nat): Gfx
    requires |g.ring| == RING
  {
    var total := (g.bytes + size) % U64;
    g.(bytes := total, ring := g.ring[g.frameId as int % RING := total])
  }

  /** A frame that may be sent: it uses the next id, whether or not its PDU is built. */
  function Offered(y: System, size: Option<nat>): System
    requires |y.g.ring| == RING
  {
    var g := y.g.(frameId := (y.g.frameId as int + 1) % U32);
    System(if size.Some? then Sent(g, size.value) else g, y.log + [size])
  }

  function Step(y: System, e: Event): System
    requires |y.g.ring| == RING
  {
    match e
    case Ack(id, depth) => y.(g := y.g.(lastAck := id, depth := depth))
    case Offer(frame) => if MaySend(y.g) then Offered(y, Built(frame)) else y
  }

  function Initial(): System {
    System(Gfx(0, 0, 0, 0, seq(RING, _ => 0)), [])
  }

  /** What clients and encoders do: frames below 4 GiB, fewer than 2^32 of them, and
      acknowledgements that do not go back and name a frame that was sent. */
  ghost predicate Admissible(y: System, e: Event) {
    match e
    case Offer(frame) => y.g.frameId + 1 < U32 && FrameLen(frame) < U32
    case Ack(id, depth) => y.g.lastAck <= id && 1 <= id <= |y.log| && y.log[id - 1].Some?
  }

  /** An acknowledgement as parsed: the queue depth at offset 8, the frame id at 12. */
  function ReadAck(pdu: Bytes): Option<Event> {
    if |pdu| < HEADER + 12 then None else Some(Ack(Ld32(pdu, 12), Ld32(pdu, 8)))
  }

  /** RDPGFX_FRAME_ACKNOWLEDGE_PDU (section 2.2.2.13 of MS-RDPEGFX) reads back. */
  lemma AckReadsBack(header: Bytes, depth: u32, id: u32, decoded: u32, rest: Bytes)
    requires |header| == 8
    ensures ReadAck(header + Le32(depth) + Le32(id) + Le32(decoded) + rest) == Some(Ack(id, depth))
  {
    var s := header + Le32(depth) + Le32(id) + Le32(decoded) + rest;
    assert s == header + Le32(depth) + (Le32(id) + Le32(decoded) + rest);
    Ld32OfLe32(header, depth, Le32(id) + Le32(decoded) + rest);
    assert s == (header + Le32(depth)) + Le32(id) + (Le32(decoded) + rest);
    Ld32OfLe32(header + Le32(depth), id, Le32(decoded) + rest);
  }

  // ---- The invariant -----------------------------------------------------

  function Size(x: Option<nat>): nat {
    if x.Some? then x.value else 0
  }

  function Total(log: seq<Option<nat>>): nat {
    if log == [] then 0 else Total(log[..|log| - 1]) + Size(log[|log| - 1])
  }

  ghost predicate Snapshots(y: System) {
    |y.g.ring| == RING && forall id: nat | 1 <= id <= |y.log| < id + RING ::
      y.log[id - 1].Some? ==> y.g.ring[id % RING] == Total(y.log[..id]) % U64
  }

  ghost predicate Inv(y: System) {
    && Snapshots(y)
    && |y.log| == y.g.frameId && y.g.bytes == Total(y.log) % U64
    && y.g.lastAck <= y.g.frameId && (y.g.lastAck > 0 ==> y.log[y.g.lastAck - 1].Some?)
    && forall i | 0 <= i < |y.log| :: Size(y.log[i]) < U32
  }

  lemma InitialInv()
    ensures Inv(Initial())
  {}

  lemma TotalAppend(log: seq<Option<nat>>, x: Option<nat>)
    ensures Total(log + [x]) == Total(log) + Size(x)
  {
    assert (log + [x])[..|log|] == log;
  }

  lemma AddMod(a: nat, b: nat)
    ensures (a % U64 + b) % U64 == (a + b) % U64
  {
    var q := a / U64;
    assert a + b == (a % U64 + b) + U64 * q;
    ModShift(a % U64 + b, q);
  }

  lemma {:induction false} ModShift(x: nat, q: nat)
    ensures (x + U64 * q) % U64 == x % U64
  {
    if q > 0 {
      ModShift(x, q - 1);
      assert x + U64 * q == (x + U64 * (q - 1)) + U64;
    }
  }

  lemma SameSlotIsFar(a: nat, b: nat)
    requires a < b < a + RING
    ensures a % RING != b % RING
  {}

  lemma Prefixes(log: seq<Option<nat>>, x: Option<nat>, id: nat)
    requires id <= |log| + 1
    ensures (log + [x])[..id] == if id == |log| + 1 then log + [x] else log[..id]
  {}

  lemma OfferedBytes(y: System, size: Option<nat>)
    requires Inv(y)
    ensures Offered(y, size).g.bytes == Total(y.log + [size]) % U64
  {
    TotalAppend(y.log, size);
    AddMod(Total(y.log), Size(size));
  }

  lemma SnapshotIsTaken(g: Gfx, size: nat)
    requires |g.ring| == RING
    ensures Sent(g, size).ring[g.frameId as int % RING] == Sent(g, size).bytes
  {}

  lemma NextId(id: u32)
    requires id + 1 < U32
    ensures (id as int + 1) % U32 == id + 1
  {}

  lemma NewSnapshot(y: System, size: nat)
    requires |y.g.ring| == RING && |y.log| == y.g.frameId && y.g.frameId + 1 < U32
    ensures var z := Offered(y, Some(size)); |z.g.ring| == RING && z.g.ring[|z.log| % RING] == z.g.bytes
  {
    NextId(y.g.frameId);
    SnapshotIsTaken(y.g.(frameId := y.g.frameId + 1), size);
  }

  lemma OldSnapshot(y: System, size: Option<nat>, id: nat)
    requires Inv(y) && y.g.frameId + 1 < U32 && 1 <= id <= |y.log| && |y.log| + 1 < id + RING && y.log[id - 1].Some?
    ensures Offered(y, size).g.ring[id % RING] == Total(y.log[..id]) % U64
  {
    var z := Offered(y, size);
    assert z.g.ring == y.g.ring || z.g.ring == y.g.ring[(|y.log| + 1) % RING := z.g.bytes];
    SameSlotIsFar(id, |y.log| + 1);
  }

  lemma OfferKeepsSnapshots(y: System, size: Option<nat>)
    requires Inv(y) && y.g.frameId + 1 < U32
    ensures Snapshots(Offered(y, size))
  {
    var z, log := Offered(y, size), y.log + [size];
    forall id: nat | 1 <= id <= |log| < id + RING && log[id - 1].Some?
      ensures z.g.ring[id % RING] == Total(log[..id]) % U64
    {
      Prefixes(y.log, size, id);
      if id == |log| {
        OfferedBytes(y, size);
        NewSnapshot(y, size.value);
      } else {
        OldSnapshot(y, size, id);
      }
    }
  }

  lemma OfferedSizes(y: System, size: Option<nat>)
    requires Inv(y) && Size(size) < U32
    ensures forall i | 0 <= i < |y.log + [size]| :: Size((y.log + [size])[i]) < U32
  {}

  lemma OfferedAck(y: System, size: Option<nat>)
    requires Inv(y) && y.g.frameId + 1 < U32
    ensures var z := Offered(y, size);
            && |z.log| == z.g.frameId && z.g.lastAck == y.g.lastAck <= z.g.frameId
            && (z.g.lastAck > 0 ==> z.log[z.g.lastAck - 1].Some?)
  {
    assert (y.g.frameId as int + 1) % U32 == y.g.frameId + 1;
  }

  lemma OfferKeepsInv(y: System, size: Option<nat>)
    requires Inv(y) && y.g.frameId + 1 < U32 && Size(size) < U32
    ensures Inv(Offered(y, size))
  {
    OfferKeepsSnapshots(y, size);
    OfferedBytes(y, size);
    OfferedSizes(y, size);
    OfferedAck(y, size);
  }

  lemma AckKeepsInv(y: System, id: u32, depth: u32)
    requires Inv(y) && Admissible(y, Ack(id, depth))
    ensures Inv(Step(y, Ack(id, depth)))
  {
    assert Snapshots(Step(y, Ack(id, depth)));
  }

  lemma StepKeepsInv(y: System, e: Event)
    requires Inv(y) && Admissible(y, e)
    ensures Inv(Step(y, e))
  {
    match e
    case Ack(id, depth) => AckKeepsInv(y, id, depth);
    case Offer(frame) =>
      BuildSucceedsIff(frame);
      OfferKeepsInv(y, Built(frame));
  }

  function Run(y: System, es: seq<Event>): System
    requires |y.g.ring| == RING
    decreases es
  {
    if es == [] then y else Run(Step(y, es[0]), es[1..])
  }

  ghost predicate AdmissibleRun(y: System, es: seq<Event>)
    requires |y.g.ring| == RING
    decreases es
  {
    es == [] || (Admissible(y, es[0]) && AdmissibleRun(Step(y, es[0]), es[1..]))
  }

  lemma {:induction false} RunKeepsInv(y: System, es: seq<Event>)
    requires Inv(y) && AdmissibleRun(y, es)
    ensures Inv(Run(y, es))
    decreases es
  {
    if es != [] {
      StepKeepsInv(y, es[0]);
      RunKeepsInv(Step(y, es[0]), es[1..]);
    }
  }

  // ---- What the ring tells -----------------------------------------------

  /** The octets of the frames after the last acknowledged one. */
  function Unacked(y: System): int
    requires y.g.lastAck <= |y.log|
  {
    Total(y.log) - Total(y.log[..y.g.lastAck])
  }

  lemma {:induction false} FewFramesAreSmall(log: seq<Option<nat>>, k: nat)
    requires k <= |log| && forall i | 0 <= i < |log| :: Size(log[i]) < U32
    ensures 0 <= Total(log) - Total(log[..k]) <= (|log| - k) * U32
    decreases |log|
  {
    if k == |log| {
      assert log[..k] == log;
    } else {
      var short := log[..|log| - 1];
      assert short[..k] == log[..k];
      FewFramesAreSmall(short, k);
    }
  }

  lemma SubMod(a: nat, b: nat)
    requires b <= a < b + U64
    ensures (a % U64 - b % U64) % U64 == a - b
  {
    var d := a - b;
    var x := a % U64 - b % U64;
    assert x == d - U64 * (a / U64 - b / U64);
    assert x == d || x == d - U64 by {
      assert -U64 < x < U64;
    }
  }

  lemma SnapshotOfAck(y: System)
    requires Inv(y) && 0 < y.g.lastAck && y.g.frameId - y.g.lastAck < RING
    ensures y.g.ring[y.g.lastAck as int % RING] == Total(y.log[..y.g.lastAck]) % U64
  {}

  lemma UnackedIsSmall(y: System)
    requires Inv(y) && y.g.frameId - y.g.lastAck < RING
    ensures 0 <= Unacked(y) < U64
  {
    FewFramesAreSmall(y.log, y.g.lastAck);
  }

  lemma PendingIsGap(y: System)
    requires Inv(y)
    ensures Pending(y.g) == y.g.frameId - y.g.lastAck
  {}

  lemma RingIsExact(y: System)
    requires Inv(y) && 0 < y.g.lastAck && y.g.frameId - y.g.lastAck < RING
    ensures InFlight(y.g) == Unacked(y)
  {
    SnapshotOfAck(y);
    UnackedIsSmall(y);
    SubMod(Total(y.log), Total(y.log[..y.g.lastAck]));
  }

  lemma UnackedGrows(y: System, size: nat)
    requires y.g.lastAck <= |y.log|
    ensures Total(y.log + [Some(size)]) - Total((y.log + [Some(size)])[..y.g.lastAck]) == Unacked(y) + size
  {
    TotalAppend(y.log, Some(size));
    Prefixes(y.log, Some(size), y.g.lastAck);
  }

  lemma AllowedIsUnderBudget(y: System)
    requires Inv(y) && !Unthrottled(y.g) && MaySend(y.g)
    ensures y.g.frameId - y.g.lastAck < Window(y.g.depth) && Unacked(y) < BUDGET
  {
    PendingIsGap(y);
    RingIsExact(y);
    if y.g.frameId == y.g.lastAck {
      assert y.log[..y.g.lastAck] == y.log;
    }
  }

  /** Every frame that was sent is acknowledged; the ids since then are of frames
      whose PDU could not be built. */
  ghost predicate FullyAcked(y: System) {
    0 < y.g.lastAck <= |y.log| && forall i | y.g.lastAck <= i < |y.log| :: y.log[i].None?
  }

  lemma {:induction false} NothingUnacked(log: seq<Option<nat>>, k: nat)
    requires k <= |log| && forall i | k <= i < |log| :: log[i].None?
    ensures Total(log) == Total(log[..k])
    decreases |log|
  {
    if k == |log| {
      assert log[..k] == log;
    } else {
      var short := log[..|log| - 1];
      assert short[..k] == log[..k];
      NothingUnacked(short, k);
    }
  }

  lemma FullyAckedMaySendIff(y: System)
    requires Inv(y) && FullyAcked(y)
    ensures MaySend(y.g) <==> Unthrottled(y.g) || |y.log| - y.g.lastAck < Window(y.g.depth)
  {
    PendingIsGap(y);
    if Pending(y.g) < Window(y.g.depth) {
      RingIsExact(y);
      NothingUnacked(y.log, y.g.lastAck);
    }
  }

  // ---- What holds in every run -------------------------------------------------

  function After(es: seq<Event>): System {
    Run(Initial(), es)
  }

  /** Whenever the byte budget is consulted, the ring gives exactly the octets of
      the unacknowledged frames. */
  lemma BudgetIsExact(es: seq<Event>)
    requires AdmissibleRun(Initial(), es)
    ensures var y := After(es);
            && |y.g.ring| == RING && y.g.lastAck <= |y.log|
            && (!Unthrottled(y.g) && Pending(y.g) < Window(y.g.depth) ==> InFlight(y.g) == Unacked(y))
  {
    InitialInv();
    RunKeepsInv(Initial(), es);
    var y := After(es);
    PendingIsGap(y);
    if !Unthrottled(y.g) && Pending(y.g) < Window(y.g.depth) {
      RingIsExact(y);
    }
  }

  /** The frames a client may be behind, by the depth of its queue. */
  predicate KeepsUp(depth: u32, behind: nat) {
    if depth == 0 then behind <= 3 else if depth == 1 then behind <= 1 else behind == 0
  }

  /** In every run, exactly when a frame may be sent: before the first acknowledgement,
      while acknowledgements are suspended, when the client is behind by nothing, or by
      fewer than four frames (two, one) of together less than 1 MiB. */
  lemma MaySendIff(es: seq<Event>)
    requires AdmissibleRun(Initial(), es)
    ensures var y := After(es);
            && |y.g.ring| == RING && y.g.lastAck <= |y.log|
            && (MaySend(y.g) <==>
                  || y.g.lastAck == 0 || y.g.depth == 0xFFFF_FFFF || |y.log| == y.g.lastAck
                  || (KeepsUp(y.g.depth, |y.log| - y.g.lastAck) && Unacked(y) < 1048576))
  {
    InitialInv();
    RunKeepsInv(Initial(), es);
    var y := After(es);
    PendingIsGap(y);
    if !Unthrottled(y.g) && Pending(y.g) < Window(y.g.depth) {
      RingIsExact(y);
    }
  }

  /** In every run, a throttled send leaves at most the window, so at most four frames,
      in flight, and fewer unacknowledged octets than the budget plus that frame. */
  lemma ThrottledSendIsBounded(es: seq<Event>, e: Encoded)
    requires AdmissibleRun(Initial(), es) && |After(es).g.ring| == RING && Admissible(After(es), Offer(e))
    requires !Unthrottled(After(es).g) && MaySend(After(es).g) && Built(e).Some?
    ensures var y, z := After(es), Step(After(es), Offer(e));
            && z.log == y.log + [Some(FrameLen(e))] && z.g.lastAck == y.g.lastAck <= |z.log|
            && z.g.frameId - z.g.lastAck <= Window(y.g.depth) <= 4
            && Unacked(z) < BUDGET + FrameLen(e)
  {
    InitialInv();
    RunKeepsInv(Initial(), es);
    var y := After(es);
    BuildSucceedsIff(e);
    AllowedIsUnderBudget(y);
    UnackedGrows(y, FrameLen(e));
    OfferedAck(y, Some(FrameLen(e)));
  }

  /** Every AVC444 main stream offered fits its 30-bit length field. */
  predicate AllFit(es: seq<Event>) {
    forall i | 0 <= i < |es| && es[i].Offer? && es[i].frame.Avc444? :: es[i].frame.main <= MAX_MAIN - META
  }

  lemma {:induction false} FittingRunSendsAll(y: System, es: seq<Event>)
    requires |y.g.ring| == RING && AllFit(es) && forall i | 0 <= i < |y.log| :: y.log[i].Some?
    ensures forall i | 0 <= i < |Run(y, es).log| :: Run(y, es).log[i].Some?
    decreases es
  {
    if es != [] {
      if es[0].Offer? {
        BuildSucceedsIff(es[0].frame);
      }
      FittingRunSendsAll(Step(y, es[0]), es[1..]);
    }
  }

  /** A fully acknowledged stream is never blocked, in any run whose AVC444 main streams
      fit: so in every run of AVC420 or progressive frames. */
  lemma FullyAckedIsNeverBlocked(es: seq<Event>)
    requires AdmissibleRun(Initial(), es) && AllFit(es) && FullyAcked(After(es))
    ensures |After(es).g.ring| == RING && MaySend(After(es).g)
  {
    InitialInv();
    RunKeepsInv(Initial(), es);
    FittingRunSendsAll(Initial(), es);
    var y := After(es);
    FullyAckedMaySendIff(y);
    var more := y.log + [None];
    assert more[y.g.lastAck].None?;
  }

  /** In general it is blocked exactly when the frames refused since the last acknowledged
      one fill the window. */
  lemma FullyAckedIsBlockedIff(es: seq<Event>)
    requires AdmissibleRun(Initial(), es) && FullyAcked(After(es))
    ensures var y := After(es);
            && |y.g.ring| == RING
            && (!MaySend(y.g) <==> !Unthrottled(y.g) && |y.log| - y.g.lastAck >= Window(y.g.depth))
  {
    InitialInv();
    RunKeepsInv(Initial(), es);
    FullyAckedMaySendIff(After(es));
  }

  /** One main stream of 0x3FFFFFF2 octets, after an acknowledgement from a client that
      is two frames behind. */
  lemma OversizedMainStreamBlocks()
    ensures var es := [Offer(Avc444(100, 100)), Ack(1, 2), Offer(Avc444(0x3FFF_FFF2, 100))];
            var y := After(es);
            AdmissibleRun(Initial(), es) && FullyAcked(y) && |y.g.ring| == RING && !MaySend(y.g)
  {
    var big := Offer(Avc444(0x3FFF_FFF2, 100));
    var es := [Offer(Avc444(100, 100)), Ack(1, 2), big];
    BuildSucceedsIff(Avc444(100, 100));
    BuildSucceedsIff(Avc444(0x3FFF_FFF2, 100));
    var a := Step(Initial(), es[0]);
    var b := Step(a, es[1]);
    var c := Step(b, es[2]);
    assert a.g.frameId == 1 && a.log == [Built(Avc444(100, 100))];
    assert b.g.lastAck == 1 && b.g.depth == 2 && MaySend(b.g);
    assert c.log == a.log + [None] && c.g.frameId == 2;
    assert es[1..] == [Ack(1, 2), big] && es[1..][1..] == [big] && es[1..][1..][1..] == [];
    assert Run(b, [big]) == Run(c, []) == c;
    assert AdmissibleRun(c, []) && AdmissibleRun(b, [big]);
  }

  // ---- The state in place --------------------------------------------------

  class Flow {
    var frameId: u32
    var lastAck: u32
    var depth: u32
    var bytes: u64
    const cum: array<u64>

    ghost predicate Valid()
      reads this
    {
      cum.Length == RING
    }

    ghost function Abs(): (g: Gfx)
      requires Valid()
      reads this, cum
      ensures |g.ring| == RING
    {
      Gfx(frameId, lastAck, depth, bytes, cum[..])
    }

    constructor ()
      ensures Valid() && fresh(cum) && Abs() == Initial().g
    {
      frameId, lastAck, depth, bytes := 0, 0, 0, 0;
      cum := new u64[RING](_ => 0);
    }

    method FrameSent(size: nat)
      requires Valid()
      modifies this, cum
      ensures Valid() && Abs() == Sent(old(Abs()), size)
    {
      bytes := (bytes + size) % U64;
      cum[frameId as int % RING] := bytes;
    }

    method MaySendFrame() returns (ok: bool)
      requires Valid()
      ensures ok == MaySend(Abs())
    {
      if lastAck == 0 || depth == SUSPENDED {
        return true;
      }
      var pending := (frameId - lastAck) as int % U32;
      var window := if depth >= 2 then 1 else if depth == 1 then 2 else 4;
      if pending >= window {
        return false;
      }
      if pending == 0 {
        return true;
      }
      var inFlight := (bytes as int - cum[lastAck as int % RING]) % U64;
      return inFlight < BUDGET;
    }

    method OfferFrame(e: Encoded, ghost log: seq<Option<nat>>) returns (ghost after: seq<Option<nat>>)
      requires Valid()
      modifies this, cum
      ensures Valid() && System(Abs(), after) == Step(System(old(Abs()), log), Offer(e))
    {
      after := log;
      var ok := MaySendFrame();
      if ok {
        frameId := (frameId as int + 1) % U32;
        var n := Built(e);
        after := log + [n];
        if n.Some? {
          FrameSent(n.value);
        }
      }
    }

    method OnAck(id: u32, queueDepth: u32)
      requires Valid()
      modifies this
      ensures Valid() && Abs() == Step(System(old(Abs()), []), Ack(id, queueDepth)).g
    {
      lastAck, depth := id, queueDepth;
    }
  }
}
