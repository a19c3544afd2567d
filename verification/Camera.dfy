/**
  * Camera redirection (MS-RDPECAM): the server's negotiation with one device, the
  * media type it selects, and the credits it grants.
  */
module Camera {
  import opened Bytes

  const PROTO_VERSION: byte := 2
  const FRAME_MAX: nat := 0x3F_0000
  const MAX_TYPES: nat := 64
  const NAME_MAX: nat := 250

  const YUY2: byte := 3
  const NV12: byte := 4
  const I420: byte := 5
  const RGB24: byte := 6
  const RGB32: byte := 7

  // ---- Media types ---------------------------------------------------------

  datatype MediaType = MediaType(format: byte, width: u32, height: u32, rate: Bytes, flags: byte)

  /** The place of a raw format in the order of preference. */
  function Rank(format: byte): Option<nat> {
    if format == NV12 then Some(0) else if format == I420 then Some(1) else if format == YUY2 then Some(2)
    else if format == RGB24 then Some(3) else if format == RGB32 then Some(4) else None
  }

  const RANKS: nat := 5

  function Pixels(m: MediaType): nat {
    m.width * m.height
  }

  /** The product the 64-bit computation starts with. */
  function Scaled(m: MediaType): nat {
    if m.format == NV12 || m.format == I420 then Pixels(m) * 3
    else if m.format == YUY2 then Pixels(m) * 2
    else if m.format == RGB24 then Pixels(m) * 3
    else if m.format == RGB32 then Pixels(m) * 4
    else 0
  }

  /** The frame size as computed in unsigned 64-bit arithmetic. */
  function FrameSize(m: MediaType): nat {
    var p := Scaled(m) % U64;
    if m.format == NV12 || m.format == I420 then p / 2 else p
  }

  /** The octets a raw frame really takes: a full plane and two quarter planes, two
      octets a pixel, three, or four. */
  function TrueSize(m: MediaType): nat {
    var px := Pixels(m);
    match m.format
    case 4 => px + px / 2
    case 5 => px + px / 2
    case 3 => px + px
    case 6 => px + px + px
    case 7 => px + px + px + px
    case _ => 0
  }

  predicate NeedsDecoding(m: MediaType) {
    m.flags % 2 == 1
  }

  predicate Usable(m: MediaType) {
    Rank(m.format).Some? && !NeedsDecoding(m) && m.width > 0 && m.height > 0 && 0 < FrameSize(m) <= FRAME_MAX
  }

  lemma ScaledIsTrue(m: MediaType)
    ensures TrueSize(m) == if m.format == NV12 || m.format == I420 then Scaled(m) / 2 else Scaled(m)
  {
    assert Pixels(m) * 3 == Pixels(m) + Pixels(m) * 2;
  }

  /** For a usable type, a real frame fits exactly when its size does not overflow. */
  lemma UsableFitsIff(m: MediaType)
    requires Usable(m)
    ensures TrueSize(m) <= FRAME_MAX <==> Scaled(m) < U64
  {
    ScaledIsTrue(m);
    if Scaled(m) < U64 {
      NoWrap(Scaled(m));
    }
  }

  lemma NoWrap(n: nat)
    requires n < U64
    ensures n % U64 == n
  {}

  /** As it does for sides below 2^31. */
  lemma ModestSidesFit(m: MediaType)
    requires m.width < 0x8000_0000 && m.height < 0x8000_0000
    ensures Usable(m) <==>
              && m.format in {NV12, I420, YUY2, RGB24, RGB32} && m.flags % 2 == 0
              && 0 < m.width && 0 < m.height && 0 < TrueSize(m) <= 4128768
  {
    Product(m.width, m.height, 0x7FFF_FFFF, 0x7FFF_FFFF);
    NoWrap(Scaled(m));
    ScaledIsTrue(m);
  }

  /** A type whose 64-bit frame size wraps into the accepted range. */
  lemma HugeTypeIsUsable()
    ensures var m := MediaType(RGB32, 0x8000_0000 + 46340, 0x8000_0000 - 46339, [], 0);
            Usable(m) && TrueSize(m) > FRAME_MAX
  {
    var m := MediaType(RGB32, 0x8000_0000 + 46340, 0x8000_0000 - 46339, [], 0);
    assert Pixels(m) == 0x4000_0000_0000_0000 + 134388;
    assert 4 * Pixels(m) == U64 + 537552;
  }

  // ---- Choosing one --------------------------------------------------------

  /** The first usable type of one rank. */
  function OfRank(ms: seq<MediaType>, rank: nat, i: nat): Option<nat>
    requires i <= |ms|
    decreases |ms| - i
  {
    if i == |ms| then None
    else if Usable(ms[i]) && Rank(ms[i].format) == Some(rank) then Some(i)
    else OfRank(ms, rank, i + 1)
  }

  function PickFrom(ms: seq<MediaType>, rank: nat): Option<nat>
    requires rank <= RANKS
    decreases RANKS - rank
  {
    if rank == RANKS then None
    else if OfRank(ms, rank, 0).Some? then OfRank(ms, rank, 0)
    else PickFrom(ms, rank + 1)
  }

  function Pick(ms: seq<MediaType>): Option<nat> {
    PickFrom(ms, 0)
  }

  lemma {:induction false} OfRankIsFirst(ms: seq<MediaType>, rank: nat, i: nat)
    requires i <= |ms|
    ensures var r := OfRank(ms, rank, i);
            if r.Some? then
              && i <= r.value < |ms| && Usable(ms[r.value]) && Rank(ms[r.value].format) == Some(rank)
              && forall j | i <= j < r.value :: !(Usable(ms[j]) && Rank(ms[j].format) == Some(rank))
            else forall j | i <= j < |ms| :: !(Usable(ms[j]) && Rank(ms[j].format) == Some(rank))
    decreases |ms| - i
  {
    if i < |ms| && !(Usable(ms[i]) && Rank(ms[i].format) == Some(rank)) {
      OfRankIsFirst(ms, rank, i + 1);
    }
  }

  lemma {:induction false} PickFromIsFirst(ms: seq<MediaType>, rank: nat)
    requires rank <= RANKS
    ensures var r := PickFrom(ms, rank);
            if r.Some? then
              exists k | rank <= k < RANKS :: r == OfRank(ms, k, 0) && forall l | rank <= l < k :: OfRank(ms, l, 0).None?
            else forall l | rank <= l < RANKS :: OfRank(ms, l, 0).None?
    decreases RANKS - rank
  {
    if rank < RANKS && OfRank(ms, rank, 0).None? {
      PickFromIsFirst(ms, rank + 1);
    }
  }

  /** `i` is the first usable type of the format. */
  ghost predicate FirstOf(ms: seq<MediaType>, format: byte, i: nat) {
    && i < |ms| && Usable(ms[i]) && ms[i].format == format
    && forall j | 0 <= j < i :: !(Usable(ms[j]) && ms[j].format == format)
  }

  ghost predicate Offers(ms: seq<MediaType>, format: byte) {
    exists i | 0 <= i < |ms| :: Usable(ms[i]) && ms[i].format == format
  }

  /** The choice by name: the first usable NV12 if one is offered, else I420, else YUY2,
      else RGB24, else RGB32. */
  ghost predicate Preferred(ms: seq<MediaType>, i: nat) {
    if Offers(ms, NV12) then FirstOf(ms, NV12, i)
    else if Offers(ms, I420) then FirstOf(ms, I420, i)
    else if Offers(ms, YUY2) then FirstOf(ms, YUY2, i)
    else if Offers(ms, RGB24) then FirstOf(ms, RGB24, i)
    else FirstOf(ms, RGB32, i)
  }

  lemma OfferedAtRank(ms: seq<MediaType>, rank: nat, format: byte)
    requires Rank(format) == Some(rank)
    ensures OfRank(ms, rank, 0).Some? <==> Offers(ms, format)
    ensures OfRank(ms, rank, 0).Some? ==> FirstOf(ms, format, OfRank(ms, rank, 0).value)
  {
    OfRankIsFirst(ms, rank, 0);
    assert forall j | 0 <= j < |ms| :: Rank(ms[j].format) == Some(rank) <==> ms[j].format == format;
  }

  /** A type is chosen exactly if one is usable, and it is the preferred one. */
  lemma PickIsPreferred(ms: seq<MediaType>)
    ensures Pick(ms).Some? <==> exists i | 0 <= i < |ms| :: Usable(ms[i])
    ensures Pick(ms).Some? ==> Pick(ms).value < |ms| && Preferred(ms, Pick(ms).value)
  {
    OfferedAtRank(ms, 0, NV12);
    OfferedAtRank(ms, 1, I420);
    OfferedAtRank(ms, 2, YUY2);
    OfferedAtRank(ms, 3, RGB24);
    OfferedAtRank(ms, 4, RGB32);
    PickFromIsFirst(ms, 0);
    UsableIsNamed(ms);
  }

  lemma UsableIsNamed(ms: seq<MediaType>)
    ensures (exists i | 0 <= i < |ms| :: Usable(ms[i]))
       <==> Offers(ms, NV12) || Offers(ms, I420) || Offers(ms, YUY2) || Offers(ms, RGB24) || Offers(ms, RGB32)
  {
    if i :| 0 <= i < |ms| && Usable(ms[i]) {
      assert Offers(ms, ms[i].format);
    }
  }

  method PickMediaType(ms: seq<MediaType>) returns (r: Option<nat>)
    ensures r == Pick(ms)
  {
    var rank := 0;
    while rank < RANKS
      invariant 0 <= rank <= RANKS && PickFrom(ms, rank) == Pick(ms)
    {
      var i := 0;
      while i < |ms|
        invariant 0 <= i <= |ms| && OfRank(ms, rank, i) == OfRank(ms, rank, 0)
      {
        if Rank(ms[i].format) == Some(rank) && !NeedsDecoding(ms[i]) && ms[i].width > 0 && ms[i].height > 0 {
          var size := FrameSize(ms[i]);
          if 0 < size <= FRAME_MAX {
            return Some(i);
          }
        }
        i := i + 1;
      }
      rank := rank + 1;
    }
    return None;
  }

  // ---- The negotiation -------------------------------------------------------

  datatype Phase = Init | Activating | StreamList | MediaList | Starting | Streaming | Stopped

  /** A message from the client, as parsed. */
  datatype Msg =
    | SelectVersion(version: byte)
    | DeviceAdded(nameLen: nat)
    | DeviceRemoved
    | Success
    | ErrorResponse
    | Streams
    | MediaTypes(types: seq<MediaType>)
    | Sample(len: nat)
    | SampleError
    | OtherMsg

  /** What the server sends on the device's channel. */
  datatype Request = Activate | StreamListRequest | MediaTypeListRequest | StartStreams(sel: MediaType) | SampleRequest

  datatype State = State(phase: Phase, version: byte, haveDevice: bool, sel: Option<MediaType>)

  function Start(): State {
    State(Init, PROTO_VERSION, false, None)
  }

  /** What a step does besides changing the state. */
  datatype Action = Action(device: Option<Request>, answerVersion: bool, open: bool, close: bool, frame: nat)

  function Nothing(): Action {
    Action(None, false, false, false, 0)
  }

  function Send(r: Request): Action {
    Nothing().(device := Some(r))
  }

  datatype Step = Step(state: State, act: Action)

  function OnOpened(s: State): Step {
    if !s.haveDevice then Step(s, Nothing()) else Step(s.(phase := Activating), Send(Activate))
  }

  function OnEnumerator(s: State, m: Msg): Step {
    match m
    case SelectVersion(v) =>
      Step(s.(version := if v < PROTO_VERSION then v else PROTO_VERSION), Nothing().(answerVersion := true))
    case DeviceAdded(n) =>
      if s.haveDevice || n == 0 || n > NAME_MAX then Step(s, Nothing())
      else Step(s.(haveDevice := true), Nothing().(open := true))
    case DeviceRemoved => Step(s.(haveDevice := false, sel := None, phase := Init), Nothing().(close := true))
    case _ => Step(s, Nothing())
  }

  /** At most the first 64 types of a list are kept. */
  function Offered(types: seq<MediaType>): seq<MediaType> {
    types[..Min(|types|, MAX_TYPES)]
  }

  function OnDevice(s: State, m: Msg): Step {
    if m.Success? then
      if s.phase == Activating then Step(s.(phase := StreamList), Send(StreamListRequest))
      else if s.phase == Starting then Step(s.(phase := Streaming), Send(SampleRequest))
      else Step(s, Nothing())
    else if m.ErrorResponse? then Step(s.(phase := Stopped), Nothing())
    else if m.Streams? && s.phase == StreamList then Step(s.(phase := MediaList), Send(MediaTypeListRequest))
    else if m.MediaTypes? && s.phase == MediaList then
      var k := Pick(Offered(m.types));
      if k.None? then Step(s.(phase := Stopped), Nothing())
      else
        PickIsPreferred(Offered(m.types));
        var t := Offered(m.types)[k.value];
        Step(s.(phase := Starting, sel := Some(t)), Send(StartStreams(t)))
    else if m.Sample? && s.phase == Streaming && s.sel.Some? then Step(s, Send(SampleRequest).(frame := m.len))
    else if m.SampleError? && s.phase == Streaming then Step(s, Send(SampleRequest))
    else Step(s, Nothing())
  }

  /** The device channel opens; or a message arrives, None when it does not parse. */
  datatype Event = Opened | Enumerator(m: Option<Msg>) | Device(m: Option<Msg>)

  function Handle(s: State, e: Event): Step {
    match e
    case Opened => OnOpened(s)
    case Enumerator(m) => if m.None? then Step(s, Nothing()) else OnEnumerator(s, m.value)
    case Device(m) => if m.None? then Step(s, Nothing()) else OnDevice(s, m.value)
  }

  // ---- Whole runs --------------------------------------------------------------

  /** The state, what was sent on the device channel since it last opened, and how many
      sample and sample-error responses were accepted since. */
  datatype History = History(state: State, sent: seq<Request>, accepted: nat)

  predicate Accepts(s: State, e: Event) {
    e.Device? && e.m.Some? && (e.m.value.Sample? || e.m.value.SampleError?) && s.phase == Streaming
  }

  function Turn(h: History, e: Event): History {
    var t := Handle(h.state, e);
    var r := t.act.device;
    if e == Opened && r.Some? then History(t.state, [r.value], 0)
    else History(t.state, if r.Some? then h.sent + [r.value] else h.sent,
                 h.accepted + if Accepts(h.state, e) then 1 else 0)
  }

  function Run(h: History, es: seq<Event>): History
    decreases es
  {
    if es == [] then h else Run(Turn(h, es[0]), es[1..])
  }

  function Samples(n: nat): seq<Request> {
    seq(n, _ => SampleRequest)
  }

  /** Activate, StreamList, MediaTypeList, StartStreams(t), then `n` SampleRequests. */
  function Script(t: MediaType, n: nat): seq<Request> {
    [Activate, StreamListRequest, MediaTypeListRequest, StartStreams(t)] + Samples(n)
  }

  ghost predicate FollowsScript(sent: seq<Request>) {
    exists t: MediaType, n: nat :: sent <= Script(t, n)
  }

  /** The phase tells how far along the script the server is. */
  ghost predicate Inv(h: History) {
    var s := h.state;
    && FollowsScript(h.sent)
    && (s.phase == Activating ==> h.sent == [Activate])
    && (s.phase == StreamList ==> h.sent == [Activate, StreamListRequest])
    && (s.phase == MediaList ==> h.sent == [Activate, StreamListRequest, MediaTypeListRequest])
    && (s.phase == Starting || s.phase == Streaming ==> s.sel.Some? && Usable(s.sel.value))
    && (s.phase == Activating || s.phase == StreamList || s.phase == MediaList || s.phase == Starting ==> h.accepted == 0)
    && (s.phase == Starting ==> h.sent == Script(s.sel.value, 0))
    && (s.phase == Streaming ==> h.sent == Script(s.sel.value, h.accepted + 1))
  }

  lemma Follows(sent: seq<Request>, t: MediaType, n: nat)
    requires sent <= Script(t, n)
    ensures FollowsScript(sent)
  {}

  lemma OneMoreSample(t: MediaType, n: nat)
    ensures Script(t, n) + [SampleRequest] == Script(t, n + 1)
  {
    assert Samples(n) + [SampleRequest] == Samples(n + 1);
    var head := [Activate, StreamListRequest, MediaTypeListRequest, StartStreams(t)];
    assert (head + Samples(n)) + [SampleRequest] == head + (Samples(n) + [SampleRequest]);
  }

  lemma AnyType(sent: seq<Request>)
    requires sent == [Activate] || sent == [Activate, StreamListRequest]
          || sent == [Activate, StreamListRequest, MediaTypeListRequest]
    ensures FollowsScript(sent)
  {
    Follows(sent, MediaType(0, 0, 0, [], 0), 0);
  }

  lemma SuccessKeepsInv(h: History)
    requires Inv(h)
    ensures Inv(Turn(h, Device(Some(Success))))
  {
    var s, h' := h.state, Turn(h, Device(Some(Success)));
    if s.phase == Activating {
      AnyType(h'.sent);
    } else if s.phase == Starting {
      OneMoreSample(s.sel.value, 0);
      Follows(h'.sent, s.sel.value, 1);
    }
  }

  lemma MediaTypesKeepInv(h: History, types: seq<MediaType>)
    requires Inv(h)
    ensures Inv(Turn(h, Device(Some(MediaTypes(types)))))
  {
    var h' := Turn(h, Device(Some(MediaTypes(types))));
    PickIsPreferred(Offered(types));
    if h'.state.phase == Starting && h.state.phase == MediaList {
      assert h'.sent == Script(h'.state.sel.value, 0);
      Follows(h'.sent, h'.state.sel.value, 0);
    }
  }

  lemma SampleKeepsInv(h: History, m: Msg)
    requires Inv(h) && (m.Sample? || m.SampleError?)
    ensures Inv(Turn(h, Device(Some(m))))
  {
    var s, h' := h.state, Turn(h, Device(Some(m)));
    if s.phase == Streaming {
      OneMoreSample(s.sel.value, h.accepted + 1);
      Follows(h'.sent, s.sel.value, h.accepted + 2);
    }
  }

  lemma TurnKeepsInv(h: History, e: Event)
    requires Inv(h)
    ensures Inv(Turn(h, e))
  {
    if e == Opened {
      AnyType([Activate]);
    } else if e.Device? && e.m.Some? {
      var m := e.m.value;
      if m.Success? {
        SuccessKeepsInv(h);
      } else if m.MediaTypes? {
        MediaTypesKeepInv(h, m.types);
      } else if m.Sample? || m.SampleError? {
        SampleKeepsInv(h, m);
      } else if m.Streams? && h.state.phase == StreamList {
        AnyType(Turn(h, e).sent);
      }
    }
  }

  lemma {:induction false} RunKeepsInv(h: History, es: seq<Event>)
    requires Inv(h)
    ensures Inv(Run(h, es))
    decreases es
  {
    if es != [] {
      TurnKeepsInv(h, es[0]);
      RunKeepsInv(Turn(h, es[0]), es[1..]);
    }
  }

  /** In every run, what was sent since the device last opened is a prefix of the script;
      while streaming, one SampleRequest more than the responses accepted; and the
      selected type is usable and the one StartStreams named. */
  lemma EveryRunFollowsScript(es: seq<Event>)
    ensures var h := Run(History(Start(), [], 0), es);
            && FollowsScript(h.sent)
            && (h.state.phase == Streaming ==>
                  && h.state.sel.Some? && Usable(h.state.sel.value)
                  && h.sent == Script(h.state.sel.value, h.accepted + 1))
  {
    Follows([], MediaType(0, 0, 0, [], 0), 0);
    RunKeepsInv(History(Start(), [], 0), es);
  }

  /** The type selected is the preferred one of the first 64 in the list that answered. */
  lemma SelectionIsPreferred(s: State, types: seq<MediaType>)
    requires s.phase == MediaList
    ensures var ms, t := types[..Min(|types|, 64)], OnDevice(s, MediaTypes(types));
            if exists i | 0 <= i < |ms| :: Usable(ms[i])
            then exists k: nat :: k < |ms| && Preferred(ms, k) && t.state.sel == Some(ms[k])
                                  && t.act.device == Some(StartStreams(ms[k])) && t.state.phase == Starting
            else t.state.phase == Stopped && t.act.device.None?
  {
    PickIsPreferred(Offered(types));
  }

  // ---- A client that answers ---------------------------------------------------

  function Answered(m: Msg): Event {
    Device(Some(m))
  }

  lemma {:induction false} SamplesKeepComing(h: History, t: MediaType, samples: seq<Msg>)
    requires h.state.phase == Streaming && h.state.sel == Some(t) && h.sent == Script(t, h.accepted + 1)
    requires forall i | 0 <= i < |samples| :: samples[i].Sample? || samples[i].SampleError?
    ensures var es := seq(|samples|, i requires 0 <= i < |samples| => Answered(samples[i]));
            var r := Run(h, es);
            && r.state == h.state && r.accepted == h.accepted + |samples| && r.sent == Script(t, r.accepted + 1)
    decreases samples
  {
    var es := seq(|samples|, i requires 0 <= i < |samples| => Answered(samples[i]));
    if samples != [] {
      OneMoreSample(t, h.accepted + 1);
      var more := samples[1..];
      assert es[1..] == seq(|more|, i requires 0 <= i < |more| => Answered(more[i]));
      SamplesKeepComing(Turn(h, es[0]), t, more);
    }
  }

  lemma RunTwo(h: History, a: Event, b: Event)
    ensures Run(h, [a, b]) == Turn(Turn(h, a), b)
  {
    assert [a, b][1..] == [b] && [b][1..] == [];
    assert Run(Turn(h, a), [b]) == Run(Turn(Turn(h, a), b), []);
  }

  lemma {:induction false} RunAppend(h: History, a: seq<Event>, b: seq<Event>)
    ensures Run(h, a + b) == Run(Run(h, a), b)
    decreases a
  {
    if a == [] {
      assert a + b == b;
    } else {
      assert (a + b)[1..] == a[1..] + b;
      RunAppend(Turn(h, a[0]), a[1..], b);
    }
  }

  /** A device is added and opened; the client answers up to the start of the stream. */
  function Opening(n: nat, types: seq<MediaType>): seq<Event> {
    ([Enumerator(Some(DeviceAdded(n))), Opened] + [Answered(Success), Answered(Streams)])
    + [Answered(MediaTypes(types)), Answered(Success)]
  }

  lemma DeviceIsActivated(n: nat)
    requires 0 < n <= 250
    ensures Run(History(Start(), [], 0), [Enumerator(Some(DeviceAdded(n))), Opened])
         == History(State(Activating, PROTO_VERSION, true, None), [Activate], 0)
  {
    RunTwo(History(Start(), [], 0), Enumerator(Some(DeviceAdded(n))), Opened);
  }

  lemma StreamsAreListed(s: State)
    requires s.phase == Activating
    ensures Run(History(s, [Activate], 0), [Answered(Success), Answered(Streams)])
         == History(s.(phase := MediaList), [Activate, StreamListRequest, MediaTypeListRequest], 0)
  {
    RunTwo(History(s, [Activate], 0), Answered(Success), Answered(Streams));
  }

  lemma StreamStarts(s: State, types: seq<MediaType>) returns (k: nat)
    requires s.phase == MediaList && exists i | 0 <= i < |types| && i < 64 :: Usable(types[i])
    ensures k < |types| && k < 64 && Preferred(types[..Min(|types|, 64)], k)
    ensures Run(History(s, [Activate, StreamListRequest, MediaTypeListRequest], 0),
                [Answered(MediaTypes(types)), Answered(Success)])
         == History(s.(phase := Streaming, sel := Some(types[k])), Script(types[k], 1), 0)
  {
    var ms := Offered(types);
    var i :| 0 <= i < |types| && i < 64 && Usable(types[i]);
    assert Usable(ms[i]);
    PickIsPreferred(ms);
    k := Pick(ms).value;
    var h := History(s, [Activate, StreamListRequest, MediaTypeListRequest], 0);
    assert Turn(h, Answered(MediaTypes(types))).sent == Script(types[k], 0);
    OneMoreSample(types[k], 0);
    RunTwo(h, Answered(MediaTypes(types)), Answered(Success));
  }

  lemma OpeningStreams(n: nat, types: seq<MediaType>) returns (k: nat)
    requires 0 < n <= 250
    requires exists i | 0 <= i < |types| && i < 64 :: Usable(types[i])
    ensures k < |types| && k < 64 && Preferred(types[..Min(|types|, 64)], k)
    ensures var h := Run(History(Start(), [], 0), Opening(n, types));
            && h.state.phase == Streaming && h.state.sel == Some(types[k]) && h.accepted == 0
            && h.sent == Script(types[k], 1)
  {
    var start := History(Start(), [], 0);
    var a, b := [Enumerator(Some(DeviceAdded(n))), Opened], [Answered(Success), Answered(Streams)];
    DeviceIsActivated(n);
    var s := State(Activating, PROTO_VERSION, true, None);
    StreamsAreListed(s);
    k := StreamStarts(s.(phase := MediaList), types);
    RunAppend(start, a, b);
    RunAppend(start, a + b, [Answered(MediaTypes(types)), Answered(Success)]);
  }

  /** A client that answers gets the whole script: its device is opened, its preferred type
      started, and every sample or sample error is answered by one more request. */
  lemma AnsweringClientStreams(n: nat, types: seq<MediaType>, samples: seq<Msg>) returns (k: nat)
    requires 0 < n <= 250
    requires exists i | 0 <= i < |types| && i < 64 :: Usable(types[i])
    requires forall i | 0 <= i < |samples| :: samples[i].Sample? || samples[i].SampleError?
    ensures k < |types| && k < 64 && Preferred(types[..Min(|types|, 64)], k)
    ensures var es := Opening(n, types) + seq(|samples|, i requires 0 <= i < |samples| => Answered(samples[i]));
            var h := Run(History(Start(), [], 0), es);
            h.state.phase == Streaming && h.sent == Script(types[k], |samples| + 1)
  {
    k := OpeningStreams(n, types);
    var h := Run(History(Start(), [], 0), Opening(n, types));
    SamplesKeepComing(h, types[k], samples);
    RunAppend(History(Start(), [], 0), Opening(n, types),
              seq(|samples|, i requires 0 <= i < |samples| => Answered(samples[i])));
  }

  // ---- Stopping ------------------------------------------------------------------

  /** After an error nothing more is requested, whatever the device says. */
  lemma ErrorSilencesDevice(h: History, m: Msg)
    ensures var stopped := Turn(h, Answered(ErrorResponse));
            stopped.sent == h.sent && Turn(stopped, Answered(m)) == stopped
  {}

  /** An error always stops; a removed device is forgotten and its channel closed. */
  lemma ErrorAndRemoval(s: State)
    ensures OnDevice(s, ErrorResponse) == Step(s.(phase := Stopped), Nothing())
    ensures var t := OnEnumerator(s, DeviceRemoved);
            && t.state.phase == Init && !t.state.haveDevice && t.state.sel.None? && t.act.close
            && OnOpened(t.state).act.device.None?
  {}

  /** While streaming, a sample is handed on with its length and a sample error is not; the
      version agreed on is the lower of the client's and 2. */
  lemma SamplesAreHandedOn(s: State, len: nat, v: byte)
    ensures s.phase == Streaming && s.sel.Some? ==>
              OnDevice(s, Sample(len)).act == Action(Some(SampleRequest), false, false, false, len)
    ensures s.phase == Streaming ==>
              OnDevice(s, SampleError).act == Action(Some(SampleRequest), false, false, false, 0)
    ensures var t := OnEnumerator(s, SelectVersion(v)); t.state.version == Min(v, 2) && t.act.answerVersion
  {}

  /** A device's channel is opened exactly if none is open and its name has 1 to 250 octets. */
  lemma DeviceIsOpenedIff(s: State, n: nat)
    ensures var t := OnEnumerator(s, DeviceAdded(n));
            && (t.act.open <==> !s.haveDevice && 1 <= n <= 250)
            && t.state == s.(haveDevice := s.haveDevice || t.act.open)
  {}

  // ---- The state in place --------------------------------------------------------

  class Negotiation {
    var phase: Phase
    var version: byte
    var haveDevice: bool
    var sel: Option<MediaType>

    ghost function Abs(): State
      reads this
    {
      State(phase, version, haveDevice, sel)
    }

    constructor ()
      ensures Abs() == Start()
    {
      phase, version, haveDevice, sel := Init, PROTO_VERSION, false, None;
    }

    method DeviceOpened() returns (act: Action)
      modifies this
      ensures Step(Abs(), act) == OnOpened(old(Abs()))
    {
      if !haveDevice {
        return Nothing();
      }
      phase := Activating;
      return Send(Activate);
    }

    method Negotiate(device: bool, m: Msg) returns (act: Action)
      modifies this
      ensures Step(Abs(), act) == if device then OnDevice(old(Abs()), m) else OnEnumerator(old(Abs()), m)
    {
      if device {
        act := NegotiateDevice(m);
        return;
      }
      act := Nothing();
      if m.SelectVersion? {
        version := if m.version < PROTO_VERSION then m.version else PROTO_VERSION;
        act := act.(answerVersion := true);
      } else if m.DeviceAdded? {
        if !haveDevice && 0 < m.nameLen <= NAME_MAX {
          haveDevice := true;
          act := act.(open := true);
        }
      } else if m.DeviceRemoved? {
        haveDevice, sel, phase := false, None, Init;
        act := act.(close := true);
      }
    }

    method NegotiateDevice(m: Msg) returns (act: Action)
      modifies this
      ensures Step(Abs(), act) == OnDevice(old(Abs()), m)
    {
      act := Nothing();
      if m.Success? {
        if phase == Activating {
          phase := StreamList;
          act := Send(StreamListRequest);
        } else if phase == Starting {
          phase := Streaming;
          act := Send(SampleRequest);
        }
      } else if m.ErrorResponse? {
        phase := Stopped;
      } else if m.Streams? && phase == StreamList {
        phase := MediaList;
        act := Send(MediaTypeListRequest);
      } else if m.MediaTypes? && phase == MediaList {
        var types := Offered(m.types);
        var k := PickMediaType(types);
        PickIsPreferred(types);
        if k.None? {
          phase := Stopped;
        } else {
          sel, phase := Some(types[k.value]), Starting;
          act := Send(StartStreams(types[k.value]));
        }
      } else if m.Sample? && phase == Streaming && sel.Some? {
        act := Send(SampleRequest).(frame := m.len);
      } else if m.SampleError? && phase == Streaming {
        act := Send(SampleRequest);
      }
    }
  }
}
