/**
  * Redirected drives from end to end: which request a client gets for each request of
  * the session, what the session gets for its answer, and what that does to a file.
  */
module DeviceDrive {
  import opened Bytes
  import opened DeviceTable
  import opened DeviceRedirection
  import opened DeviceInvariants
  import opened DeviceRuns
  import opened DeviceTheorems
  import opened DeviceIrps

  // ---- The request the client gets -----------------------------------------------

  /** The octets of a payload up to its first NUL. */
  predicate NameIn(payload: Bytes, name: Bytes) {
    && name <= payload && 0 !in name && (|name| < |payload| ==> payload[|name|] == 0)
  }

  lemma {:induction false} CStringIsName(payload: Bytes)
    ensures NameIn(payload, CString(payload))
  {
    if payload != [] && payload[0] != 0 {
      CStringIsName(payload[1..]);
      var name := CString(payload[1..]);
      assert payload == [payload[0]] + payload[1..];
    }
  }

  /** What the session asked for, by the operation's number. */
  predicate AsAsked(f: FsRequest, r: Request) {
    match f.op
    case 1 =>
      && r.Create? && NameIn(f.payload, r.path) && r.options == f.options
      && r.access == (if f.access == 0 then 1 else f.access)
      && r.disposition == (if f.disposition == 0 then 1 else f.disposition)
    case 2 => r == Read(f.fileId, f.length, f.offset)
    case 3 => r == Write(f.fileId, f.offset, f.payload)
    case 4 => r == Close(f.fileId)
    case 5 =>
      && r.QueryDir? && r.file == f.fileId && (r.initial <==> f.options % 2 == 0)
      && if f.payload == [] then r.pattern == [0x2A] else NameIn(f.payload, r.pattern)
    case 6 => r == QueryInfo(f.fileId, f.infoClass)
    case 7 => r == SetInfo(f.fileId, f.infoClass, f.payload)
    case _ => false
  }

  lemma AsRequestIsAsAsked(f: FsRequest)
    requires AsRequest(f).Some?
    ensures AsAsked(f, AsRequest(f).value)
  {
    CStringIsName(f.payload);
  }

  /** The IRP relayed for a request. */
  function Relay(st: State, f: FsRequest): Irp
    requires AsRequest(f).Some?
  {
    Irp(ForDrive, f.device, st.nextCid, AsRequest(f).value)
  }

  /** While an entry is free, each of the seven operations goes out as one IRP, and a
      client that reads its octets finds the device, the id and what was asked. */
  lemma RequestIsRelayedAsAsked(st: State, f: FsRequest, i: nat)
    requires Relayed(f) && i < |st.pending| && !st.pending[i].inUse
    ensures var sent := OnFsRequest(st, f).sent;
            && |sent| == |st.sent| + 1 && sent[..|st.sent|] == st.sent
            && var irp := sent[|st.sent|];
               && irp.owner == ForDrive
               && var got := ReadIrp(Octets(irp));
                  && got.Some? && got.value.device == f.device && got.value.cid == st.nextCid
                  && AsAsked(f, got.value.request)
  {
    RelayedIsAccepted(st, f, i);
    AsRequestIsAsAsked(f);
    var irp := Relay(st, f);
    assert OnFsRequest(st, f).sent == st.sent + [irp];
    IrpReadsBack(irp);
  }

  // ---- The answer the session gets -----------------------------------------------

  /** What the session gets for a completion: the status, and the data of every operation
      but an open, for which it gets the file id in the first four octets. */
  predicate Answers(f: FsRequest, r: Reply, status: u32, data: Bytes) {
    && r.device == f.device && r.reqId == f.reqId && r.status == status && r.length == |data| % U32
    && if f.op == 1 then
         r.body == [] && r.fileId == if |data| >= 4 then Ld32(data, 0) else 0
       else r.body == data && r.fileId == 0
  }

  lemma MajorTellsOpen(f: FsRequest)
    requires AsRequest(f).Some?
    ensures Major(AsRequest(f).value) == MJ_CREATE <==> f.op == 1
  {}

  /** The entry a drive request takes, and the table with it. */
  function Taken(st: State, f: FsRequest): Pending
    requires AsRequest(f).Some?
  {
    Pending(true, st.nextCid, f.device, Major(AsRequest(f).value), f.reqId, ForDrive)
  }

  lemma TakenIsFound(st: State, f: FsRequest)
    requires Tables(st) && st.issued < U32 && FsAccepted(st, f)
    ensures var t := OnFsRequest(st, f);
            && t.devices == st.devices && t.replies == st.replies && t.jobs == st.jobs
            && FindCid(t.pending, st.nextCid) < |t.pending|
            && t.pending[FindCid(t.pending, st.nextCid)] == Taken(st, f)
  {
    AcceptedIsIssued(st, f);
    var t := OnFsRequest(st, f);
    var k := FirstFree(st.pending);
    assert t.pending == st.pending[k := Taken(st, f)];
    assert t.pending[k] == Taken(st, f);
    var i := FindCid(t.pending, st.nextCid);
    assert i == k;
  }

  lemma CompletionIsAnswered(st: State, i: nat, e: Pending, cid: u32, status: u32, data: Bytes)
    requires JobsOk(st.jobs) && i == FindCid(st.pending, cid) < |st.pending| && st.pending[i] == e
    requires !IsPrinter(st.devices, e.device)
    ensures OnCompletion(st, cid, status, data).replies == st.replies + [ReplyFor(e, status, data)]
  {}

  /** In every run: a request relayed to a device that is not a printer, and then completed
      by the client with any status and data, is answered with its own id and exactly these. */
  lemma AnswerReachesSession(events: seq<Event>, f: FsRequest, device: u32, status: u32, data: Bytes)
    requires AdmissibleRun(events) && Run(events).issued < U32
    requires FsAccepted(Run(events), f) && !IsPrinter(Run(events).devices, f.device)
    ensures var st := Run(events);
            var done := CompletionPdu(device, st.nextCid, status, data);
            var replies := Run(events + [FromSession(f)] + [FromClient(done)]).replies;
            && |replies| == |st.replies| + 1 && replies[..|st.replies|] == st.replies
            && Answers(f, replies[|st.replies|], status, data)
  {
    RunKeepsInv(events);
    var st := Run(events);
    var t, e := OnFsRequest(st, f), Taken(st, f);
    RunAppend(events, FromSession(f));
    RunAppend(events + [FromSession(f)], FromClient(CompletionPdu(device, st.nextCid, status, data)));
    CompletionStep(t, device, st.nextCid, status, data);
    TakenIsFound(st, f);
    CompletionIsAnswered(t, FindCid(t.pending, st.nextCid), e, st.nextCid, status, data);
    MajorTellsOpen(f);
  }

  // ---- A file on the client ------------------------------------------------------

  /** Octets written over a file at an offset; a gap before them reads as zeros. */
  function Overwritten(file: Bytes, at: nat, data: Bytes): Bytes {
    if data == [] then file
    else
      var front := if at <= |file| then file[..at] else file + Zeros(at - |file|);
      front + data + if at + |data| <= |file| then file[at + |data|..] else []
  }

  /** A file after the session's IRPs, as a client reads them from their octets. */
  function FileAfter(sent: seq<Irp>, device: u32, file: u32): Bytes {
    if sent == [] then []
    else
      var prior, irp := FileAfter(sent[..|sent| - 1], device, file), sent[|sent| - 1];
      var got := ReadIrp(Octets(irp));
      if irp.owner.ForDrive? && got.Some? && got.value.device == device
         && got.value.request.Write? && got.value.request.file == file
      then Overwritten(prior, got.value.request.offset, got.value.request.data)
      else prior
  }

  /** Whether the session asks to write that file and an entry is free. */
  predicate Writes(st: State, e: Event, device: u32, file: u32) {
    && e.FromSession? && e.f.op == 3 && e.f.device == device && e.f.fileId == file && |e.f.payload| <= FS_MAX_PAYLOAD
    && exists i | 0 <= i < |st.pending| :: !st.pending[i].inUse
  }

  /** The same file, from what the session asked for. */
  function FileAsAsked(events: seq<Event>, device: u32, file: u32): Bytes {
    if events == [] then []
    else
      var prior, e := events[..|events| - 1], events[|events| - 1];
      var was := FileAsAsked(prior, device, file);
      if Writes(Run(prior), e, device, file) then Overwritten(was, e.f.offset, e.f.payload) else was
  }

  /** Only IRPs of print jobs were added. */
  predicate JobsOnly(st: State, t: State) {
    && st.sent <= t.sent && |t.sent| <= |st.sent| + 1
    && (|t.sent| > |st.sent| ==> t.sent[|st.sent|].owner.ForJob?)
  }

  lemma ContinueSends(st: State, k: nat, j: Job)
    requires k < |st.jobs| && JobOk(j)
    ensures JobsOnly(st, Continue(st, k, j))
  {}

  lemma SuccessSends(st: State, k: nat, data: Bytes)
    requires JobsOk(st.jobs) && Live(st.jobs, k) && JobByCid(st.jobs, st.jobs[k].cid) == k
    ensures JobsOnly(st, OnPrintCompletion(st, st.jobs[k].cid, STATUS_SUCCESS, data))
  {
    var j := st.jobs[k];
    if j.state == Creating {
      var fileId := if |data| >= 4 then Ld32(data, 0) else j.fileId;
      ContinueSends(Acknowledge(st, k, fileId), k, j.(fileId := fileId));
    } else if j.state == Writing {
      ContinueSends(Acknowledge(st, k, j.fileId), k, j.(off := j.off + SliceLen(j.spool, j.off)));
    }
  }

  lemma PrintCompletionSends(st: State, cid: u32, status: u32, data: Bytes)
    requires JobsOk(st.jobs)
    ensures JobsOnly(st, OnPrintCompletion(st, cid, status, data))
  {
    var k := JobByCid(st.jobs, cid);
    if k < |st.jobs| && status == STATUS_SUCCESS {
      SuccessSends(st, k, data);
    }
  }

  lemma CompletionSends(st: State, cid: u32, status: u32, data: Bytes)
    requires JobsOk(st.jobs)
    ensures JobsOnly(st, OnCompletion(st, cid, status, data))
  {
    var i := FindCid(st.pending, cid);
    if i < |st.pending| {
      var e, st1 := st.pending[i], st.(pending := Release(st.pending, i));
      PrintCompletionSends(st1, cid, status, data);
      PrintCompletionSends(st1.(lost := st.lost + multiset{(e.device, e.reqId)}), cid, status, data);
    }
  }

  lemma OthersSend(st: State, e: Event)
    requires JobsOk(st.jobs) && !e.FromSession?
    ensures JobsOnly(st, Step(st, e))
  {
    if e.FromClient? && |e.pdu| >= 16 {
      CompletionSends(st, Ld32(e.pdu, 8), Ld32(e.pdu, 12), e.pdu[16..]);
    }
  }

  lemma JobsLeaveFile(st: State, t: State, device: u32, file: u32)
    requires JobsOnly(st, t)
    ensures FileAfter(t.sent, device, file) == FileAfter(st.sent, device, file)
  {
    if |t.sent| == |st.sent| {
      assert t.sent == st.sent;
    } else {
      assert t.sent[..|t.sent| - 1] == st.sent;
    }
  }

  lemma FileAppend(sent: seq<Irp>, irp: Irp, device: u32, file: u32)
    requires irp.owner == ForDrive && WireSize(irp.request) < U32
    ensures FileAfter(sent + [irp], device, file)
         == if irp.device == device && irp.request.Write? && irp.request.file == file
            then Overwritten(FileAfter(sent, device, file), irp.request.offset, irp.request.data)
            else FileAfter(sent, device, file)
  {
    IrpReadsBack(irp);
    assert (sent + [irp])[..|sent|] == sent;
  }

  lemma RequestWrites(st: State, f: FsRequest, device: u32, file: u32)
    ensures FileAfter(OnFsRequest(st, f).sent, device, file)
         == if Writes(st, FromSession(f), device, file)
            then Overwritten(FileAfter(st.sent, device, file), f.offset, f.payload)
            else FileAfter(st.sent, device, file)
  {
    RefusedOnlyWhenFull(st, f);
    var st1 := st.(requests := st.requests + multiset{(f.device, f.reqId)});
    assert FsAccepted(st1, f) == FsAccepted(st, f);
    if FsAccepted(st, f) {
      AsRequestIsAsAsked(f);
      FileAppend(st.sent, Relay(st, f), device, file);
      assert OnFsRequest(st, f).sent == st.sent + [Relay(st, f)];
    }
  }

  /** In every run, whatever else happens, a client's file holds what the session wrote:
      each accepted write at its offset, in order. */
  lemma {:induction false} FileHoldsWhatWasWritten(events: seq<Event>, device: u32, file: u32)
    ensures FileAfter(Run(events).sent, device, file) == FileAsAsked(events, device, file)
  {
    if events != [] {
      var prior, e := events[..|events| - 1], events[|events| - 1];
      FileHoldsWhatWasWritten(prior, device, file);
      if e.FromSession? {
        RequestWrites(Run(prior), e.f, device, file);
      } else {
        OthersSend(Run(prior), e);
        JobsLeaveFile(Run(prior), Run(events), device, file);
      }
    }
  }

  /** The writes that a run accepts for a file, in order. */
  function Accepted(events: seq<Event>, device: u32, file: u32): seq<FsRequest> {
    if events == [] then []
    else
      var prior, e := events[..|events| - 1], events[|events| - 1];
      Accepted(prior, device, file) + if Writes(Run(prior), e, device, file) then [e.f] else []
  }

  /** Consecutive slices: each at the end of those before it. */
  predicate Consecutive(fs: seq<FsRequest>) {
    fs == [] || (Consecutive(fs[..|fs| - 1]) && fs[|fs| - 1].offset == |Sliced(fs[..|fs| - 1])|)
  }

  function Sliced(fs: seq<FsRequest>): Bytes {
    if fs == [] then [] else Sliced(fs[..|fs| - 1]) + fs[|fs| - 1].payload
  }

  lemma WriteAtEnd(file: Bytes, data: Bytes)
    ensures Overwritten(file, |file|, data) == file + data
  {
    assert file[..|file|] == file;
  }

  lemma {:induction false} AcceptedSlices(events: seq<Event>, device: u32, file: u32)
    requires Consecutive(Accepted(events, device, file))
    ensures FileAsAsked(events, device, file) == Sliced(Accepted(events, device, file))
  {
    if events != [] {
      var prior, e := events[..|events| - 1], events[|events| - 1];
      var fs, was := Accepted(events, device, file), Accepted(prior, device, file);
      if Writes(Run(prior), e, device, file) {
        assert fs[..|fs| - 1] == was && fs[|fs| - 1] == e.f;
        AcceptedSlices(prior, device, file);
        WriteAtEnd(Sliced(was), e.f.payload);
      } else {
        assert fs == was;
        AcceptedSlices(prior, device, file);
      }
    }
  }

  /** So a file written in consecutive slices, in any interleaving with everything else,
      holds the slices' concatenation. */
  lemma SlicesMakeTheFile(events: seq<Event>, device: u32, file: u32)
    requires Consecutive(Accepted(events, device, file))
    ensures FileAfter(Run(events).sent, device, file) == Sliced(Accepted(events, device, file))
  {
    FileHoldsWhatWasWritten(events, device, file);
    AcceptedSlices(events, device, file);
  }

  // ---- Reading it back -----------------------------------------------------------

  /** The octets of a file from an offset, at most `length` of them. */
  function Part(x: Bytes, offset: nat, length: nat): Bytes {
    var lo := Min(offset, |x|);
    x[lo..lo + Min(length, |x| - lo)]
  }

  /** The last request a client got. */
  function LastRequest(st: State): Option<Received> {
    if st.sent == [] then None else ReadIrp(Octets(st.sent[|st.sent| - 1]))
  }

  /** A client's answer to a read of file `x`: success, the length, then the octets. */
  function ReadAnswer(x: Bytes, got: Option<Received>): Event {
    if got.None? || !got.value.request.Read? then FromClient([])
    else
      var part := Part(x, got.value.request.offset, got.value.request.length);
      FromClient(CompletionPdu(got.value.device, got.value.cid, 0, Le32(|part| % U32) + part))
  }

  /** One more reply: success, under the request's id, with these octets after a length. */
  predicate Returned(st: State, t: State, f: FsRequest, part: Bytes) {
    && |t.replies| == |st.replies| + 1
    && var r := t.replies[|st.replies|];
       r.reqId == f.reqId && r.status == 0 && |r.body| >= 4 && r.body[4..] == part
  }

  /** A read that the daemon can relay after the run. */
  predicate Readable(events: seq<Event>, f: FsRequest, i: nat) {
    && AdmissibleRun(events) && Run(events).issued < U32
    && f.op == 2 && |f.payload| <= FS_MAX_PAYLOAD && !IsPrinter(Run(events).devices, f.device)
    && i < |Run(events).pending| && !Run(events).pending[i].inUse
  }

  lemma LastIsAsked(st: State, f: FsRequest, i: nat)
    requires Relayed(f) && f.op == 2 && i < |st.pending| && !st.pending[i].inUse
    ensures LastRequest(OnFsRequest(st, f)) == Some(Received(f.device, st.nextCid, Read(f.fileId, f.length, f.offset)))
  {
    RequestIsRelayedAsAsked(st, f, i);
  }

  /** In every run, reading a file that holds `x` gives the session the octets it asked for. */
  lemma ReadReturnsThePart(events: seq<Event>, f: FsRequest, x: Bytes, i: nat)
    requires Readable(events, f, i)
    ensures var asked := events + [FromSession(f)];
            Returned(Run(events), Run(asked + [ReadAnswer(x, LastRequest(Run(asked)))]), f, Part(x, f.offset, f.length))
  {
    var st := Run(events);
    RunAppend(events, FromSession(f));
    LastIsAsked(st, f, i);
    RelayedIsAccepted(st, f, i);
    var part := Part(x, f.offset, f.length);
    var data := Le32(|part| % U32) + part;
    AnswerReachesSession(events, f, f.device, 0, data);
    assert data[4..] == part;
  }

  lemma AskingLeavesFile(events: seq<Event>, f: FsRequest, file: u32)
    requires f.op == 2
    ensures FileAfter(Run(events + [FromSession(f)]).sent, f.device, file)
         == FileAfter(Run(events).sent, f.device, file)
  {
    RunAppend(events, FromSession(f));
    RequestWrites(Run(events), f, f.device, file);
  }

  /** The two together: what the session wrote in consecutive slices it reads back, at any
      offset and length, from a client that answers out of the file it was told to write. */
  lemma SessionReadsWhatItWrote(events: seq<Event>, f: FsRequest, i: nat)
    requires Readable(events, f, i) && Consecutive(Accepted(events, f.device, f.fileId))
    ensures var asked := events + [FromSession(f)];
            var x := FileAfter(Run(asked).sent, f.device, f.fileId);
            Returned(Run(events), Run(asked + [ReadAnswer(x, LastRequest(Run(asked)))]), f,
                     Part(Sliced(Accepted(events, f.device, f.fileId)), f.offset, f.length))
  {
    AskingLeavesFile(events, f, f.fileId);
    SlicesMakeTheFile(events, f.device, f.fileId);
    ReadReturnsThePart(events, f, FileAfter(Run(events + [FromSession(f)]).sent, f.device, f.fileId), i);
  }
}
