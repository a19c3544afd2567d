/**
  * What becomes of a print job, told by the events of the run alone: the completion
  * messages the client sent for the job's requests, and the status each carried.
  */
module DevicePrinting {
  import opened Bytes
  import opened DeviceTable
  import opened DeviceRedirection
  import opened DeviceInvariants
  import opened DeviceAccounting
  import opened DeviceRuns
  import opened DeviceTheorems

  // ---- The specification ---------------------------------------------------------

  datatype Completion = Completion(cid: u32, status: u32, data: Bytes)

  /** The id, the status and the rest of a message that starts as an I/O completion does. */
  function CompletionOf(e: Event): Option<Completion> {
    if e.FromClient? && |e.pdu| >= 16 && e.pdu[..4] == [0x72, 0x44, 0x43, 0x49]
    then Some(Completion(Ld32(e.pdu, 8), Ld32(e.pdu, 12), e.pdu[16..]))
    else None
  }

  lemma CompletionOfPdu(device: u32, cid: u32, status: u32, data: Bytes)
    ensures CompletionOf(FromClient(CompletionPdu(device, cid, status, data)))
         == Some(Completion(cid, status, data))
  {
    CompletionPduFields(device, cid, status, data);
    var p := CompletionPdu(device, cid, status, data);
    assert p[..4] == [p[0], p[1], p[2], p[3]];
  }

  /** The id of the last request sent for a job. */
  function LastCid(sent: seq<Irp>, s: nat): Option<u32> {
    if sent == [] then None
    else
      var irp := sent[|sent| - 1];
      if irp.owner.ForJob? && irp.owner.serial == s then Some(irp.cid) else LastCid(sent[..|sent| - 1], s)
  }

  /** How many of a job's requests succeeded, the file the client opened for it, and how it
      ended. */
  datatype Fate = Fate(acks: nat, fileId: u32, end: JobEnd)

  const UNTOLD := Fate(0, 0, Running)

  /** A completion for the job's last request, of a spool of `n` octets: an error status
      ends it, the first success names the file, and the one that makes 2 + ceil(n / 8000)
      of them ends it too. */
  function Told(was: Fate, c: Option<Completion>, awaited: Option<u32>, n: nat): Fate {
    if c.None? || was.end != Running || awaited != Some(c.value.cid) then was
    else if c.value.status != 0 then was.(end := Failed(c.value.status))
    else
      Fate(was.acks + 1,
           if was.acks == 0 && |c.value.data| >= 4 then Ld32(c.value.data, 0) else was.fileId,
           if was.acks + 1 == 2 + Slices(n) then Printed else Running)
  }

  function FateOf(events: seq<Event>, s: nat, n: nat): Fate {
    if events == [] then UNTOLD
    else
      var prior, e := events[..|events| - 1], events[|events| - 1];
      Told(FateOf(prior, s, n), CompletionOf(e), LastCid(Run(prior).sent, s), n)
  }

  // ---- What the table knows ------------------------------------------------------

  function FateIn(r: Record): Fate {
    Fate(r.acks, r.fileId, r.end)
  }

  ghost predicate HasJob(jobs: seq<Job>, s: nat) {
    exists k | 0 <= k < |jobs| :: Live(jobs, k) && jobs[k].serial == s
  }

  predicate Awaits(st: State, k: nat)
    requires k < |st.jobs|
  {
    Live(st.jobs, k) ==>
      var j := st.jobs[k];
      && LastCid(st.sent, j.serial) == Some(j.cid)
      && j.serial < |st.records| && (st.records[j.serial].acks == 0 <==> j.state == Creating)
  }

  /** Every running record has a live job, a live job's id is that of the last request sent
      for it, and a job waits for its open exactly while nothing has succeeded. */
  ghost predicate Tracked(st: State) {
    && (forall s | 0 <= s < |st.records| && st.records[s].end == Running :: HasJob(st.jobs, s))
    && (forall k | 0 <= k < |st.jobs| :: Awaits(st, k))
  }

  lemma LastCidAppend(sent: seq<Irp>, irp: Irp, s: nat)
    ensures LastCid(sent + [irp], s)
         == if irp.owner.ForJob? && irp.owner.serial == s then Some(irp.cid) else LastCid(sent, s)
  {
    assert (sent + [irp])[..|sent|] == sent;
  }

  lemma {:induction false} FreshSerialHasNoCid(sent: seq<Irp>, s: nat)
    requires SerialsBelow(sent, s)
    ensures LastCid(sent, s).None?
  {
    if sent != [] {
      FreshSerialHasNoCid(sent[..|sent| - 1], s);
    }
  }

  /** A running job that awaits an id has the entry that carries it. */
  lemma AwaitedEntry(st: State, s: nat, cid: u32, i: nat)
    requires Inv(st) && Tracked(st) && s < |st.records| && st.records[s].end == Running
    requires LastCid(st.sent, s) == Some(cid) && i == FindCid(st.pending, cid)
    ensures i < |st.pending| && st.pending[i].owner.ForJob? && st.pending[i].owner.serial == s
  {
    var k :| 0 <= k < |st.jobs| && Live(st.jobs, k) && st.jobs[k].serial == s;
    assert Awaits(st, k) && Owns(st.pending, st.jobs, k);
    var j := st.jobs[k].entry;
    assert st.pending[j].inUse && st.pending[j].cid == cid;
  }

  // ---- Jobs that go on and jobs that end -----------------------------------------

  /** Job `k` ended, its record now `r`. */
  predicate Finished(st: State, t: State, k: nat, r: Record) {
    && Live(st.jobs, k) && st.jobs[k].serial < |st.records|
    && t.records == st.records[st.jobs[k].serial := r] && t.jobs == st.jobs[k := FREE_JOB] && t.sent == st.sent
  }

  /** Job `k` sent its next request, its record now `r`. */
  predicate WentOn(st: State, t: State, k: nat, r: Record) {
    && Live(st.jobs, k) && st.jobs[k].serial < |st.records| && |t.jobs| == |st.jobs|
    && t.records == st.records[st.jobs[k].serial := r] && t.jobs == st.jobs[k := t.jobs[k]]
    && Live(t.jobs, k) && t.jobs[k].serial == st.jobs[k].serial && t.jobs[k].state != Creating && r.acks > 0
    && |t.sent| == |st.sent| + 1 && t.sent == st.sent + [t.sent[|st.sent|]]
    && t.sent[|st.sent|].owner == ForJob(k, st.jobs[k].serial) && t.sent[|st.sent|].cid == t.jobs[k].cid
  }

  lemma FinishedIsTracked(st: State, t: State, k: nat, r: Record)
    requires Tracked(st) && DistinctSerials(st.jobs) && Finished(st, t, k, r) && r.end != Running
    ensures Tracked(t)
  {
    var mine := st.jobs[k].serial;
    forall s | 0 <= s < |t.records| && t.records[s].end == Running ensures HasJob(t.jobs, s) {
      assert s != mine && HasJob(st.jobs, s);
      var l :| 0 <= l < |st.jobs| && Live(st.jobs, l) && st.jobs[l].serial == s;
      assert l != k && Live(t.jobs, l) && t.jobs[l].serial == s;
    }
    forall l | 0 <= l < |t.jobs| ensures Awaits(t, l) {
      assert Awaits(st, l);
    }
  }

  lemma WentOnIsTracked(st: State, t: State, k: nat, r: Record)
    requires Tracked(st) && DistinctSerials(st.jobs) && WentOn(st, t, k, r)
    ensures Tracked(t)
  {
    var mine, irp := st.jobs[k].serial, t.sent[|st.sent|];
    forall s | 0 <= s < |t.records| && t.records[s].end == Running ensures HasJob(t.jobs, s) {
      if s == mine {
        assert Live(t.jobs, k) && t.jobs[k].serial == s;
      } else {
        assert HasJob(st.jobs, s);
        var l :| 0 <= l < |st.jobs| && Live(st.jobs, l) && st.jobs[l].serial == s;
        assert l != k && Live(t.jobs, l) && t.jobs[l].serial == s;
      }
    }
    forall l | 0 <= l < |t.jobs| ensures Awaits(t, l) {
      assert Awaits(st, l);
      LastCidAppend(st.sent, irp, t.jobs[l].serial);
    }
  }

  lemma AdvanceWentOn(st: State, k: nat, j: Job, rec: Record, r: Request)
    requires Live(st.jobs, k) && FirstFree(st.pending) < |st.pending| && j.serial == st.jobs[k].serial < |st.records|
    requires j.state != Free && j.state != Creating && j.cid == st.nextCid && rec.acks > 0
    ensures WentOn(st, Advance(st, k, j, rec, r), k, rec)
  {}

  /** What a successful completion leaves of a job that is not closing. */
  lemma SuccessGoesOn(st: State, k: nat, data: Bytes) returns (r: Record)
    requires Completing(st, k) && (st.jobs[k].state == Creating || st.jobs[k].state == Writing)
    ensures WentOn(st, OnPrintCompletion(st, st.jobs[k].cid, STATUS_SUCCESS, data), k, r)
    ensures var j, was := st.jobs[k], st.records[st.jobs[k].serial];
            && r.spool == was.spool && r.acks == was.acks + 1 && r.end == was.end
            && r.fileId == if j.state == Creating && |data| >= 4 then Ld32(data, 0) else was.fileId
  {
    var j := st.jobs[k];
    assert JobLogged(st.jobs, st.records, st.sent, k);
    if j.state == Creating {
      var fileId := if |data| >= 4 then Ld32(data, 0) else j.fileId;
      OpenContinues(st, k, data);
      j := j.(fileId := fileId);
    } else {
      WriteContinues(st, k, data);
      j := SliceWritten(j);
    }
    ContinueAdvances(st, k, j);
    r := Acked(st, j);
    AdvanceWentOn(st, k, Next(st, j), r, NextRequest(j));
  }

  lemma CloseFinishes(st: State, k: nat, data: Bytes) returns (r: Record)
    requires Completing(st, k) && st.jobs[k].state == Closing
    ensures Finished(st, OnPrintCompletion(st, st.jobs[k].cid, STATUS_SUCCESS, data), k, r)
    ensures r == st.records[st.jobs[k].serial].(acks := st.records[st.jobs[k].serial].acks + 1, end := Printed)
  {
    assert JobLogged(st.jobs, st.records, st.sent, k);
    CloseEnds(st, k, data);
    var was := st.records[st.jobs[k].serial];
    r := was.(acks := was.acks + 1, end := Printed);
  }

  lemma ErrorFinishes(st: State, k: nat, status: u32, data: Bytes) returns (r: Record)
    requires Completing(st, k) && status != STATUS_SUCCESS
    ensures Finished(st, OnPrintCompletion(st, st.jobs[k].cid, status, data), k, r)
    ensures r == st.records[st.jobs[k].serial].(end := Failed(status))
  {
    assert JobLogged(st.jobs, st.records, st.sent, k);
    FailureEnds(st, k, status, data);
    r := st.records[st.jobs[k].serial].(end := Failed(status));
  }

  // ---- One step --------------------------------------------------------------------

  /** The records say what the event tells of each job. */
  predicate TellsAll(st: State, t: State, c: Option<Completion>) {
    && |st.records| <= |t.records|
    && (forall s | 0 <= s < |st.records| ::
          && t.records[s].spool == st.records[s].spool
          && FateIn(t.records[s])
             == Told(FateIn(st.records[s]), c, LastCid(st.sent, s), |st.records[s].spool|))
    && (forall s | |st.records| <= s < |t.records| :: FateIn(t.records[s]) == UNTOLD)
  }

  lemma NobodyAwaits(st: State, t: State, c: Option<Completion>)
    requires Inv(st) && Tracked(st) && t.records == st.records
    requires c.Some? ==> var i := FindCid(st.pending, c.value.cid);
                         i < |st.pending| ==> !st.pending[i].owner.ForJob?
    ensures TellsAll(st, t, c)
  {
    forall s | 0 <= s < |st.records|
      ensures FateIn(t.records[s]) == Told(FateIn(st.records[s]), c, LastCid(st.sent, s), |st.records[s].spool|)
    {
      if c.Some? && st.records[s].end == Running && LastCid(st.sent, s) == Some(c.value.cid) {
        AwaitedEntry(st, s, c.value.cid, FindCid(st.pending, c.value.cid));
      }
    }
  }

  /** A record is where its count says. */
  lemma CountTells(st: State, s: nat)
    requires Inv(st) && s < |st.records|
    ensures var r := st.records[s];
            if r.end == Printed then r.acks == 2 + Slices(|r.spool|) else r.acks < 2 + Slices(|r.spool|)
  {
    assert RecordLogged(st.records, st.sent, s);
    ScriptShape(st.records[s].spool, st.records[s].fileId);
  }

  lemma OneJobTold(st: State, t: State, k: nat, r: Record, c: Completion)
    requires Inv(st) && Tracked(st) && Live(st.jobs, k) && st.jobs[k].serial < |st.records|
    requires t.records == st.records[st.jobs[k].serial := r] && Inv(t)
    requires c.cid == st.jobs[k].cid && st.records[st.jobs[k].serial].end == Running
    requires var was := st.records[st.jobs[k].serial];
             && r.spool == was.spool
             && if c.status != 0 then r == was.(end := Failed(c.status))
                else
                  && r.acks == was.acks + 1 && (r.end == Printed || r.end == Running)
                  && r.fileId == if was.acks == 0 && |c.data| >= 4 then Ld32(c.data, 0) else was.fileId
    ensures TellsAll(st, t, Some(c))
  {
    var mine := st.jobs[k].serial;
    assert Awaits(st, k) && Owns(st.pending, st.jobs, k);
    CountTells(t, mine);
    forall s | 0 <= s < |st.records|
      ensures FateIn(t.records[s]) == Told(FateIn(st.records[s]), Some(c), LastCid(st.sent, s), |st.records[s].spool|)
    {
      if s != mine && st.records[s].end == Running && LastCid(st.sent, s) == Some(c.cid) {
        AwaitedEntry(st, s, c.cid, FindCid(st.pending, c.cid));
      }
    }
  }

  lemma JobCompletionTells(st: State, i: nat, status: u32, data: Bytes)
    requires Inv(st) && Tracked(st) && st.issued < U32
    requires i < |st.pending| && st.pending[i].inUse && st.pending[i].owner.ForJob?
    requires FindCid(st.pending, st.pending[i].cid) == i
    ensures var t := OnCompletion(st, st.pending[i].cid, status, data);
            Tracked(t) && TellsAll(st, t, Some(Completion(st.pending[i].cid, status, data)))
  {
    var e := st.pending[i];
    var k, st1 := e.owner.slot, st.(pending := Release(st.pending, i));
    ReleasedIsCompleting(st, i);
    assert JobLogged(st.jobs, st.records, st.sent, k) && Awaits(st, k);
    CompletionKeepsInv(st, e.cid, status, data);
    var t := OnCompletion(st, e.cid, status, data);
    assert t == OnPrintCompletion(st1, e.cid, status, data);
    var r: Record;
    if status != STATUS_SUCCESS {
      r := ErrorFinishes(st1, k, status, data);
      FinishedIsTracked(st, t, k, r);
    } else if st.jobs[k].state == Closing {
      r := CloseFinishes(st1, k, data);
      FinishedIsTracked(st, t, k, r);
    } else {
      r := SuccessGoesOn(st1, k, data);
      WentOnIsTracked(st, t, k, r);
    }
    OneJobTold(st, t, k, r, Completion(e.cid, status, data));
  }

  lemma OtherCompletionTells(st: State, cid: u32, status: u32, data: Bytes)
    requires Inv(st) && Tracked(st)
    requires var i := FindCid(st.pending, cid); i < |st.pending| ==> st.pending[i].owner.ForDrive?
    ensures var t := OnCompletion(st, cid, status, data);
            Tracked(t) && TellsAll(st, t, Some(Completion(cid, status, data)))
  {
    var i, t := FindCid(st.pending, cid), OnCompletion(st, cid, status, data);
    if i < |st.pending| {
      CompletionFindsOwner(st.pending, st.jobs, i);
    }
    assert t.records == st.records && t.jobs == st.jobs && t.sent == st.sent;
    SameIsTracked(st, t);
    NobodyAwaits(st, t, Some(Completion(cid, status, data)));
  }

  lemma SameIsTracked(st: State, t: State)
    requires Tracked(st) && t.records == st.records && t.jobs == st.jobs
    requires t.sent == st.sent || (|t.sent| == |st.sent| + 1 && t.sent == st.sent + [t.sent[|st.sent|]]
                                   && t.sent[|st.sent|].owner == ForDrive)
    ensures Tracked(t)
  {
    forall k | 0 <= k < |t.jobs| ensures Awaits(t, k) {
      assert Awaits(st, k);
      if t.sent != st.sent {
        LastCidAppend(st.sent, t.sent[|st.sent|], t.jobs[k].serial);
      }
    }
  }

  lemma CompletionTells(st: State, cid: u32, status: u32, data: Bytes)
    requires Inv(st) && Tracked(st) && st.issued < U32
    ensures var t := OnCompletion(st, cid, status, data);
            Tracked(t) && TellsAll(st, t, Some(Completion(cid, status, data)))
  {
    var i := FindCid(st.pending, cid);
    if i < |st.pending| && st.pending[i].owner.ForJob? {
      JobCompletionTells(st, i, status, data);
    } else {
      OtherCompletionTells(st, cid, status, data);
    }
  }

  lemma HeaderTells(pdu: Bytes)
    requires |pdu| >= 16
    ensures pdu[..4] == [0x72, 0x44, 0x43, 0x49] <==> Ld16(pdu, 0) == CTYP_CORE && Ld16(pdu, 2) == PAKID_IOCOMPLETION
  {
    assert pdu[..4] == [pdu[0], pdu[1], pdu[2], pdu[3]];
  }

  lemma CompletionIsHandled(st: State, pdu: Bytes)
    requires JobsOk(st.jobs) && |pdu| >= 16 && Ld16(pdu, 0) == CTYP_CORE && Ld16(pdu, 2) == PAKID_IOCOMPLETION
    ensures OnClientPdu(st, pdu) == OnCompletion(st, Ld32(pdu, 8), Ld32(pdu, 12), pdu[16..])
  {}

  lemma OthersChangeDevices(st: State, pdu: Bytes)
    requires JobsOk(st.jobs)
    requires |pdu| < 16 || Ld16(pdu, 0) != CTYP_CORE || Ld16(pdu, 2) != PAKID_IOCOMPLETION
    ensures var t := OnClientPdu(st, pdu); t.records == st.records && t.jobs == st.jobs && t.sent == st.sent
  {}

  lemma ClientTells(st: State, pdu: Bytes)
    requires Inv(st) && Tracked(st) && st.issued < U32
    ensures var t := OnClientPdu(st, pdu); Tracked(t) && TellsAll(st, t, CompletionOf(FromClient(pdu)))
  {
    if |pdu| >= 16 {
      HeaderTells(pdu);
    }
    if CompletionOf(FromClient(pdu)).Some? {
      CompletionIsHandled(st, pdu);
      CompletionTells(st, Ld32(pdu, 8), Ld32(pdu, 12), pdu[16..]);
    } else {
      var t := OnClientPdu(st, pdu);
      OthersChangeDevices(st, pdu);
      SameIsTracked(st, t);
      NobodyAwaits(st, t, None);
    }
  }

  lemma RequestTells(st: State, f: FsRequest)
    requires Inv(st) && Tracked(st)
    ensures var t := OnFsRequest(st, f); Tracked(t) && TellsAll(st, t, None)
  {
    SameIsTracked(st, OnFsRequest(st, f));
    NobodyAwaits(st, OnFsRequest(st, f), None);
  }

  lemma StartedIsTracked(st: State, k: nat, j: Job)
    requires Tracked(st) && Inv(st) && k < |st.jobs| && st.jobs[k].state == Free && FirstFree(st.pending) < |st.pending|
    requires j.state == Creating && j.serial == |st.records| && j.cid == st.nextCid
    ensures Tracked(Started(st, k, j))
  {
    var t := Started(st, k, j);
    var irp := t.sent[|st.sent|];
    forall s | 0 <= s < |t.records| && t.records[s].end == Running ensures HasJob(t.jobs, s) {
      if s == |st.records| {
        assert Live(t.jobs, k) && t.jobs[k].serial == s;
      } else {
        assert st.records[s].end == Running && HasJob(st.jobs, s);
        var l :| 0 <= l < |st.jobs| && Live(st.jobs, l) && st.jobs[l].serial == s;
        assert l != k && Live(t.jobs, l) && t.jobs[l].serial == s;
      }
    }
    forall l | 0 <= l < |t.jobs| ensures Awaits(t, l) {
      assert Awaits(st, l) && JobLogged(st.jobs, st.records, st.sent, l);
      LastCidAppend(st.sent, irp, t.jobs[l].serial);
    }
  }

  lemma PrintTells(st: State, device: u32, spool: Bytes)
    requires Inv(st) && Tracked(st)
    ensures var t := OnPrintJob(st, device, spool); Tracked(t) && TellsAll(st, t, None)
  {
    if JobAccepted(st, spool) {
      var k := FirstFreeJob(st.jobs);
      var j := Job(Creating, device, 0, st.nextCid, spool, 0, |st.records|, FirstFree(st.pending));
      assert OnPrintJob(st, device, spool) == Started(st, k, j);
      StartedIsTracked(st, k, j);
    } else {
      NobodyAwaits(st, st, None);
    }
  }

  lemma StepTells(st: State, e: Event)
    requires Inv(st) && Tracked(st) && st.issued < U32
    ensures Tracked(Step(st, e)) && TellsAll(st, Step(st, e), CompletionOf(e))
  {
    match e
    case FromClient(pdu) => ClientTells(st, pdu);
    case FromSession(f) => RequestTells(st, f);
    case Print(device, spool) => PrintTells(st, device, spool);
  }

  // ---- Whole runs ------------------------------------------------------------------

  lemma InitialIsTracked()
    ensures Tracked(Initial())
  {}

  lemma {:induction false} RunIsTracked(events: seq<Event>)
    requires AdmissibleRun(events) && Run(events).issued < U32
    ensures Inv(Run(events)) && Tracked(Run(events))
  {
    RunKeepsInv(events);
    if events == [] {
      InitialIsTracked();
    } else {
      var prior, e := events[..|events| - 1], events[|events| - 1];
      StepCounts(Run(prior), e);
      RunIsTracked(prior);
      StepTells(Run(prior), e);
    }
  }

  lemma SerialsBelowMore(sent: seq<Irp>, n: nat, m: nat)
    requires SerialsBelow(sent, n) && n <= m
    ensures SerialsBelow(sent, m)
  {}

  /** The last event of a run, and what it tells. */
  lemma LastEventTells(prior: seq<Event>, e: Event)
    requires AdmissibleRun(prior) && Run(prior + [e]).issued < U32
    ensures Inv(Run(prior)) && TellsAll(Run(prior), Run(prior + [e]), CompletionOf(e))
  {
    RunAppend(prior, e);
    StepCounts(Run(prior), e);
    RunIsTracked(prior);
    StepTells(Run(prior), e);
  }

  lemma FateAppend(prior: seq<Event>, e: Event, s: nat, n: nat)
    ensures FateOf(prior + [e], s, n) == Told(FateOf(prior, s, n), CompletionOf(e), LastCid(Run(prior).sent, s), n)
  {
    assert (prior + [e])[..|prior|] == prior;
  }

  lemma NothingTold(st: State, c: Option<Completion>, s: nat, n: nat)
    requires Inv(st) && s >= |st.records|
    ensures Told(UNTOLD, c, LastCid(st.sent, s), n) == UNTOLD
  {
    SerialsBelowMore(st.sent, |st.records|, s);
    FreshSerialHasNoCid(st.sent, s);
  }

  lemma Shorter(prior: seq<Event>, e: Event)
    requires AdmissibleRun(prior + [e]) && Run(prior + [e]).issued < U32
    ensures AdmissibleRun(prior) && Run(prior).issued < U32
  {
    assert (prior + [e])[..|prior|] == prior;
    StepCounts(Run(prior), e);
  }

  /** What holds of no events and is kept by each event holds of every run in `ok`, a set
      of runs that has the shorter ones too. */
  lemma {:induction false} EveryRun(ok: seq<Event> -> bool, holds: seq<Event> -> bool, events: seq<Event>)
    requires holds([]) && ok(events)
    requires forall prior, e | ok(prior + [e]) :: ok(prior) && (holds(prior) ==> holds(prior + [e]))
    ensures holds(events)
    decreases |events|
  {
    if events != [] {
      var prior, e := events[..|events| - 1], events[|events| - 1];
      assert events == prior + [e];
      EveryRun(ok, holds, prior);
    }
  }

  predicate NotStarted(events: seq<Event>, s: nat) {
    AdmissibleRun(events) && Run(events).issued < U32 && s >= |Run(events).records|
  }

  lemma StillNotStarted(prior: seq<Event>, e: Event, s: nat, n: nat)
    requires NotStarted(prior + [e], s)
    ensures NotStarted(prior, s)
    ensures FateOf(prior, s, n) == UNTOLD ==> FateOf(prior + [e], s, n) == UNTOLD
  {
    Shorter(prior, e);
    LastEventTells(prior, e);
    NothingTold(Run(prior), CompletionOf(e), s, n);
    FateAppend(prior, e, s, n);
  }

  lemma NotYetStarted(events: seq<Event>, s: nat, n: nat)
    requires NotStarted(events, s)
    ensures FateOf(events, s, n) == UNTOLD
  {
    var ok := (es: seq<Event>) => NotStarted(es, s);
    var holds := (es: seq<Event>) => FateOf(es, s, n) == UNTOLD;
    forall prior, e | ok(prior + [e]) ensures ok(prior) && (holds(prior) ==> holds(prior + [e])) {
      StillNotStarted(prior, e, s, n);
    }
    EveryRun(ok, holds, events);
  }

  /** A job's record agrees with the run's events. */
  predicate Agrees(events: seq<Event>, s: nat, r: Record) {
    FateIn(r) == FateOf(events, s, |r.spool|)
  }

  lemma OldRecordAgrees(prior: seq<Event>, e: Event, s: nat)
    requires AdmissibleRun(prior) && Run(prior + [e]).issued < U32
    requires s < |Run(prior).records| && Agrees(prior, s, Run(prior).records[s])
    ensures s < |Run(prior + [e]).records| && Agrees(prior + [e], s, Run(prior + [e]).records[s])
  {
    LastEventTells(prior, e);
    FateAppend(prior, e, s, |Run(prior).records[s].spool|);
  }

  lemma NewRecordAgrees(prior: seq<Event>, e: Event, s: nat)
    requires AdmissibleRun(prior) && Run(prior).issued < U32 && Run(prior + [e]).issued < U32
    requires |Run(prior).records| <= s < |Run(prior + [e]).records|
    ensures Agrees(prior + [e], s, Run(prior + [e]).records[s])
  {
    var n := |Run(prior + [e]).records[s].spool|;
    LastEventTells(prior, e);
    NotYetStarted(prior, s, n);
    NothingTold(Run(prior), CompletionOf(e), s, n);
    FateAppend(prior, e, s, n);
  }

  /** For every print job of every run: its successes are the completions the client sent
      with status 0 for the job's request in flight, its file is the one the first of them
      names, the first other status ends it as a failure with that status, and nothing else
      ends it but the last success. */
  lemma {:induction false} JobFateIsWhatTheClientSent(events: seq<Event>, s: nat)
    requires AdmissibleRun(events) && Run(events).issued < U32 && s < |Run(events).records|
    ensures Agrees(events, s, Run(events).records[s])
    decreases |events|
  {
    if events != [] {
      var prior, e := events[..|events| - 1], events[|events| - 1];
      assert events == prior + [e];
      Shorter(prior, e);
      if s < |Run(prior).records| {
        JobFateIsWhatTheClientSent(prior, s);
        OldRecordAgrees(prior, e, s);
      } else {
        NewRecordAgrees(prior, e, s);
      }
    }
  }
}
