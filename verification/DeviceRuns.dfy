/**
  * The device-redirection theorems: what holds in every state reached by any
  * interleaving of drive requests, print jobs and client messages.
  */
module DeviceRuns {
  import opened Bytes
  import opened DeviceTable
  import opened DeviceRedirection
  import opened DeviceInvariants
  import opened DeviceAccounting

  predicate Tables(st: State) {
    && |st.devices| <= MAX_DEVICES
    && |st.pending| == MAX_PENDING
    && |st.jobs| == MAX_JOBS
    && JobsOk(st.jobs)
    && st.issued <= U32
    && st.nextCid == st.issued % U32
    && DistinctCids(st.pending)
    && CidsBelow(st.pending, st.issued)
  }

  predicate JobsPrint(st: State) {
    forall k | 0 <= k < |st.jobs| && Live(st.jobs, k) :: IsPrinter(st.devices, st.jobs[k].device)
  }

  predicate LostToPrinters(devices: seq<Device>, lost: multiset<(u32, u32)>) {
    forall x | x in lost :: IsPrinter(devices, x.0)
  }

  predicate Books(st: State) {
    && st.requests == Answered(st.replies) + InFlight(st.pending) + st.lost
    && LostToPrinters(st.devices, st.lost)
  }

  predicate JobLogged(jobs: seq<Job>, records: seq<Record>, sent: seq<Irp>, k: nat)
    requires k < |jobs| && JobsOk(jobs)
  {
    Live(jobs, k) ==>
      var j := jobs[k];
      && j.serial < |records|
      && records[j.serial].device == j.device
      && records[j.serial].spool == j.spool
      && records[j.serial].fileId == j.fileId
      && records[j.serial].end == Running
      && OnScript(LogOf(sent, j.serial), j)
  }

  predicate RecordLogged(records: seq<Record>, sent: seq<Irp>, s: nat)
    requires s < |records|
  {
    RecordOk(LogOf(sent, s), records[s])
  }

  predicate DistinctSerials(jobs: seq<Job>) {
    forall k, l | 0 <= k < l < |jobs| && Live(jobs, k) && Live(jobs, l) :: jobs[k].serial != jobs[l].serial
  }

  predicate Logs(jobs: seq<Job>, records: seq<Record>, sent: seq<Irp>)
    requires JobsOk(jobs)
  {
    && SerialsBelow(sent, |records|)
    && DistinctSerials(jobs)
    && (forall k | 0 <= k < |jobs| :: JobLogged(jobs, records, sent, k))
    && (forall s | 0 <= s < |records| :: RecordLogged(records, sent, s))
  }

  /** The invariant, with the entry of job `x` just released (-1: none). */
  predicate CoreExcept(st: State, x: int) {
    && Tables(st)
    && OwnedExcept(st.pending, st.jobs, x)
    && Books(st)
    && Logs(st.jobs, st.records, st.sent)
  }

  predicate Core(st: State) {
    CoreExcept(st, -1)
  }

  predicate Inv(st: State) {
    Core(st) && JobsPrint(st)
  }

  /** `t` runs no job on a device that `st` does not, and knows the same devices. */
  predicate NoNewJobs(st: State, t: State) {
    && t.devices == st.devices
    && |t.jobs| == |st.jobs|
    && forall k | 0 <= k < |t.jobs| && Live(t.jobs, k) :: Live(st.jobs, k) && t.jobs[k].device == st.jobs[k].device
  }

  // ---- Logs --------------------------------------------------------------

  lemma DriveIrpKeepsLogs(jobs: seq<Job>, records: seq<Record>, sent: seq<Irp>, irp: Irp)
    requires JobsOk(jobs) && Logs(jobs, records, sent) && irp.owner == ForDrive
    ensures Logs(jobs, records, sent + [irp])
  {
    forall k | 0 <= k < |jobs| ensures JobLogged(jobs, records, sent + [irp], k) {
      assert JobLogged(jobs, records, sent, k);
      LogOfAppend(sent, irp, jobs[k].serial);
    }
    forall s | 0 <= s < |records| ensures RecordLogged(records, sent + [irp], s) {
      assert RecordLogged(records, sent, s);
      LogOfAppend(sent, irp, s);
    }
  }

  /** One IRP for job `k`, which becomes `j`, its record `r`. */
  predicate Advancing(jobs: seq<Job>, records: seq<Record>, sent: seq<Irp>, k: nat, j: Job, r: Record, irp: Irp) {
    && JobsOk(jobs) && Logs(jobs, records, sent) && k < |jobs| && JobOk(j) && j.state != Free
    && j.serial < |records| && Live(jobs, k) && jobs[k].serial == j.serial
    && irp.owner == ForJob(k, j.serial)
    && r.device == j.device && r.spool == j.spool && r.fileId == j.fileId && r.end == Running
    && OnScript(LogOf(sent, j.serial) + [irp.request], j)
    && RecordOk(LogOf(sent, j.serial) + [irp.request], r)
  }

  lemma AdvancingKeepsJob(jobs: seq<Job>, records: seq<Record>, sent: seq<Irp>, k: nat, j: Job, r: Record, irp: Irp,
                          l: nat)
    requires Advancing(jobs, records, sent, k, j, r, irp) && l < |jobs|
    ensures JobLogged(jobs[k := j], records[j.serial := r], sent + [irp], l)
  {
    if l == k {
      LogOfAppend(sent, irp, j.serial);
    } else if Live(jobs, l) {
      assert JobLogged(jobs, records, sent, l) && jobs[l].serial != j.serial;
      LogOfAppend(sent, irp, jobs[l].serial);
    }
  }

  lemma AdvancingKeepsRecord(jobs: seq<Job>, records: seq<Record>, sent: seq<Irp>, k: nat, j: Job, r: Record, irp: Irp,
                             s: nat)
    requires Advancing(jobs, records, sent, k, j, r, irp) && s < |records|
    ensures RecordLogged(records[j.serial := r], sent + [irp], s)
  {
    LogOfAppend(sent, irp, s);
    if s != j.serial {
      assert RecordLogged(records, sent, s);
    }
  }

  lemma AdvancingKeepsSerials(jobs: seq<Job>, k: nat, j: Job)
    requires DistinctSerials(jobs) && Live(jobs, k) && jobs[k].serial == j.serial && j.state != Free
    ensures DistinctSerials(jobs[k := j])
  {
    var js := jobs[k := j];
    assert forall l | 0 <= l < |js| :: Live(js, l) == Live(jobs, l) && js[l].serial == jobs[l].serial;
  }

  lemma JobIrpKeepsLogs(jobs: seq<Job>, records: seq<Record>, sent: seq<Irp>, k: nat, j: Job, r: Record, irp: Irp)
    requires Advancing(jobs, records, sent, k, j, r, irp)
    ensures Logs(jobs[k := j], records[j.serial := r], sent + [irp])
  {
    var js, rs, sn := jobs[k := j], records[j.serial := r], sent + [irp];
    AdvancingKeepsSerials(jobs, k, j);
    forall l | 0 <= l < |js| ensures JobLogged(js, rs, sn, l) {
      AdvancingKeepsJob(jobs, records, sent, k, j, r, irp, l);
    }
    forall s | 0 <= s < |rs| ensures RecordLogged(rs, sn, s) {
      AdvancingKeepsRecord(jobs, records, sent, k, j, r, irp, s);
    }
  }

  lemma EndKeepsLogs(jobs: seq<Job>, records: seq<Record>, sent: seq<Irp>, k: nat, r: Record)
    requires JobsOk(jobs) && Logs(jobs, records, sent) && k < |jobs| && Live(jobs, k)
    requires jobs[k].serial < |records| && RecordOk(LogOf(sent, jobs[k].serial), r)
    ensures Logs(jobs[k := FREE_JOB], records[jobs[k].serial := r], sent)
  {
    var js, rs := jobs[k := FREE_JOB], records[jobs[k].serial := r];
    forall l | 0 <= l < |js| ensures JobLogged(js, rs, sent, l) {
      assert JobLogged(jobs, records, sent, l);
      if l != k && Live(js, l) {
        assert Live(jobs, l) && jobs[l].serial != jobs[k].serial;
      }
    }
    forall s | 0 <= s < |rs| ensures RecordLogged(rs, sent, s) {
      assert RecordLogged(records, sent, s);
    }
  }

  lemma OpenedIsOnScript(j: Job)
    requires JobOk(j) && j.state == Creating && j.off == 0
    ensures OnScript([OPEN_PRINTER], j)
    ensures RecordOk([OPEN_PRINTER], Record(j.device, j.spool, j.fileId, 0, Running))
  {
    assert [OPEN_PRINTER] + Rest(j.spool, j.fileId, 0) == Script(j.spool, j.fileId);
  }

  /** A new job `j` for the free slot `k`, and its first IRP. */
  predicate Opening(jobs: seq<Job>, records: seq<Record>, sent: seq<Irp>, k: nat, j: Job, irp: Irp) {
    && JobsOk(jobs) && Logs(jobs, records, sent) && k < |jobs| && jobs[k].state == Free
    && j.state == Creating && j.off == 0 && |j.spool| <= MAX_SPOOL && j.serial == |records|
    && irp.owner == ForJob(k, j.serial) && irp.request == OPEN_PRINTER
  }

  lemma OpeningLog(jobs: seq<Job>, records: seq<Record>, sent: seq<Irp>, k: nat, j: Job, irp: Irp)
    requires Opening(jobs, records, sent, k, j, irp)
    ensures LogOf(sent + [irp], j.serial) == [OPEN_PRINTER]
  {
    FreshSerialHasNoLog(sent, j.serial);
    LogOfAppend(sent, irp, j.serial);
  }

  lemma OpeningKeepsJob(jobs: seq<Job>, records: seq<Record>, sent: seq<Irp>, k: nat, j: Job, irp: Irp, l: nat)
    requires Opening(jobs, records, sent, k, j, irp) && l < |jobs|
    ensures JobLogged(jobs[k := j], records + [Record(j.device, j.spool, j.fileId, 0, Running)], sent + [irp], l)
  {
    if l == k {
      OpeningLog(jobs, records, sent, k, j, irp);
      OpenedIsOnScript(j);
    } else if Live(jobs, l) {
      assert JobLogged(jobs, records, sent, l);
      LogOfAppend(sent, irp, jobs[l].serial);
    }
  }

  lemma OpeningKeepsRecord(jobs: seq<Job>, records: seq<Record>, sent: seq<Irp>, k: nat, j: Job, irp: Irp, s: nat)
    requires Opening(jobs, records, sent, k, j, irp) && s <= |records|
    ensures RecordLogged(records + [Record(j.device, j.spool, j.fileId, 0, Running)], sent + [irp], s)
  {
    if s < |records| {
      assert RecordLogged(records, sent, s);
      LogOfAppend(sent, irp, s);
    } else {
      OpeningLog(jobs, records, sent, k, j, irp);
      OpenedIsOnScript(j);
    }
  }

  lemma OpeningKeepsSerials(jobs: seq<Job>, records: seq<Record>, sent: seq<Irp>, k: nat, j: Job, irp: Irp)
    requires Opening(jobs, records, sent, k, j, irp)
    ensures DistinctSerials(jobs[k := j])
  {
    var js := jobs[k := j];
    forall a, b | 0 <= a < b < |js| && Live(js, a) && Live(js, b) ensures js[a].serial != js[b].serial {
      assert JobLogged(jobs, records, sent, a) && JobLogged(jobs, records, sent, b);
    }
  }

  lemma StartKeepsLogs(jobs: seq<Job>, records: seq<Record>, sent: seq<Irp>, k: nat, j: Job, irp: Irp)
    requires Opening(jobs, records, sent, k, j, irp)
    ensures Logs(jobs[k := j], records + [Record(j.device, j.spool, j.fileId, 0, Running)], sent + [irp])
  {
    var js, rs, sn := jobs[k := j], records + [Record(j.device, j.spool, j.fileId, 0, Running)], sent + [irp];
    OpeningKeepsSerials(jobs, records, sent, k, j, irp);
    forall l | 0 <= l < |js| ensures JobLogged(js, rs, sn, l) {
      OpeningKeepsJob(jobs, records, sent, k, j, irp, l);
    }
    forall s | 0 <= s < |rs| ensures RecordLogged(rs, sn, s) {
      OpeningKeepsRecord(jobs, records, sent, k, j, irp, s);
    }
  }

  // ---- A job advances ----------------------------------------------------

  /** The request sent next with `off` octets acknowledged, and the state it leaves. */
  function NextRequest(j: Job): Request
    requires JobOk(j)
  {
    if j.off == |j.spool| then Close(j.fileId) else WriteAt(j.spool, j.fileId, j.off)
  }

  function NextState(j: Job): JobState {
    if j.off == |j.spool| then Closing else Writing
  }

  /** With `Rest(off)` still to send, sending its head leaves the job on its script. */
  lemma SendingHeadStaysOnScript(log: seq<Request>, j: Job)
    requires JobOk(j) && log + Rest(j.spool, j.fileId, j.off) == Script(j.spool, j.fileId)
    ensures var j', r := j.(state := NextState(j)), NextRequest(j);
            OnScript(log + [r], j') && log + [r] <= Script(j.spool, j.fileId)
  {
    var j', r := j.(state := NextState(j)), NextRequest(j);
    assert Rest(j.spool, j.fileId, j.off) == [r] + Remaining(j');
    assert (log + [r]) + Remaining(j') == log + ([r] + Remaining(j'));
  }

  // ---- Every step keeps the invariant ------------------------------------

  lemma ReleaseBooks(p: seq<Pending>, i: nat)
    requires i < |p| && p[i].inUse
    ensures InFlight(p) == InFlight(Release(p, i)) + DriveShare(p[i])
  {
    InFlightUpdate(p, i, p[i].(inUse := false));
  }

  lemma ReserveBooks(p: seq<Pending>, e: Pending)
    requires FirstFree(p) < |p|
    ensures InFlight(Reserve(p, e)) == InFlight(p) + DriveShare(e)
  {
    InFlightUpdate(p, FirstFree(p), e);
  }

  /** Moving a share between the three columns of the books. */
  lemma MoveShare<T>(a: multiset<T>, f: multiset<T>, l: multiset<T>, x: multiset<T>)
    ensures a + (f + x) + l == (a + x) + f + l == a + f + (l + x) == (a + f + l) + x
  {}

  lemma IssuedKeepsCore(st: State, f: FsRequest, r: Request)
    requires Core(st) && st.issued < U32 && FirstFree(st.pending) < |st.pending|
    ensures var t := Issue(st.(requests := st.requests + multiset{(f.device, f.reqId)}), ForDrive, f.device, r, f.reqId);
            Core(t) && NoNewJobs(st, t)
  {
    var x := (f.device, f.reqId);
    var e := Pending(true, st.nextCid, f.device, Major(r), f.reqId, ForDrive);
    ReserveKeepsCids(st.pending, e, st.issued);
    ReserveForDriveKeepsOwned(st.pending, st.jobs, e);
    ReserveBooks(st.pending, e);
    MoveShare(Answered(st.replies), InFlight(st.pending), st.lost, multiset{x});
    DriveIrpKeepsLogs(st.jobs, st.records, st.sent, Irp(ForDrive, f.device, st.nextCid, r));
  }

  lemma RefusedKeepsCore(st: State, r: Reply)
    requires Core(st)
    ensures var t := Answer(st.(requests := st.requests + multiset{(r.device, r.reqId)}), r);
            Core(t) && NoNewJobs(st, t)
  {
    AnsweredAppend(st.replies, r);
    MoveShare(Answered(st.replies), InFlight(st.pending), st.lost, multiset{(r.device, r.reqId)});
  }

  /** While no id is reused, a request id lands in its own entry. */
  lemma AcceptedIsIssued(st: State, f: FsRequest)
    requires Tables(st) && st.issued < U32 && FsAccepted(st, f)
    ensures OnFsRequest(st, f)
         == Issue(st.(requests := st.requests + multiset{(f.device, f.reqId)}),
                  ForDrive, f.device, AsRequest(f).value, f.reqId)
  {
    var e := Pending(true, st.nextCid, f.device, Major(AsRequest(f).value), 0, ForDrive);
    assert FindCid(st.pending, st.nextCid) == |st.pending|;
    StampIsOwn(st.pending, e, f.reqId);
  }

  lemma FsRequestKeepsCore(st: State, f: FsRequest)
    requires Core(st) && st.issued < U32
    ensures Core(OnFsRequest(st, f)) && NoNewJobs(st, OnFsRequest(st, f))
  {
    if FsAccepted(st.(requests := st.requests + multiset{(f.device, f.reqId)}), f) {
      AcceptedIsIssued(st, f);
      IssuedKeepsCore(st, f, AsRequest(f).value);
    } else {
      var status := if |f.payload| > FS_MAX_PAYLOAD then STATUS_UNSUCCESSFUL else STATUS_NOT_IMPLEMENTED;
      RefusedKeepsCore(st, Reply(f.device, f.reqId, status, 0, 0, []));
    }
  }

  function Started(st: State, k: nat, j: Job): State
    requires k < |st.jobs| && FirstFree(st.pending) < |st.pending|
  {
    st.(pending := Reserve(st.pending, Pending(true, st.nextCid, j.device, MJ_CREATE, 0, ForJob(k, j.serial))),
        nextCid := (st.nextCid + 1) % U32,
        sent := st.sent + [Irp(ForJob(k, j.serial), j.device, st.nextCid, OPEN_PRINTER)],
        issued := st.issued + 1,
        jobs := st.jobs[k := j],
        records := st.records + [Record(j.device, j.spool, j.fileId, 0, Running)])
  }

  lemma StartedKeepsCore(st: State, k: nat, j: Job)
    requires Core(st) && st.issued < U32 && FirstFree(st.pending) < |st.pending|
    requires k < |st.jobs| && st.jobs[k].state == Free
    requires j.state == Creating && j.off == 0 && |j.spool| <= MAX_SPOOL && j.serial == |st.records|
    requires j.cid == st.nextCid && j.entry == FirstFree(st.pending)
    ensures Core(Started(st, k, j))
  {
    var e := Pending(true, st.nextCid, j.device, MJ_CREATE, 0, ForJob(k, j.serial));
    var t := Started(st, k, j);
    assert Tables(t) by { ReserveKeepsCids(st.pending, e, st.issued); }
    assert Owned(t.pending, t.jobs) by {
      FreeSlotIsBare(st.pending, st.jobs, k);
      ReserveForJobKeepsOwned(st.pending, st.jobs, e, k, j);
    }
    assert Books(t) by { ReserveBooks(st.pending, e); }
    assert Logs(t.jobs, t.records, t.sent) by {
      StartKeepsLogs(st.jobs, st.records, st.sent, k, j,
                     Irp(ForJob(k, j.serial), j.device, st.nextCid, OPEN_PRINTER));
    }
  }

  lemma PrintJobKeepsCore(st: State, device: u32, spool: Bytes)
    requires Core(st) && st.issued < U32
    ensures Core(OnPrintJob(st, device, spool))
    ensures JobsPrint(st) && IsPrinter(st.devices, device) ==> JobsPrint(OnPrintJob(st, device, spool))
  {
    if JobAccepted(st, spool) {
      var k := FirstFreeJob(st.jobs);
      var j := Job(Creating, device, 0, st.nextCid, spool, 0, |st.records|, FirstFree(st.pending));
      assert OnPrintJob(st, device, spool) == Started(st, k, j);
      StartedKeepsCore(st, k, j);
    }
  }

  /** Job `k` becomes `j` with the IRP in the first free entry, its record `rec`. */
  function Advance(st: State, k: nat, j: Job, rec: Record, r: Request): State
    requires k < |st.jobs| && FirstFree(st.pending) < |st.pending| && j.serial < |st.records|
  {
    st.(pending := Reserve(st.pending, Pending(true, st.nextCid, j.device, Major(r), 0, ForJob(k, j.serial))),
        nextCid := (st.nextCid + 1) % U32,
        sent := st.sent + [Irp(ForJob(k, j.serial), j.device, st.nextCid, r)],
        issued := st.issued + 1,
        jobs := st.jobs[k := j],
        records := st.records[j.serial := rec])
  }

  lemma AdvanceKeepsTables(st: State, k: nat, j: Job, rec: Record, r: Request)
    requires CoreExcept(st, k) && st.issued < U32 && FirstFree(st.pending) < |st.pending|
    requires Live(st.jobs, k) && JobOk(j) && j.state != Free && j.serial < |st.records|
    requires j.serial == st.jobs[k].serial && j.device == st.jobs[k].device
    requires j.cid == st.nextCid && j.entry == FirstFree(st.pending)
    ensures var t := Advance(st, k, j, rec, r);
            Tables(t) && Owned(t.pending, t.jobs) && Books(t) && NoNewJobs(st, t)
  {
    var e := Pending(true, st.nextCid, j.device, Major(r), 0, ForJob(k, j.serial));
    var t := Advance(st, k, j, rec, r);
    assert Tables(t) by { ReserveKeepsCids(st.pending, e, st.issued); }
    assert Owned(t.pending, t.jobs) by { ReserveForJobKeepsOwned(st.pending, st.jobs, e, k, j); }
    assert Books(t) by { ReserveBooks(st.pending, e); }
  }

  lemma AdvanceKeepsCore(st: State, k: nat, j: Job, rec: Record, r: Request)
    requires CoreExcept(st, k) && st.issued < U32 && FirstFree(st.pending) < |st.pending|
    requires Live(st.jobs, k) && JobOk(j) && j.state != Free && j.serial < |st.records|
    requires j.serial == st.jobs[k].serial && j.device == st.jobs[k].device
    requires j.cid == st.nextCid && j.entry == FirstFree(st.pending)
    requires rec.device == j.device && rec.spool == j.spool && rec.fileId == j.fileId && rec.end == Running
    requires OnScript(LogOf(st.sent, j.serial) + [r], j)
    requires RecordOk(LogOf(st.sent, j.serial) + [r], rec)
    ensures Core(Advance(st, k, j, rec, r)) && NoNewJobs(st, Advance(st, k, j, rec, r))
  {
    AdvanceKeepsTables(st, k, j, rec, r);
    JobIrpKeepsLogs(st.jobs, st.records, st.sent, k, j, rec, Irp(ForJob(k, j.serial), j.device, st.nextCid, r));
  }

  function Acked(st: State, j: Job): Record
    requires j.serial < |st.records|
  {
    st.records[j.serial].(acks := st.records[j.serial].acks + 1, fileId := j.fileId)
  }

  function Next(st: State, j: Job): Job {
    j.(state := NextState(j), cid := st.nextCid, entry := FirstFree(st.pending))
  }

  /** An entry was just freed, so the next IRP always builds and the job goes on. */
  lemma ContinueAdvances(st: State, k: nat, j: Job)
    requires k < |st.jobs| && JobOk(j) && FirstFree(st.pending) < |st.pending|
    requires j.serial == st.jobs[k].serial < |st.records|
    ensures Continue(Acknowledge(st, k, j.fileId), k, j) == Advance(st, k, Next(st, j), Acked(st, j), NextRequest(j))
  {
    var st1 := Acknowledge(st, k, j.fileId);
    assert WireSize(NextRequest(j)) <= IRP_HDR + 32 + if j.off == |j.spool| then 0 else PRINT_CHUNK;
    assert CanBuild(st1, NextRequest(j), IRP_HDR + 32 + if j.off == |j.spool| then 0 else PRINT_CHUNK);
  }

  lemma AckedRecordOk(log: seq<Request>, rec: Record, j: Job)
    requires JobOk(j) && RecordOk(log, rec) && rec.end == Running && rec.spool == j.spool
    requires log + [NextRequest(j)] <= Script(j.spool, j.fileId)
    ensures RecordOk(log + [NextRequest(j)], rec.(acks := rec.acks + 1, fileId := j.fileId))
  {}

  /** A successful completion moves job `k` to `j` and sends its next request. */
  lemma ContinueKeepsCore(st: State, k: nat, j: Job)
    requires CoreExcept(st, k) && st.issued < U32 && FirstFree(st.pending) < |st.pending|
    requires Live(st.jobs, k) && JobOk(j)
    requires j.serial == st.jobs[k].serial && j.device == st.jobs[k].device && j.spool == st.jobs[k].spool
    requires LogOf(st.sent, j.serial) + Rest(j.spool, j.fileId, j.off) == Script(j.spool, j.fileId)
    ensures var t := Continue(Acknowledge(st, k, j.fileId), k, j);
            Core(t) && NoNewJobs(st, t)
  {
    var s := j.serial;
    var log := LogOf(st.sent, s);
    assert JobLogged(st.jobs, st.records, st.sent, k) && RecordLogged(st.records, st.sent, s);
    ContinueAdvances(st, k, j);
    SendingHeadStaysOnScript(log, j);
    AckedRecordOk(log, st.records[s], j);
    assert Remaining(Next(st, j)) == Remaining(j.(state := NextState(j)));
    AdvanceKeepsCore(st, k, Next(st, j), Acked(st, j), NextRequest(j));
  }

  function Ended(st: State, k: nat, acks: nat, end: JobEnd): State
    requires k < |st.jobs| && st.jobs[k].serial < |st.records|
  {
    var s := st.jobs[k].serial;
    st.(jobs := st.jobs[k := FREE_JOB], records := st.records[s := st.records[s].(acks := acks, end := end)])
  }

  lemma EndedKeepsCore(st: State, k: nat, acks: nat, end: JobEnd)
    requires CoreExcept(st, k) && Live(st.jobs, k) && st.jobs[k].serial < |st.records|
    requires var s := st.jobs[k].serial;
             RecordOk(LogOf(st.sent, s), st.records[s].(acks := acks, end := end))
    ensures Core(Ended(st, k, acks, end)) && NoNewJobs(st, Ended(st, k, acks, end))
  {
    var s := st.jobs[k].serial;
    FreeingBareJobKeepsOwned(st.pending, st.jobs, k);
    EndKeepsLogs(st.jobs, st.records, st.sent, k, st.records[s].(acks := acks, end := end));
  }

  lemma FailureEnds(st: State, k: nat, status: u32, data: Bytes)
    requires JobsOk(st.jobs) && Live(st.jobs, k) && JobByCid(st.jobs, st.jobs[k].cid) == k
    requires st.jobs[k].serial < |st.records| && status != STATUS_SUCCESS
    ensures OnPrintCompletion(st, st.jobs[k].cid, status, data)
         == Ended(st, k, st.records[st.jobs[k].serial].acks, Failed(status))
  {}

  lemma CloseEnds(st: State, k: nat, data: Bytes)
    requires JobsOk(st.jobs) && Live(st.jobs, k) && JobByCid(st.jobs, st.jobs[k].cid) == k
    requires st.jobs[k].state == Closing
    requires var s := st.jobs[k].serial;
             s < |st.records| && st.records[s].fileId == st.jobs[k].fileId
    ensures OnPrintCompletion(st, st.jobs[k].cid, STATUS_SUCCESS, data)
         == Ended(st, k, st.records[st.jobs[k].serial].acks + 1, Printed)
  {
    var j := st.jobs[k];
    var r := st.records[j.serial];
    assert Acked(st, j).(end := Printed) == r.(acks := r.acks + 1, end := Printed);
  }

  lemma OpenContinues(st: State, k: nat, data: Bytes)
    requires JobsOk(st.jobs) && Live(st.jobs, k) && JobByCid(st.jobs, st.jobs[k].cid) == k
    requires st.jobs[k].state == Creating
    ensures var fileId := if |data| >= 4 then Ld32(data, 0) else st.jobs[k].fileId;
            OnPrintCompletion(st, st.jobs[k].cid, STATUS_SUCCESS, data)
            == Continue(Acknowledge(st, k, fileId), k, st.jobs[k].(fileId := fileId))
  {}

  lemma WriteContinues(st: State, k: nat, data: Bytes)
    requires JobsOk(st.jobs) && Live(st.jobs, k) && JobByCid(st.jobs, st.jobs[k].cid) == k
    requires st.jobs[k].state == Writing
    ensures var j := st.jobs[k];
            OnPrintCompletion(st, j.cid, STATUS_SUCCESS, data) == Continued(st, k, SliceWritten(j))
  {}

  /** Job `k`'s entry was just released and the completion is for it. */
  predicate Completing(st: State, k: nat) {
    && CoreExcept(st, k) && st.issued < U32 && FirstFree(st.pending) < |st.pending|
    && Live(st.jobs, k) && JobByCid(st.jobs, st.jobs[k].cid) == k
  }

  lemma FailureKeepsCore(st: State, k: nat, status: u32, data: Bytes)
    requires Completing(st, k) && status != STATUS_SUCCESS
    ensures var t := OnPrintCompletion(st, st.jobs[k].cid, status, data); Core(t) && NoNewJobs(st, t)
  {
    var j := st.jobs[k];
    assert JobLogged(st.jobs, st.records, st.sent, k) && RecordLogged(st.records, st.sent, j.serial);
    FailureEnds(st, k, status, data);
    EndedKeepsCore(st, k, st.records[j.serial].acks, Failed(status));
  }

  lemma OpenKeepsCore(st: State, k: nat, data: Bytes)
    requires Completing(st, k) && st.jobs[k].state == Creating
    ensures var t := OnPrintCompletion(st, st.jobs[k].cid, STATUS_SUCCESS, data); Core(t) && NoNewJobs(st, t)
  {
    var j := st.jobs[k];
    assert JobLogged(st.jobs, st.records, st.sent, k) && RecordLogged(st.records, st.sent, j.serial);
    OpenContinues(st, k, data);
    var fileId := if |data| >= 4 then Ld32(data, 0) else j.fileId;
    OpenedIsOnScript(j.(fileId := fileId));
    ContinueKeepsCore(st, k, j.(fileId := fileId));
  }

  function SliceWritten(j: Job): Job
    requires JobOk(j)
  {
    j.(off := j.off + SliceLen(j.spool, j.off))
  }

  lemma WrittenIsOnScript(st: State, k: nat)
    requires JobsOk(st.jobs) && Logs(st.jobs, st.records, st.sent) && Live(st.jobs, k) && st.jobs[k].state == Writing
    ensures var j := SliceWritten(st.jobs[k]);
            JobOk(j) && LogOf(st.sent, j.serial) + Rest(j.spool, j.fileId, j.off) == Script(j.spool, j.fileId)
  {
    assert JobLogged(st.jobs, st.records, st.sent, k);
  }

  /** The state after the next slice, or the close, is sent. */
  function Continued(st: State, k: nat, j: Job): State
    requires k < |st.jobs| && JobOk(j)
  {
    Continue(Acknowledge(st, k, j.fileId), k, j)
  }

  lemma WrittenKeepsCore(st: State, k: nat)
    requires Completing(st, k) && st.jobs[k].state == Writing
    ensures var t := Continued(st, k, SliceWritten(st.jobs[k])); Core(t) && NoNewJobs(st, t)
  {
    WrittenIsOnScript(st, k);
    ContinueKeepsCore(st, k, SliceWritten(st.jobs[k]));
  }

  lemma WriteKeepsCore(st: State, k: nat, data: Bytes)
    requires Completing(st, k) && st.jobs[k].state == Writing
    ensures var t := OnPrintCompletion(st, st.jobs[k].cid, STATUS_SUCCESS, data); Core(t) && NoNewJobs(st, t)
  {
    WrittenKeepsCore(st, k);
    WriteContinues(st, k, data);
  }

  lemma CloseKeepsCore(st: State, k: nat, data: Bytes)
    requires Completing(st, k) && st.jobs[k].state == Closing
    ensures var t := OnPrintCompletion(st, st.jobs[k].cid, STATUS_SUCCESS, data); Core(t) && NoNewJobs(st, t)
  {
    var j := st.jobs[k];
    assert JobLogged(st.jobs, st.records, st.sent, k) && RecordLogged(st.records, st.sent, j.serial);
    var log := LogOf(st.sent, j.serial);
    assert log == log + [];
    CloseEnds(st, k, data);
    EndedKeepsCore(st, k, st.records[j.serial].acks + 1, Printed);
  }

  lemma PrintCompletionKeepsCore(st: State, k: nat, status: u32, data: Bytes)
    requires Completing(st, k)
    ensures var t := OnPrintCompletion(st, st.jobs[k].cid, status, data);
            Core(t) && NoNewJobs(st, t)
  {
    if status != STATUS_SUCCESS {
      FailureKeepsCore(st, k, status, data);
    } else if st.jobs[k].state == Creating {
      OpenKeepsCore(st, k, data);
    } else if st.jobs[k].state == Writing {
      WriteKeepsCore(st, k, data);
    } else {
      CloseKeepsCore(st, k, data);
    }
  }

  lemma ReleasedKeepsCore(st: State, i: nat)
    requires Core(st) && i < |st.pending| && st.pending[i].inUse && st.pending[i].owner.ForJob?
    ensures CoreExcept(st.(pending := Release(st.pending, i)), st.pending[i].owner.slot)
  {
    ReleaseKeepsCids(st.pending, i, st.issued);
    ReleaseLeavesOwnerBare(st.pending, st.jobs, i);
    ReleaseBooks(st.pending, i);
  }

  lemma ReleasedIsCompleting(st: State, i: nat)
    requires Core(st) && st.issued < U32
    requires i < |st.pending| && st.pending[i].inUse && st.pending[i].owner.ForJob?
    ensures var k := st.pending[i].owner.slot;
            && Live(st.jobs, k) && st.jobs[k].device == st.pending[i].device && st.jobs[k].cid == st.pending[i].cid
            && Completing(st.(pending := Release(st.pending, i)), k)
  {
    ReleasedKeepsCore(st, i);
    CompletionFindsOwner(st.pending, st.jobs, i);
    assert Backed(st.pending, st.jobs, i) && Owns(st.pending, st.jobs, st.pending[i].owner.slot);
    assert !Release(st.pending, i)[i].inUse;
  }

  lemma JobCompletionKeepsCore(st: State, i: nat, status: u32, data: Bytes)
    requires Core(st) && st.issued < U32
    requires i < |st.pending| && st.pending[i].inUse && st.pending[i].owner.ForJob?
    ensures Live(st.jobs, st.pending[i].owner.slot)
    ensures st.jobs[st.pending[i].owner.slot].device == st.pending[i].device
    ensures var t := OnPrintCompletion(st.(pending := Release(st.pending, i)), st.pending[i].cid, status, data);
            Core(t) && NoNewJobs(st, t)
  {
    ReleasedIsCompleting(st, i);
    PrintCompletionKeepsCore(st.(pending := Release(st.pending, i)), st.pending[i].owner.slot, status, data);
  }

  /** A drive entry on a printer: the completion is lost, the jobs are not touched. */
  lemma LostCompletionKeepsCore(st: State, i: nat, status: u32, data: Bytes)
    requires Core(st) && i < |st.pending| && st.pending[i].inUse && st.pending[i].owner.ForDrive?
    requires IsPrinter(st.devices, st.pending[i].device)
    ensures var e, st1 := st.pending[i], st.(pending := Release(st.pending, i));
            var t := OnPrintCompletion(st1.(lost := st.lost + multiset{(e.device, e.reqId)}), e.cid, status, data);
            Core(t) && NoNewJobs(st, t)
  {
    ReleaseKeepsCids(st.pending, i, st.issued);
    ReleaseLeavesOwnerBare(st.pending, st.jobs, i);
    ReleaseBooks(st.pending, i);
    CompletionFindsOwner(st.pending, st.jobs, i);
  }

  lemma AnsweredCompletionKeepsCore(st: State, i: nat, status: u32, data: Bytes)
    requires Core(st) && i < |st.pending| && st.pending[i].inUse && st.pending[i].owner.ForDrive?
    ensures var t := Answer(st.(pending := Release(st.pending, i)), ReplyFor(st.pending[i], status, data));
            Core(t) && NoNewJobs(st, t)
  {
    var e := st.pending[i];
    ReleaseKeepsCids(st.pending, i, st.issued);
    ReleaseLeavesOwnerBare(st.pending, st.jobs, i);
    ReleaseBooks(st.pending, i);
    AnsweredAppend(st.replies, ReplyFor(e, status, data));
    MoveShare(Answered(st.replies), InFlight(Release(st.pending, i)), st.lost, multiset{(e.device, e.reqId)});
  }

  lemma DriveCompletionKeepsCore(st: State, i: nat, status: u32, data: Bytes)
    requires Core(st) && i < |st.pending| && st.pending[i].inUse && st.pending[i].owner.ForDrive?
    ensures var e, st1 := st.pending[i], st.(pending := Release(st.pending, i));
            var t := if IsPrinter(st.devices, e.device)
                     then OnPrintCompletion(st1.(lost := st.lost + multiset{(e.device, e.reqId)}), e.cid, status, data)
                     else Answer(st1, ReplyFor(e, status, data));
            Core(t) && NoNewJobs(st, t)
  {
    if IsPrinter(st.devices, st.pending[i].device) {
      LostCompletionKeepsCore(st, i, status, data);
    } else {
      AnsweredCompletionKeepsCore(st, i, status, data);
    }
  }

  /** A completion keeps the invariant, except that the job it belongs to is
      reached only if its device is known as a printer. */
  lemma CompletionKeepsCore(st: State, cid: u32, status: u32, data: Bytes)
    requires Core(st) && st.issued < U32
    requires var i := FindCid(st.pending, cid);
             i < |st.pending| && st.pending[i].owner.ForJob? ==> IsPrinter(st.devices, st.pending[i].device)
    ensures Core(OnCompletion(st, cid, status, data)) && NoNewJobs(st, OnCompletion(st, cid, status, data))
  {
    var i := FindCid(st.pending, cid);
    if i < |st.pending| {
      if st.pending[i].owner.ForJob? {
        JobCompletionKeepsCore(st, i, status, data);
      } else {
        DriveCompletionKeepsCore(st, i, status, data);
      }
    }
  }

  lemma CompletionKeepsInv(st: State, cid: u32, status: u32, data: Bytes)
    requires Inv(st) && st.issued < U32
    ensures Inv(OnCompletion(st, cid, status, data))
  {
    var i := FindCid(st.pending, cid);
    if i < |st.pending| && st.pending[i].owner.ForJob? {
      JobCompletionKeepsCore(st, i, status, data);
    }
    CompletionKeepsCore(st, cid, status, data);
  }

  lemma DeviceListKeepsInv(st: State, ds: seq<Device>)
    requires Inv(st)
    ensures Inv(st.(devices := RegisterAll(st.devices, ds)))
  {
    var devices := RegisterAll(st.devices, ds);
    AnnouncedTypeNeverChanges(st.devices, ds, 0);
    forall id: u32 | IsPrinter(st.devices, id) ensures IsPrinter(devices, id) {
      AnnouncedTypeNeverChanges(st.devices, ds, id);
    }
  }

  /** The domain of the guarantees: a print job names a device announced as a printer. */
  predicate Admissible(st: State, e: Event) {
    e.Print? ==> IsPrinter(st.devices, e.device)
  }

  lemma StepKeepsInv(st: State, e: Event)
    requires Inv(st) && st.issued < U32 && Admissible(st, e)
    ensures Inv(Step(st, e))
  {
    match e
    case FromClient(pdu) =>
      if |pdu| >= 4 && Ld16(pdu, 0) == CTYP_CORE {
        if Ld16(pdu, 2) == PAKID_DEVICE_LIST {
          DeviceListKeepsInv(st, Announced(pdu[4..]));
        } else if Ld16(pdu, 2) == PAKID_IOCOMPLETION && |pdu| >= 16 {
          CompletionKeepsInv(st, Ld32(pdu, 8), Ld32(pdu, 12), pdu[16..]);
        }
      }
    case FromSession(f) => FsRequestKeepsCore(st, f);
    case Print(device, spool) => PrintJobKeepsCore(st, device, spool);
  }
}
