/**
  * Device redirection over whole runs: the guarantees in the terms of the
  * session and the client, and the exact limit of the print-job guarantee.
  */
module DeviceTheorems {
  import opened Bytes
  import opened DeviceTable
  import opened DeviceRedirection
  import opened DeviceInvariants
  import opened DeviceAccounting
  import opened DeviceRuns

  /** Every print job of the run names a device announced as a printer by then. */
  predicate AdmissibleRun(events: seq<Event>) {
    events == [] ||
    (AdmissibleRun(events[..|events| - 1]) && Admissible(Run(events[..|events| - 1]), events[|events| - 1]))
  }

  lemma {:induction false} NothingInFlight(p: seq<Pending>)
    requires forall i | 0 <= i < |p| :: !p[i].inUse
    ensures InFlight(p) == multiset{}
  {
    if p != [] {
      NothingInFlight(p[1..]);
    }
  }

  lemma IdleInv(p: seq<Pending>, jobs: seq<Job>)
    requires |p| == MAX_PENDING && forall i | 0 <= i < |p| :: !p[i].inUse
    requires |jobs| == MAX_JOBS && JobsOk(jobs) && forall k | 0 <= k < |jobs| :: jobs[k].state == Free
    ensures Inv(State([], 0, p, jobs, [], [], multiset{}, multiset{}, [], 0))
  {
    NothingInFlight(p);
  }

  lemma InitialInv()
    ensures Inv(Initial())
  {
    IdleInv(Initial().pending, Initial().jobs);
  }

  /** At most one IRP goes out, and no drive request comes in. */
  predicate Quiet(st: State, t: State) {
    st.issued <= t.issued <= st.issued + 1 && t.requests == st.requests
  }

  lemma ContinueIsQuiet(st: State, k: nat, j: Job)
    requires k < |st.jobs| && JobOk(j)
    ensures Quiet(st, Continue(st, k, j))
  {}

  lemma SuccessIsQuiet(st: State, k: nat, data: Bytes)
    requires JobsOk(st.jobs) && Live(st.jobs, k) && JobByCid(st.jobs, st.jobs[k].cid) == k
    ensures Quiet(st, OnPrintCompletion(st, st.jobs[k].cid, STATUS_SUCCESS, data))
  {
    var j := st.jobs[k];
    if j.state == Creating {
      var fileId := if |data| >= 4 then Ld32(data, 0) else j.fileId;
      ContinueIsQuiet(Acknowledge(st, k, fileId), k, j.(fileId := fileId));
    } else if j.state == Writing {
      ContinueIsQuiet(Acknowledge(st, k, j.fileId), k, j.(off := j.off + SliceLen(j.spool, j.off)));
    }
  }

  lemma PrintCompletionIsQuiet(st: State, cid: u32, status: u32, data: Bytes)
    requires JobsOk(st.jobs)
    ensures Quiet(st, OnPrintCompletion(st, cid, status, data))
  {
    var k := JobByCid(st.jobs, cid);
    if k < |st.jobs| && status == STATUS_SUCCESS {
      SuccessIsQuiet(st, k, data);
    }
  }

  lemma CompletionIsQuiet(st: State, cid: u32, status: u32, data: Bytes)
    requires JobsOk(st.jobs)
    ensures Quiet(st, OnCompletion(st, cid, status, data))
  {
    var i := FindCid(st.pending, cid);
    if i < |st.pending| {
      var e, st1 := st.pending[i], st.(pending := Release(st.pending, i));
      PrintCompletionIsQuiet(st1, cid, status, data);
      PrintCompletionIsQuiet(st1.(lost := st.lost + multiset{(e.device, e.reqId)}), cid, status, data);
    }
  }

  function AskedBy(e: Event): multiset<(u32, u32)> {
    if e.FromSession? then multiset{(e.f.device, e.f.reqId)} else multiset{}
  }

  lemma StepCounts(st: State, e: Event)
    requires JobsOk(st.jobs)
    ensures st.issued <= Step(st, e).issued <= st.issued + 1
    ensures Step(st, e).requests == st.requests + AskedBy(e)
  {
    if e.FromClient? && |e.pdu| >= 16 {
      CompletionIsQuiet(st, Ld32(e.pdu, 8), Ld32(e.pdu, 12), e.pdu[16..]);
    }
  }

  /** Fewer than 2^32 IRPs and only printers printed on: every reached state keeps the invariant. */
  lemma {:induction false} RunKeepsInv(events: seq<Event>)
    requires AdmissibleRun(events) && Run(events).issued < U32
    ensures Inv(Run(events))
  {
    if events == [] {
      InitialInv();
    } else {
      var prior, last := events[..|events| - 1], events[|events| - 1];
      StepCounts(Run(prior), last);
      RunKeepsInv(prior);
      StepKeepsInv(Run(prior), last);
    }
  }

  // ---- Ownership ---------------------------------------------------------

  /** In every interleaving the ids in flight are pairwise distinct; each live
      job owns exactly one entry, with its id and device, shared with no other
      job; and no drive request's entry carries a job's id. */
  lemma EveryJobOwnsOneEntry(events: seq<Event>)
    requires AdmissibleRun(events) && Run(events).issued < U32
    ensures var st := Run(events);
      && |st.pending| == 64 && |st.jobs| == 8 && DistinctCids(st.pending)
      && (forall k | 0 <= k < |st.jobs| && Live(st.jobs, k) ::
            && Owns(st.pending, st.jobs, k)
            && (forall i | 0 <= i < |st.pending| && st.pending[i].inUse && st.pending[i].cid == st.jobs[k].cid ::
                  i == st.jobs[k].entry)
            && (forall l | 0 <= l < |st.jobs| && Live(st.jobs, l) && l != k :: st.jobs[l].entry != st.jobs[k].entry))
      && (forall i | 0 <= i < |st.pending| && st.pending[i].inUse && st.pending[i].owner.ForDrive? ::
            JobByCid(st.jobs, st.pending[i].cid) == |st.jobs|)
  {
    RunKeepsInv(events);
    var st := Run(events);
    forall i | 0 <= i < |st.pending| && st.pending[i].inUse && st.pending[i].owner.ForDrive?
      ensures JobByCid(st.jobs, st.pending[i].cid) == |st.jobs|
    {
      CompletionFindsOwner(st.pending, st.jobs, i);
    }
    forall k, l | 0 <= k < |st.jobs| && Live(st.jobs, k) && 0 <= l < |st.jobs| && Live(st.jobs, l) && l != k
      ensures Owns(st.pending, st.jobs, k) && st.jobs[l].entry != st.jobs[k].entry
    {
      assert Owns(st.pending, st.jobs, k) && Owns(st.pending, st.jobs, l);
    }
  }

  /** The device test decides: when a job's IRP completes, ownership survives
      exactly if the job's device is known as a printer at that moment. */
  lemma OwnershipSurvivesIffPrinter(st: State, i: nat, status: u32, data: Bytes)
    requires Core(st) && st.issued < U32
    requires i < |st.pending| && st.pending[i].inUse && st.pending[i].owner.ForJob?
    ensures var t := OnCompletion(st, st.pending[i].cid, status, data);
            Owned(t.pending, t.jobs) <==> IsPrinter(st.devices, st.pending[i].device)
  {
    var e := st.pending[i];
    assert FindCid(st.pending, e.cid) == i;
    JobCompletionKeepsCore(st, i, status, data);
    if IsPrinter(st.devices, e.device) {
      CompletionKeepsCore(st, e.cid, status, data);
    } else {
      var t := OnCompletion(st, e.cid, status, data);
      assert t.pending == Release(st.pending, i) && t.jobs == st.jobs;
      assert Backed(st.pending, st.jobs, i);
      assert !Owns(t.pending, t.jobs, e.owner.slot);
    }
  }

  /** A job sent to a device nobody announced: its completion goes to the session
      and the job waits forever on an entry no longer in use. */
  lemma JobOnUnknownDeviceIsStranded(device: u32, spool: Bytes)
    requires |spool| <= MAX_SPOOL
    ensures var t := Run([Print(device, spool), FromClient(CompletionPdu(0, 0, 0, []))]);
            Live(t.jobs, 0) && t.jobs[0].state == Creating && forall i | 0 <= i < |t.pending| :: !t.pending[i].inUse
  {
    var job, done := Print(device, spool), FromClient(CompletionPdu(0, 0, 0, []));
    assert [job, done][..1] == [job] && [job][..0] == [];
    var st1 := OnPrintJob(Initial(), device, spool);
    assert Run([job]) == st1;
    FirstJobSent(device, spool);
    CompletionStep(st1, 0, 0, 0, []);
    assert Run([job, done]) == OnCompletion(st1, 0, 0, []);
  }

  lemma FirstJobSent(device: u32, spool: Bytes)
    requires |spool| <= MAX_SPOOL
    ensures var st := OnPrintJob(Initial(), device, spool);
            && st.devices == [] && Live(st.jobs, 0) && st.jobs[0].state == Creating
            && |st.pending| > 0 && st.pending[0].inUse && FindCid(st.pending, 0) == 0
            && forall i | 0 < i < |st.pending| :: !st.pending[i].inUse
  {
    var st0 := Initial();
    assert FirstFree(st0.pending) == 0 && FirstFreeJob(st0.jobs) == 0;
    var st := OnPrintJob(st0, device, spool);
    assert st.pending[0].inUse && st.pending[0].cid == 0;
  }

  /** An I/O completion as section 2.2.1.5 of MS-RDPEFS lays it out. */
  function CompletionPdu(device: u32, cid: u32, status: u32, data: Bytes): Bytes {
    Le16(0x4472) + Le16(0x4943) + Le32(device) + Le32(cid) + Le32(status) + data
  }

  lemma CompletionPduFields(device: u32, cid: u32, status: u32, data: Bytes)
    ensures var p := CompletionPdu(device, cid, status, data);
            && |p| >= 16 && Ld16(p, 0) == CTYP_CORE && Ld16(p, 2) == PAKID_IOCOMPLETION
            && Ld32(p, 8) == cid && Ld32(p, 12) == status && p[16..] == data
  {
    var p := CompletionPdu(device, cid, status, data);
    var h := Le16(0x4472) + Le16(0x4943) + Le32(device);
    assert p[0] == 0x72 && p[1] == 0x44 && p[2] == 0x43 && p[3] == 0x49;
    assert p == h + Le32(cid) + (Le32(status) + data);
    Ld32OfLe32(h, cid, Le32(status) + data);
    Ld32OfLe32(h + Le32(cid), status, data);
  }

  /** A completion message is the completion of the id, status and data it carries. */
  lemma CompletionStep(st: State, device: u32, cid: u32, status: u32, data: Bytes)
    requires JobsOk(st.jobs)
    ensures Step(st, FromClient(CompletionPdu(device, cid, status, data))) == OnCompletion(st, cid, status, data)
  {
    CompletionPduFields(device, cid, status, data);
  }

  // ---- The counter wraps ---------------------------------------------------

  /** The first request's IRP is still in flight, under id 0 in entry 0; nothing else is,
      and `n` IRPs were issued. */
  predicate FirstStillWaits(st: State, n: nat) {
    && st.devices == [] && st.jobs == Initial().jobs && st.issued == n && st.nextCid == n % U32
    && |st.pending| == MAX_PENDING && st.pending[0].inUse && st.pending[0].cid == 0
    && forall i | 0 < i < |st.pending| :: !st.pending[i].inUse
  }

  /** A drive request the daemon relays. */
  predicate Relayed(f: FsRequest) {
    1 <= f.op <= 7 && |f.payload| <= FS_MAX_PAYLOAD
  }

  lemma RelayedIsAccepted(st: State, f: FsRequest, i: nat)
    requires Relayed(f) && i < |st.pending| && !st.pending[i].inUse
    ensures FsAccepted(st, f)
  {
    RefusedOnlyWhenFull(st, f);
  }

  lemma FirstRequestWaits(f: FsRequest)
    requires Relayed(f)
    ensures FirstStillWaits(OnFsRequest(Initial(), f), 1)
  {
    var st := Initial();
    RelayedIsAccepted(st, f, 0);
    assert FirstFree(st.pending) == 0;
    var e := Pending(true, 0, f.device, Major(AsRequest(f).value), 0, ForDrive);
    StampIsOwn(st.pending, e, f.reqId);
  }

  /** The state after one more request: its IRP is in entry 1. */
  function SecondSent(st: State, f: FsRequest): State
    requires |st.pending| == MAX_PENDING && AsRequest(f).Some?
  {
    var r := AsRequest(f).value;
    st.(requests := st.requests + multiset{(f.device, f.reqId)},
        pending := Stamped(st.pending[1 := Pending(true, st.nextCid, f.device, Major(r), 0, ForDrive)], st.nextCid, f.reqId),
        nextCid := (st.nextCid + 1) % U32,
        sent := st.sent + [Irp(ForDrive, f.device, st.nextCid, r)],
        issued := st.issued + 1)
  }

  lemma AnotherRequest(st: State, n: nat, f: FsRequest)
    requires FirstStillWaits(st, n) && Relayed(f)
    ensures OnFsRequest(st, f) == SecondSent(st, f)
  {
    RelayedIsAccepted(st, f, 1);
    assert FirstFree(st.pending) == 1;
  }

  lemma SecondIsStamped(p: seq<Pending>, e: Pending, reqId: u32)
    requires |p| == MAX_PENDING && p[0].inUse && p[0].cid == 0 && e.inUse && e.cid != 0
    ensures Stamped(p[1 := e], e.cid, reqId) == p[1 := e.(reqId := reqId)]
    ensures FindCid(p[1 := e.(reqId := reqId)], e.cid) == 1
  {
    var q, q' := p[1 := e], p[1 := e.(reqId := reqId)];
    assert q[1] == e && q[0] == p[0] && q'[1].cid == e.cid && q'[0] == p[0];
    assert FindCid(q, e.cid) == 1;
    assert q[1 := e.(reqId := reqId)] == q';
  }

  lemma SecondIsCompleted(st: State, n: u32)
    requires JobsOk(st.jobs) && st.devices == [] && FindCid(st.pending, n) == 1 < |st.pending|
    ensures var t := OnCompletion(st, n, 0, []);
            && t.devices == [] && t.jobs == st.jobs && t.issued == st.issued && t.nextCid == st.nextCid
            && t.pending == st.pending[1 := st.pending[1].(inUse := false)]
  {}

  lemma SecondIsSent(st: State, n: nat, f: FsRequest)
    requires 1 <= n < U32 && FirstStillWaits(st, n) && Relayed(f)
    ensures var t := OnFsRequest(st, f);
            && t.devices == [] && t.jobs == st.jobs && t.issued == n + 1 && t.nextCid == (n + 1) % U32
            && |t.pending| == |st.pending| && t.pending == st.pending[1 := t.pending[1]] && FindCid(t.pending, n) == 1
  {
    AnotherRequest(st, n, f);
    SecondIsStamped(st.pending, Pending(true, st.nextCid, f.device, Major(AsRequest(f).value), 0, ForDrive), f.reqId);
  }

  lemma AnotherRound(st: State, n: nat, f: FsRequest)
    requires 1 <= n < U32 && FirstStillWaits(st, n) && Relayed(f)
    ensures FirstStillWaits(OnCompletion(OnFsRequest(st, f), n, 0, []), n + 1)
  {
    SecondIsSent(st, n, f);
    SecondIsCompleted(OnFsRequest(st, f), n);
  }

  lemma RunAppend(events: seq<Event>, e: Event)
    ensures Run(events + [e]) == Step(Run(events), e)
    ensures AdmissibleRun(events) && !e.Print? ==> AdmissibleRun(events + [e])
  {
    assert (events + [e])[..|events|] == events;
  }

  /** Up to 2^32, any number of requests can be relayed and completed while the first waits. */
  lemma {:induction false} RunWhileFirstWaits(n: nat, f: FsRequest) returns (events: seq<Event>)
    requires 1 <= n <= U32 && Relayed(f)
    ensures AdmissibleRun(events) && FirstStillWaits(Run(events), n)
    decreases n
  {
    if n == 1 {
      RunAppend([], FromSession(f));
      events := [] + [FromSession(f)];
      FirstRequestWaits(f);
    } else {
      var prior := RunWhileFirstWaits(n - 1, f);
      var asked, done := FromSession(f), FromClient(CompletionPdu(0, n - 1, 0, []));
      RunAppend(prior, asked);
      RunAppend(prior + [asked], done);
      CompletionStep(Run(prior + [asked]), 0, n - 1, 0, []);
      AnotherRound(Run(prior), n - 1, f);
      events := prior + [asked] + [done];
    }
  }

  lemma WrappedRequestCollides(st: State, f: FsRequest)
    requires FirstStillWaits(st, U32) && Relayed(f)
    ensures var p := OnFsRequest(st, f).pending;
            && !DistinctCids(p) && |p| == MAX_PENDING
            && p[0].inUse && p[1].inUse && p[0].cid == p[1].cid == 0 && p[0].reqId == f.reqId && p[1].reqId == 0
  {
    AnotherRequest(st, U32, f);
    var e := Pending(true, 0, f.device, Major(AsRequest(f).value), 0, ForDrive);
    var q := st.pending[1 := e];
    assert q[0] == st.pending[0] && q[1] == e;
    assert FindCid(q, 0) == 0;
    var p := OnFsRequest(st, f).pending;
    assert p == q[0 := q[0].(reqId := f.reqId)];
    assert p[0].cid == p[1].cid;
  }

  /** The 32-bit counter wraps: some run of 2^32 + 1 relayed requests has two in flight
      under id 0, and the later one's request id overwrites the earlier one's. */
  lemma WrappedCounterCollides(f: FsRequest) returns (events: seq<Event>)
    requires Relayed(f)
    ensures AdmissibleRun(events) && Run(events).issued == U32 + 1
    ensures var p := Run(events).pending;
            && !DistinctCids(p) && |p| == MAX_PENDING
            && p[0].inUse && p[1].inUse && p[0].cid == p[1].cid == 0 && p[0].reqId == f.reqId && p[1].reqId == 0
  {
    var prior := RunWhileFirstWaits(U32, f);
    events := prior + [FromSession(f)];
    RunAppend(prior, FromSession(f));
    AnotherRequest(Run(prior), U32, f);
    WrappedRequestCollides(Run(prior), f);
  }

  // ---- Print jobs --------------------------------------------------------

  function Slices(n: nat): nat {
    (n + 7999) / 8000
  }

  /** For every print job of every run: what it has put on the wire is a prefix
      of its script, so its WRITEs spell a prefix of the spool; a CLOSE is out
      only once the whole spool is written and acknowledged; every IRP but one in
      flight or failed was acknowledged, so the job has printed after exactly
      2 + ceil(n / 8000) successes, and only an error status ends it before. */
  lemma EveryPrintJobKeepsItsPromise(events: seq<Event>, s: nat)
    requires AdmissibleRun(events) && Run(events).issued < U32 && s < |Run(events).records|
    ensures var r, log := Run(events).records[s], LogOf(Run(events).sent, s);
      && |r.spool| <= MAX_SPOOL
      && log <= Script(r.spool, r.fileId)
      && Written(log) <= r.spool
      && (Close(r.fileId) in log ==> Written(log) == r.spool && r.acks >= 1 + Slices(|r.spool|))
      && (forall i | 0 <= i < |log| && log[i].Write? ::
            && 0 < i && 8000 * (i - 1) <= |r.spool| && log[i].file == r.fileId && log[i].offset == 8000 * (i - 1)
            && log[i].data == r.spool[8000 * (i - 1)..Min(8000 * i, |r.spool|)])
      && (if r.end == Printed then r.acks == 2 + Slices(|r.spool|) else r.acks < 2 + Slices(|r.spool|))
      && (if r.end == Printed then r.acks == |log| else r.acks + 1 == |log|)
      && !r.end.Unbuilt? && (r.end.Failed? ==> r.end.status != STATUS_SUCCESS)
  {
    RunKeepsInv(events);
    var st := Run(events);
    assert RecordLogged(st.records, st.sent, s);
    var r, log := st.records[s], LogOf(st.sent, s);
    var script := Script(r.spool, r.fileId);
    ScriptShape(r.spool, r.fileId);
    ScriptPrefixWritesSpoolPrefix(r.spool, r.fileId, |log|);
    assert log == script[..|log|];
    forall i | 0 <= i < |log| && log[i].Write?
      ensures 0 < i && 8000 * (i - 1) <= |r.spool| && log[i].file == r.fileId && log[i].offset == 8000 * (i - 1)
      ensures log[i].data == r.spool[8000 * (i - 1)..Min(8000 * i, |r.spool|)]
    {
      assert log[i] == script[i];
      WriteInScript(r.spool, r.fileId, i);
    }
    if Close(r.fileId) in log {
      var i :| 0 <= i < |log| && log[i] == Close(r.fileId);
      assert log[i] == script[i];
      CloseIsLast(r.spool, r.fileId, i);
    }
  }

  /** The requests between the open and the close write the spool in slices of 8000. */
  lemma WriteInScript(spool: Bytes, fileId: u32, i: nat)
    requires |spool| <= MAX_SPOOL && i < |Script(spool, fileId)| && Script(spool, fileId)[i].Write?
    ensures 0 < i && 8000 * (i - 1) <= |spool|
    ensures Script(spool, fileId)[i] == Write(fileId, 8000 * (i - 1), spool[8000 * (i - 1)..Min(8000 * i, |spool|)])
  {
    ScriptShape(spool, fileId);
    if 0 < i < |Script(spool, fileId)| - 1 {
      assert Script(spool, fileId)[1 + (i - 1)] == WriteAt(spool, fileId, (i - 1) * PRINT_CHUNK);
    }
  }

  lemma CloseIsLast(spool: Bytes, fileId: u32, i: nat)
    requires |spool| <= MAX_SPOOL && i < |Script(spool, fileId)| && Script(spool, fileId)[i] == Close(fileId)
    ensures i + 1 == |Script(spool, fileId)|
  {
    ScriptShape(spool, fileId);
    if 0 < i < |Script(spool, fileId)| - 1 {
      MiddleIsWrite(spool, fileId, i);
    }
  }

  lemma MiddleIsWrite(spool: Bytes, fileId: u32, i: nat)
    requires |spool| <= MAX_SPOOL && 0 < i < |Script(spool, fileId)| - 1
    ensures Script(spool, fileId)[i].Write?
  {
    ScriptShape(spool, fileId);
    assert Script(spool, fileId)[1 + (i - 1)] == WriteAt(spool, fileId, (i - 1) * PRINT_CHUNK);
  }

  // ---- Drive requests ----------------------------------------------------

  /** The drive requests the session made, as (device, request id) pairs. */
  function Made(events: seq<Event>): multiset<(u32, u32)> {
    if events == [] then multiset{} else Made(events[..|events| - 1]) + AskedBy(events[|events| - 1])
  }

  lemma {:induction false} RunCountsRequests(events: seq<Event>)
    ensures Run(events).requests == Made(events)
  {
    if events != [] {
      RunCountsRequests(events[..|events| - 1]);
      StepCounts(Run(events[..|events| - 1]), events[|events| - 1]);
    }
  }

  /** Conservation: what the session asked is what it was answered, plus what is
      in flight, plus what a completion on a printer swallowed; so on a device
      that is not a printer every request is answered at most once, with its own id. */
  lemma DriveRequestsAreConserved(events: seq<Event>, device: u32, reqId: u32)
    requires AdmissibleRun(events) && Run(events).issued < U32
    ensures var st, x := Run(events), (device, reqId);
      && Made(events)[x] == Answered(st.replies)[x] + InFlight(st.pending)[x] + st.lost[x]
      && (!IsPrinter(st.devices, device) ==> st.lost[x] == 0)
  {
    RunKeepsInv(events);
    RunCountsRequests(events);
  }

  // ---- Builds ------------------------------------------------------------

  /** The relay's buffer always holds the IRP, so a drive request is refused
      exactly for an unknown operation, an oversized payload or a full table;
      a refusal leaves the table and the id counter as they were. */
  lemma RefusedOnlyWhenFull(st: State, f: FsRequest)
    ensures FsAccepted(st, f) <==>
              && |f.payload| <= FS_MAX_PAYLOAD
              && 1 <= f.op <= 7
              && exists i :: 0 <= i < |st.pending| && !st.pending[i].inUse
    ensures !FsAccepted(st, f) ==>
              && OnFsRequest(st, f).pending == st.pending
              && OnFsRequest(st, f).nextCid == st.nextCid
              && OnFsRequest(st, f).sent == st.sent
              && |OnFsRequest(st, f).replies| == |st.replies| + 1
  {
    assert FirstFree(st.pending) < |st.pending| <==> exists i :: 0 <= i < |st.pending| && !st.pending[i].inUse by {
      if FirstFree(st.pending) < |st.pending| {
        assert !st.pending[FirstFree(st.pending)].inUse;
      }
    }
    assert AsRequest(f).Some? <==> 1 <= f.op <= 7;
    if AsRequest(f).Some? {
      assert WireSize(AsRequest(f).value) <= FsCap(f);
    }
    var st1 := st.(requests := st.requests + multiset{(f.device, f.reqId)});
    assert FsAccepted(st1, f) == FsAccepted(st, f);
  }

  /** A refused request is answered at once, with the status for an oversized payload or
      the one for everything else. */
  lemma RefusalIsAnswered(st: State, f: FsRequest)
    requires !FsAccepted(st, f)
    ensures OnFsRequest(st, f).replies
         == st.replies
            + [Reply(f.device, f.reqId, if |f.payload| > 4194304 then 0xC000_0001 else 0xC000_0002, 0, 0, [])]
  {
    RefusedOnlyWhenFull(st, f);
    var st1 := st.(requests := st.requests + multiset{(f.device, f.reqId)});
    assert FsAccepted(st1, f) == FsAccepted(st, f);
  }

  /** A print job is taken exactly up to 4 MiB and while a job slot and an entry are free;
      it then opens its device, and its record is of that device and spool. */
  lemma PrintJobIsTakenIff(st: State, device: u32, spool: Bytes)
    ensures var t := OnPrintJob(st, device, spool);
            if && |spool| <= 4194304
               && (exists k | 0 <= k < |st.jobs| :: st.jobs[k].state == Free)
               && (exists i | 0 <= i < |st.pending| :: !st.pending[i].inUse)
            then && t.records == st.records + [Record(device, spool, 0, 0, Running)]
                 && |t.sent| == |st.sent| + 1 && t.sent[..|st.sent|] == st.sent
                 && t.sent[|st.sent|].device == device && t.sent[|st.sent|].cid == st.nextCid
                 && t.sent[|st.sent|].request == Create(0x4000_0000, 0, 0, [])
            else t == st
  {
    var f, k := FirstFree(st.pending), FirstFreeJob(st.jobs);
    if f < |st.pending| {
      assert !st.pending[f].inUse;
    }
    if k < |st.jobs| {
      assert st.jobs[k].state == Free;
    }
  }

  /** The consumer of a completion does not depend on the device id the client echoes
      (octets 4 to 7). */
  lemma EchoedDeviceIdIsIgnored(st: State, pdu: Bytes, other: Bytes)
    requires JobsOk(st.jobs) && |pdu| == |other| >= 16
    requires pdu[..4] == other[..4] && pdu[8..] == other[8..] && Ld16(pdu, 2) == PAKID_IOCOMPLETION
    ensures OnClientPdu(st, pdu) == OnClientPdu(st, other)
  {
    SameHeader(pdu, other);
    SameTail(pdu, other, 0);
    SameTail(pdu, other, 4);
    assert pdu[16..] == pdu[8..][8..] && other[16..] == other[8..][8..];
  }

  lemma SameHeader(a: Bytes, b: Bytes)
    requires |a| >= 4 && |b| >= 4 && a[..4] == b[..4]
    ensures Ld16(a, 0) == Ld16(b, 0) && Ld16(a, 2) == Ld16(b, 2)
  {
    assert forall i | 0 <= i < 4 :: a[i] == a[..4][i] && b[i] == b[..4][i];
  }

  lemma SameTail(a: Bytes, b: Bytes, at: nat)
    requires |a| == |b| && 8 + at + 4 <= |a| && a[8..] == b[8..]
    ensures Ld32(a, 8 + at) == Ld32(b, 8 + at)
  {
    assert a == a[..8] + a[8..] && b == b[..8] + b[8..];
    LdToSkips(a[..8], a[8..], at, at + 4);
    LdToSkips(b[..8], b[8..], at, at + 4);
  }
}
