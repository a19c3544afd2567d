/**
  * Device redirection (MS-RDPEFS, MS-RDPEPC): the table of I/O requests in
  * flight, shared by the session's drive requests and by the print jobs, and
  * the routing of the client's completions, as functions of the state.
  *
  * `Owner`, `Job.serial`, `Job.entry`, `Irp.owner`, `Reply.device` and the
  * `requests`, `lost`, `records` and `issued` fields are history: no decision
  * of the daemon depends on them.
  */
module DeviceRedirection {
  import opened Bytes
  import opened DeviceTable

  const MAX_PENDING: nat := 64
  const MAX_JOBS: nat := 8
  const PRINT_CHUNK: nat := 8000
  const IRP_HDR: nat := 24
  const FS_MAX_PAYLOAD: nat := 4 * 1024 * 1024
  const MAX_SPOOL: nat := 4 * 1024 * 1024

  const PAKID_IOCOMPLETION: u16 := 0x4943

  const STATUS_SUCCESS: u32 := 0
  const STATUS_UNSUCCESSFUL: u32 := 0xC000_0001
  const STATUS_NOT_IMPLEMENTED: u32 := 0xC000_0002
  const GENERIC_WRITE: u32 := 0x4000_0000
  const MJ_CREATE: u32 := 0

  // ---- Requests on the wire ----------------------------------------------

  datatype Request =
    | Create(access: u32, disposition: u32, options: u32, path: Bytes)
    | Read(file: u32, length: u32, offset: u64)
    | Write(file: u32, offset: u64, data: Bytes)
    | Close(file: u32)
    | QueryDir(file: u32, pattern: Bytes, initial: bool)
    | QueryInfo(file: u32, infoClass: u32)
    | SetInfo(file: u32, infoClass: u32, data: Bytes)

  function Major(r: Request): u32 {
    match r
    case Create(_, _, _, _) => MJ_CREATE
    case Close(_) => 2
    case Read(_, _, _) => 3
    case Write(_, _, _) => 4
    case QueryInfo(_, _) => 5
    case SetInfo(_, _, _) => 6
    case QueryDir(_, _, _) => 12
  }

  /** The length of the built IRP: its header, a 32-octet body and the variable part. */
  function WireSize(r: Request): nat {
    IRP_HDR + 32 +
    match r
    case Create(_, _, _, path) => (|path| + 1) * 2
    case QueryDir(_, pattern, _) => (|pattern| + 1) * 2
    case Write(_, _, data) => |data|
    case SetInfo(_, _, data) => |data|
    case _ => 0
  }

  datatype Owner = ForDrive | ForJob(slot: nat, serial: nat)

  datatype Irp = Irp(owner: Owner, device: u32, cid: u32, request: Request)

  // ---- State -------------------------------------------------------------

  datatype Pending = Pending(inUse: bool, cid: u32, device: u32, major: u32, reqId: u32, owner: Owner)

  datatype JobState = Free | Creating | Writing | Closing

  datatype Job = Job(state: JobState, device: u32, fileId: u32, cid: u32, spool: Bytes, off: nat,
                     serial: nat, entry: nat)

  const FREE_JOB: Job := Job(Free, 0, 0, 0, [], 0, 0, 0)
  const FREE_ENTRY: Pending := Pending(false, 0, 0, 0, 0, ForDrive)

  datatype Reply = Reply(device: u32, reqId: u32, status: u32, fileId: u32, length: u32, body: Bytes)

  /** `Unbuilt` is a job freed because its next IRP could not be built. */
  datatype JobEnd = Running | Printed | Failed(status: u32) | Unbuilt

  /** A print job's history: `acks` counts the successful completions delivered to it. */
  datatype Record = Record(device: u32, spool: Bytes, fileId: u32, acks: nat, end: JobEnd)

  datatype State = State(
    devices: seq<Device>,
    nextCid: u32,
    pending: seq<Pending>,
    jobs: seq<Job>,
    sent: seq<Irp>,
    replies: seq<Reply>,
    requests: multiset<(u32, u32)>,
    lost: multiset<(u32, u32)>,
    records: seq<Record>,
    issued: nat)

  function Initial(): State {
    State([], 0, seq(MAX_PENDING, _ => FREE_ENTRY), seq(MAX_JOBS, _ => FREE_JOB), [], [],
          multiset{}, multiset{}, [], 0)
  }

  // ---- Table lookups -----------------------------------------------------

  /** The first entry not in use, or the length of the table. */
  function FirstFree(p: seq<Pending>): (i: nat)
    ensures i <= |p|
    ensures i < |p| ==> !p[i].inUse
    ensures forall j | 0 <= j < i :: p[j].inUse
  {
    if p == [] || !p[0].inUse then 0 else 1 + FirstFree(p[1..])
  }

  /** The first entry in use with this completion id, or the length of the table. */
  function FindCid(p: seq<Pending>, cid: u32): (i: nat)
    ensures i <= |p|
    ensures i < |p| ==> p[i].inUse && p[i].cid == cid
    ensures forall j | 0 <= j < i :: !(p[j].inUse && p[j].cid == cid)
  {
    if p == [] || (p[0].inUse && p[0].cid == cid) then 0 else 1 + FindCid(p[1..], cid)
  }

  function FirstFreeJob(jobs: seq<Job>): (i: nat)
    ensures i <= |jobs|
    ensures i < |jobs| ==> jobs[i].state == Free
    ensures forall j | 0 <= j < i :: jobs[j].state != Free
  {
    if jobs == [] || jobs[0].state == Free then 0 else 1 + FirstFreeJob(jobs[1..])
  }

  function JobByCid(jobs: seq<Job>, cid: u32): (i: nat)
    ensures i <= |jobs|
    ensures i < |jobs| ==> jobs[i].state != Free && jobs[i].cid == cid
    ensures forall j | 0 <= j < i :: !(jobs[j].state != Free && jobs[j].cid == cid)
  {
    if jobs == [] || (jobs[0].state != Free && jobs[0].cid == cid) then 0 else 1 + JobByCid(jobs[1..], cid)
  }

  // ---- Building and sending one IRP --------------------------------------

  /** Whether a build into `cap` octets can succeed: the IRP fits and an entry is free. */
  predicate CanBuild(st: State, r: Request, cap: nat) {
    WireSize(r) <= cap && WireSize(r) < U32 && FirstFree(st.pending) < |st.pending|
  }

  /** Reserve an entry under the next completion id and send the IRP. */
  function Issue(st: State, owner: Owner, device: u32, r: Request, reqId: u32): State
    requires FirstFree(st.pending) < |st.pending|
  {
    st.(pending := st.pending[FirstFree(st.pending) := Pending(true, st.nextCid, device, Major(r), reqId, owner)],
        nextCid := (st.nextCid + 1) % U32,
        sent := st.sent + [Irp(owner, device, st.nextCid, r)],
        issued := st.issued + 1)
  }

  // ---- Drive requests from the session -----------------------------------

  datatype FsRequest = FsRequest(reqId: u32, op: u32, device: u32, fileId: u32, access: u32, disposition: u32,
                                 options: u32, length: u32, offset: u64, infoClass: u32, payload: Bytes)

  const STAR: byte := 0x2A

  function AsRequest(f: FsRequest): Option<Request> {
    match f.op
    case 1 => Some(Create(if f.access != 0 then f.access else 1,
                          if f.disposition != 0 then f.disposition else 1,
                          f.options, CString(f.payload)))
    case 2 => Some(Read(f.fileId, f.length, f.offset))
    case 3 => Some(Write(f.fileId, f.offset, f.payload))
    case 4 => Some(Close(f.fileId))
    case 5 => Some(QueryDir(f.fileId, if |f.payload| > 0 then CString(f.payload) else [STAR],
                            f.options % 2 == 0))
    case 6 => Some(QueryInfo(f.fileId, f.infoClass))
    case 7 => Some(SetInfo(f.fileId, f.infoClass, f.payload))
    case _ => None
  }

  function FsCap(f: FsRequest): nat {
    IRP_HDR + 32 + (|f.payload| + 2) * 2
  }

  predicate FsAccepted(st: State, f: FsRequest) {
    && |f.payload| <= FS_MAX_PAYLOAD
    && AsRequest(f).Some?
    && CanBuild(st, AsRequest(f).value, FsCap(f))
  }

  function Answer(st: State, r: Reply): State {
    st.(replies := st.replies + [r])
  }

  /** The session's request id is noted in the first entry in use with the completion id. */
  function Stamped(p: seq<Pending>, cid: u32, reqId: u32): seq<Pending> {
    var i := FindCid(p, cid);
    if i < |p| then p[i := p[i].(reqId := reqId)] else p
  }

  function OnFsRequest(st0: State, f: FsRequest): State {
    var st := st0.(requests := st0.requests + multiset{(f.device, f.reqId)});
    if FsAccepted(st, f) then
      var t := Issue(st, ForDrive, f.device, AsRequest(f).value, 0);
      t.(pending := Stamped(t.pending, st.nextCid, f.reqId))
    else
      var status := if |f.payload| > FS_MAX_PAYLOAD then STATUS_UNSUCCESSFUL else STATUS_NOT_IMPLEMENTED;
      Answer(st, Reply(f.device, f.reqId, status, 0, 0, []))
  }

  // ---- Print jobs --------------------------------------------------------

  const OPEN_PRINTER: Request := Create(GENERIC_WRITE, 0, 0, [])

  function SliceLen(spool: Bytes, off: nat): nat
    requires off <= |spool|
  {
    Min(|spool| - off, PRINT_CHUNK)
  }

  function WriteAt(spool: Bytes, fileId: u32, off: nat): Request
    requires off <= |spool| < U64
  {
    Write(fileId, off, spool[off..off + SliceLen(spool, off)])
  }

  /** The state of a job as the code keeps it. */
  predicate JobOk(j: Job) {
    j.off <= |j.spool| <= MAX_SPOOL
  }

  predicate JobsOk(jobs: seq<Job>) {
    forall i | 0 <= i < |jobs| :: JobOk(jobs[i])
  }

  predicate JobAccepted(st: State, spool: Bytes) {
    && |spool| <= MAX_SPOOL
    && FirstFreeJob(st.jobs) < |st.jobs|
    && CanBuild(st, OPEN_PRINTER, IRP_HDR + 64 + 2)
  }

  function OnPrintJob(st: State, device: u32, spool: Bytes): State {
    if !JobAccepted(st, spool) then st
    else
      var k, serial, entry := FirstFreeJob(st.jobs), |st.records|, FirstFree(st.pending);
      var st' := Issue(st, ForJob(k, serial), device, OPEN_PRINTER, 0);
      st'.(jobs := st.jobs[k := Job(Creating, device, 0, st.nextCid, spool, 0, serial, entry)],
           records := st.records + [Record(device, spool, 0, 0, Running)])
  }

  /** The next IRP of job `k`, with the job moved to `j` and its completion id recorded. */
  function NextIrp(st: State, k: nat, j: Job, r: Request): State
    requires k < |st.jobs| && FirstFree(st.pending) < |st.pending|
  {
    var st' := Issue(st, ForJob(k, j.serial), j.device, r, 0);
    st'.(jobs := st.jobs[k := j.(cid := st.nextCid, entry := FirstFree(st.pending))])
  }

  function EndJob(st: State, k: nat, end: JobEnd): (r: State)
    requires k < |st.jobs|
    ensures JobsOk(st.jobs) ==> JobsOk(r.jobs)
  {
    var s := st.jobs[k].serial;
    st.(jobs := st.jobs[k := FREE_JOB],
        records := if s < |st.records| then st.records[s := st.records[s].(end := end)] else st.records)
  }

  function Acknowledge(st: State, k: nat, fileId: u32): (r: State)
    requires k < |st.jobs|
    ensures r.jobs == st.jobs
  {
    var s := st.jobs[k].serial;
    if s < |st.records|
    then st.(records := st.records[s := st.records[s].(acks := st.records[s].acks + 1, fileId := fileId)])
    else st
  }

  /** Send the close once the spool is exhausted, else the slice at `j.off`; a
      job whose IRP cannot be built is freed. */
  function Continue(st: State, k: nat, j: Job): (r: State)
    requires k < |st.jobs| && JobOk(j)
    ensures JobsOk(st.jobs) ==> JobsOk(r.jobs)
  {
    var closing := j.off == |j.spool|;
    var r := if closing then Close(j.fileId) else WriteAt(j.spool, j.fileId, j.off);
    var cap := IRP_HDR + 32 + if closing then 0 else PRINT_CHUNK;
    if CanBuild(st, r, cap) then NextIrp(st, k, j.(state := if closing then Closing else Writing), r)
    else EndJob(st, k, Unbuilt)
  }

  function OnPrintCompletion(st: State, cid: u32, status: u32, data: Bytes): (r: State)
    requires JobsOk(st.jobs)
    ensures JobsOk(r.jobs)
  {
    var k := JobByCid(st.jobs, cid);
    if k == |st.jobs| then st
    else if status != STATUS_SUCCESS then EndJob(st, k, Failed(status))
    else
      var j := st.jobs[k];
      if j.state == Creating then
        var fileId := if |data| >= 4 then Ld32(data, 0) else j.fileId;
        Continue(Acknowledge(st, k, fileId), k, j.(fileId := fileId))
      else if j.state == Writing then
        Continue(Acknowledge(st, k, j.fileId), k, j.(off := j.off + SliceLen(j.spool, j.off)))
      else
        EndJob(Acknowledge(st, k, j.fileId), k, Printed)
  }

  // ---- Completions from the client ---------------------------------------

  function ReplyFor(e: Pending, status: u32, data: Bytes): Reply {
    if e.major == MJ_CREATE
    then Reply(e.device, e.reqId, status, if |data| >= 4 then Ld32(data, 0) else 0, |data| % U32, [])
    else Reply(e.device, e.reqId, status, 0, |data| % U32, data)
  }

  /** Release the entry and hand the completion to the consumer its recorded device names. */
  function OnCompletion(st0: State, cid: u32, status: u32, data: Bytes): (r: State)
    requires JobsOk(st0.jobs)
    ensures JobsOk(r.jobs)
  {
    var i := FindCid(st0.pending, cid);
    if i == |st0.pending| then st0
    else
      var e := st0.pending[i];
      var st := st0.(pending := st0.pending[i := e.(inUse := false)]);
      if IsPrinter(st.devices, e.device) then
        var st' := if e.owner.ForDrive? then st.(lost := st.lost + multiset{(e.device, e.reqId)}) else st;
        OnPrintCompletion(st', cid, status, data)
      else
        Answer(st, ReplyFor(e, status, data))
  }

  function OnClientPdu(st: State, pdu: Bytes): (r: State)
    requires JobsOk(st.jobs)
    ensures JobsOk(r.jobs)
  {
    if |pdu| < 4 || Ld16(pdu, 0) != CTYP_CORE then st
    else if Ld16(pdu, 2) == PAKID_DEVICE_LIST then
      st.(devices := RegisterAll(st.devices, Announced(pdu[4..])))
    else if Ld16(pdu, 2) == PAKID_IOCOMPLETION && |pdu| >= 16 then
      OnCompletion(st, Ld32(pdu, 8), Ld32(pdu, 12), pdu[16..])
    else st
  }

  // ---- Runs --------------------------------------------------------------

  datatype Event =
    | FromClient(pdu: Bytes)
    | FromSession(f: FsRequest)
    | Print(device: u32, spool: Bytes)

  function Step(st: State, e: Event): (r: State)
    requires JobsOk(st.jobs)
    ensures JobsOk(r.jobs)
  {
    match e
    case FromClient(pdu) => OnClientPdu(st, pdu)
    case FromSession(f) => OnFsRequest(st, f)
    case Print(device, spool) => OnPrintJob(st, device, spool)
  }

  function Run(events: seq<Event>): (st: State)
    ensures JobsOk(st.jobs)
  {
    if events == [] then Initial() else Step(Run(events[..|events| - 1]), events[|events| - 1])
  }
}
