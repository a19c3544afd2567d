/**
  * The device-redirection relay as the worker keeps it: fixed tables scanned by
  * loops and updated in place, each operation proved against its function on
  * the abstract state.  The last four fields are history, as in that state.
  */
module DeviceRelay {
  import opened Bytes
  import opened DeviceTable
  import opened DeviceRedirection
  import opened DeviceInvariants
  import opened DeviceRuns

  class Relay {
    var devices: seq<Device>
    var nextCid: u32
    const pending: array<Pending>
    const jobs: array<Job>
    var sent: seq<Irp>
    var replies: seq<Reply>
    var requests: multiset<(u32, u32)>
    var lost: multiset<(u32, u32)>
    var records: seq<Record>
    var issued: nat

    ghost predicate Valid()
      reads this, pending, jobs
    {
      pending.Length == MAX_PENDING && jobs.Length == MAX_JOBS && JobsOk(jobs[..])
    }

    ghost function Abs(): State
      reads this, pending, jobs
    {
      State(devices, nextCid, pending[..], jobs[..], sent, replies, requests, lost, records, issued)
    }

    constructor ()
      ensures Valid() && fresh(pending) && fresh(jobs)
      ensures Abs() == Initial()
    {
      devices, nextCid, sent, replies := [], 0, [], [];
      pending := new Pending[MAX_PENDING](_ => FREE_ENTRY);
      jobs := new Job[MAX_JOBS](_ => FREE_JOB);
      requests, lost, records, issued := multiset{}, multiset{}, [], 0;
      new;
      assert pending[..] == Initial().pending;
      assert jobs[..] == Initial().jobs;
    }

    /** Takes the first free entry under the next completion id; false when the table is full. */
    method AllocPending(owner: Owner, device: u32, major: u32) returns (ok: bool, cid: u32, at: nat)
      requires Valid()
      modifies this`nextCid, this`issued, pending
      ensures at == FirstFree(old(pending[..])) && ok == (at < pending.Length) && cid == old(nextCid)
      ensures !ok ==> nextCid == old(nextCid) && issued == old(issued) && pending[..] == old(pending[..])
      ensures ok ==> nextCid == (cid + 1) % U32 && issued == old(issued) + 1
      ensures ok ==> pending[..] == old(pending[..])[at := Pending(true, cid, device, major, 0, owner)]
    {
      cid := nextCid;
      at := 0;
      while at < pending.Length
        invariant at <= pending.Length
        invariant forall j | 0 <= j < at :: pending[j].inUse
      {
        if !pending[at].inUse {
          pending[at] := Pending(true, cid, device, major, 0, owner);
          nextCid := (cid + 1) % U32;
          issued := issued + 1;
          return true, cid, at;
        }
        at := at + 1;
      }
      return false, cid, at;
    }

    /** The build functions: refuse what does not fit, then take an entry. */
    method BuildIrp(owner: Owner, device: u32, r: Request, cap: nat) returns (ok: bool, cid: u32, at: nat)
      requires Valid()
      modifies this`nextCid, this`issued, pending
      ensures ok == CanBuild(old(Abs()), r, cap) && cid == old(nextCid)
      ensures !ok ==> nextCid == old(nextCid) && issued == old(issued) && pending[..] == old(pending[..])
      ensures ok ==> at == FirstFree(old(pending[..])) < pending.Length
      ensures ok ==> nextCid == (cid + 1) % U32 && issued == old(issued) + 1
      ensures ok ==> pending[..] == old(pending[..])[at := Pending(true, cid, device, Major(r), 0, owner)]
    {
      if WireSize(r) > cap || WireSize(r) >= U32 {
        return false, nextCid, 0;
      }
      ok, cid, at := AllocPending(owner, device, Major(r));
    }

    /** Records the session's request id in the first entry in use with this completion id. */
    method SetRequestId(cid: u32, reqId: u32)
      requires Valid()
      modifies pending
      ensures pending[..] == Stamped(old(pending[..]), cid, reqId)
    {
      var i := 0;
      while i < pending.Length
        invariant 0 <= i <= FindCid(pending[..], cid) <= pending.Length
        invariant pending[..] == old(pending[..])
      {
        if pending[i].inUse && pending[i].cid == cid {
          assert FindCid(pending[..], cid) == i;
          pending[i] := pending[i].(reqId := reqId);
          return;
        }
        i := i + 1;
      }
    }

    method Send(owner: Owner, device: u32, cid: u32, r: Request)
      modifies this`sent
      ensures sent == old(sent) + [Irp(owner, device, cid, r)]
    {
      sent := sent + [Irp(owner, device, cid, r)];
    }

    /** Builds and sends a drive request's IRP, and notes the request id in the table. */
    method RelayIrp(f: FsRequest, r: Request, cap: nat) returns (ok: bool)
      requires Valid()
      modifies this, pending
      ensures Valid() && ok == CanBuild(old(Abs()), r, cap)
      ensures !ok ==> Abs() == old(Abs())
      ensures ok ==> var t := Issue(old(Abs()), ForDrive, f.device, r, 0);
                     Abs() == t.(pending := Stamped(t.pending, old(nextCid), f.reqId))
    {
      var cid, at;
      ok, cid, at := BuildIrp(ForDrive, f.device, r, cap);
      if ok {
        SetRequestId(cid, f.reqId);
        Send(ForDrive, f.device, cid, r);
      }
    }

    method HandleFsRequest(f: FsRequest)
      requires Valid()
      modifies this, pending
      ensures Valid() && Abs() == OnFsRequest(old(Abs()), f)
    {
      requests := requests + multiset{(f.device, f.reqId)};
      if |f.payload| > FS_MAX_PAYLOAD {
        replies := replies + [Reply(f.device, f.reqId, STATUS_UNSUCCESSFUL, 0, 0, [])];
        return;
      }
      var r := AsRequest(f);
      if r.Some? {
        var ok := RelayIrp(f, r.value, IRP_HDR + 32 + (|f.payload| + 2) * 2);
        if ok {
          return;
        }
      }
      replies := replies + [Reply(f.device, f.reqId, STATUS_NOT_IMPLEMENTED, 0, 0, [])];
    }

    // ---- Print jobs ----

    /** Builds and sends one IRP of job `k`, then records it in the slot. */
    method SendForJob(k: nat, r: Request, cap: nat, state: JobState) returns (ok: bool)
      requires Valid() && k < jobs.Length
      modifies this, pending, jobs
      ensures Valid() && ok == CanBuild(old(Abs()), r, cap)
      ensures !ok ==> Abs() == old(Abs())
      ensures ok ==> Abs() == NextIrp(old(Abs()), k, old(jobs[k]).(state := state), r)
    {
      var j := jobs[k];
      ghost var before := Abs();
      var cid, at;
      ok, cid, at := BuildIrp(ForJob(k, j.serial), j.device, r, cap);
      if ok {
        jobs[k] := j.(cid := cid, state := state, entry := at);
        Send(ForJob(k, j.serial), j.device, cid, r);
        assert jobs[..] == before.jobs[k := jobs[k]];
      }
    }

    method SendWrite(k: nat) returns (ok: bool)
      requires Valid() && k < jobs.Length && jobs[k].off < |jobs[k].spool|
      modifies this, pending, jobs
      ensures Valid()
      ensures var j := old(jobs[k]);
              var r := WriteAt(j.spool, j.fileId, j.off);
              && ok == CanBuild(old(Abs()), r, IRP_HDR + 32 + PRINT_CHUNK)
              && Abs() == if ok then NextIrp(old(Abs()), k, j.(state := Writing), r) else old(Abs())
    {
      var j := jobs[k];
      var chunk := |j.spool| - j.off;
      if chunk > PRINT_CHUNK {
        chunk := PRINT_CHUNK;
      }
      ok := SendForJob(k, Write(j.fileId, j.off, j.spool[j.off..j.off + chunk]), IRP_HDR + 32 + PRINT_CHUNK, Writing);
    }

    method FreeJob(k: nat, end: JobEnd)
      requires Valid() && k < jobs.Length
      modifies this`records, jobs
      ensures Valid() && Abs() == EndJob(old(Abs()), k, end)
    {
      var s := jobs[k].serial;
      if s < |records| {
        records := records[s := records[s].(end := end)];
      }
      jobs[k] := FREE_JOB;
      assert jobs[..] == old(jobs[..])[k := FREE_JOB];
    }

    method Proceed(k: nat)
      requires Valid() && k < jobs.Length
      modifies this, pending, jobs
      ensures Valid() && Abs() == Continue(old(Abs()), k, old(jobs[k]))
    {
      var ok;
      if jobs[k].off < |jobs[k].spool| {
        ok := SendWrite(k);
      } else {
        ok := SendForJob(k, Close(jobs[k].fileId), IRP_HDR + 32, Closing);
      }
      if !ok {
        FreeJob(k, Unbuilt);
      }
    }

    method StartPrintJob(device: u32, spool: Bytes)
      requires Valid()
      modifies this, pending, jobs
      ensures Valid() && Abs() == OnPrintJob(old(Abs()), device, spool)
    {
      if |spool| > MAX_SPOOL {
        return;
      }
      var k := 0;
      while k < jobs.Length && jobs[k].state != Free
        invariant 0 <= k <= jobs.Length
        invariant forall j | 0 <= j < k :: jobs[j].state != Free
      {
        k := k + 1;
      }
      assert k == FirstFreeJob(jobs[..]);
      if k == jobs.Length {
        return;
      }
      ghost var before := Abs();
      var serial := |records|;
      var ok, cid, at := BuildIrp(ForJob(k, serial), device, OPEN_PRINTER, IRP_HDR + 64 + 2);
      if ok {
        jobs[k] := Job(Creating, device, 0, cid, spool, 0, serial, at);
        assert jobs[..] == before.jobs[k := jobs[k]];
        records := records + [Record(device, spool, 0, 0, Running)];
        Send(ForJob(k, serial), device, cid, OPEN_PRINTER);
      }
    }

    /** Records a success of job `k` and the file id and offset it leaves. */
    method Credit(k: nat, fileId: u32, off: nat)
      requires Valid() && k < jobs.Length && off <= |jobs[k].spool|
      modifies this`records, jobs
      ensures Valid() && jobs[k] == old(jobs[k]).(fileId := fileId, off := off)
      ensures Abs() == Acknowledge(old(Abs()), k, fileId).(jobs := old(jobs[..])[k := jobs[k]])
    {
      var s := jobs[k].serial;
      if s < |records| {
        records := records[s := records[s].(acks := records[s].acks + 1, fileId := fileId)];
      }
      jobs[k] := jobs[k].(fileId := fileId, off := off);
      assert jobs[..] == old(jobs[..])[k := jobs[k]];
    }

    method FindJob(cid: u32) returns (k: nat)
      requires Valid()
      ensures k == JobByCid(jobs[..], cid)
    {
      k := 0;
      while k < jobs.Length && !(jobs[k].state != Free && jobs[k].cid == cid)
        invariant 0 <= k <= jobs.Length
        invariant forall j | 0 <= j < k :: !(jobs[j].state != Free && jobs[j].cid == cid)
      {
        k := k + 1;
      }
    }

    /** A success that leaves job `k` with this file id and offset, and the next IRP. */
    method CreditAndProceed(k: nat, fileId: u32, off: nat)
      requires Valid() && k < jobs.Length && off <= |jobs[k].spool|
      modifies this, pending, jobs
      ensures Valid()
      ensures Abs() == Continue(Acknowledge(old(Abs()), k, fileId), k, old(jobs[k]).(fileId := fileId, off := off))
    {
      ghost var acked := Acknowledge(Abs(), k, fileId);
      Credit(k, fileId, off);
      ContinueIgnoresSlot(acked, k, jobs[k]);
      Proceed(k);
    }

    method CreditAndFinish(k: nat)
      requires Valid() && k < jobs.Length
      modifies this`records, jobs
      ensures Valid() && Abs() == EndJob(Acknowledge(old(Abs()), k, old(jobs[k]).fileId), k, Printed)
    {
      Credit(k, jobs[k].fileId, jobs[k].off);
      assert jobs[..] == old(jobs[..]);
      FreeJob(k, Printed);
    }

    /** Slot `k` holds the job the completion is for. */
    ghost predicate Found(k: nat, cid: u32)
      reads this, jobs
    {
      k < jobs.Length && k == JobByCid(jobs[..], cid)
    }

    method OpenSucceeds(k: nat, cid: u32, data: Bytes)
      requires Valid() && Found(k, cid) && jobs[k].state == Creating
      modifies this, pending, jobs
      ensures Valid() && Abs() == OnPrintCompletion(old(Abs()), cid, STATUS_SUCCESS, data)
    {
      var fileId := if |data| >= 4 then Ld32(data, 0) else jobs[k].fileId;
      OpenContinues(Abs(), k, data);
      CreditAndProceed(k, fileId, jobs[k].off);
    }

    method WriteSucceeds(k: nat, cid: u32, data: Bytes)
      requires Valid() && Found(k, cid) && jobs[k].state == Writing
      modifies this, pending, jobs
      ensures Valid() && Abs() == OnPrintCompletion(old(Abs()), cid, STATUS_SUCCESS, data)
    {
      var j := jobs[k];
      var left := |j.spool| - j.off;
      WriteContinues(Abs(), k, data);
      CreditAndProceed(k, j.fileId, j.off + if left > PRINT_CHUNK then PRINT_CHUNK else left);
    }

    /** A successful completion of the job found in slot `k`. */
    method Succeed(k: nat, cid: u32, data: Bytes)
      requires Valid() && Found(k, cid)
      modifies this, pending, jobs
      ensures Valid() && Abs() == OnPrintCompletion(old(Abs()), cid, STATUS_SUCCESS, data)
    {
      if jobs[k].state == Creating {
        OpenSucceeds(k, cid, data);
      } else if jobs[k].state == Writing {
        WriteSucceeds(k, cid, data);
      } else {
        CreditAndFinish(k);
      }
    }

    method HandlePrintCompletion(cid: u32, status: u32, data: Bytes)
      requires Valid()
      modifies this, pending, jobs
      ensures Valid() && Abs() == OnPrintCompletion(old(Abs()), cid, status, data)
    {
      var k := FindJob(cid);
      if k == jobs.Length {
        return;
      }
      if status != STATUS_SUCCESS {
        FreeJob(k, Failed(status));
      } else {
        Succeed(k, cid, data);
      }
    }

    // ---- Messages from the client ----

    method HandleCompletion(cid: u32, status: u32, data: Bytes)
      requires Valid()
      modifies this, pending, jobs
      ensures Valid() && Abs() == OnCompletion(old(Abs()), cid, status, data)
    {
      var i := 0;
      while i < pending.Length && !(pending[i].inUse && pending[i].cid == cid)
        invariant 0 <= i <= pending.Length
        invariant forall j | 0 <= j < i :: !(pending[j].inUse && pending[j].cid == cid)
      {
        i := i + 1;
      }
      assert i == FindCid(pending[..], cid);
      if i == pending.Length {
        return;
      }
      var e := pending[i];
      pending[i] := e.(inUse := false);
      assert pending[..] == old(pending[..])[i := pending[i]];
      var kind := FindKind(devices, e.device);
      if kind == Some(DTYP_PRINT) {
        if e.owner.ForDrive? {
          lost := lost + multiset{(e.device, e.reqId)};
        }
        HandlePrintCompletion(cid, status, data);
      } else {
        replies := replies + [ReplyFor(e, status, data)];
      }
    }

    method HandleClientPdu(pdu: Bytes)
      requires Valid()
      modifies this, pending, jobs
      ensures Valid() && Abs() == OnClientPdu(old(Abs()), pdu)
    {
      if |pdu| < 4 || Ld16(pdu, 0) != CTYP_CORE {
        return;
      }
      if Ld16(pdu, 2) == PAKID_DEVICE_LIST {
        devices := HandleDeviceList(devices, pdu[4..]);
      } else if Ld16(pdu, 2) == PAKID_IOCOMPLETION && |pdu| >= 16 {
        HandleCompletion(Ld32(pdu, 8), Ld32(pdu, 12), pdu[16..]);
      }
    }
  }

  /** Sending the next IRP overwrites the slot, so what it held does not matter. */
  lemma ContinueIgnoresSlot(st: State, k: nat, j: Job)
    requires k < |st.jobs| && JobOk(j) && j.serial == st.jobs[k].serial
    ensures Continue(st.(jobs := st.jobs[k := j]), k, j) == Continue(st, k, j)
  {
    var closing := j.off == |j.spool|;
    var j' := j.(state := if closing then Closing else Writing, cid := st.nextCid, entry := FirstFree(st.pending));
    assert st.jobs[k := j][k := j'] == st.jobs[k := j'];
    assert st.jobs[k := j][k := FREE_JOB] == st.jobs[k := FREE_JOB];
  }
}
