/**
  * The books a device-redirection run keeps: which drive requests are in flight
  * or answered, and which I/O requests each print job has put on the wire.
  */
module DeviceAccounting {
  import opened Bytes
  import opened DeviceRedirection
  import opened DeviceInvariants

  // ---- Drive requests ----------------------------------------------------

  function DriveShare(e: Pending): multiset<(u32, u32)> {
    if e.inUse && e.owner.ForDrive? then multiset{(e.device, e.reqId)} else multiset{}
  }

  /** The drive requests whose IRP is in flight. */
  function InFlight(p: seq<Pending>): multiset<(u32, u32)> {
    if p == [] then multiset{} else DriveShare(p[0]) + InFlight(p[1..])
  }

  function Answered(replies: seq<Reply>): multiset<(u32, u32)> {
    if replies == [] then multiset{}
    else
      var r := replies[|replies| - 1];
      Answered(replies[..|replies| - 1]) + multiset{(r.device, r.reqId)}
  }

  lemma AddToBoth<T>(h: multiset<T>, a: multiset<T>, b: multiset<T>, c: multiset<T>, d: multiset<T>)
    requires a + b == c + d
    ensures (h + a) + b == (h + c) + d
  {
    assert (h + a) + b == h + (a + b);
    assert (h + c) + d == h + (c + d);
  }

  lemma {:induction false} InFlightUpdate(p: seq<Pending>, i: nat, e: Pending)
    requires i < |p|
    ensures InFlight(p[i := e]) + DriveShare(p[i]) == InFlight(p) + DriveShare(e)
  {
    if i == 0 {
      assert p[i := e][1..] == p[1..];
    } else {
      assert p[i := e][1..] == p[1..][i - 1 := e] && p[i := e][0] == p[0];
      InFlightUpdate(p[1..], i - 1, e);
      AddToBoth(DriveShare(p[0]), InFlight(p[1..][i - 1 := e]), DriveShare(p[i]), InFlight(p[1..]), DriveShare(e));
    }
  }

  lemma AnsweredAppend(replies: seq<Reply>, r: Reply)
    ensures Answered(replies + [r]) == Answered(replies) + multiset{(r.device, r.reqId)}
  {
    assert (replies + [r])[..|replies|] == replies;
  }

  // ---- Print jobs --------------------------------------------------------

  function WritesFrom(spool: Bytes, fileId: u32, off: nat): seq<Request>
    requires off <= |spool| <= MAX_SPOOL
    decreases |spool| - off
  {
    if off == |spool| then []
    else [WriteAt(spool, fileId, off)] + WritesFrom(spool, fileId, off + SliceLen(spool, off))
  }

  /** Everything a job sends: open, the whole spool in slices, close. */
  function Script(spool: Bytes, fileId: u32): seq<Request>
    requires |spool| <= MAX_SPOOL
  {
    [OPEN_PRINTER] + WritesFrom(spool, fileId, 0) + [Close(fileId)]
  }

  /** What has been put on the wire for the job with this serial, in order. */
  function LogOf(sent: seq<Irp>, serial: nat): seq<Request> {
    if sent == [] then []
    else
      var prior, last := LogOf(sent[..|sent| - 1], serial), sent[|sent| - 1];
      if last.owner.ForJob? && last.owner.serial == serial then prior + [last.request] else prior
  }

  lemma LogOfAppend(sent: seq<Irp>, irp: Irp, serial: nat)
    ensures LogOf(sent + [irp], serial)
         == LogOf(sent, serial) + if irp.owner.ForJob? && irp.owner.serial == serial then [irp.request] else []
  {
    assert (sent + [irp])[..|sent|] == sent;
  }

  predicate SerialsBelow(sent: seq<Irp>, n: nat) {
    forall i | 0 <= i < |sent| :: sent[i].owner.ForJob? ==> sent[i].owner.serial < n
  }

  lemma {:induction false} FreshSerialHasNoLog(sent: seq<Irp>, n: nat)
    requires SerialsBelow(sent, n)
    ensures LogOf(sent, n) == []
  {
    if sent != [] {
      FreshSerialHasNoLog(sent[..|sent| - 1], n);
    }
  }

  /** The slices not yet on the wire, followed by the close. */
  function Rest(spool: Bytes, fileId: u32, off: nat): seq<Request>
    requires off <= |spool| <= MAX_SPOOL
  {
    WritesFrom(spool, fileId, off) + [Close(fileId)]
  }

  /** What job `j` still has to send after its IRP in flight. */
  function Remaining(j: Job): seq<Request>
    requires JobOk(j)
  {
    if j.state == Creating then Rest(j.spool, j.fileId, 0)
    else if j.state == Writing then Rest(j.spool, j.fileId, j.off + SliceLen(j.spool, j.off))
    else []
  }

  /** A live job's log and its remaining requests make up its script. */
  predicate OnScript(log: seq<Request>, j: Job)
    requires JobOk(j)
  {
    && log + Remaining(j) == Script(j.spool, j.fileId)
    && (j.state == Creating ==> log == [OPEN_PRINTER] && j.off == 0)
  }

  /** The promise to a print job, whether it runs, has printed or has failed. */
  predicate RecordOk(log: seq<Request>, r: Record) {
    && |r.spool| <= MAX_SPOOL
    && log <= Script(r.spool, r.fileId)
    && !r.end.Unbuilt?
    && if r.end.Printed? then log == Script(r.spool, r.fileId) && r.acks == |log|
       else r.acks + 1 == |log| && (r.end.Failed? ==> r.end.status != STATUS_SUCCESS)
  }

  lemma {:induction false} WritesShape(spool: Bytes, fileId: u32, off: nat, i: nat)
    requires off <= |spool| <= MAX_SPOOL && i < |WritesFrom(spool, fileId, off)|
    ensures off + i * PRINT_CHUNK <= |spool|
    ensures WritesFrom(spool, fileId, off)[i] == WriteAt(spool, fileId, off + i * PRINT_CHUNK)
    decreases |spool| - off
  {
    if i > 0 {
      assert off + SliceLen(spool, off) < |spool|;
      WritesShape(spool, fileId, off + SliceLen(spool, off), i - 1);
    }
  }

  lemma {:induction false} WritesCount(spool: Bytes, fileId: u32, off: nat)
    requires off <= |spool| <= MAX_SPOOL
    ensures |WritesFrom(spool, fileId, off)| == (|spool| - off + PRINT_CHUNK - 1) / PRINT_CHUNK
    decreases |spool| - off
  {
    if off < |spool| {
      WritesCount(spool, fileId, off + SliceLen(spool, off));
    }
  }

  /** A script opens, writes contiguous slices of at most 8000 octets from offset
      0, closes last, and takes 2 + ceil(n / 8000) requests. */
  lemma ScriptShape(spool: Bytes, fileId: u32)
    requires |spool| <= MAX_SPOOL
    ensures var s, w := Script(spool, fileId), (|spool| + PRINT_CHUNK - 1) / PRINT_CHUNK;
            && |s| == 2 + w
            && s[0] == OPEN_PRINTER
            && s[w + 1] == Close(fileId)
            && forall i | 0 <= i < w ::
                 i * PRINT_CHUNK <= |spool| && s[1 + i] == WriteAt(spool, fileId, i * PRINT_CHUNK)
  {
    WritesCount(spool, fileId, 0);
    var w := |WritesFrom(spool, fileId, 0)|;
    forall i | 0 <= i < w
      ensures i * PRINT_CHUNK <= |spool| && Script(spool, fileId)[1 + i] == WriteAt(spool, fileId, i * PRINT_CHUNK)
    {
      WritesShape(spool, fileId, 0, i);
    }
  }

  /** The data of the WRITE requests of a log, concatenated. */
  function Written(log: seq<Request>): Bytes {
    if log == [] then []
    else
      var prior, last := Written(log[..|log| - 1]), log[|log| - 1];
      if last.Write? then prior + last.data else prior
  }

  /** One more slice. */
  lemma SliceExtends(spool: Bytes, off: nat)
    requires off <= |spool|
    ensures spool[..off] + spool[off..off + SliceLen(spool, off)] == spool[..Min(off + PRINT_CHUNK, |spool|)]
  {}

  lemma WrittenAppend(log: seq<Request>, r: Request)
    ensures Written(log + [r]) == if r.Write? then Written(log) + r.data else Written(log)
  {
    assert (log + [r])[..|log|] == log;
  }

  /** What entry `i` adds to what was written. */
  lemma EntryWrites(spool: Bytes, fileId: u32, i: nat)
    requires |spool| <= MAX_SPOOL && i < |Script(spool, fileId)|
    ensures var r, before := Script(spool, fileId)[i], if i == 0 then 0 else Min((i - 1) * PRINT_CHUNK, |spool|);
            var after := Min(i * PRINT_CHUNK, |spool|);
            if r.Write? then spool[..before] + r.data == spool[..after] else before == after
  {
    ScriptShape(spool, fileId);
    if 0 < i < |Script(spool, fileId)| - 1 {
      assert Script(spool, fileId)[1 + (i - 1)] == WriteAt(spool, fileId, (i - 1) * PRINT_CHUNK);
      SliceExtends(spool, (i - 1) * PRINT_CHUNK);
    }
  }

  /** Any prefix of a script has written a prefix of the spool: all of it once the close is out. */
  lemma {:induction false} ScriptPrefixWritesSpoolPrefix(spool: Bytes, fileId: u32, n: nat)
    requires |spool| <= MAX_SPOOL && n <= |Script(spool, fileId)|
    ensures Written(Script(spool, fileId)[..n])
         == spool[..if n == 0 then 0 else Min((n - 1) * PRINT_CHUNK, |spool|)]
  {
    if n > 0 {
      var s := Script(spool, fileId);
      ScriptPrefixWritesSpoolPrefix(spool, fileId, n - 1);
      assert s[..n] == s[..n - 1] + [s[n - 1]];
      WrittenAppend(s[..n - 1], s[n - 1]);
      EntryWrites(spool, fileId, n - 1);
    }
  }
}
