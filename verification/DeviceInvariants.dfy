/**
  * What every run of the device-redirection state machine keeps: completion ids
  * in flight are distinct, each live print job owns exactly one entry, and
  * every drive request is accounted for.
  */
module DeviceInvariants {
  import opened Bytes
  import opened DeviceTable
  import opened DeviceRedirection

  // ---- Completion ids ----------------------------------------------------

  predicate DistinctCids(p: seq<Pending>) {
    forall i, j | 0 <= i < j < |p| && p[i].inUse && p[j].inUse :: p[i].cid != p[j].cid
  }

  predicate CidsBelow(p: seq<Pending>, n: nat) {
    forall i | 0 <= i < |p| && p[i].inUse :: p[i].cid < n
  }

  function Release(p: seq<Pending>, i: nat): seq<Pending>
    requires i < |p|
  {
    p[i := p[i].(inUse := false)]
  }

  function Reserve(p: seq<Pending>, e: Pending): seq<Pending>
    requires FirstFree(p) < |p|
  {
    p[FirstFree(p) := e]
  }

  /** Taking an entry keeps the ids distinct exactly when the id it is given is not in flight. */
  lemma ReserveKeepsDistinctIff(p: seq<Pending>, e: Pending)
    requires DistinctCids(p) && FirstFree(p) < |p| && e.inUse
    ensures DistinctCids(Reserve(p, e)) <==> FindCid(p, e.cid) == |p|
  {
    var f, q, i := FirstFree(p), Reserve(p, e), FindCid(p, e.cid);
    if i < |p| {
      assert q[i] == p[i] && q[f] == e && i != f;
    }
  }

  /** A request id lands in the entry just taken exactly when no earlier entry carries its
      completion id. */
  lemma StampIsOwnIff(p: seq<Pending>, e: Pending)
    requires FirstFree(p) < |p| && e.inUse
    ensures FindCid(Reserve(p, e), e.cid) == FirstFree(p) <==> FindCid(p[..FirstFree(p)], e.cid) == FirstFree(p)
  {
    var f, q := FirstFree(p), Reserve(p, e);
    var i, k := FindCid(q, e.cid), FindCid(p[..f], e.cid);
    assert q[f] == e && forall j | 0 <= j < f :: q[j] == p[..f][j];
  }

  lemma StampIsOwn(p: seq<Pending>, e: Pending, reqId: u32)
    requires FirstFree(p) < |p| && e.inUse && FindCid(p, e.cid) == |p|
    ensures Stamped(Reserve(p, e), e.cid, reqId) == Reserve(p, e.(reqId := reqId))
  {
    var q := Reserve(p, e);
    assert q[FirstFree(p)] == e;
    assert FindCid(q, e.cid) == FirstFree(p);
  }

  // ---- Ownership ---------------------------------------------------------

  predicate Live(jobs: seq<Job>, k: int) {
    0 <= k < |jobs| && jobs[k].state != Free
  }

  predicate Owns(p: seq<Pending>, jobs: seq<Job>, k: nat)
    requires k < |jobs|
  {
    var j := jobs[k];
    && j.entry < |p|
    && p[j.entry].inUse
    && p[j.entry].cid == j.cid
    && p[j.entry].device == j.device
    && p[j.entry].owner == ForJob(k, j.serial)
  }

  /** An entry taken for a job is the one its slot still points at. */
  predicate Backed(p: seq<Pending>, jobs: seq<Job>, i: nat)
    requires i < |p|
  {
    p[i].owner.ForJob? ==>
      var o := p[i].owner;
      Live(jobs, o.slot) && jobs[o.slot].serial == o.serial && jobs[o.slot].entry == i
  }

  /** Every live job but `x` owns its entry, and no entry is taken for `x`. */
  predicate OwnedExcept(p: seq<Pending>, jobs: seq<Job>, x: int) {
    && (forall k | 0 <= k < |jobs| && k != x :: Live(jobs, k) ==> Owns(p, jobs, k))
    && (forall i | 0 <= i < |p| && p[i].inUse ::
          Backed(p, jobs, i) && (p[i].owner.ForJob? ==> p[i].owner.slot != x))
  }

  predicate Owned(p: seq<Pending>, jobs: seq<Job>) {
    OwnedExcept(p, jobs, -1)
  }

  /** The job an entry was taken for is the one its completion finds; a drive
      request's completion finds none. */
  lemma CompletionFindsOwner(p: seq<Pending>, jobs: seq<Job>, i: nat)
    requires DistinctCids(p) && Owned(p, jobs) && i < |p| && p[i].inUse
    ensures JobByCid(jobs, p[i].cid) == if p[i].owner.ForJob? then p[i].owner.slot else |jobs|
  {
    assert Backed(p, jobs, i);
    var k := JobByCid(jobs, p[i].cid);
    if k < |jobs| {
      assert Owns(p, jobs, k);
      assert jobs[k].entry == i;
    }
    if p[i].owner.ForJob? {
      var s := p[i].owner.slot;
      assert Owns(p, jobs, s);
    }
  }

  lemma ReleaseKeepsCids(p: seq<Pending>, i: nat, n: nat)
    requires DistinctCids(p) && CidsBelow(p, n) && i < |p|
    ensures DistinctCids(Release(p, i)) && CidsBelow(Release(p, i), n)
  {}

  lemma ReserveKeepsCids(p: seq<Pending>, e: Pending, n: nat)
    requires DistinctCids(p) && CidsBelow(p, n) && FirstFree(p) < |p| && e.inUse && e.cid == n
    ensures DistinctCids(Reserve(p, e)) && CidsBelow(Reserve(p, e), n + 1)
  {
    ReserveKeepsDistinctIff(p, e);
  }

  lemma ReleaseLeavesOwnerBare(p: seq<Pending>, jobs: seq<Job>, i: nat)
    requires DistinctCids(p) && Owned(p, jobs) && i < |p| && p[i].inUse
    ensures OwnedExcept(Release(p, i), jobs, if p[i].owner.ForJob? then p[i].owner.slot else -1)
  {
    var q := Release(p, i);
    var x := if p[i].owner.ForJob? then p[i].owner.slot else -1;
    assert Backed(p, jobs, i);
    forall k | 0 <= k < |jobs| && k != x && Live(jobs, k) ensures Owns(q, jobs, k) {
      assert Owns(p, jobs, k);
    }
    forall m | 0 <= m < |q| && q[m].inUse
      ensures Backed(q, jobs, m) && (q[m].owner.ForJob? ==> q[m].owner.slot != x)
    {
      assert Backed(p, jobs, m);
    }
  }

  lemma ReserveForDriveKeepsOwned(p: seq<Pending>, jobs: seq<Job>, e: Pending)
    requires Owned(p, jobs) && FirstFree(p) < |p| && e.owner == ForDrive
    ensures Owned(Reserve(p, e), jobs)
  {
    var q := Reserve(p, e);
    forall k | 0 <= k < |jobs| && Live(jobs, k) ensures Owns(q, jobs, k) {
      assert Owns(p, jobs, k);
    }
    forall m | 0 <= m < |q| && q[m].inUse ensures Backed(q, jobs, m) && (q[m].owner.ForJob? ==> q[m].owner.slot != -1) {
      if m != FirstFree(p) {
        assert Backed(p, jobs, m);
      }
    }
  }

  lemma ReserveForJobKeepsOwned(p: seq<Pending>, jobs: seq<Job>, e: Pending, k: nat, j: Job)
    requires OwnedExcept(p, jobs, k) && FirstFree(p) < |p| && k < |jobs| && j.state != Free
    requires e.inUse && e.owner == ForJob(k, j.serial) && e.cid == j.cid && e.device == j.device
    requires j.entry == FirstFree(p)
    ensures Owned(Reserve(p, e), jobs[k := j])
  {
    var q, js := Reserve(p, e), jobs[k := j];
    forall l | 0 <= l < |js| && Live(js, l) ensures Owns(q, js, l) {
      if l != k {
        assert Live(jobs, l) && Owns(p, jobs, l);
      }
    }
    forall m | 0 <= m < |q| && q[m].inUse ensures Backed(q, js, m) && (q[m].owner.ForJob? ==> q[m].owner.slot != -1) {
      if m != FirstFree(p) {
        assert Backed(p, jobs, m);
      }
    }
  }

  lemma FreeingBareJobKeepsOwned(p: seq<Pending>, jobs: seq<Job>, k: nat)
    requires OwnedExcept(p, jobs, k) && k < |jobs|
    ensures Owned(p, jobs[k := FREE_JOB])
  {
    var js := jobs[k := FREE_JOB];
    forall l | 0 <= l < |js| && Live(js, l) ensures Owns(p, js, l) {
      assert Live(jobs, l) && Owns(p, jobs, l);
    }
    forall m | 0 <= m < |p| && p[m].inUse ensures Backed(p, js, m) && (p[m].owner.ForJob? ==> p[m].owner.slot != -1) {
      assert Backed(p, jobs, m);
    }
  }

  lemma FreeSlotIsBare(p: seq<Pending>, jobs: seq<Job>, k: nat)
    requires Owned(p, jobs) && k < |jobs| && jobs[k].state == Free
    ensures OwnedExcept(p, jobs, k)
  {
    forall m | 0 <= m < |p| && p[m].inUse ensures Backed(p, jobs, m) && (p[m].owner.ForJob? ==> p[m].owner.slot != k) {
      assert Backed(p, jobs, m);
    }
  }
}
