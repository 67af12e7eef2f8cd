/** The enrichment job table and the statements that change it. */
module Queue {
  import opened Text
  import opened Orders

  /** Times are in microseconds, the resolution of the table's timestamps. */
  const MINUTE := 60_000_000

  const MAX_ATTEMPTS: nat := 5

  /** How long a claimed job is hidden from other claimers. */
  const LEASE := 15 * MINUTE

  datatype Status = Pending | Completed | Failed

  datatype Job = Job(status: Status, attempts: nat, runAfter: int, lastError: string, finishedAt: Option<int>)

  type Jobs = map<Bytes, Job>

  /** What ClaimNext hands to a worker. */
  datatype Claim = Claim(id: Bytes, attempts: nat)

  predicate Ready(j: Job, now: int) {
    j.status == Pending && j.runAfter <= now
  }

  /** ORDER BY run_after, audiobook_id; `lt` is the collation of ids. */
  predicate Before(lt: (Bytes, Bytes) -> bool, jobs: Jobs, a: Bytes, b: Bytes)
    requires a in jobs && b in jobs
  {
    jobs[a].runAfter < jobs[b].runAfter || (jobs[a].runAfter == jobs[b].runAfter && lt(a, b))
  }

  /** `id` is the row SELECT ... ORDER BY run_after, audiobook_id LIMIT 1 returns. */
  ghost predicate IsFirst(lt: (Bytes, Bytes) -> bool, jobs: Jobs, now: int, id: Bytes) {
    && id in jobs && Ready(jobs[id], now)
    && forall o :: o in jobs && Ready(jobs[o], now) && o != id ==> Before(lt, jobs, id, o)
  }

  ghost predicate SomeReady(jobs: Jobs, now: int) {
    exists id :: id in jobs && Ready(jobs[id], now)
  }

  /** 2^k minutes. */
  function Backoff(k: nat): int {
    if k == 0 then MINUTE else 2 * Backoff(k - 1)
  }

  function FreshJob(now: int): Job {
    Job(Pending, 0, now, "", None)
  }

  function AfterEnqueue(jobs: Jobs, ids: set<Bytes>, now: int): Jobs {
    jobs + map id | id in ids :: FreshJob(now)
  }

  function AfterClaim(jobs: Jobs, id: Bytes, now: int): Jobs
    requires id in jobs
  {
    jobs[id := jobs[id].(attempts := jobs[id].attempts + 1, runAfter := now + LEASE)]
  }

  /** An UPDATE of a row that is not there changes nothing. */
  function AfterComplete(jobs: Jobs, id: Bytes, now: int): Jobs {
    if id !in jobs then jobs
    else jobs[id := jobs[id].(status := Completed, finishedAt := Some(now), lastError := "")]
  }

  /** `attempts` is what the worker was told when it claimed, not what the row says now. */
  function AfterFail(jobs: Jobs, id: Bytes, attempts: nat, now: int, err: string): Jobs {
    if id !in jobs then jobs
    else if attempts >= MAX_ATTEMPTS then
      jobs[id := jobs[id].(status := Failed, finishedAt := Some(now), lastError := err)]
    else jobs[id := jobs[id].(runAfter := now + Backoff(attempts), lastError := err)]
  }

  lemma FirstIsUnique(lt: (Bytes, Bytes) -> bool, jobs: Jobs, now: int, a: Bytes, b: Bytes)
    requires StrictTotal(lt)
    requires IsFirst(lt, jobs, now, a) && IsFirst(lt, jobs, now, b)
    ensures a == b
  {
  }

  ghost predicate Least(lt: (Bytes, Bytes) -> bool, jobs: Jobs, among: set<Bytes>, f: Bytes)
    requires among <= jobs.Keys
  {
    f in among && forall o :: o in among && o != f ==> Before(lt, jobs, f, o)
  }

  lemma BeforeIsTransitive(lt: (Bytes, Bytes) -> bool, jobs: Jobs, a: Bytes, b: Bytes, c: Bytes)
    requires StrictTotal(lt) && a in jobs && b in jobs && c in jobs
    ensures Before(lt, jobs, a, b) && Before(lt, jobs, b, c) ==> Before(lt, jobs, a, c)
    ensures a != b ==> Before(lt, jobs, a, b) || Before(lt, jobs, b, a)
  {
  }

  lemma LeastExists(lt: (Bytes, Bytes) -> bool, jobs: Jobs, among: set<Bytes>) returns (f: Bytes)
    requires StrictTotal(lt) && among != {} && among <= jobs.Keys
    ensures Least(lt, jobs, among, f)
    decreases among
  {
    var x :| x in among;
    f := x;
    var rest := among - {x};
    assert forall o :: o in among ==> o == x || o in rest;
    if rest != {} {
      var g := LeastExists(lt, jobs, rest);
      f := if Before(lt, jobs, x, g) then x else g;
      forall o | o in among && o != f
        ensures Before(lt, jobs, f, o)
      {
        BeforeIsTransitive(lt, jobs, x, g, o);
        assert o == x || o in rest;
      }
    }
  }

  /** If some row is ready, one is first. */
  lemma ReadyHasFirst(lt: (Bytes, Bytes) -> bool, jobs: Jobs, now: int)
    requires StrictTotal(lt) && SomeReady(jobs, now)
    ensures exists id :: IsFirst(lt, jobs, now, id)
  {
    var among := set id | id in jobs && Ready(jobs[id], now);
    var some :| some in jobs && Ready(jobs[some], now);
    assert some in among;
    var f := LeastExists(lt, jobs, among);
    assert IsFirst(lt, jobs, now, f);
  }

  class JobTable {
    var jobs: Jobs
    const lt: (Bytes, Bytes) -> bool

    constructor (lt: (Bytes, Bytes) -> bool)
      ensures jobs == map[] && this.lt == lt
    {
      this.lt := lt;
      jobs := map[];
    }

    method Enqueue(id: Bytes, now: int)
      modifies this
      ensures jobs == AfterEnqueue(old(jobs), {id}, now)
      ensures jobs == old(jobs)[id := Job(Pending, 0, now, "", None)]
    {
      jobs := jobs[id := Job(Pending, 0, now, "", None)];
      assert forall k :: k in AfterEnqueue(old(jobs), {id}, now) <==> k in jobs;
    }

    /** One job per active audiobook, re-armed whatever its state; the number of rows written. */
    method BulkEnqueueBackfill(active: set<Bytes>, now: int) returns (n: nat)
      modifies this
      ensures jobs == AfterEnqueue(old(jobs), active, now) && n == |active|
      ensures jobs.Keys == old(jobs).Keys + active
      ensures forall id :: id in jobs ==>
        jobs[id] == if id in active then Job(Pending, 0, now, "", None) else old(jobs)[id]
    {
      jobs := jobs + map id | id in active :: Job(Pending, 0, now, "", None);
      n := |active|;
    }

    /** The scan for the first ready row in (run_after, id) order. */
    method SelectReady(now: int) returns (first: Option<Bytes>)
      requires StrictTotal(lt)
      ensures first == None ==> !SomeReady(jobs, now)
      ensures first.Some? ==> IsFirst(lt, jobs, now, first.value)
      ensures first == None <==> forall o :: o in jobs ==> jobs[o].status != Pending || now < jobs[o].runAfter
    {
      first := None;
      var left := jobs.Keys;
      while left != {}
        invariant left <= jobs.Keys
        invariant first == None ==> forall o :: o in jobs && o !in left ==> !Ready(jobs[o], now)
        invariant first.Some? ==>
          && first.value in jobs && Ready(jobs[first.value], now)
          && forall o :: o in jobs && o !in left && Ready(jobs[o], now) && o != first.value ==>
            Before(lt, jobs, first.value, o)
        decreases left
      {
        var id :| id in left;
        left := left - {id};
        if Ready(jobs[id], now) && (first == None || Before(lt, jobs, id, first.value)) {
          first := Some(id);
        }
      }
    }

    /** Picks the first ready job, counts the attempt and leases the row, in one transaction. */
    method ClaimNext(now: int) returns (r: Option<Claim>)
      requires StrictTotal(lt)
      modifies this
      ensures r == None ==> !SomeReady(old(jobs), now) && jobs == old(jobs)
      ensures r.Some? ==>
        && IsFirst(lt, old(jobs), now, r.value.id)
        && jobs == AfterClaim(old(jobs), r.value.id, now)
        && r.value.attempts == jobs[r.value.id].attempts
      ensures r == None <==>
        forall o :: o in old(jobs) ==> old(jobs)[o].status != Pending || now < old(jobs)[o].runAfter
      ensures r.Some? ==>
        var id := r.value.id;
        && id in old(jobs) && old(jobs)[id].status == Pending && old(jobs)[id].runAfter <= now
        && (forall o :: o in old(jobs) && o != id && old(jobs)[o].status == Pending && old(jobs)[o].runAfter <= now ==>
            || old(jobs)[id].runAfter < old(jobs)[o].runAfter
            || (old(jobs)[id].runAfter == old(jobs)[o].runAfter && lt(id, o)))
        && r.value.attempts == old(jobs)[id].attempts + 1
        && jobs == old(jobs)[id := old(jobs)[id].(attempts := r.value.attempts, runAfter := now + 15 * 60_000_000)]
    {
      var first := SelectReady(now);
      if first == None {
        return None;
      }
      var id := first.value;
      var attempts := jobs[id].attempts;
      jobs := jobs[id := jobs[id].(attempts := jobs[id].attempts + 1, runAfter := now + LEASE)];
      attempts := attempts + 1;
      r := Some(Claim(id, attempts));
    }

    method MarkCompleted(id: Bytes, now: int)
      modifies this
      ensures jobs == AfterComplete(old(jobs), id, now)
      ensures id !in old(jobs) ==> jobs == old(jobs)
      ensures id in old(jobs) ==>
        jobs == old(jobs)[id := old(jobs)[id].(status := Completed, finishedAt := Some(now), lastError := "")]
    {
      if id in jobs {
        jobs := jobs[id := jobs[id].(status := Completed, finishedAt := Some(now), lastError := "")];
      }
    }

    method MarkFailed(id: Bytes, attempts: nat, now: int, err: string)
      modifies this
      ensures jobs == AfterFail(old(jobs), id, attempts, now, err)
      ensures id !in old(jobs) ==> jobs == old(jobs)
      ensures id in old(jobs) && attempts >= 5 ==>
        jobs == old(jobs)[id := old(jobs)[id].(status := Failed, finishedAt := Some(now), lastError := err)]
      ensures id in old(jobs) && attempts < 5 ==>
        var later := now + [1, 2, 4, 8, 16][attempts] * 60_000_000;
        jobs == old(jobs)[id := old(jobs)[id].(runAfter := later, lastError := err)]
    {
      if attempts >= MAX_ATTEMPTS {
        if id in jobs {
          jobs := jobs[id := jobs[id].(status := Failed, finishedAt := Some(now), lastError := err)];
        }
        return;
      }
      var backoff := ShiftMinutes(attempts);
      if id in jobs {
        jobs := jobs[id := jobs[id].(runAfter := now + backoff, lastError := err)];
      }
    }
  }

  /** 1 << k minutes. */
  method ShiftMinutes(k: nat) returns (b: int)
    requires k < MAX_ATTEMPTS
    ensures b == Backoff(k) == [1, 2, 4, 8, 16][k] * 60_000_000
  {
    b := (1 as bv8 << k) as int * MINUTE;
    assert (1 as bv8 << 0) as int == 1 && (1 as bv8 << 1) as int == 2 && (1 as bv8 << 2) as int == 4;
    assert (1 as bv8 << 3) as int == 8 && (1 as bv8 << 4) as int == 16;
    assert Backoff(2) == 4 * MINUTE;
    assert Backoff(4) == 16 * MINUTE;
    assert Backoff(1) == 2 * MINUTE && Backoff(3) == 8 * MINUTE;
  }
}
