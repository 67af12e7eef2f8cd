/** The worker's drain loop: claim, process, finalise, until the queue is empty or it is stopped. */
module Drain {
  import opened Text
  import opened Orders
  import opened Queue
  import LeaseProtocol

  /** How processing one job ends: `ContextError` is any error that is a cancellation or a deadline,
      of the drain's own context or of a request the source made. */
  datatype Processed = Done | Error(text: string) | ContextError

  /** `Interrupted` is the drain's own context being over. */
  datatype DrainResult = Nil | Interrupted

  /** What the loop meets.  In round i it looks at the context at moment 2i, claims at clock(2i),
      processes, looks at the context again at moment 2i + 1 and finalises at clock(2i + 1); the clock
      may do anything, and processing a claim may end in any way in any round. */
  datatype World = World(clock: nat -> int, over: nat -> bool, process: (nat, Claim) -> Processed)

  /** What a pending job may still cost: its attempts left, and one at least. */
  function Weight(j: Job): nat {
    if j.status != Pending then 0
    else if j.attempts + 1 >= MAX_ATTEMPTS then 1
    else MAX_ATTEMPTS - j.attempts
  }

  ghost function Work(jobs: Jobs): nat
    decreases |jobs|
  {
    if jobs == map[] then 0
    else
      var id :| id in jobs;
      Weight(jobs[id]) + Work(jobs - {id})
  }

  lemma WorkWithout(jobs: Jobs, id: Bytes)
    requires id in jobs
    ensures Work(jobs) == Weight(jobs[id]) + Work(jobs - {id})
    decreases |jobs|
  {
    var k :| k in jobs && Work(jobs) == Weight(jobs[k]) + Work(jobs - {k});
    if k != id {
      WorkWithout(jobs - {k}, id);
      WorkWithout(jobs - {id}, k);
      assert jobs - {k} - {id} == jobs - {id} - {k};
    }
  }

  lemma WorkOfUpdate(jobs: Jobs, id: Bytes, j: Job)
    requires id in jobs
    ensures Work(jobs[id := j]) == Work(jobs) - Weight(jobs[id]) + Weight(j)
  {
    WorkWithout(jobs, id);
    WorkWithout(jobs[id := j], id);
    assert jobs[id := j] - {id} == jobs - {id};
  }

  /** Claiming a pending job and then completing or failing it leaves less work. */
  lemma RoundShrinksWork(jobs: Jobs, id: Bytes, now: int, later: int, err: string)
    requires id in jobs && jobs[id].status == Pending
    ensures var claimed := AfterClaim(jobs, id, now);
      && Work(AfterComplete(claimed, id, later)) < Work(jobs)
      && Work(AfterFail(claimed, id, claimed[id].attempts, later, err)) < Work(jobs)
  {
    var claimed := AfterClaim(jobs, id, now);
    var done, failed := AfterComplete(claimed, id, later), AfterFail(claimed, id, claimed[id].attempts, later, err);
    assert done == jobs[id := done[id]] && failed == jobs[id := failed[id]];
    WorkOfUpdate(jobs, id, done[id]);
    WorkOfUpdate(jobs, id, failed[id]);
  }

  /** The result, the table and the round at the end of a drain that begins round `i`.  That this
      function is defined is the drain's termination: each round leaves less work. */
  ghost function Drained(lt: LeaseProtocol.Collation, jobs: Jobs, world: World, i: nat): (r: (DrainResult, Jobs, nat))
    ensures i <= r.2 <= i + Work(jobs)
    decreases Work(jobs)
  {
    if world.over(2 * i) then (Interrupted, jobs, i)
    else match LeaseProtocol.Next(lt, jobs, world.clock(2 * i))
      case None => (Nil, jobs, i)
      case Some(id) =>
        var claimed := AfterClaim(jobs, id, world.clock(2 * i));
        var claim := Claim(id, claimed[id].attempts);
        var over, later := world.over(2 * i + 1), world.clock(2 * i + 1);
        match world.process(i, claim)
        case Done =>
          RoundShrinksWork(jobs, id, world.clock(2 * i), later, "");
          Drained(lt, AfterComplete(claimed, id, later), world, i + 1)
        case ContextError => (if over then Interrupted else Nil, claimed, i)
        case Error(text) =>
          if over then (Interrupted, claimed, i)
          else
            RoundShrinksWork(jobs, id, world.clock(2 * i), later, text);
            Drained(lt, AfterFail(claimed, id, claim.attempts, later, text), world, i + 1)
  }

  lemma NextIsFirst(lt: LeaseProtocol.Collation, jobs: Jobs, now: int)
    requires StrictTotal(lt)
    ensures LeaseProtocol.Next(lt, jobs, now).None? <==> !SomeReady(jobs, now)
    ensures forall id :: IsFirst(lt, jobs, now, id) ==> LeaseProtocol.Next(lt, jobs, now) == Some(id)
  {
    if SomeReady(jobs, now) {
      ReadyHasFirst(lt, jobs, now);
    }
    forall id | IsFirst(lt, jobs, now, id)
      ensures LeaseProtocol.Next(lt, jobs, now) == Some(id)
    {
      FirstIsUnique(lt, jobs, now, id, LeaseProtocol.Next(lt, jobs, now).value);
    }
  }

  // ------------------------------------------------------------------ round by round

  /** One finished round: what was claimed, and the table before and after. */
  datatype Round = Round(claim: Claim, before: Jobs, after: Jobs)

  predicate Due(j: Job, now: int) {
    j.status == Pending && j.runAfter <= now
  }

  /** `c` claims the earliest due job, by time and then id, as its next attempt. */
  ghost predicate Claims(lt: LeaseProtocol.Collation, jobs: Jobs, now: int, c: Claim) {
    && c.id in jobs && Due(jobs[c.id], now) && c.attempts == jobs[c.id].attempts + 1
    && forall o :: o in jobs && o != c.id && Due(jobs[o], now) ==>
      || jobs[c.id].runAfter < jobs[o].runAfter
      || (jobs[c.id].runAfter == jobs[o].runAfter && lt(c.id, o))
  }

  function InMinutes(now: int, minutes: int): int {
    now + minutes * 60_000_000
  }

  /** The claimed row at the end of round `i`: completed exactly if processing was done, failed with the
      error text after a fifth attempt or later, otherwise put off by 2^attempts minutes with that text. */
  predicate EndsAs(world: World, i: nat, c: Claim, was: Job, now: Job) {
    var start, end := world.clock(2 * i), world.clock(2 * i + 1);
    match world.process(i, c)
    case ContextError => false
    case Done => now == Job(Completed, c.attempts, InMinutes(start, 15), "", Some(end))
    case Error(text) =>
      && !world.over(2 * i + 1)
      && if c.attempts >= 5 then now == Job(Failed, c.attempts, InMinutes(start, 15), text, Some(end))
         else now == Job(Pending, c.attempts, InMinutes(end, [1, 2, 4, 8, 16][c.attempts]), text, was.finishedAt)
  }

  ghost predicate Finishes(lt: LeaseProtocol.Collation, world: World, i: nat, r: Round) {
    && !world.over(2 * i) && Claims(lt, r.before, world.clock(2 * i), r.claim)
    && r.after.Keys == r.before.Keys
    && (forall o :: o in r.before && o != r.claim.id ==> r.after[o] == r.before[o])
    && EndsAs(world, i, r.claim, r.before[r.claim.id], r.after[r.claim.id])
  }

  /** In round `i` the drain stops: its context is over, or nothing is due, or processing was cut short,
      which leaves the job pending under its lease. */
  ghost predicate Stops(lt: LeaseProtocol.Collation, world: World, i: nat, jobs: Jobs, r: DrainResult, final: Jobs) {
    if world.over(2 * i) then r == Interrupted && final == jobs
    else if forall o :: o in jobs ==> !Due(jobs[o], world.clock(2 * i)) then r == Nil && final == jobs
    else exists c :: Claims(lt, jobs, world.clock(2 * i), c) && CutShort(world, i, c, jobs, r, final)
  }

  predicate CutShort(world: World, i: nat, c: Claim, jobs: Jobs, r: DrainResult, final: Jobs)
    requires c.id in jobs
  {
    var processed, over := world.process(i, c), world.over(2 * i + 1);
    && (processed == ContextError || (processed.Error? && over))
    && r == (if over then Interrupted else Nil)
    && final == jobs[c.id := jobs[c.id].(attempts := c.attempts, runAfter := InMinutes(world.clock(2 * i), 15))]
  }

  /** `log` are the finished rounds of a drain that begins round `i` on `jobs`, one on the other's table. */
  ghost predicate Logs(lt: LeaseProtocol.Collation, jobs: Jobs, world: World, i: nat, log: seq<Round>,
                       r: DrainResult, final: Jobs)
    decreases log
  {
    if log == [] then Stops(lt, world, i, jobs, r, final)
    else
      && log[0].before == jobs && Finishes(lt, world, i, log[0])
      && Logs(lt, log[0].after, world, i + 1, log[1..], r, final)
  }

  ghost predicate LogsDrain(lt: LeaseProtocol.Collation, jobs: Jobs, world: World, i: nat, log: seq<Round>,
                            result: (DrainResult, Jobs, nat))
  {
    Logs(lt, jobs, world, i, log, result.0, result.1) && result.2 == i + |log|
  }

  /** What the round that begins on `jobs` claims, and leaves if it is finished. */
  function ClaimOf(jobs: Jobs, id: Bytes): Claim
    requires id in jobs
  {
    Claim(id, jobs[id].attempts + 1)
  }

  function AfterRound(jobs: Jobs, world: World, i: nat, id: Bytes): Jobs
    requires id in jobs && world.process(i, ClaimOf(jobs, id)) != ContextError
  {
    var claimed, later := AfterClaim(jobs, id, world.clock(2 * i)), world.clock(2 * i + 1);
    match world.process(i, ClaimOf(jobs, id))
    case Done => AfterComplete(claimed, id, later)
    case Error(text) => AfterFail(claimed, id, claimed[id].attempts, later, text)
  }

  predicate CutsShort(jobs: Jobs, world: World, i: nat, id: Bytes)
    requires id in jobs
  {
    var processed := world.process(i, ClaimOf(jobs, id));
    processed == ContextError || (processed.Error? && world.over(2 * i + 1))
  }

  /** One unfolding of the specification run. */
  lemma DrainedStep(lt: LeaseProtocol.Collation, jobs: Jobs, world: World, i: nat, id: Bytes)
    requires !world.over(2 * i) && LeaseProtocol.Next(lt, jobs, world.clock(2 * i)) == Some(id)
    ensures CutsShort(jobs, world, i, id) ==>
      Drained(lt, jobs, world, i) ==
        (if world.over(2 * i + 1) then Interrupted else Nil, AfterClaim(jobs, id, world.clock(2 * i)), i)
    ensures !CutsShort(jobs, world, i, id) ==>
      && Work(AfterRound(jobs, world, i, id)) < Work(jobs)
      && Drained(lt, jobs, world, i) == Drained(lt, AfterRound(jobs, world, i, id), world, i + 1)
  {
    var claimed, later := AfterClaim(jobs, id, world.clock(2 * i)), world.clock(2 * i + 1);
    var processed := world.process(i, ClaimOf(jobs, id));
    RoundShrinksWork(jobs, id, world.clock(2 * i), later, if processed.Error? then processed.text else "");
  }

  lemma RoundFinishes(lt: LeaseProtocol.Collation, jobs: Jobs, world: World, i: nat, id: Bytes)
    requires !world.over(2 * i) && IsFirst(lt, jobs, world.clock(2 * i), id) && !CutsShort(jobs, world, i, id)
    ensures Finishes(lt, world, i, Round(ClaimOf(jobs, id), jobs, AfterRound(jobs, world, i, id)))
  {
    LeaseProtocol.BackoffInMinutes(jobs[id].attempts + 1);
  }

  lemma StopsCutShort(lt: LeaseProtocol.Collation, jobs: Jobs, world: World, i: nat, id: Bytes)
    requires !world.over(2 * i) && IsFirst(lt, jobs, world.clock(2 * i), id) && CutsShort(jobs, world, i, id)
    ensures Stops(lt, world, i, jobs, if world.over(2 * i + 1) then Interrupted else Nil,
                  AfterClaim(jobs, id, world.clock(2 * i)))
  {
    var c := ClaimOf(jobs, id);
    assert Claims(lt, jobs, world.clock(2 * i), c);
    assert CutShort(world, i, c, jobs, if world.over(2 * i + 1) then Interrupted else Nil,
                    AfterClaim(jobs, id, world.clock(2 * i)));
  }

  lemma LogsCons(lt: LeaseProtocol.Collation, world: World, i: nat, first: Round, more: seq<Round>,
                 result: (DrainResult, Jobs, nat))
    requires Finishes(lt, world, i, first) && LogsDrain(lt, first.after, world, i + 1, more, result)
    ensures LogsDrain(lt, first.before, world, i, [first] + more, result)
  {
    assert ([first] + more)[1..] == more;
  }

  /** Every drain has such a log, with as many rounds as it counts. */
  lemma {:induction false} DrainedLogs(lt: LeaseProtocol.Collation, jobs: Jobs, world: World, i: nat)
    returns (log: seq<Round>)
    requires StrictTotal(lt)
    ensures LogsDrain(lt, jobs, world, i, log, Drained(lt, jobs, world, i))
    decreases Work(jobs)
  {
    log := [];
    NextIsFirst(lt, jobs, world.clock(2 * i));
    var next := LeaseProtocol.Next(lt, jobs, world.clock(2 * i));
    if world.over(2 * i) || next.None? {
      assert Stops(lt, world, i, jobs, if world.over(2 * i) then Interrupted else Nil, jobs);
      return;
    }
    var id := next.value;
    DrainedStep(lt, jobs, world, i, id);
    if CutsShort(jobs, world, i, id) {
      StopsCutShort(lt, jobs, world, i, id);
      return;
    }
    var after := AfterRound(jobs, world, i, id);
    RoundFinishes(lt, jobs, world, i, id);
    var more := DrainedLogs(lt, after, world, i + 1);
    LogsCons(lt, world, i, Round(ClaimOf(jobs, id), jobs, after), more, Drained(lt, jobs, world, i));
    log := [Round(ClaimOf(jobs, id), jobs, after)] + more;
  }

  method Drain(q: JobTable, world: World) returns (r: DrainResult, rounds: nat, ghost log: seq<Round>)
    requires StrictTotal(q.lt)
    modifies q
    ensures (r, q.jobs, rounds) == Drained(q.lt, old(q.jobs), world, 0)
    ensures LogsDrain(q.lt, old(q.jobs), world, 0, log, (r, q.jobs, rounds))
  {
    log := DrainedLogs(q.lt, q.jobs, world, 0);
    rounds := 0;
    while true
      invariant Drained(q.lt, q.jobs, world, rounds) == Drained(q.lt, old(q.jobs), world, 0)
      decreases Work(q.jobs)
    {
      if world.over(2 * rounds) {
        return Interrupted, rounds, log;
      }
      var now := world.clock(2 * rounds);
      NextIsFirst(q.lt, q.jobs, now);
      ghost var before := q.jobs;
      var claim := q.ClaimNext(now);
      if claim == None {
        return Nil, rounds, log;
      }
      var job := claim.value;
      var processed := world.process(rounds, job);
      if processed != Done {
        if world.over(2 * rounds + 1) || processed == ContextError {
          return if world.over(2 * rounds + 1) then Interrupted else Nil, rounds, log;
        }
        RoundShrinksWork(before, job.id, now, world.clock(2 * rounds + 1), processed.text);
        q.MarkFailed(job.id, job.attempts, world.clock(2 * rounds + 1), processed.text);
        rounds := rounds + 1;
        continue;
      }
      RoundShrinksWork(before, job.id, now, world.clock(2 * rounds + 1), "");
      q.MarkCompleted(job.id, world.clock(2 * rounds + 1));
      rounds := rounds + 1;
    }
  }

  /** A drain that returns without error left no pending job that was ready when it last looked. */
  ghost predicate NoneLeftReady(lt: LeaseProtocol.Collation, jobs: Jobs, world: World, i: nat) {
    var r := Drained(lt, jobs, world, i);
    r.0 == Nil ==> !SomeReady(r.1, world.clock(2 * r.2))
  }

  /** In round `i`, processing the claim `c` ends in a cancellation or deadline error only if the drain's
      own context is over by then. */
  predicate OwnContextOnly(world: World, i: nat, c: Claim) {
    c.attempts > 0 && world.process(i, c) == ContextError ==> world.over(2 * i) || world.over(2 * i + 1)
  }

  lemma {:induction false} NoneLeftWithOwnContextOnly(lt: LeaseProtocol.Collation, jobs: Jobs, world: World, i: nat)
    requires StrictTotal(lt)
    requires forall k: nat, c :: OwnContextOnly(world, k, c)
    ensures NoneLeftReady(lt, jobs, world, i)
    decreases Work(jobs)
  {
    NextIsFirst(lt, jobs, world.clock(2 * i));
    var next := LeaseProtocol.Next(lt, jobs, world.clock(2 * i));
    if !world.over(2 * i) && next.Some? {
      var id := next.value;
      var claimed := AfterClaim(jobs, id, world.clock(2 * i));
      var claim := Claim(id, claimed[id].attempts);
      var over, later := world.over(2 * i + 1), world.clock(2 * i + 1);
      assert OwnContextOnly(world, i, claim);
      match world.process(i, claim)
      case Done =>
        RoundShrinksWork(jobs, id, world.clock(2 * i), later, "");
        NoneLeftWithOwnContextOnly(lt, AfterComplete(claimed, id, later), world, i + 1);
      case ContextError =>
      case Error(text) =>
        if !over {
          RoundShrinksWork(jobs, id, world.clock(2 * i), later, text);
          NoneLeftWithOwnContextOnly(lt, AfterFail(claimed, id, claim.attempts, later, text), world, i + 1);
        }
    }
  }

  /** A request that times out on its own ends the drain as if the queue were empty. */
  lemma ContextErrorLeavesReady(lt: LeaseProtocol.Collation, world: World, i: nat, c: Claim)
    requires StrictTotal(lt) && c.attempts > 0 && world.process(i, c) == ContextError
    requires !world.over(2 * i) && !world.over(2 * i + 1)
    ensures exists jobs :: !NoneLeftReady(lt, jobs, world, i)
  {
    var t := world.clock(2 * i);
    var other: Bytes := if c.id == [] then [0] else [];
    var jobs := map[c.id := Job(Pending, c.attempts - 1, t - 1, "", None), other := FreshJob(t)];
    assert IsFirst(lt, jobs, t, c.id);
    NextIsFirst(lt, jobs, t);
    var r := Drained(lt, jobs, world, i);
    assert r == (Nil, AfterClaim(jobs, c.id, t), i);
    assert other in r.1 && Ready(r.1[other], t);
    assert !NoneLeftReady(lt, jobs, world, i);
  }

  /** Whatever the clock, the context and the outcomes: for every table and every round to begin in,
      returning without error means that nothing ready was left, exactly when only the drain's own
      context being over makes processing end in a cancellation or deadline error. */
  lemma DrainEmptiesExactly(lt: LeaseProtocol.Collation, world: World)
    requires StrictTotal(lt)
    ensures (forall jobs, i: nat :: NoneLeftReady(lt, jobs, world, i))
      <==> (forall i: nat, c :: OwnContextOnly(world, i, c))
  {
    if forall i: nat, c :: OwnContextOnly(world, i, c) {
      forall jobs, i: nat
        ensures NoneLeftReady(lt, jobs, world, i)
      {
        NoneLeftWithOwnContextOnly(lt, jobs, world, i);
      }
    } else {
      var i: nat, c :| !OwnContextOnly(world, i, c);
      ContextErrorLeavesReady(lt, world, i, c);
    }
  }
}
