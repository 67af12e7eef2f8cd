/** Overlapping workers over one job table: any number of them, any interleaving, one clock. */
module LeaseProtocol {
  import opened Text
  import opened Queue

  type Collation = (Bytes, Bytes) -> bool

  /** A claim a worker still holds: it has neither finalised the job nor died. */
  datatype Hold = Hold(id: Bytes, attempt: nat, since: int)

  datatype Outcome = Open | FailedAt(at: int, err: string) | CompletedAt(at: int) | Lost

  /** One claim of a job and how it ended. */
  datatype Attempt = Attempt(claimedAt: int, outcome: Outcome)

  /** `history[id]` are the claims of the job since it was last enqueued. */
  datatype System = System(jobs: Jobs, now: int, holds: map<nat, Hold>, history: map<Bytes, seq<Attempt>>)

  datatype Step =
    | Tick(to: int)
    | Enqueue(ids: set<Bytes>)
    | Take(worker: nat)
    | Complete(worker: nat)
    | Fail(worker: nat, err: string)
    | Crash(worker: nat)

  function Start(now: int): System {
    System(map[], now, map[], map[])
  }

  /** The job ClaimNext picks, if any is ready. */
  ghost function Next(lt: Collation, jobs: Jobs, now: int): (r: Option<Bytes>)
    ensures r.Some? ==> IsFirst(lt, jobs, now, r.value)
  {
    if exists id :: IsFirst(lt, jobs, now, id) then
      var id :| IsFirst(lt, jobs, now, id);
      Some(id)
    else None
  }

  /** Time does not run backwards, an idle worker claims, a worker that holds a job ends it. */
  predicate Enabled(s: System, step: Step) {
    match step
    case Tick(to) => s.now <= to
    case Enqueue(_) => true
    case Take(w) => w !in s.holds
    case Complete(w) => w in s.holds
    case Fail(w, _) => w in s.holds
    case Crash(w) => w in s.holds
  }

  function Without(holds: map<nat, Hold>, w: nat): map<nat, Hold> {
    map v | v in holds && v != w :: holds[v]
  }

  /** Notes how attempt number `k` of a job ended, if the job was not enqueued anew since. */
  function Noted(history: map<Bytes, seq<Attempt>>, h: Hold, outcome: Outcome): map<Bytes, seq<Attempt>> {
    if h.id in history && 1 <= h.attempt <= |history[h.id]| then
      var i := h.attempt - 1;
      history[h.id := history[h.id][i := history[h.id][i].(outcome := outcome)]]
    else history
  }

  ghost function Apply(lt: Collation, s: System, step: Step): System
    requires Enabled(s, step)
  {
    match step
    case Tick(to) => s.(now := to)
    case Enqueue(ids) =>
      s.(jobs := AfterEnqueue(s.jobs, ids, s.now), history := s.history + map id | id in ids :: [])
    case Take(w) =>
      (match Next(lt, s.jobs, s.now)
       case None => s
       case Some(id) =>
         var past := if id in s.history then s.history[id] else [];
         s.(jobs := AfterClaim(s.jobs, id, s.now),
            holds := s.holds[w := Hold(id, s.jobs[id].attempts + 1, s.now)],
            history := s.history[id := past + [Attempt(s.now, Open)]]))
    case Complete(w) =>
      var h := s.holds[w];
      s.(jobs := AfterComplete(s.jobs, h.id, s.now), holds := Without(s.holds, w),
         history := Noted(s.history, h, CompletedAt(s.now)))
    case Fail(w, err) =>
      var h := s.holds[w];
      s.(jobs := AfterFail(s.jobs, h.id, h.attempt, s.now, err), holds := Without(s.holds, w),
         history := Noted(s.history, h, FailedAt(s.now, err)))
    case Crash(w) =>
      s.(holds := Without(s.holds, w), history := Noted(s.history, s.holds[w], Lost))
  }

  /** The two hypotheses of the lease: the clock does not pass the end of a held lease, and a held
      job is not enqueued anew. */
  predicate Respects(s: System, step: Step) {
    match step
    case Tick(to) => forall w :: w in s.holds ==> to < s.holds[w].since + LEASE
    case Enqueue(ids) => forall w :: w in s.holds ==> s.holds[w].id !in ids
    case _ => true
  }

  ghost predicate Legal(lt: Collation, s: System, steps: seq<Step>)
    decreases steps
  {
    steps == [] || (Enabled(s, steps[0]) && Legal(lt, Apply(lt, s, steps[0]), steps[1..]))
  }

  ghost function Run(lt: Collation, s: System, steps: seq<Step>): System
    requires Legal(lt, s, steps)
    decreases steps
  {
    if steps == [] then s else Run(lt, Apply(lt, s, steps[0]), steps[1..])
  }

  ghost predicate Respectful(lt: Collation, s: System, steps: seq<Step>)
    requires Legal(lt, s, steps)
    decreases steps
  {
    steps == [] || (Respects(s, steps[0]) && Respectful(lt, Apply(lt, s, steps[0]), steps[1..]))
  }

  // ------------------------------------------------------------------ every run

  ghost predicate ClaimsCounted(s: System) {
    && s.history.Keys == s.jobs.Keys
    && forall id :: id in s.jobs ==> s.jobs[id].attempts == |s.history[id]|
  }

  ghost predicate WaitsBounded(s: System) {
    forall id :: id in s.jobs && s.jobs[id].status == Pending ==> s.jobs[id].runAfter <= s.now + 16 * MINUTE
  }

  /** Holds in every run, whatever workers do. */
  ghost predicate Counted(s: System) {
    ClaimsCounted(s) && WaitsBounded(s)
  }

  lemma BackoffAtMost(k: nat)
    requires k < MAX_ATTEMPTS
    ensures 0 < Backoff(k) <= 16 * MINUTE
  {
    assert Backoff(2) == 4 * MINUTE;
    assert Backoff(4) == 16 * MINUTE;
  }

  lemma BackoffInMinutes(k: nat)
    ensures k < 5 ==> Backoff(k) == [1, 2, 4, 8, 16][k] * 60_000_000
  {
    assert Backoff(2) == 4 * MINUTE;
    assert Backoff(4) == 16 * MINUTE;
  }

  lemma ClaimsCountedStep(lt: Collation, s: System, step: Step)
    requires ClaimsCounted(s) && Enabled(s, step)
    ensures ClaimsCounted(Apply(lt, s, step))
  {
  }

  lemma WaitsBoundedStep(lt: Collation, s: System, step: Step)
    requires WaitsBounded(s) && Enabled(s, step)
    ensures WaitsBounded(Apply(lt, s, step))
  {
    if step.Fail? && s.holds[step.worker].attempt < MAX_ATTEMPTS {
      BackoffAtMost(s.holds[step.worker].attempt);
    }
  }

  lemma {:induction false} CountsKept(lt: Collation, s: System, steps: seq<Step>)
    requires Counted(s) && Legal(lt, s, steps)
    ensures Counted(Run(lt, s, steps))
    decreases steps
  {
    if steps != [] {
      ClaimsCountedStep(lt, s, steps[0]);
      WaitsBoundedStep(lt, s, steps[0]);
      CountsKept(lt, Apply(lt, s, steps[0]), steps[1..]);
    }
  }

  /** In every run whatsoever, a job's attempts are the number of its claims since it was last
      enqueued, and no pending job waits more than 16 minutes from now: nothing is stuck. */
  lemma AttemptsCountClaims(lt: Collation, t0: int, steps: seq<Step>, id: Bytes)
    requires Legal(lt, Start(t0), steps) && id in Run(lt, Start(t0), steps).jobs
    ensures var s := Run(lt, Start(t0), steps);
      && id in s.history && s.jobs[id].attempts == |s.history[id]|
      && (s.jobs[id].status == Pending ==> s.jobs[id].runAfter <= s.now + 16 * MINUTE)
  {
    CountsKept(lt, Start(t0), steps);
  }

  // ------------------------------------------------------------------ runs that respect the lease

  function Last(h: seq<Attempt>): Attempt
    requires h != []
  {
    h[|h| - 1]
  }

  /** From the i-th claim (counting from 0) to the next: a failure is followed no sooner than its
      backoff later and is not the fifth, a lost claim no sooner than the end of its lease. */
  ghost predicate Linked(h: seq<Attempt>, i: nat)
    requires i + 1 < |h|
  {
    match h[i].outcome
    case FailedAt(t, _) => h[i].claimedAt <= t && i + 1 < MAX_ATTEMPTS && t + Backoff(i + 1) <= h[i + 1].claimedAt
    case Lost => h[i].claimedAt + LEASE <= h[i + 1].claimedAt
    case _ => false
  }

  ghost predicate Chained(h: seq<Attempt>) {
    forall i :: 0 <= i < |h| - 1 ==> Linked(h, i)
  }

  /** The holder and the row agree: same attempt, leased for 15 minutes from the claim, not over. */
  ghost predicate HeldRow(s: System, h: Hold) {
    && h.id in s.jobs && h.id in s.history
    && s.jobs[h.id].status == Pending
    && s.jobs[h.id].attempts == h.attempt == |s.history[h.id]| > 0
    && s.jobs[h.id].runAfter == h.since + LEASE
    && h.since <= s.now < h.since + LEASE
    && Last(s.history[h.id]) == Attempt(h.since, Open)
  }

  predicate Held(holds: map<nat, Hold>, id: Bytes) {
    exists w :: w in holds && holds[w].id == id
  }

  /** What a row nobody holds says about how its last claim ended. */
  ghost predicate IdleRow(j: Job, h: seq<Attempt>, now: int) {
    match j.status
    case Pending =>
      h == [] ||
      (match Last(h).outcome
       case FailedAt(t, err) =>
         && |h| < MAX_ATTEMPTS && Last(h).claimedAt <= t <= now
         && j.runAfter == t + Backoff(|h|) && j.lastError == err
       case Lost => j.runAfter == Last(h).claimedAt + LEASE
       case _ => false)
    case Failed =>
      && |h| >= MAX_ATTEMPTS && Last(h).outcome.FailedAt? && Last(h).claimedAt <= Last(h).outcome.at
      && j.finishedAt == Some(Last(h).outcome.at) && j.lastError == Last(h).outcome.err
    case Completed =>
      h != [] && Last(h).outcome.CompletedAt? && j.finishedAt == Some(Last(h).outcome.at) && j.lastError == ""
  }

  ghost predicate HoldersAgree(s: System) {
    forall w :: w in s.holds ==> HeldRow(s, s.holds[w])
  }

  /** No two workers hold one job. */
  predicate Exclusive(holds: map<nat, Hold>) {
    forall v, w :: v in holds && w in holds && v != w ==> holds[v].id != holds[w].id
  }

  ghost predicate IdleAgree(s: System)
    requires s.history.Keys == s.jobs.Keys
  {
    forall id :: id in s.jobs && !Held(s.holds, id) ==> IdleRow(s.jobs[id], s.history[id], s.now)
  }

  ghost predicate AllChained(history: map<Bytes, seq<Attempt>>) {
    forall id :: id in history ==> Chained(history[id])
  }

  ghost predicate Leased(s: System) {
    Counted(s) && HoldersAgree(s) && Exclusive(s.holds) && IdleAgree(s) && AllChained(s.history)
  }

  lemma TickKeepsLeases(lt: Collation, s: System, to: int)
    requires Leased(s) && Enabled(s, Tick(to)) && Respects(s, Tick(to))
    ensures Leased(Apply(lt, s, Tick(to)))
  {
    var s' := Apply(lt, s, Tick(to));
    ClaimsCountedStep(lt, s, Tick(to));
    WaitsBoundedStep(lt, s, Tick(to));
    forall w | w in s'.holds
      ensures HeldRow(s', s'.holds[w])
    {
      assert HeldRow(s, s.holds[w]);
    }
    forall id | id in s'.jobs && !Held(s'.holds, id)
      ensures IdleRow(s'.jobs[id], s'.history[id], s'.now)
    {
      assert IdleRow(s.jobs[id], s.history[id], s.now);
    }
  }

  lemma EnqueueKeepsLeases(lt: Collation, s: System, ids: set<Bytes>)
    requires Leased(s) && Respects(s, Enqueue(ids))
    ensures Leased(Apply(lt, s, Enqueue(ids)))
  {
    var s' := Apply(lt, s, Enqueue(ids));
    ClaimsCountedStep(lt, s, Enqueue(ids));
    WaitsBoundedStep(lt, s, Enqueue(ids));
    EnqueueKeepsRows(lt, s, ids);
  }

  lemma EnqueueKeepsRows(lt: Collation, s: System, ids: set<Bytes>)
    requires Leased(s) && Respects(s, Enqueue(ids))
    ensures HoldersAgree(Apply(lt, s, Enqueue(ids)))
    ensures AllChained(Apply(lt, s, Enqueue(ids)).history)
    ensures Apply(lt, s, Enqueue(ids)).history.Keys == Apply(lt, s, Enqueue(ids)).jobs.Keys
    ensures IdleAgree(Apply(lt, s, Enqueue(ids)))
  {
    var s' := Apply(lt, s, Enqueue(ids));
    forall w | w in s'.holds
      ensures HeldRow(s', s'.holds[w])
    {
      assert HeldRow(s, s.holds[w]);
    }
    forall id | id in s'.jobs && !Held(s'.holds, id)
      ensures IdleRow(s'.jobs[id], s'.history[id], s'.now)
    {
      if id !in ids {
        assert IdleRow(s.jobs[id], s.history[id], s.now);
      }
    }
  }

  /** A ready job is held by no one. */
  lemma ReadyIsIdle(s: System, id: Bytes)
    requires Leased(s) && id in s.jobs && Ready(s.jobs[id], s.now)
    ensures !Held(s.holds, id)
  {
    forall w | w in s.holds
      ensures s.holds[w].id != id
    {
      assert HeldRow(s, s.holds[w]);
    }
  }

  /** A claim extends a chain: the row's run_after, now past, is what the link asks for. */
  lemma ClaimLinks(j: Job, h: seq<Attempt>, now: int)
    requires IdleRow(j, h, now) && Chained(h) && Ready(j, now)
    ensures Chained(h + [Attempt(now, Open)])
  {
    var h' := h + [Attempt(now, Open)];
    forall i | 0 <= i < |h'| - 1
      ensures Linked(h', i)
    {
      if i + 1 < |h| {
        assert Linked(h, i);
      } else {
        assert h'[i] == Last(h);
      }
    }
  }

  lemma TakeKeepsHolders(lt: Collation, s: System, w: nat)
    requires Leased(s) && Enabled(s, Take(w)) && Next(lt, s.jobs, s.now).Some?
    ensures HoldersAgree(Apply(lt, s, Take(w)))
    ensures Exclusive(Apply(lt, s, Take(w)).holds)
  {
    var s' := Apply(lt, s, Take(w));
    var id := Next(lt, s.jobs, s.now).value;
    ReadyIsIdle(s, id);
    forall v | v in s'.holds
      ensures HeldRow(s', s'.holds[v])
      ensures v != w ==> s'.holds[v].id != id
    {
      if v != w {
        assert HeldRow(s, s.holds[v]);
      }
    }
  }

  lemma TakeKeepsIdle(lt: Collation, s: System, w: nat)
    requires Leased(s) && Enabled(s, Take(w)) && Next(lt, s.jobs, s.now).Some?
    ensures Apply(lt, s, Take(w)).history.Keys == Apply(lt, s, Take(w)).jobs.Keys
    ensures IdleAgree(Apply(lt, s, Take(w)))
  {
    var s' := Apply(lt, s, Take(w));
    forall k | k in s'.jobs && !Held(s'.holds, k)
      ensures IdleRow(s'.jobs[k], s'.history[k], s'.now)
    {
      assert s'.holds[w].id != k;
      forall v | v in s.holds
        ensures s.holds[v].id != k
      {
        assert s'.holds[v] == s.holds[v];
      }
      assert IdleRow(s.jobs[k], s.history[k], s.now);
    }
  }

  lemma TakeKeepsLeases(lt: Collation, s: System, w: nat)
    requires Leased(s) && Enabled(s, Take(w))
    ensures Leased(Apply(lt, s, Take(w)))
  {
    var next := Next(lt, s.jobs, s.now);
    if next.Some? {
      var id := next.value;
      ClaimsCountedStep(lt, s, Take(w));
      WaitsBoundedStep(lt, s, Take(w));
      TakeKeepsHolders(lt, s, w);
      TakeKeepsIdle(lt, s, w);
      ReadyIsIdle(s, id);
      ClaimLinks(s.jobs[id], s.history[id], s.now);
    }
  }

  /** However a hold ends, the other holders and the other rows are as they were. */
  lemma EndKeepsOthers(s: System, s': System, w: nat)
    requires Leased(s) && w in s.holds && s'.holds == Without(s.holds, w) && s'.now == s.now
    requires s'.jobs.Keys == s.jobs.Keys == s'.history.Keys
    requires forall id :: id in s.jobs && id != s.holds[w].id ==>
      s'.jobs[id] == s.jobs[id] && s'.history[id] == s.history[id]
    ensures HoldersAgree(s') && Exclusive(s'.holds)
    ensures !Held(s'.holds, s.holds[w].id)
    ensures forall id :: id in s.jobs && id != s.holds[w].id && !Held(s'.holds, id) ==>
      IdleRow(s'.jobs[id], s'.history[id], s'.now)
  {
    forall v | v in s'.holds
      ensures HeldRow(s', s'.holds[v]) && s'.holds[v].id != s.holds[w].id
    {
      assert HeldRow(s, s.holds[v]);
    }
    forall id | id in s.jobs && id != s.holds[w].id && !Held(s'.holds, id)
      ensures IdleRow(s'.jobs[id], s'.history[id], s'.now)
    {
      forall v | v in s.holds
        ensures s.holds[v].id != id
      {
        assert v != w ==> v in s'.holds && s'.holds[v] == s.holds[v];
      }
      assert IdleRow(s.jobs[id], s.history[id], s.now);
    }
  }

  /** The end of the last claim leaves the links before it alone. */
  lemma NotingKeepsChain(h: seq<Attempt>, outcome: Outcome)
    requires Chained(h) && h != []
    ensures Chained(h[|h| - 1 := Last(h).(outcome := outcome)])
  {
    var h' := h[|h| - 1 := Last(h).(outcome := outcome)];
    forall i | 0 <= i < |h'| - 1
      ensures Linked(h', i)
    {
      assert Linked(h, i);
    }
  }

  predicate Ends(step: Step, w: nat) {
    step == Complete(w) || step == Crash(w) || (step.Fail? && step.worker == w)
  }

  /** The history with the end of the last claim of `id` noted. */
  function LastNoted(history: map<Bytes, seq<Attempt>>, id: Bytes, o: Outcome): map<Bytes, seq<Attempt>>
    requires id in history && history[id] != []
  {
    history[id := history[id][|history[id]| - 1 := Last(history[id]).(outcome := o)]]
  }

  /** The ended row is idle in the way its last claim ended. */
  lemma EndedIdle(lt: Collation, s: System, step: Step, w: nat)
    requires Leased(s) && Enabled(s, step) && Ends(step, w)
    ensures var id, s' := s.holds[w].id, Apply(lt, s, step);
      id in s'.jobs && id in s'.history && IdleRow(s'.jobs[id], s'.history[id], s'.now)
  {
    assert HeldRow(s, s.holds[w]);
  }

  /** The end of a hold touches its own row and its own last claim only. */
  lemma EndedRow(lt: Collation, s: System, step: Step, w: nat)
    requires Leased(s) && Enabled(s, step) && Ends(step, w)
    ensures var id, s' := s.holds[w].id, Apply(lt, s, step);
      && id in s'.jobs && id in s'.history && id in s.history && s.history[id] != []
      && (exists o :: s'.history == LastNoted(s.history, id, o))
      && s'.jobs.Keys == s.jobs.Keys
      && (forall k :: k in s.jobs && k != id ==> s'.jobs[k] == s.jobs[k])
      && s'.holds == Without(s.holds, w) && s'.now == s.now
  {
    var s', h := Apply(lt, s, step), s.holds[w];
    assert HeldRow(s, h);
    var past := s.history[h.id];
    var outcome := s'.history[h.id][|past| - 1].outcome;
    assert s'.history == LastNoted(s.history, h.id, outcome);
  }

  lemma EndRebuilds(s: System, s': System, w: nat, o: Outcome)
    requires Leased(s) && w in s.holds && s'.holds == Without(s.holds, w) && s'.now == s.now && Counted(s')
    requires s.holds[w].id in s.history && s.history[s.holds[w].id] != []
    requires s'.jobs.Keys == s.jobs.Keys
    requires s'.history == LastNoted(s.history, s.holds[w].id, o)
    requires forall k :: k in s.jobs && k != s.holds[w].id ==> s'.jobs[k] == s.jobs[k]
    requires IdleRow(s'.jobs[s.holds[w].id], s'.history[s.holds[w].id], s'.now)
    ensures Leased(s')
  {
    EndKeepsOthers(s, s', w);
    NotingKeepsChain(s.history[s.holds[w].id], o);
  }

  lemma EndKeepsLeases(lt: Collation, s: System, step: Step, w: nat)
    requires Leased(s) && Enabled(s, step) && Ends(step, w)
    ensures Leased(Apply(lt, s, step))
  {
    var s', id := Apply(lt, s, step), s.holds[w].id;
    ClaimsCountedStep(lt, s, step);
    WaitsBoundedStep(lt, s, step);
    EndedRow(lt, s, step, w);
    EndedIdle(lt, s, step, w);
    var o :| s'.history == LastNoted(s.history, id, o);
    EndRebuilds(s, s', w, o);
  }

  lemma StepKeepsLeases(lt: Collation, s: System, step: Step)
    requires Leased(s) && Enabled(s, step) && Respects(s, step)
    ensures Leased(Apply(lt, s, step))
  {
    match step
    case Tick(to) => TickKeepsLeases(lt, s, to);
    case Enqueue(ids) => EnqueueKeepsLeases(lt, s, ids);
    case Take(w) => TakeKeepsLeases(lt, s, w);
    case Complete(w) => EndKeepsLeases(lt, s, step, w);
    case Fail(w, _) => EndKeepsLeases(lt, s, step, w);
    case Crash(w) => EndKeepsLeases(lt, s, step, w);
  }

  lemma {:induction false} LeasesKept(lt: Collation, s: System, steps: seq<Step>)
    requires Leased(s) && Legal(lt, s, steps) && Respectful(lt, s, steps)
    ensures Leased(Run(lt, s, steps))
    decreases steps
  {
    if steps != [] {
      StepKeepsLeases(lt, s, steps[0]);
      LeasesKept(lt, Apply(lt, s, steps[0]), steps[1..]);
    }
  }

  /** In every state of every run that respects the lease, no two workers hold one job, and a
      holder's attempt number, and the moment of its claim, are the row's. */
  lemma LeaseExclusivity(lt: Collation, t0: int, steps: seq<Step>)
    requires Legal(lt, Start(t0), steps) && Respectful(lt, Start(t0), steps)
    ensures var s := Run(lt, Start(t0), steps);
      && Exclusive(s.holds)
      && forall w :: w in s.holds ==>
        var h := s.holds[w];
        && h.id in s.jobs && s.jobs[h.id].status == Pending
        && s.jobs[h.id].attempts == h.attempt
        && s.jobs[h.id].runAfter == h.since + LEASE > s.now
  {
    LeasesKept(lt, Start(t0), steps);
    var s := Run(lt, Start(t0), steps);
    assert forall w :: w in s.holds ==> HeldRow(s, s.holds[w]);
  }

  ghost predicate CrashFree(h: seq<Attempt>) {
    forall i :: 0 <= i < |h| ==> h[i].outcome != Lost
  }

  /** Five failures in a row, each followed by the next claim no sooner than its backoff, take at
      least 2 + 4 + 8 + 16 minutes. */
  lemma FiveFailuresTakeHalfAnHour(h: seq<Attempt>)
    requires Chained(h) && CrashFree(h) && |h| == MAX_ATTEMPTS
    requires Last(h).outcome.FailedAt? && Last(h).claimedAt <= Last(h).outcome.at
    ensures Last(h).outcome.at >= h[0].claimedAt + 30 * MINUTE
  {
    assert Linked(h, 0) && Linked(h, 1) && Linked(h, 2) && Linked(h, 3);
    assert Backoff(2) == 4 * MINUTE;
    assert Backoff(4) == 16 * MINUTE;
  }

  /** After the k-th claim has failed the next comes 2^k minutes later at the soonest; after it has
      been lost, 15 minutes after it was made; after anything else, never. */
  predicate Spaced(a: Attempt, next: Attempt, k: nat) {
    match a.outcome
    case FailedAt(t, _) => 0 < k < 5 && next.claimedAt >= t + [1, 2, 4, 8, 16][k] * 60_000_000
    case Lost => next.claimedAt >= a.claimedAt + 15 * 60_000_000
    case _ => false
  }

  /** A finished row tells when and how its last claim ended. */
  predicate EndRecorded(j: Job, h: seq<Attempt>) {
    match j.status
    case Pending => true
    case Completed =>
      h != [] && j.finishedAt.Some? && Last(h).outcome == CompletedAt(j.finishedAt.value) && j.lastError == ""
    case Failed => h != [] && j.finishedAt.Some? && Last(h).outcome == FailedAt(j.finishedAt.value, j.lastError)
  }

  /** In every run that respects the lease: a job is marked failed only after five claims or more;
      without crashes no job is ever claimed a sixth time and failing takes half an hour at least; a
      failed claim is followed by the next no sooner than its backoff, a lost one no sooner than the
      end of its lease; and a finished row carries the time and the error of its end. */
  lemma RetryAccounting(lt: Collation, t0: int, steps: seq<Step>, id: Bytes)
    requires Legal(lt, Start(t0), steps) && Respectful(lt, Start(t0), steps)
    requires id in Run(lt, Start(t0), steps).jobs
    ensures var s := Run(lt, Start(t0), steps);
      && id in s.history
      && var h := s.history[id];
      && |h| == s.jobs[id].attempts
      && (s.jobs[id].status == Failed ==> |h| >= 5)
      && (CrashFree(h) ==> |h| <= 5)
      && (s.jobs[id].status == Failed && CrashFree(h) ==>
          |h| == 5 && Last(h).outcome.FailedAt? && Last(h).outcome.at >= h[0].claimedAt + 30 * MINUTE)
      && (forall k :: 0 <= k < |h| - 1 ==> Spaced(h[k], h[k + 1], k + 1))
      && EndRecorded(s.jobs[id], h)
  {
    LeasesKept(lt, Start(t0), steps);
    var s := Run(lt, Start(t0), steps);
    var h := s.history[id];
    assert Chained(h);
    forall k | 0 <= k < |h| - 1
      ensures Spaced(h[k], h[k + 1], k + 1)
    {
      assert Linked(h, k);
      BackoffInMinutes(k + 1);
    }
    if CrashFree(h) && |h| >= 2 {
      assert Linked(h, |h| - 2);
    }
    if s.jobs[id].status != Pending {
      FinishedRowIsIdle(s, id);
      if s.jobs[id].status == Failed && CrashFree(h) {
        FiveFailuresTakeHalfAnHour(h);
      }
    }
  }

  lemma FinishedRowIsIdle(s: System, id: Bytes)
    requires Leased(s) && id in s.jobs && s.jobs[id].status != Pending
    ensures IdleRow(s.jobs[id], s.history[id], s.now)
  {
    forall w | w in s.holds
      ensures s.holds[w].id != id
    {
      assert HeldRow(s, s.holds[w]);
    }
  }

  // ------------------------------------------------------------------ why both hypotheses are there

  lemma OnlyJobIsNext(lt: Collation, jobs: Jobs, now: int, id: Bytes)
    requires jobs.Keys == {id} && Ready(jobs[id], now)
    ensures Next(lt, jobs, now) == Some(id)
  {
    assert IsFirst(lt, jobs, now, id);
  }

  /** A worker that outlives its lease shares the job with whoever claims it next. */
  lemma OutlivedLeaseIsShared(lt: Collation, id: Bytes)
    ensures var steps := [Enqueue({id}), Take(0), Tick(LEASE), Take(1)];
      Legal(lt, Start(0), steps) && !Exclusive(Run(lt, Start(0), steps).holds)
  {
    var s1 := Apply(lt, Start(0), Enqueue({id}));
    OnlyJobIsNext(lt, s1.jobs, 0, id);
    var s2 := Apply(lt, s1, Take(0));
    var s3 := Apply(lt, s2, Tick(LEASE));
    OnlyJobIsNext(lt, s3.jobs, LEASE, id);
    var s4 := Apply(lt, s3, Take(1));
    assert s4.holds[0].id == s4.holds[1].id == id;
    RunFour(lt, Start(0), Enqueue({id}), Take(0), Tick(LEASE), Take(1));
  }

  /** So does a worker whose job is enqueued anew while it holds it. */
  lemma ReenqueuedHoldIsShared(lt: Collation, id: Bytes)
    ensures var steps := [Enqueue({id}), Take(0), Enqueue({id}), Take(1)];
      Legal(lt, Start(0), steps) && !Exclusive(Run(lt, Start(0), steps).holds)
  {
    var s1 := Apply(lt, Start(0), Enqueue({id}));
    OnlyJobIsNext(lt, s1.jobs, 0, id);
    var s2 := Apply(lt, s1, Take(0));
    var s3 := Apply(lt, s2, Enqueue({id}));
    OnlyJobIsNext(lt, s3.jobs, 0, id);
    var s4 := Apply(lt, s3, Take(1));
    assert s4.holds[0].id == s4.holds[1].id == id;
    RunFour(lt, Start(0), Enqueue({id}), Take(0), Enqueue({id}), Take(1));
  }

  lemma RunFour(lt: Collation, s: System, a: Step, b: Step, c: Step, d: Step)
    requires Enabled(s, a)
    requires Enabled(Apply(lt, s, a), b)
    requires Enabled(Apply(lt, Apply(lt, s, a), b), c)
    requires Enabled(Apply(lt, Apply(lt, Apply(lt, s, a), b), c), d)
    ensures Legal(lt, s, [a, b, c, d])
    ensures Run(lt, s, [a, b, c, d]) == Apply(lt, Apply(lt, Apply(lt, Apply(lt, s, a), b), c), d)
  {
    var s1 := Apply(lt, s, a);
    var s2 := Apply(lt, s1, b);
    var s3 := Apply(lt, s2, c);
    RunCons(lt, s3, d, []);
    RunCons(lt, s2, c, [d]);
    RunCons(lt, s1, b, [c, d]);
    RunCons(lt, s, a, [b, c, d]);
    assert [d] + [] == [d] && [c] + [d] == [c, d] && [b] + [c, d] == [b, c, d] && [a] + [b, c, d] == [a, b, c, d];
  }

  lemma RunCons(lt: Collation, s: System, step: Step, rest: seq<Step>)
    requires Enabled(s, step) && Legal(lt, Apply(lt, s, step), rest)
    ensures Legal(lt, s, [step] + rest)
    ensures Run(lt, s, [step] + rest) == Run(lt, Apply(lt, s, step), rest)
  {
    assert ([step] + rest)[1..] == rest;
  }
}
