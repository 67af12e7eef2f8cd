/** No job waits behind an endless stream of others. */
module Overtaking {
  import opened Text
  import opened Orders
  import opened Queue
  import opened LeaseProtocol

  /** Pending, held by no one, and due. */
  predicate Waiting(s: System, id: Bytes) {
    id in s.jobs && s.jobs[id].status == Pending && s.jobs[id].runAfter < s.now && !Held(s.holds, id)
  }

  /** The jobs that come before `id` in claim order. */
  function Ahead(lt: Collation, jobs: Jobs, id: Bytes): set<Bytes>
    requires id in jobs
  {
    set o | o in jobs && o != id && jobs[o].status == Pending && Before(lt, jobs, o, id)
  }

  /** The step claims the job `id`. */
  ghost predicate Claims(lt: Collation, s: System, step: Step, id: Bytes) {
    step.Take? && Next(lt, s.jobs, s.now) == Some(id)
  }

  /** Any step that neither claims nor enqueues a waiting job leaves it waiting, with no more jobs
      ahead of it; a claim, which then is of another job, takes one away. */
  lemma StepShrinksAhead(lt: Collation, s: System, step: Step, id: Bytes)
    requires StrictTotal(lt) && Waiting(s, id) && Enabled(s, step)
    requires !Claims(lt, s, step, id) && (step.Enqueue? ==> id !in step.ids)
    ensures var s' := Apply(lt, s, step);
      && Waiting(s', id) && s'.jobs[id] == s.jobs[id]
      && Ahead(lt, s'.jobs, id) <= Ahead(lt, s.jobs, id)
      && (step.Take? ==> Ahead(lt, s'.jobs, id) < Ahead(lt, s.jobs, id))
  {
    match step
    case Tick(_) =>
    case Enqueue(_) =>
    case Take(w) => TakeShrinksAhead(lt, s, w, id);
    case Complete(w) => EndShrinksAhead(lt, s, step, w, id);
    case Fail(w, _) => EndShrinksAhead(lt, s, step, w, id);
    case Crash(w) => EndShrinksAhead(lt, s, step, w, id);
  }

  lemma TakeShrinksAhead(lt: Collation, s: System, w: nat, id: Bytes)
    requires StrictTotal(lt) && Waiting(s, id) && Enabled(s, Take(w))
    requires !Claims(lt, s, Take(w), id)
    ensures var s' := Apply(lt, s, Take(w));
      && Waiting(s', id) && s'.jobs[id] == s.jobs[id]
      && Ahead(lt, s'.jobs, id) < Ahead(lt, s.jobs, id)
  {
    assert Ready(s.jobs[id], s.now);
    ReadyHasFirst(lt, s.jobs, s.now);
    var s', f := Apply(lt, s, Take(w)), Next(lt, s.jobs, s.now).value;
    assert IsFirst(lt, s.jobs, s.now, f) && f != id;
    assert f in Ahead(lt, s.jobs, id);
    assert f !in Ahead(lt, s'.jobs, id);
    forall v | v in s'.holds
      ensures s'.holds[v].id != id
    {
      assert v != w ==> s.holds[v] == s'.holds[v];
    }
  }

  lemma EndShrinksAhead(lt: Collation, s: System, step: Step, w: nat, id: Bytes)
    requires Waiting(s, id) && Enabled(s, step) && Ends(step, w)
    ensures var s' := Apply(lt, s, step);
      && Waiting(s', id) && s'.jobs[id] == s.jobs[id]
      && Ahead(lt, s'.jobs, id) <= Ahead(lt, s.jobs, id)
  {
    assert s.holds[w].id != id;
    if step.Fail? && s.holds[w].attempt < MAX_ATTEMPTS {
      BackoffAtMost(s.holds[w].attempt);
    }
  }

  function Takes(steps: seq<Step>): nat {
    if steps == [] then 0 else (if steps[0].Take? then 1 else 0) + Takes(steps[1..])
  }

  predicate Enqueues(steps: seq<Step>, id: Bytes) {
    exists i :: 0 <= i < |steps| && steps[i].Enqueue? && id in steps[i].ids
  }

  /** Some step of the run claims the job. */
  ghost predicate GetsClaimed(lt: Collation, s: System, steps: seq<Step>, id: Bytes)
    requires Legal(lt, s, steps)
    decreases steps
  {
    steps != [] && (Claims(lt, s, steps[0], id) || GetsClaimed(lt, Apply(lt, s, steps[0]), steps[1..], id))
  }

  /** In every run, lease respected or not: a job that is due and held by no one is claimed after at
      most as many other claims as there are jobs before it now, whatever is claimed, failed,
      completed, abandoned or enqueued meanwhile. */
  lemma {:induction false} BoundedOvertaking(lt: Collation, s: System, steps: seq<Step>, id: Bytes)
    requires StrictTotal(lt) && Legal(lt, s, steps) && Waiting(s, id) && !Enqueues(steps, id)
    ensures Takes(steps) > |Ahead(lt, s.jobs, id)| ==> GetsClaimed(lt, s, steps, id)
    ensures !GetsClaimed(lt, s, steps, id) ==>
      var s' := Run(lt, s, steps);
      Waiting(s', id) && Ahead(lt, s'.jobs, id) <= Ahead(lt, s.jobs, id)
    decreases steps
  {
    if steps != [] && !Claims(lt, s, steps[0], id) {
      var s1 := Apply(lt, s, steps[0]);
      assert steps[0].Enqueue? ==> id !in steps[0].ids;
      StepShrinksAhead(lt, s, steps[0], id);
      assert !Enqueues(steps[1..], id) by {
        assert forall i :: 0 <= i < |steps[1..]| ==> steps[1..][i] == steps[i + 1];
      }
      BoundedOvertaking(lt, s1, steps[1..], id);
      Subset(Ahead(lt, s1.jobs, id), Ahead(lt, s.jobs, id));
    }
  }

  lemma Subset(a: set<Bytes>, b: set<Bytes>)
    requires a <= b
    ensures |a| <= |b|
    ensures a < b ==> |a| < |b|
  {
    assert b == a + (b - a);
    if a < b {
      assert b - a != {};
    }
  }
}
