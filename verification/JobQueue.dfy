/**
 The rows of `ingestion_jobs` under many workers: claiming with row locks, running
 the connector, and the unguarded write of the final status, as interleaved steps.
 Worker identities are the model's own; the application only records a process id.
 */
module JobQueue {
  type JobId = nat
  type Worker = nat

  datatype Status = Pending | Running | Succeeded | Failed

  /** Where a worker is with the job it is on. */
  datatype Phase =
    | Idle
    | Locked(job: JobId)            // claim transaction open: the row is locked, nothing committed
    | Claimed(job: JobId)           // claim committed, connector not yet started
    | Started(job: JobId)           // connector running
    | Ran(job: JobId, ok: bool)     // connector done; `ok` says which status is to be written

  datatype Run = Run(job: JobId, worker: Worker)

  datatype Queue = Queue(
    jobs: map<JobId, Status>,             // committed rows
    history: map<JobId, seq<Status>>,     // committed status writes of every job that ever was
    locks: map<JobId, Worker>,            // row locks of open transactions
    phases: map<Worker, Phase>,           // absent means idle
    claims: map<JobId, Worker>,           // whose claim of a job was committed
    runs: seq<Run>)                       // connector executions in order of their starts, cut short or not

  const EMPTY_QUEUE := Queue(map[], map[], map[], map[], map[], [])

  /**
   What becomes of the transaction that writes the final status. In `DoneThenRaised` it
   commits and an exception follows: its acknowledgement is lost, or the log line raises.
   */
  datatype Outcome = Done | RolledBack | DoneThenRaised

  datatype Step =
    | Create(job: JobId)
    | Delete(job: JobId)
    | Lock(worker: Worker, job: JobId)
    | CommitClaim(worker: Worker)
    | Abort(worker: Worker)               // an exception or a crash: the open transaction rolls back
    | Begin(worker: Worker)               // the connector starts
    | End(worker: Worker, ok: bool)       // it returns or raises
    | Finish(worker: Worker, outcome: Outcome)

  /** The worker has committed its claim and not yet let go of the job. */
  predicate OnJob(phase: Phase) {
    phase.Claimed? || phase.Started? || phase.Ran?
  }

  function PhaseOf(q: Queue, w: Worker): Phase {
    if w in q.phases then q.phases[w] else Idle
  }

  /** Pending and not locked: what `FOR UPDATE SKIP LOCKED` can return. */
  predicate Claimable(q: Queue, j: JobId) {
    j in q.jobs && q.jobs[j] == Pending && j !in q.locks
  }

  predicate CanStep(q: Queue, step: Step) {
    match step
    case Create(j) => j !in q.history
    case Delete(j) => j in q.jobs && j !in q.locks
    case Lock(w, j) => PhaseOf(q, w) == Idle && Claimable(q, j)
    case CommitClaim(w) => PhaseOf(q, w).Locked? && PhaseOf(q, w).job in q.history
    case Abort(w) => true
    case Begin(w) => PhaseOf(q, w).Claimed?
    case End(w, _) => PhaseOf(q, w).Started?
    case Finish(w, _) => PhaseOf(q, w).Ran?
  }

  function Write(q: Queue, j: JobId, status: Status): Queue
    requires j in q.history
  {
    q.(jobs := q.jobs[j := status], history := q.history[j := q.history[j] + [status]])
  }

  function Take(q: Queue, step: Step): Queue
    requires CanStep(q, step)
  {
    match step
    case Create(j) => q.(jobs := q.jobs[j := Pending], history := q.history[j := [Pending]])
    case Delete(j) => q.(jobs := q.jobs - {j})
    case Lock(w, j) => q.(locks := q.locks[j := w], phases := q.phases[w := Locked(j)])
    case CommitClaim(w) =>
      var j := q.phases[w].job;
      Write(q, j, Running).(locks := q.locks - {j}, phases := q.phases[w := Claimed(j)], claims := q.claims[j := w])
    case Abort(w) =>
      q.(locks := if PhaseOf(q, w).Locked? then q.locks - {q.phases[w].job} else q.locks,
         phases := q.phases[w := Idle])
    case Begin(w) =>
      var j := q.phases[w].job;
      q.(runs := q.runs + [Run(j, w)], phases := q.phases[w := Started(j)])
    case End(w, ok) => q.(phases := q.phases[w := Ran(q.phases[w].job, ok)])
    case Finish(w, outcome) =>
      var j, ok := q.phases[w].job, q.phases[w].ok;
      var written :=
        if outcome == RolledBack || j !in q.jobs || j !in q.history then q
        else Write(q, j, if ok then Succeeded else Failed);
      written.(phases := q.phases[w := if ok && outcome != Done then Ran(j, false) else Idle])
  }

  // ---------------------------------------------------------------- at most one run per job

  predicate HasRun(q: Queue, j: JobId) {
    exists r | r in q.runs :: r.job == j
  }

  /** The lock on `j`, if there is one, is held by a worker about to claim it. */
  predicate LockHeld(q: Queue, j: JobId) {
    j in q.locks ==> j in q.jobs && q.jobs[j] == Pending && PhaseOf(q, q.locks[j]) == Locked(j)
  }

  predicate LockOwned(q: Queue, w: Worker) {
    PhaseOf(q, w).Locked? ==> q.phases[w].job in q.locks && q.locks[q.phases[w].job] == w
  }

  ghost predicate LocksHeld(q: Queue) {
    (forall j | j in q.locks :: LockHeld(q, j)) && (forall w | w in q.phases :: LockOwned(q, w))
  }

  /** A job is pending exactly until a claim of it commits. */
  ghost predicate ClaimsRecorded(q: Queue) {
    && q.jobs.Keys <= q.history.Keys && q.claims.Keys <= q.history.Keys
    && (forall j | j in q.jobs :: q.jobs[j] == Pending <==> j !in q.claims)
  }

  /** Whoever is on a job owns its claim and has not run it while it is merely claimed. */
  predicate OnOwnJob(q: Queue, w: Worker) {
    w in q.phases && OnJob(q.phases[w]) ==>
      && q.phases[w].job in q.claims && q.claims[q.phases[w].job] == w
      && (q.phases[w].Claimed? ==> !HasRun(q, q.phases[w].job))
  }

  /** Every run was the claimant's, and no job was run twice. */
  ghost predicate RunOnce(q: Queue) {
    && (forall r | r in q.runs :: r.job in q.claims && q.claims[r.job] == r.worker)
    && (forall i, k | 0 <= i < k < |q.runs| :: q.runs[i].job != q.runs[k].job)
  }

  ghost predicate Exclusive(q: Queue) {
    LocksHeld(q) && ClaimsRecorded(q) && (forall w :: OnOwnJob(q, w)) && RunOnce(q)
  }

  lemma StepKeepsLockHeld(q: Queue, step: Step, j: JobId)
    requires LocksHeld(q) && ClaimsRecorded(q) && CanStep(q, step)
    requires step.Finish? ==> OnOwnJob(q, step.worker)
    ensures LockHeld(Take(q, step), j)
  {
    assert LockHeld(q, j);
  }

  lemma StepKeepsLockOwned(q: Queue, step: Step, w: Worker)
    requires LocksHeld(q) && CanStep(q, step)
    ensures LockOwned(Take(q, step), w)
  {
    assert LockOwned(q, w);
  }

  lemma StepKeepsLocks(q: Queue, step: Step)
    requires LocksHeld(q) && ClaimsRecorded(q) && CanStep(q, step)
    requires step.Finish? ==> OnOwnJob(q, step.worker)
    ensures LocksHeld(Take(q, step))
  {
    forall j ensures LockHeld(Take(q, step), j) { StepKeepsLockHeld(q, step, j); }
    forall w ensures LockOwned(Take(q, step), w) { StepKeepsLockOwned(q, step, w); }
  }

  lemma StepKeepsClaims(q: Queue, step: Step)
    requires LocksHeld(q) && ClaimsRecorded(q) && CanStep(q, step)
    requires step.Finish? ==> OnOwnJob(q, step.worker)
    ensures ClaimsRecorded(Take(q, step))
  {
  }

  lemma StepKeepsOwnJob(q: Queue, step: Step, v: Worker)
    requires LocksHeld(q) && ClaimsRecorded(q) && RunOnce(q) && CanStep(q, step)
    requires OnOwnJob(q, v) && (step.Begin? ==> OnOwnJob(q, step.worker))
    ensures OnOwnJob(Take(q, step), v)
  {
  }

  lemma StepKeepsRunOnce(q: Queue, step: Step)
    requires LocksHeld(q) && ClaimsRecorded(q) && RunOnce(q) && CanStep(q, step)
    requires step.Begin? ==> OnOwnJob(q, step.worker)
    ensures RunOnce(Take(q, step))
  {
    var after := Take(q, step);
    forall r | r in after.runs ensures r.job in after.claims && after.claims[r.job] == r.worker {
      assert r in q.runs || (step.Begin? && r == Run(q.phases[step.worker].job, step.worker));
    }
    if step.Begin? {
      forall i | 0 <= i < |q.runs| ensures q.runs[i].job != q.phases[step.worker].job {
        assert q.runs[i] in q.runs;
      }
    }
  }

  /** No interleaving lets a second worker onto a job, or any worker twice. */
  lemma StepKeepsExclusive(q: Queue, step: Step)
    requires Exclusive(q) && CanStep(q, step)
    ensures Exclusive(Take(q, step))
  {
    if step.Finish? || step.Begin? { assert OnOwnJob(q, step.worker); }
    StepKeepsLocks(q, step);
    StepKeepsClaims(q, step);
    StepKeepsRunOnce(q, step);
    forall v ensures OnOwnJob(Take(q, step), v) {
      assert OnOwnJob(q, v);
      StepKeepsOwnJob(q, step, v);
    }
  }

  // ---------------------------------------------------------------- the life of a status

  predicate Life(h: seq<Status>, overwritten: bool) {
    || h == [Pending] || h == [Pending, Running]
    || h == [Pending, Running, Succeeded] || h == [Pending, Running, Failed]
    || (overwritten && h == [Pending, Running, Succeeded, Failed])
  }

  /**
   The committed statuses of `j`: pending, running, then succeeded or failed. With
   `lossy`, a success that an exception followed may be overwritten once.
   */
  predicate Forward(q: Queue, j: JobId, lossy: bool) {
    j in q.history ==>
      && Life(q.history[j], lossy)
      && (q.history[j] == [Pending] <==> j !in q.claims)
      && (j in q.jobs ==> q.jobs[j] == q.history[j][|q.history[j]| - 1])
  }

  /** What the job of a worker that has claimed or run it has been through. */
  predicate WorkerForward(q: Queue, w: Worker, lossy: bool) {
    w in q.phases && OnJob(q.phases[w]) ==>
      && q.phases[w].job in q.history
      && var h := q.history[q.phases[w].job];
      || h == [Pending, Running]
      || (lossy && q.phases[w] == Ran(q.phases[w].job, false) && h == [Pending, Running, Succeeded])
  }

  ghost predicate StatusesForward(q: Queue, lossy: bool) {
    (forall j :: Forward(q, j, lossy)) && (forall w :: WorkerForward(q, w, lossy))
  }

  /** The step in which a committed status is followed by an exception. */
  predicate RaisesAfter(step: Step) {
    step.Finish? && step.outcome == DoneThenRaised
  }

  lemma FinishKeepsForward(q: Queue, w: Worker, outcome: Outcome, lossy: bool, j: JobId)
    requires ClaimsRecorded(q) && OnOwnJob(q, w) && CanStep(q, Finish(w, outcome))
    requires Forward(q, j, lossy) && WorkerForward(q, w, lossy)
    ensures Forward(Take(q, Finish(w, outcome)), j, lossy)
  {
  }

  lemma ClaimKeepsForward(q: Queue, w: Worker, lossy: bool, j: JobId)
    requires ClaimsRecorded(q) && LocksHeld(q) && CanStep(q, CommitClaim(w)) && Forward(q, j, lossy)
    ensures Forward(Take(q, CommitClaim(w)), j, lossy)
  {
  }

  lemma StepKeepsForward(q: Queue, step: Step, lossy: bool, j: JobId)
    requires Exclusive(q) && CanStep(q, step) && Forward(q, j, lossy)
    requires step.CommitClaim? || step.Finish? ==> WorkerForward(q, step.worker, lossy) && OnOwnJob(q, step.worker)
    ensures Forward(Take(q, step), j, lossy)
  {
    match step {
      case Finish(w, outcome) => FinishKeepsForward(q, w, outcome, lossy, j);
      case CommitClaim(w) => ClaimKeepsForward(q, w, lossy, j);
      case _ =>
    }
  }

  lemma StepKeepsWorkerForward(q: Queue, step: Step, lossy: bool, v: Worker)
    requires Exclusive(q) && CanStep(q, step) && WorkerForward(q, v, lossy) && OnOwnJob(q, v)
    requires step.CommitClaim? ==> Forward(q, PhaseOf(q, step.worker).job, lossy)
    requires step.Finish? ==> OnOwnJob(q, step.worker)
    requires lossy || !RaisesAfter(step)
    ensures WorkerForward(Take(q, step), v, lossy)
  {
  }

  lemma StepKeepsStatusesForward(q: Queue, step: Step, lossy: bool)
    requires Exclusive(q) && StatusesForward(q, lossy) && CanStep(q, step) && (lossy || !RaisesAfter(step))
    ensures StatusesForward(Take(q, step), lossy)
  {
    if step.Finish? || step.CommitClaim? { assert WorkerForward(q, step.worker, lossy) && OnOwnJob(q, step.worker); }
    if step.CommitClaim? { assert Forward(q, PhaseOf(q, step.worker).job, lossy); }
    forall j ensures Forward(Take(q, step), j, lossy) {
      assert Forward(q, j, lossy);
      StepKeepsForward(q, step, lossy, j);
    }
    forall v ensures WorkerForward(Take(q, step), v, lossy) {
      assert WorkerForward(q, v, lossy) && OnOwnJob(q, v);
      StepKeepsWorkerForward(q, step, lossy, v);
    }
  }

  predicate Terminal(status: Status) {
    status == Succeeded || status == Failed
  }

  /** A terminal status is overwritten exactly by the failure written behind a success that an exception followed. */
  lemma TerminalOverwrittenIff(q: Queue, step: Step, j: JobId)
    requires Exclusive(q) && StatusesForward(q, true) && CanStep(q, step)
    requires j in q.jobs && Terminal(q.jobs[j]) && j in Take(q, step).jobs
    ensures Take(q, step).jobs[j] != q.jobs[j] <==>
            && step.Finish? && PhaseOf(q, step.worker) == Ran(j, false)
            && step.outcome != RolledBack && q.jobs[j] == Succeeded
  {
    assert Forward(q, j, true);
    if step.Finish? || step.CommitClaim? {
      assert WorkerForward(q, step.worker, true) && OnOwnJob(q, step.worker);
      assert Forward(q, PhaseOf(q, step.worker).job, true);
    }
  }

  /** That situation comes about exactly when the success is committed and an exception follows. */
  lemma OverwriteArmedIff(q: Queue, w: Worker, outcome: Outcome)
    requires Exclusive(q) && StatusesForward(q, true) && CanStep(q, Finish(w, outcome)) && q.phases[w].ok
    requires q.phases[w].job in q.jobs
    ensures var after, j := Take(q, Finish(w, outcome)), q.phases[w].job;
      PhaseOf(after, w) == Ran(j, false) && after.jobs[j] == Succeeded <==> outcome == DoneThenRaised
  {
    assert WorkerForward(q, w, true);
    assert Forward(q, q.phases[w].job, true);
  }

  /** Whenever a worker has run a job well, an exception behind the commit turns its success into a failure. */
  lemma SuccessCanBeOverwritten(q: Queue, w: Worker)
    requires Exclusive(q) && StatusesForward(q, false)
    requires PhaseOf(q, w).Ran? && q.phases[w].ok && q.phases[w].job in q.jobs
    ensures CanStep(q, Finish(w, DoneThenRaised))
    ensures var mid := Take(q, Finish(w, DoneThenRaised));
      && CanStep(mid, Finish(w, Done))
      && var after, j := Take(mid, Finish(w, Done)), q.phases[w].job;
      j in after.history && after.history[j] == [Pending, Running, Succeeded, Failed]
  {
    assert WorkerForward(q, w, false);
    assert Forward(q, q.phases[w].job, false);
  }

  // ---------------------------------------------------------------- one job from claim to finish

  /** Two steps taken one after the other are possible, and this is where they lead. */
  ghost predicate Leads(q: Queue, first: Step, second: Step, after: Queue) {
    CanStep(q, first) && CanStep(Take(q, first), second) && Take(Take(q, first), second) == after
  }

  /** Any idle worker may claim any pending row that is not locked, and when that commits the row is its own. */
  lemma ClaimCommits(q: Queue, w: Worker, j: JobId)
    requires Exclusive(q) && StatusesForward(q, true)
    requires PhaseOf(q, w) == Idle && j in q.jobs && q.jobs[j] == Pending && j !in q.locks
    ensures Leads(q, Lock(w, j), CommitClaim(w),
                  q.(jobs := q.jobs[j := Running], history := q.history[j := [Pending, Running]],
                     phases := q.phases[w := Claimed(j)], claims := q.claims[j := w]))
  {
    assert Forward(q, j, true);
    var mid := Take(q, Lock(w, j));
    assert j in q.jobs.Keys && q.history[j] == [Pending] && q.history[j] + [Running] == [Pending, Running];
    assert mid.locks - {j} == q.locks;
    assert mid.phases[w := Claimed(j)] == q.phases[w := Claimed(j)];
    assert PhaseOf(mid, w) == Locked(j) && CanStep(mid, CommitClaim(w));
  }

  /** The connector then starts once, and what it comes to is what is to be written. */
  lemma ConnectorRuns(q: Queue, w: Worker, j: JobId, ok: bool)
    requires PhaseOf(q, w) == Claimed(j)
    ensures Leads(q, Begin(w), End(w, ok), q.(runs := q.runs + [Run(j, w)], phases := q.phases[w := Ran(j, ok)]))
  {
    var mid := Take(q, Begin(w));
    assert mid.phases[w := Ran(j, ok)] == q.phases[w := Ran(j, ok)];
  }

  /** A run that went well is written as succeeded, one that did not as failed, and the worker is free again. */
  lemma OutcomeWritten(q: Queue, w: Worker, j: JobId, ok: bool)
    requires Exclusive(q) && PhaseOf(q, w) == Ran(j, ok) && j in q.jobs
    ensures CanStep(q, Finish(w, Done)) && j in q.history
    ensures var status := if ok then Succeeded else Failed;
      Take(q, Finish(w, Done)) ==
      q.(jobs := q.jobs[j := status], history := q.history[j := q.history[j] + [status]], phases := q.phases[w := Idle])
  {
    assert OnOwnJob(q, w);
  }

  /** A success whose write rolls back is written as a failure next, a failure whose write rolls back not at all. */
  lemma WriteRollsBack(q: Queue, w: Worker, j: JobId, ok: bool)
    requires PhaseOf(q, w) == Ran(j, ok)
    ensures CanStep(q, Finish(w, RolledBack))
    ensures Take(q, Finish(w, RolledBack)) == q.(phases := q.phases[w := if ok then Ran(j, false) else Idle])
  {
  }

  /** A worker may crash at any time: its open claim rolls back, and a claim that was committed stays. */
  lemma CrashAnytime(q: Queue, w: Worker)
    requires Exclusive(q)
    ensures CanStep(q, Abort(w))
    ensures var after := Take(q, Abort(w));
      && after.jobs == q.jobs && after.history == q.history && after.claims == q.claims && after.runs == q.runs
      && PhaseOf(after, w) == Idle
      && (forall j :: j in after.locks <==> j in q.locks && q.locks[j] != w)
      && (forall v | v != w :: PhaseOf(after, v) == PhaseOf(q, v))
  {
    assert w in q.phases ==> LockOwned(q, w);
    forall j | j in q.locks && q.locks[j] == w ensures PhaseOf(q, w) == Locked(j) { assert LockHeld(q, j); }
  }

  // ---------------------------------------------------------------- the abstract take-once queue

  datatype TakeOnce = TakeOnce(available: set<JobId>, taken: map<JobId, Worker>)

  function Abstract(q: Queue): TakeOnce {
    TakeOnce((set j | j in q.jobs && q.jobs[j] == Pending), q.claims)
  }

  /** A job is put in, withdrawn, or taken by one worker for good. */
  ghost predicate TakeOnceStep(a: TakeOnce, b: TakeOnce) {
    || b == a
    || (exists j :: j !in a.available && j !in a.taken && b == a.(available := a.available + {j}))
    || (exists j :: j in a.available && b == a.(available := a.available - {j}))
    || (exists j, w: Worker :: TakenBy(a, b, j, w))
  }

  predicate TakenBy(a: TakeOnce, b: TakeOnce, j: JobId, w: Worker) {
    j in a.available && j !in a.taken && b == TakeOnce(a.available - {j}, a.taken[j := w])
  }

  /** In it the pending rows are available, and a job is taken by the worker whose claim of it committed. */
  ghost predicate Represents(q: Queue, a: TakeOnce) {
    a.taken == q.claims && forall j :: j in a.available <==> j in q.jobs && q.jobs[j] == Pending
  }

  /** Every step of the queue is a step of the take-once queue, where only the commit of a claim takes a job. */
  lemma StepRefinesTakeOnce(q: Queue, step: Step)
    requires Exclusive(q) && CanStep(q, step)
    ensures Represents(q, Abstract(q)) && TakeOnceStep(Abstract(q), Abstract(Take(q, step)))
    ensures step.CommitClaim? ==>
      TakenBy(Abstract(q), Abstract(Take(q, step)), PhaseOf(q, step.worker).job, step.worker)
    ensures !step.CommitClaim? ==> Abstract(Take(q, step)).taken == Abstract(q).taken
  {
    var a, b := Abstract(q), Abstract(Take(q, step));
    match step {
      case Create(j) => assert b == a.(available := a.available + {j});
      case Delete(j) =>
        assert b.available == a.available - {j};
        if j !in a.available { assert b == a; }
      case CommitClaim(w) =>
        var j := q.phases[w].job;
        assert TakenBy(a, b, j, w);
      case Finish(w, _) =>
        assert OnOwnJob(q, w);
        assert b == a;
      case _ => assert b == a;
    }
  }
}
