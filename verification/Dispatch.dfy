/**
 Workers on either backend: one that polls the job table, or a Kafka consumer that
 polls a message, handles it and then asks for its offset to be committed, with
 rebalancing, crashes and redelivery. Every run drives the job queue by its own steps.
 */
module Dispatch {
  import opened JobQueue
  import opened Prelude

  datatype Message = JobMessage(job: JobId) | Unparseable

  datatype Place = Place(partition: nat, offset: nat)

  /** The message a consumer is on, and whether its handler has returned or raised. */
  datatype Delivery = Delivery(at: Place, attempted: bool)

  datatype Bus = Bus(
    topic: map<nat, seq<Message>>,
    committed: map<nat, nat>,           // offset each partition is committed up to
    owners: map<nat, Worker>,           // partition assignment
    positions: map<nat, nat>,           // next offset the owner polls
    deliveries: map<Worker, Delivery>,
    attempts: set<Place>,               // messages whose handler has returned or raised
    requests: set<Place>)               // asynchronous commits that have been asked for

  datatype System = System(queue: Queue, bus: Bus)

  const START := System(EMPTY_QUEUE, Bus(map[], map[], map[], map[], map[], {}, {}))

  datatype Move =
    | Row(step: Step)                       // the API creates a job row; a cascade deletes one
    | ClaimNext(worker: Worker, job: JobId) // table backend: some claimable row is locked
    | ClaimById(worker: Worker)             // Kafka backend: the row the message names is locked
    | Advance(step: Step)                   // the worker goes on with the job it is on
    | Return(worker: Worker)                // the handler returns, or raises and is caught
    | Publish(partition: nat, message: Message)
    | Assign(partition: nat, worker: Worker)
    | Poll(worker: Worker, partition: nat)
    | CommitOffset(worker: Worker)          // asks for the commit and goes on polling
    | OffsetLands(at: Place)                // the broker takes a commit: late, out of order, or never
    | Crash(worker: Worker)

  function Messages(b: Bus, p: nat): seq<Message> {
    if p in b.topic then b.topic[p] else []
  }

  function CommittedUpTo(b: Bus, p: nat): nat {
    if p in b.committed then b.committed[p] else 0
  }

  predicate Handling(b: Bus, w: Worker) {
    w in b.deliveries && !b.deliveries[w].attempted
  }

  /** The job named by the message the worker is handling. */
  function Requested(b: Bus, w: Worker): Option<JobId> {
    if !Handling(b, w) then None else
    var at := b.deliveries[w].at;
    var log := Messages(b, at.partition);
    if at.offset < |log| && log[at.offset].JobMessage? then Some(log[at.offset].job) else None
  }

  /** The step of the job queue a move is, if any. */
  function StepOf(s: System, m: Move): Option<Step> {
    match m
    case Row(step) => Some(step)
    case ClaimNext(w, j) => Some(Lock(w, j))
    case ClaimById(w) => if Requested(s.bus, w).Some? then Some(Lock(w, Requested(s.bus, w).value)) else None
    case Advance(step) => Some(step)
    case Return(w) => Some(Abort(w))
    case Crash(w) => Some(Abort(w))
    case _ => None
  }

  predicate Allowed(s: System, m: Move) {
    && (StepOf(s, m).Some? ==> CanStep(s.queue, StepOf(s, m).value))
    && match m
       case Row(step) => step.Create? || step.Delete?
       case ClaimNext(w, _) => w !in s.bus.deliveries
       case ClaimById(w) => Requested(s.bus, w).Some?
       case Advance(step) => step.CommitClaim? || step.Begin? || step.End? || step.Finish?
       case Return(w) => Handling(s.bus, w) && (PhaseOf(s.queue, w).Ran? ==> !PhaseOf(s.queue, w).ok)
       case Publish(_, _) => true
       case Assign(_, _) => true
       case Poll(w, p) =>
         && PhaseOf(s.queue, w) == Idle && w !in s.bus.deliveries
         && p in s.bus.owners && s.bus.owners[p] == w
         && p in s.bus.positions && s.bus.positions[p] < |Messages(s.bus, p)|
       case CommitOffset(w) => w in s.bus.deliveries && s.bus.deliveries[w].attempted
       case OffsetLands(at) => at in s.bus.requests
       case Crash(_) => true
  }

  function NextBus(b: Bus, m: Move): Bus
    requires m.Poll? ==> m.partition in b.positions
    requires m.Return? || m.CommitOffset? ==> m.worker in b.deliveries
  {
    match m
    case Publish(p, message) => b.(topic := b.topic[p := Messages(b, p) + [message]])
    case Assign(p, w) => b.(owners := b.owners[p := w], positions := b.positions[p := CommittedUpTo(b, p)])
    case Poll(w, p) =>
      b.(positions := b.positions[p := b.positions[p] + 1],
         deliveries := b.deliveries[w := Delivery(Place(p, b.positions[p]), false)])
    case Return(w) =>
      b.(deliveries := b.deliveries[w := b.deliveries[w].(attempted := true)],
         attempts := b.attempts + {b.deliveries[w].at})
    case CommitOffset(w) =>
      var at := b.deliveries[w].at;
      b.(requests := b.requests + {at}, deliveries := b.deliveries - {w})
    case OffsetLands(at) => b.(committed := b.committed[at.partition := at.offset + 1])
    case Crash(w) =>
      b.(deliveries := b.deliveries - {w}, owners := map p | p in b.owners && b.owners[p] != w :: b.owners[p])
    case _ => b
  }

  function Apply(s: System, m: Move): System
    requires Allowed(s, m)
  {
    System(if StepOf(s, m).Some? then Take(s.queue, StepOf(s, m).value) else s.queue, NextBus(s.bus, m))
  }

  function Replay(log: seq<Move>): System
    requires Legal(log)
    decreases |log|, 1
  {
    if log == [] then START else Apply(Replay(log[..|log| - 1]), log[|log| - 1])
  }

  predicate Legal(log: seq<Move>)
    decreases |log|, 0
  {
    log == [] || (Legal(log[..|log| - 1]) && Allowed(Replay(log[..|log| - 1]), log[|log| - 1]))
  }

  // ---------------------------------------------------------------- offsets

  ghost predicate AttemptedBelow(b: Bus, p: nat, n: nat) {
    forall o | 0 <= o < n :: Place(p, o) in b.attempts
  }

  /** What a consumer is on comes after attempted messages only. */
  ghost predicate DeliverySafe(b: Bus, w: Worker) {
    w in b.deliveries ==>
      && AttemptedBelow(b, b.deliveries[w].at.partition, b.deliveries[w].at.offset)
      && (b.deliveries[w].attempted ==> b.deliveries[w].at in b.attempts)
  }

  /** What an owner has polled is attempted, except for the message it is on. */
  ghost predicate PositionSafe(b: Bus, p: nat) {
    p in b.owners && p in b.positions ==>
      forall o | 0 <= o < b.positions[p] :: Place(p, o) in b.attempts || OnIt(b, b.owners[p], Place(p, o))
  }

  predicate OnIt(b: Bus, w: Worker, at: Place) {
    w in b.deliveries && b.deliveries[w].at == at
  }

  ghost predicate OffsetsSafe(b: Bus) {
    && (forall p: nat :: AttemptedBelow(b, p, CommittedUpTo(b, p)))
    && (forall w: Worker :: DeliverySafe(b, w))
    && (forall p: nat :: PositionSafe(b, p))
    && (forall at | at in b.requests :: RequestSafe(b, at))
  }

  /** A commit asked for covers attempted messages only, whenever it lands. */
  ghost predicate RequestSafe(b: Bus, at: Place) {
    AttemptedBelow(b, at.partition, at.offset + 1)
  }

  lemma BusKeepsCommitted(s: System, m: Move, p: nat)
    requires Allowed(s, m) && AttemptedBelow(s.bus, p, CommittedUpTo(s.bus, p))
    requires m.OffsetLands? ==> RequestSafe(s.bus, m.at)
    ensures AttemptedBelow(NextBus(s.bus, m), p, CommittedUpTo(NextBus(s.bus, m), p))
  {
  }

  lemma BusKeepsDelivery(s: System, m: Move, w: Worker)
    requires Allowed(s, m) && DeliverySafe(s.bus, w) && (m.Poll? ==> PositionSafe(s.bus, m.partition))
    ensures DeliverySafe(NextBus(s.bus, m), w)
  {
  }

  lemma BusKeepsPosition(s: System, m: Move, p: nat)
    requires Allowed(s, m) && PositionSafe(s.bus, p) && AttemptedBelow(s.bus, p, CommittedUpTo(s.bus, p))
    requires m.CommitOffset? ==> DeliverySafe(s.bus, m.worker)
    ensures PositionSafe(NextBus(s.bus, m), p)
  {
  }

  lemma BusKeepsRequest(s: System, m: Move, at: Place)
    requires Allowed(s, m) && at in NextBus(s.bus, m).requests
    requires at in s.bus.requests ==> RequestSafe(s.bus, at)
    requires m.CommitOffset? ==> DeliverySafe(s.bus, m.worker)
    ensures RequestSafe(NextBus(s.bus, m), at)
  {
  }

  lemma BusKeepsOffsets(s: System, m: Move)
    requires Allowed(s, m) && OffsetsSafe(s.bus)
    ensures OffsetsSafe(NextBus(s.bus, m))
  {
    if m.CommitOffset? { assert DeliverySafe(s.bus, m.worker); }
    if m.Poll? { assert PositionSafe(s.bus, m.partition); }
    forall at | at in NextBus(s.bus, m).requests ensures RequestSafe(NextBus(s.bus, m), at) {
      BusKeepsRequest(s, m, at);
    }
    forall p: nat
      ensures AttemptedBelow(NextBus(s.bus, m), p, CommittedUpTo(NextBus(s.bus, m), p))
      ensures PositionSafe(NextBus(s.bus, m), p)
    {
      assert AttemptedBelow(s.bus, p, CommittedUpTo(s.bus, p)) && PositionSafe(s.bus, p);
      BusKeepsCommitted(s, m, p);
      BusKeepsPosition(s, m, p);
    }
    forall w: Worker ensures DeliverySafe(NextBus(s.bus, m), w) {
      assert DeliverySafe(s.bus, w);
      BusKeepsDelivery(s, m, w);
    }
  }

  // ---------------------------------------------------------------- every run

  /** No exception follows a committed status in the log. */
  ghost predicate Lossless(log: seq<Move>) {
    forall m | m in log && m.Advance? :: !RaisesAfter(m.step)
  }

  /**
   In every interleaving of workers on either backend, with crashes, rebalances and
   redeliveries: each job's connector is started at most once, and only by the worker
   whose claim committed; statuses only move forward, except that a success that an exception
   followed may be overwritten; and every message below a committed offset
   has had its handler attempted.
   */
  lemma {:induction false} EveryRunIsSafe(log: seq<Move>, lossy: bool)
    requires Legal(log) && (lossy || Lossless(log))
    ensures Exclusive(Replay(log).queue) && StatusesForward(Replay(log).queue, lossy) && OffsetsSafe(Replay(log).bus)
  {
    if log == [] {
    } else {
      var prefix, m := log[..|log| - 1], log[|log| - 1];
      var s := Replay(prefix);
      EveryRunIsSafe(prefix, lossy);
      BusKeepsOffsets(s, m);
      if StepOf(s, m).Some? {
        var step := StepOf(s, m).value;
        assert m in log;
        assert lossy || !RaisesAfter(step);
        StepKeepsExclusive(s.queue, step);
        StepKeepsStatusesForward(s.queue, step, lossy);
      }
    }
  }

  // ---------------------------------------------------------------- messages and the jobs they name

  /** The message `w` is on names the job. */
  ghost predicate Names(b: Bus, w: Worker, j: JobId) {
    && w in b.deliveries
    && var at := b.deliveries[w].at;
    at.partition in b.topic && at.offset < |b.topic[at.partition]| && b.topic[at.partition][at.offset] == JobMessage(j)
  }

  /** A consumer only works on the job its message names. */
  ghost predicate WorksOnNamed(s: System, w: Worker) {
    w in s.bus.deliveries && PhaseOf(s.queue, w) != Idle ==> Names(s.bus, w, PhaseOf(s.queue, w).job)
  }

  /** The Kafka backend locks the row of the very job the message names, and nothing else happens. */
  lemma ClaimByIdLocks(s: System, w: Worker)
    requires Allowed(s, ClaimById(w))
    ensures exists j :: Names(s.bus, w, j) && Claimable(s.queue, j) && Apply(s, ClaimById(w)) ==
              s.(queue := s.queue.(locks := s.queue.locks[j := w], phases := s.queue.phases[w := Locked(j)]))
  {
    var j := Requested(s.bus, w).value;
    assert Names(s.bus, w, j);
    assert Apply(s, ClaimById(w)).bus == s.bus;
  }

  /** It may whenever the message names a row that is pending and not locked, and otherwise not. */
  lemma ClaimByIdIff(s: System, w: Worker)
    ensures Allowed(s, ClaimById(w)) <==>
            && w in s.bus.deliveries && !s.bus.deliveries[w].attempted && PhaseOf(s.queue, w) == Idle
            && exists j :: Names(s.bus, w, j) && j in s.queue.jobs && s.queue.jobs[j] == Pending && j !in s.queue.locks
  {
    if Allowed(s, ClaimById(w)) { assert Names(s.bus, w, Requested(s.bus, w).value); }
  }

  lemma MoveKeepsNamed(s: System, m: Move, w: Worker)
    requires Allowed(s, m) && WorksOnNamed(s, w)
    ensures WorksOnNamed(Apply(s, m), w)
  {
    if m.ClaimById? && m.worker == w { assert Names(s.bus, w, Requested(s.bus, w).value); }
  }

  /** In every run the job a consumer has locked, claimed or run is the one named by the message it is on. */
  lemma {:induction false} EveryRunWorksOnNamed(log: seq<Move>, w: Worker)
    requires Legal(log)
    ensures WorksOnNamed(Replay(log), w)
  {
    if log != [] {
      EveryRunWorksOnNamed(log[..|log| - 1], w);
      MoveKeepsNamed(Replay(log[..|log| - 1]), log[|log| - 1], w);
    }
  }

  /**
   After a crash the partition can be assigned anew, and the new owner is given the first
   message above the committed offset: what was not committed is delivered again.
   */
  lemma CrashRedelivers(s: System, w: Worker, v: Worker, p: nat)
    requires Allowed(s, Crash(w)) && v != w
    requires PhaseOf(s.queue, v) == Idle && v !in s.bus.deliveries
    requires p in s.bus.topic && CommittedUpTo(s.bus, p) < |s.bus.topic[p]|
    ensures var crashed := Apply(s, Crash(w));
      && Allowed(crashed, Assign(p, v))
      && var owned := Apply(crashed, Assign(p, v));
      && Allowed(owned, Poll(v, p))
      && var polled := Apply(owned, Poll(v, p));
      v in polled.bus.deliveries
      && polled.bus.deliveries[v] == Delivery(Place(p, if p in s.bus.committed then s.bus.committed[p] else 0), false)
  {
  }

  /**
   A handler that returns, or raises and is caught, whatever its message was: the commit is
   asked for and the consumer free to poll; when it lands, the offset behind the message is
   the committed one.
   */
  lemma HandledThenCommitted(s: System, w: Worker)
    requires Allowed(s, Return(w))
    ensures var at, returned := s.bus.deliveries[w].at, Apply(s, Return(w));
      && PhaseOf(returned.queue, w) == Idle && Allowed(returned, CommitOffset(w))
      && var asked := Apply(returned, CommitOffset(w));
      && asked.queue == returned.queue && w !in asked.bus.deliveries && Allowed(asked, OffsetLands(at))
      && var landed := Apply(asked, OffsetLands(at));
      && landed.queue == returned.queue
      && landed.bus.committed == s.bus.committed[at.partition := at.offset + 1]
      && landed.bus.attempts == s.bus.attempts + {at}
      && landed.bus.topic == s.bus.topic && landed.bus.positions == s.bus.positions
  {
  }

  /** Both backends only ever take jobs from one take-once queue. */
  lemma MoveRefinesTakeOnce(log: seq<Move>, m: Move)
    requires Legal(log) && Allowed(Replay(log), m)
    ensures TakeOnceStep(Abstract(Replay(log).queue), Abstract(Apply(Replay(log), m).queue))
    ensures Represents(Replay(log).queue, Abstract(Replay(log).queue))
  {
    EveryRunIsSafe(log, true);
    if StepOf(Replay(log), m).Some? {
      StepRefinesTakeOnce(Replay(log).queue, StepOf(Replay(log), m).value);
    }
  }

  /** Two runs in a log are of different jobs. */
  lemma AtMostOneRun(log: seq<Move>, i: nat, k: nat)
    requires Legal(log) && i < k < |Replay(log).queue.runs|
    ensures Replay(log).queue.runs[i].job != Replay(log).queue.runs[k].job
  {
    EveryRunIsSafe(log, true);
  }

  lemma ReplayOne(log: seq<Move>, m: Move)
    requires Legal(log) && Allowed(Replay(log), m)
    ensures Legal(log + [m]) && Replay(log + [m]) == Apply(Replay(log), m)
  {
    assert (log + [m])[..|log|] == log;
  }

  /** The worker 0 claims job 0. */
  lemma JobClaimed() returns (log: seq<Move>)
    ensures Legal(log) && Lossless(log)
    ensures var q := Replay(log).queue;
      PhaseOf(q, 0) == Claimed(0) && 0 in q.jobs && 0 !in Replay(log).bus.deliveries
  {
    log := [];
    ReplayOne(log, Row(Create(0)));
    log := log + [Row(Create(0))];
    ReplayOne(log, ClaimNext(0, 0));
    log := log + [ClaimNext(0, 0)];
    ReplayOne(log, Advance(CommitClaim(0)));
    log := log + [Advance(CommitClaim(0))];
  }

  /** And runs it well, up to the write of its status. */
  lemma RanWell() returns (log: seq<Move>)
    ensures Legal(log) && Lossless(log)
    ensures var q := Replay(log).queue;
      PhaseOf(q, 0) == Ran(0, true) && 0 in q.jobs && 0 !in Replay(log).bus.deliveries
  {
    log := JobClaimed();
    ReplayOne(log, Advance(Begin(0)));
    log := log + [Advance(Begin(0))];
    ReplayOne(log, Advance(End(0, true)));
    log := log + [Advance(End(0, true))];
  }

  /** A run in which the failure of job `j` is written over its success. */
  predicate Overwrites(log: seq<Move>, j: JobId) {
    && Legal(log) && j in Replay(log).queue.history
    && Replay(log).queue.history[j] == [Pending, Running, Succeeded, Failed]
  }

  /** Some run does. */
  lemma SomeRunOverwrites()
    ensures exists log :: Overwrites(log, 0)
  {
    var log := RanWell();
    EveryRunIsSafe(log, false);
    SuccessCanBeOverwritten(Replay(log).queue, 0);
    ReplayOne(log, Advance(Finish(0, DoneThenRaised)));
    var more := log + [Advance(Finish(0, DoneThenRaised))];
    ReplayOne(more, Advance(Finish(0, Done)));
    assert Overwrites(more + [Advance(Finish(0, Done))], 0);
  }
}
