/** When a job is lost, and when none is: which jobs of a cycle leave the queue without being
    finished, over single cycles and over whole runs. */
module Losses {
  import opened Text
  import opened Jobs
  import opened Queue
  import opened Sharing
  import opened Engine
  import opened Runs
  import opened Accounts
  import opened Answers

  lemma {:induction false} SlotOf(c: Checks, jobs: seq<Job>, closed: bool, workers: nat, cycle: Cycle, i: nat, n: nat)
    requires Wellformed(cycle, workers) && n < i <= |cycle.polls|
    ensures Polled(c, jobs, closed, workers, cycle, i)[cycle.polls[n]]
         == if !closed && n < |jobs| then Execution(c, jobs[n], cycle, cycle.polls[n]) else Idle(closed)
  {
    if n < i - 1 {
      SlotOf(c, jobs, closed, workers, cycle, i - 1, n);
    }
  }

  lemma {:induction false} SelectNothing(rs: seq<RunResult>, p: Job -> bool)
    ensures Select(rs, p) == [] <==> forall w :: 0 <= w < |rs| && rs[w].Executed? ==> !p(rs[w].job)
  {
    if rs != [] {
      SelectNothing(rs[..|rs| - 1], p);
      if Select(rs, p) == [] {
        forall w | 0 <= w < |rs| && rs[w].Executed? ensures !p(rs[w].job) {
          assert w < |rs| - 1 ==> rs[w] == rs[..|rs| - 1][w];
        }
      }
    }
  }

  ghost predicate NoneDrops(jobs: seq<Job>, cycle: Cycle, taken: nat)
    requires taken <= |jobs| && taken <= |cycle.polls|
  {
    forall n :: 0 <= n < taken ==> !Drops(jobs[n], cycle, cycle.polls[n])
  }

  /** A cycle loses nothing to the dispatcher's exact comparisons if and only if no job it takes
      is one of those two kinds. */
  lemma DropsNothing(c: Checks, jobs: seq<Job>, closed: bool, workers: nat, cycle: Cycle)
    requires Wellformed(cycle, workers) && AllQueued(c, jobs)
    ensures Select(Results(c, jobs, closed, workers, cycle), IsDropped) == []
       <==> NoneDrops(jobs, cycle, Taken(jobs, closed, cycle))
  {
    var rs, m := Results(c, jobs, closed, workers, cycle), |cycle.polls|;
    SelectNothing(rs, IsDropped);
    forall n | 0 <= n < Taken(jobs, closed, cycle)
      ensures rs[cycle.polls[n]].Executed?
      ensures IsDropped(rs[cycle.polls[n]].job) <==> Drops(jobs[n], cycle, cycle.polls[n])
    {
      assert jobs[n] in jobs;
      SlotOf(c, jobs, closed, workers, cycle, m, n);
      ExecutionKeepsCore(c, jobs[n], cycle, cycle.polls[n]);
      ExecutionRead(c, jobs[n], cycle, cycle.polls[n]);
    }
    forall w | 0 <= w < |rs| && rs[w].Executed?
      ensures exists n :: 0 <= n < Taken(jobs, closed, cycle) && cycle.polls[n] == w
    {
      if forall n :: 0 <= n < m ==> cycle.polls[n] != w {
        UnpolledIsIdle(c, jobs, closed, workers, cycle, m, w);
      } else {
        var n :| 0 <= n < m && cycle.polls[n] == w;
        SlotOf(c, jobs, closed, workers, cycle, m, n);
      }
    }
  }

  // ---------------------------------------------------------------- one cycle

  /** The queue takes the n-th retry: the context is live, and whatever others have done by then,
      the queue is open and has room. `length` is what the polls left in the queue. */
  predicate Takes(u: Setup, cycle: Cycle, m: Meanwhile, length: nat, closed: bool, n: nat) {
    var level := LevelAt(u.checks, u.capacity, Level(length, closed), m.before, n);
    n < cycle.liveFor && !level.closed && level.length < u.capacity
  }

  ghost predicate TakesAll(u: Setup, cycle: Cycle, m: Meanwhile, length: nat, closed: bool, wanted: int) {
    forall n :: 0 <= n < wanted ==> Takes(u, cycle, m, length, closed, n)
  }

  /** No job the cycle takes is of those two kinds, and the queue takes as many retries as there
      are jobs to send back. */
  ghost predicate LosesNothing(u: Setup, s: Ledger, cycle: Cycle, m: Meanwhile)
    requires Addressed(cycle, u.workers)
  {
    var t := Cycling(u, s, cycle, m);
    && NoneDrops(t.stream, cycle, t.taken)
    && TakesAll(u, cycle, m, |t.stream| - t.taken, s.closed, ToldCount(t.stream, cycle, t.taken, WantsRetry))
  }

  /** All retries go back exactly if the queue takes each of them. */
  lemma AllTaken(u: Setup, ch: Channel, cycle: Cycle, m: Meanwhile, retry: seq<Job>)
    ensures Sent(u.checks, u.capacity, ch, Retries(retry, cycle, m), |retry|) == |retry|
       <==> TakesAll(u, cycle, m, |ch.jobs|, ch.closed, |retry|)
  {
    var back := Retries(retry, cycle, m);
    AllSent(u.checks, u.capacity, ch, back);
    forall n | 0 <= n < |retry|
      ensures Refused(u.checks, u.capacity, ch, back, n).None? <==> Takes(u, cycle, m, |ch.jobs|, ch.closed, n)
    {
      LevelIsFaced(u.checks, u.capacity, ch, back, n);
    }
  }

  lemma AllGoBack(u: Setup, s: Ledger, cycle: Cycle, m: Meanwhile)
    requires Wellformed(cycle, u.workers)
    ensures var t := Cycling(u, s, cycle, m);
            t.retry[t.sent..] == [] <==> TakesAll(u, cycle, m, |t.stream| - t.taken, s.closed, |t.retry|)
  {
    var t := Cycling(u, s, cycle, m);
    AllTaken(u, Rest(u.checks, s.queue, s.closed, cycle, m, u.capacity), cycle, m, t.retry);
  }

  lemma NoneDropped(u: Setup, s: Ledger, cycle: Cycle, m: Meanwhile)
    requires Wellformed(cycle, u.workers) && AllQueued(u.checks, s.queue)
    ensures var t := Cycling(u, s, cycle, m);
            && t.taken <= |cycle.polls|
            && (Select(t.rs, IsDropped) == [] <==> NoneDrops(t.stream, cycle, t.taken))
            && |t.retry| == ToldCount(t.stream, cycle, t.taken, WantsRetry)
  {
    var t := Cycling(u, s, cycle, m);
    StreamQueued(u.checks, s.queue, s.closed, cycle, m, u.capacity);
    DropsNothing(u.checks, t.stream, s.closed, u.workers, cycle);
    CycleCounts(u.checks, t.stream, s.closed, u.workers, cycle);
  }

  /** The ways a cycle loses a job are all there are: an attempt limit already reached, a padded
      status, and a retry that the queue refuses because the context has ended, the queue has
      been closed, or others have filled it. */
  lemma CycleLosesNothing(u: Setup, s: Ledger, cycle: Cycle, m: Meanwhile)
    requires Wellformed(cycle, u.workers) && AllQueued(u.checks, s.queue)
    ensures Next(u, s, Turn(cycle, m)).lost == s.lost <==> LosesNothing(u, s, cycle, m)
  {
    var t := Cycling(u, s, cycle, m);
    NoneDropped(u, s, cycle, m);
    AllGoBack(u, s, cycle, m);
    TurnLost(u, s, cycle, m);
  }

  lemma TurnLost(u: Setup, s: Ledger, cycle: Cycle, m: Meanwhile)
    requires Wellformed(cycle, u.workers)
    ensures var t := Cycling(u, s, cycle, m);
            Next(u, s, Turn(cycle, m)).lost == s.lost <==> Select(t.rs, IsDropped) == [] && t.retry[t.sent..] == []
  {
    var t := Cycling(u, s, cycle, m);
    LostIs(s.lost, Select(t.rs, IsDropped), t.retry[t.sent..]);
  }

  lemma LostIs(lost: seq<Job>, dropped: seq<Job>, unsent: seq<Job>)
    ensures lost + (dropped + unsent) == lost <==> dropped == [] && unsent == []
  {
    assert |lost + (dropped + unsent)| == |lost| + |dropped| + |unsent|;
    if dropped == [] && unsent == [] {
      assert lost + (dropped + unsent) == lost;
    }
  }

  // ---------------------------------------------------------------- whole runs

  /** Every cycle of a run finds a queue and surroundings in which it loses nothing. */
  ghost predicate LossFree(u: Setup, es: seq<Event>)
    requires AllFeasible(u, es)
  {
    es == [] ||
    var front, last := es[..|es| - 1], es[|es| - 1];
    assert last in es;
    LossFree(u, front) && (last.Turn? ==> LosesNothing(u, Run(u, EMPTY, front), last.cycle, last.m))
  }

  /** Lost jobs never come back. */
  lemma LostGrows(u: Setup, s: Ledger, e: Event)
    requires Feasible(u, e)
    ensures s.lost <= Next(u, s, e).lost
    ensures !e.Turn? ==> Next(u, s, e).lost == s.lost
  {
  }

  lemma {:induction false} RunLosesStep(u: Setup, s: Ledger, e: Event)
    requires Feasible(u, e) && AllQueued(u.checks, s.queue)
    ensures Next(u, s, e).lost == [] <==> s.lost == [] && (e.Turn? ==> LosesNothing(u, s, e.cycle, e.m))
  {
    LostGrows(u, s, e);
    if e.Turn? {
      CycleLosesNothing(u, s, e.cycle, e.m);
    }
  }

  /** A run, whatever is offered and whoever else uses the queue, has lost nothing if and only if
      every one of its cycles did. */
  lemma {:induction false} RunLosesNothing(u: Setup, es: seq<Event>)
    requires AllFeasible(u, es)
    ensures Run(u, EMPTY, es).lost == [] <==> LossFree(u, es)
  {
    if es != [] {
      var front, last := es[..|es| - 1], es[|es| - 1];
      RunLosesNothing(u, front);
      RunSound(u, front);
      assert last in es;
      RunLosesStep(u, Run(u, EMPTY, front), last);
    }
  }

  /** Producers offer jobs as NewJob makes them and keep away from the queue during a cycle,
      handlers return only the canonical names, the context stays live and the queue open. */
  ghost predicate Clean(u: Setup, e: Event) {
    match e
    case Offer(a) => Fresh(a.job)
    case Turn(cycle, m) => Quiet(m) && cycle.liveFor >= u.workers && forall w, j :: !cycle.handler(w, j).status.Padded?
    case Close => false
    case Save => true
    case Restart(_) => true
  }

  lemma {:induction false} QuietLevel(c: Checks, capacity: nat, l: Level, before: nat -> Disturbance, n: nat)
    requires forall i :: before(i) == CALM
    ensures LevelAt(c, capacity, l, before, n) == Level(l.length + n, l.closed)
  {
    if n > 0 {
      QuietLevel(c, capacity, l, before, n - 1);
    }
  }

  lemma QuietTakesAll(u: Setup, cycle: Cycle, m: Meanwhile, length: nat, wanted: int)
    requires Quiet(m) && wanted <= cycle.liveFor && length + wanted <= u.capacity
    ensures TakesAll(u, cycle, m, length, false, wanted)
  {
    forall n | 0 <= n < wanted ensures Takes(u, cycle, m, length, false, n) {
      QuietLevel(u.checks, u.capacity, Level(length, false), m.before, n);
    }
  }

  lemma CleanNoneDrops(u: Setup, jobs: seq<Job>, cycle: Cycle, taken: nat)
    requires Unspent(jobs) && taken <= |jobs| && taken <= |cycle.polls| && forall w, j :: !cycle.handler(w, j).status.Padded?
    ensures NoneDrops(jobs, cycle, taken)
  {
    forall n | 0 <= n < taken ensures !Drops(jobs[n], cycle, cycle.polls[n]) {
      assert jobs[n] in jobs;
    }
  }

  lemma QuietCycling(u: Setup, s: Ledger, cycle: Cycle, m: Meanwhile)
    requires Wellformed(cycle, u.workers) && |s.queue| <= u.capacity && Quiet(m)
    ensures var t := Cycling(u, s, cycle, m);
            t.stream == s.queue && t.taken == Taken(s.queue, s.closed, cycle)
  {
    QuietCycle(u.checks, s.queue, s.closed, u.workers, cycle, m, u.capacity);
  }

  lemma RetriesFit(u: Setup, jobs: seq<Job>, cycle: Cycle)
    requires Wellformed(cycle, u.workers) && AllQueued(u.checks, jobs)
    ensures ToldCount(jobs, cycle, Taken(jobs, false, cycle), WantsRetry) <= Taken(jobs, false, cycle) <= u.workers
  {
    CycleCounts(u.checks, jobs, false, u.workers, cycle);
    ExecutedCount(u.checks, jobs, false, u.workers, cycle);
  }

  lemma CleanLoses(u: Setup, jobs: seq<Job>, cycle: Cycle, m: Meanwhile)
    requires Wellformed(cycle, u.workers) && AllQueued(u.checks, jobs) && |jobs| <= u.capacity && Unspent(jobs)
    requires Clean(u, Turn(cycle, m))
    ensures var taken := Taken(jobs, false, cycle);
            NoneDrops(jobs, cycle, taken) && TakesAll(u, cycle, m, |jobs| - taken, false, ToldCount(jobs, cycle, taken, WantsRetry))
  {
    RetriesFit(u, jobs, cycle);
    var taken := Taken(jobs, false, cycle);
    CleanNoneDrops(u, jobs, cycle, taken);
    QuietTakesAll(u, cycle, m, |jobs| - taken, ToldCount(jobs, cycle, taken, WantsRetry));
  }

  lemma CleanCycle(u: Setup, s: Ledger, cycle: Cycle, m: Meanwhile)
    requires Wellformed(cycle, u.workers) && Sound(u, s) && Unspent(s.queue) && !s.closed && Clean(u, Turn(cycle, m))
    ensures LosesNothing(u, s, cycle, m)
  {
    QuietCycling(u, s, cycle, m);
    CleanLoses(u, s.queue, cycle, m);
  }

  lemma CleanIsFresh(u: Setup, e: Event)
    requires Clean(u, e)
    ensures FreshEvent(e)
  {
  }

  lemma StaysOpen(u: Setup, s: Ledger, e: Event)
    requires Feasible(u, e) && Clean(u, e) && !s.closed && |s.queue| <= u.capacity
    ensures !Next(u, s, e).closed
  {
    if e.Turn? {
      QuietCycle(u.checks, s.queue, s.closed, u.workers, e.cycle, e.m, u.capacity);
    }
  }

  lemma {:induction false} CleanIsLossFree(u: Setup, es: seq<Event>)
    requires AllFeasible(u, es) && forall e :: e in es ==> Clean(u, e)
    ensures LossFree(u, es) && Counted(u, Run(u, EMPTY, es)) && !Run(u, EMPTY, es).closed
  {
    if es != [] {
      var front, last := es[..|es| - 1], es[|es| - 1];
      assert last in es;
      CleanIsLossFree(u, front);
      var s := Run(u, EMPTY, front);
      CleanIsFresh(u, last);
      NextCounted(u, s, last);
      StaysOpen(u, s, last);
      if last.Turn? {
        CleanCycle(u, s, last.cycle, last.m);
      }
    }
  }

  lemma {:induction false} NothingLost(u: Setup, es: seq<Event>)
    requires AllFeasible(u, es) && forall e :: e in es ==> Clean(u, e)
    ensures Counted(u, Run(u, EMPTY, es))
    ensures Run(u, EMPTY, es).lost == []
  {
    CleanIsLossFree(u, es);
    RunLosesNothing(u, es);
  }

  /** The main result: after any such run in which no restart found an old snapshot, each accepted
      job is in exactly one of three places, and a failed one has used all its attempts. */
  lemma {:induction false} EveryJobInOnePlace(u: Setup, es: seq<Event>, k: Job)
    requires AllFeasible(u, es) && (forall e :: e in es ==> Clean(u, e)) && Run(u, EMPTY, es).stale == 0
    ensures var s := Run(u, EMPTY, es);
            && Count(s.accepted, k) == Count(s.queue, k) + Count(s.succeeded, k) + Count(s.exhausted, k)
            && (Count(s.accepted, k) == 1 ==>
                  || (Count(s.queue, k) == 1 && Count(s.succeeded, k) == Count(s.exhausted, k) == 0)
                  || (Count(s.succeeded, k) == 1 && Count(s.queue, k) == Count(s.exhausted, k) == 0)
                  || (Count(s.exhausted, k) == 1 && Count(s.queue, k) == Count(s.succeeded, k) == 0))
            && (forall j :: j in s.queue ==> j.attempt < j.maxAttempts)
            && (forall j :: j in s.exhausted ==> j.status == Is(Failed) && j.attempt == j.maxAttempts)
  {
    NothingLost(u, es);
    InOnePlace(u, Run(u, EMPTY, es), k);
  }

  lemma InOnePlace(u: Setup, s: Ledger, k: Job)
    requires Counted(u, s) && s.stale == 0 && s.lost == []
    ensures Count(s.accepted, k) == Count(s.queue, k) + Count(s.succeeded, k) + Count(s.exhausted, k)
    ensures Count(s.queue, k) >= 0 && Count(s.succeeded, k) >= 0 && Count(s.exhausted, k) >= 0
    ensures forall j :: j in s.queue ==> j.attempt < j.maxAttempts
  {
    CountNonNegative(s.queue, k);
    CountNonNegative(s.succeeded, k);
    CountNonNegative(s.exhausted, k);
    assert ConservedFor(s, k);
    forall j | j in s.queue ensures HasLeft(j) {
    }
  }

  // ---------------------------------------------------------------- inputs that lose a job

  function Alone(j: Job): Ledger { EMPTY.(queue := [j], accepted := [j]) }

  /** What a cycle with one poll and no early arrival makes of the only job in the queue. */
  lemma OneJobTurn(u: Setup, j: Job, cycle: Cycle, m: Meanwhile)
    requires u.workers > 0 && u.capacity > 0 && cycle.polls == [0]
    ensures Wellformed(cycle, u.workers) && Execution(u.checks, j, cycle, 0).Executed?
    ensures var t, done := Cycling(u, Alone(j), cycle, m), Execution(u.checks, j, cycle, 0).job;
            && t.stream == [j] && t.taken == 1
            && Select(t.rs, IsSucceeded) == (if IsSucceeded(done) then [done] else [])
            && Select(t.rs, IsExhausted) == (if IsExhausted(done) then [done] else [])
            && Select(t.rs, IsDropped) == (if IsDropped(done) then [done] else [])
            && t.retry == (if IsRetryable(done) then [done] else [])
  {
    assert Stream(u.checks, [j], false, cycle, m, u.capacity) == [j];
    OneJobCycle(u.checks, j, u.workers, cycle, IsSucceeded);
    OneJobCycle(u.checks, j, u.workers, cycle, IsExhausted);
    OneJobCycle(u.checks, j, u.workers, cycle, IsRetryable);
    OneJobCycle(u.checks, j, u.workers, cycle, IsDropped);
  }

  /** A snapshot may hold a job that has no attempt left. It is valid, so it is restored; then the
      first worker that polls takes it, it is refused, and nobody has it. */
  lemma AtLimitIsLost(u: Setup, j: Job, cycle: Cycle, m: Meanwhile)
    requires Valid(u.checks, j) && j.status == Is(Queued) && j.attempt == j.maxAttempts
    requires u.workers > 0 && u.capacity > 0 && cycle.polls == [0]
    ensures ValidSnapshot(u.checks, Snapshot(PERSISTENCE_VERSION, "m", 1, [j])) && Feasible(u, Turn(cycle, m))
    ensures var s := Next(u, Alone(j), Turn(cycle, m));
            s.queue == s.succeeded == s.exhausted == [] && s.lost == [j]
  {
    TrimIdentity("m", IsSpace);
    assert Execution(u.checks, j, cycle, 0) == Executed(j, true);
    OneJobTurn(u, j, cycle, m);
  }

  /** The only retry is not sent if it is refused. */
  lemma OneRetry(u: Setup, ch: Channel, back: Return)
    requires |back.jobs| == 1
    ensures var facing := Disturb(u.checks, u.capacity, ch, back.before(0));
            Blocked(0 < back.liveFor, facing.closed, |facing.jobs|, u.capacity).Some? ==>
              Sent(u.checks, u.capacity, ch, back, 1) == 0 && Outcome(u.checks, u.capacity, ch, back) == facing
  {
    assert Facing(u.checks, u.capacity, ch, back, 0) == Disturb(u.checks, u.capacity, ch, back.before(0));
  }

  /** A failed job that should go back, and the queue it faces. */
  lemma FailedTurn(u: Setup, j: Job, cycle: Cycle, m: Meanwhile)
    requires Valid(u.checks, j) && j.status == Is(Queued) && WantsRetry(j, cycle, 0)
    requires u.workers > 0 && u.capacity > 0 && cycle.polls == [0]
    ensures Feasible(u, Turn(cycle, m)) && Execution(u.checks, j, cycle, 0).Executed?
    ensures var s, facing := Next(u, Alone(j), Turn(cycle, m)), Disturb(u.checks, u.capacity, Channel([], false, []), m.before(0));
            Blocked(0 < cycle.liveFor, facing.closed, |facing.jobs|, u.capacity).Some? ==>
              && s.queue == facing.jobs && s.succeeded == s.exhausted == []
              && s.lost == [Execution(u.checks, j, cycle, 0).job]
  {
    ExecutionRead(u.checks, j, cycle, 0);
    OneJobTurn(u, j, cycle, m);
    var rest := Rest(u.checks, [j], false, cycle, m, u.capacity);
    assert rest == Channel([], false, []);
    OneRetry(u, rest, Retries(Cycling(u, Alone(j), cycle, m).retry, cycle, m));
  }

  /** When the context ends before a failed job is sent back, as at shutdown, nobody has it. */
  lemma CancelledIsLost(u: Setup, j: Job, cycle: Cycle, m: Meanwhile)
    requires Valid(u.checks, j) && j.status == Is(Queued) && WantsRetry(j, cycle, 0) && Quiet(m)
    requires u.workers > 0 && u.capacity > 0 && cycle.polls == [0] && cycle.liveFor == 0
    ensures Feasible(u, Turn(cycle, m))
    ensures var s := Next(u, Alone(j), Turn(cycle, m));
            s.queue == s.succeeded == s.exhausted == [] && s.lost == [Execution(u.checks, j, cycle, 0).job]
  {
    FailedTurn(u, j, cycle, m);
  }

  /** Nor when the queue is closed meanwhile. */
  lemma ClosedIsLost(u: Setup, j: Job, cycle: Cycle, m: Meanwhile)
    requires Valid(u.checks, j) && j.status == Is(Queued) && WantsRetry(j, cycle, 0) && m.before(0) == Disturbance([], true)
    requires u.workers > 0 && u.capacity > 0 && cycle.polls == [0]
    ensures Feasible(u, Turn(cycle, m))
    ensures var s := Next(u, Alone(j), Turn(cycle, m));
            s.queue == s.succeeded == s.exhausted == [] && s.lost == [Execution(u.checks, j, cycle, 0).job]
  {
    FailedTurn(u, j, cycle, m);
  }

  /** Nor when another producer takes its place: a queue for one job then holds the other one. */
  lemma FullIsLost(u: Setup, j: Job, cycle: Cycle, m: Meanwhile, other: Arrival)
    requires Valid(u.checks, j) && j.status == Is(Queued) && WantsRetry(j, cycle, 0)
    requires Acceptable(u.checks, other) && m.before(0) == Disturbance([other], false)
    requires u.workers > 0 && u.capacity == 1 && cycle.polls == [0]
    ensures Feasible(u, Turn(cycle, m))
    ensures var s := Next(u, Alone(j), Turn(cycle, m));
            && s.queue == [Stored(other.job, other.clock)] && s.succeeded == s.exhausted == []
            && s.lost == [Execution(u.checks, j, cycle, 0).job]
  {
    FailedTurn(u, j, cycle, m);
    assert [other][..0] == [];
    assert ArriveAll(u.checks, 1, Channel([], false, []), [other]) == Channel([Stored(other.job, other.clock)], false, [other.job]);
  }

  /** A cycle with one job and one poll. */
  lemma OneJobCycle(c: Checks, j: Job, workers: nat, cycle: Cycle, p: Job -> bool)
    requires workers > 0 && cycle.polls == [0]
    ensures var done := Execution(c, j, cycle, 0);
            && Wellformed(cycle, workers) && done.Executed?
            && Select(Results(c, [j], false, workers, cycle), p) == if p(done.job) then [done.job] else []
  {
    var rs := Results(c, [j], false, workers, cycle);
    ExecutionKeepsCore(c, j, cycle, 0);
    SlotOf(c, [j], false, workers, cycle, 1, 0);
    forall w | 0 < w < workers ensures rs[w].Idle? {
      UnpolledIsIdle(c, [j], false, workers, cycle, 1, w);
    }
    SelectFirst(rs, p);
  }

  lemma {:induction false} SelectFirst(rs: seq<RunResult>, p: Job -> bool)
    requires rs != [] && rs[0].Executed? && forall w :: 0 < w < |rs| ==> rs[w].Idle?
    ensures Select(rs, p) == if p(rs[0].job) then [rs[0].job] else []
  {
    if |rs| > 1 {
      SelectFirst(rs[..|rs| - 1], p);
    }
  }
}
