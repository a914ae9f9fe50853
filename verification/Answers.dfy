/** What a handler's answer makes of a job, of a cycle's counters and of the ledger
    (internal/worker/worker.go, internal/dispatcher/dispatcher.go). */
module Answers {
  import opened Jobs
  import opened Queue
  import opened Sharing
  import opened Engine
  import opened Runs

  // ---------------------------------------------------------------- one job

  /** The handler's answer for a job that worker `w` takes. */
  function Answer(j: Job, cycle: Cycle, w: nat): HandlerResult {
    cycle.handler(w, j.(status := Is(Running), attempt := j.attempt + 1, updatedAt := cycle.started(w)))
  }

  /** An error or any unknown answer means failed. */
  predicate Fails(h: HandlerResult) {
    h.err || h.status == Is(Failed) || !(h.status.Empty? || IsTerminal(h.status))
  }

  /** The handler is called and reports success, by that name or by saying nothing. */
  predicate Succeeds(j: Job, cycle: Cycle, w: nat) {
    var h := Answer(j, cycle, w);
    j.attempt < j.maxAttempts && !h.err && (h.status.Empty? || h.status == Is(Succeeded))
  }

  /** The handler fails on the last attempt. */
  predicate Exhausts(j: Job, cycle: Cycle, w: nat) {
    j.attempt + 1 == j.maxAttempts && Fails(Answer(j, cycle, w))
  }

  /** The handler fails and there are attempts left: the job should go back into the queue. */
  predicate WantsRetry(j: Job, cycle: Cycle, w: nat) {
    j.attempt + 1 < j.maxAttempts && Fails(Answer(j, cycle, w))
  }

  /** The two ways an executed job escapes the dispatcher: it had no attempt left when it was
      taken, or the handler returned a terminal status with white space around it. */
  predicate Drops(j: Job, cycle: Cycle, w: nat) {
    || j.attempt >= j.maxAttempts
    || (!Answer(j, cycle, w).err && Answer(j, cycle, w).status.Padded? && IsTerminal(Answer(j, cycle, w).status))
  }

  /** A job at its limit is reported unchanged. Any other has spent one attempt and carries the
      handler's time, if it gave one; it has succeeded, failed or kept a padded status exactly as
      the handler's answer says, and the error flag is set for an error and for a status that is
      not terminal. */
  lemma ExecutionAnswered(c: Checks, j: Job, cycle: Cycle, w: nat)
    requires Valid(c, j) && j.status == Is(Queued)
    ensures var r, h := Execution(c, j, cycle, w), Answer(j, cycle, w);
            if j.attempt >= j.maxAttempts then r == Executed(j, true)
            else
              && r.Executed? && Core(r.job) == Core(j) && r.job.attempt == j.attempt + 1
              && r.job.updatedAt == (if h.now != 0 then h.now else cycle.finished(w))
              && (r.job.status == Is(Succeeded) <==> !h.err && (h.status.Empty? || h.status == Is(Succeeded)))
              && (r.job.status == Is(Failed) <==> Fails(h))
              && (r.job.status == Is(Succeeded) || r.job.status == Is(Failed) || r.job.status == h.status)
              && (r.err <==> h.err || !(h.status.Empty? || IsTerminal(h.status)))
  {
  }

  /** How the dispatcher reads the job follows from the answer alone. */
  lemma ExecutionRead(c: Checks, j: Job, cycle: Cycle, w: nat)
    requires Valid(c, j) && j.status == Is(Queued)
    ensures Execution(c, j, cycle, w).Executed?
    ensures var done := Execution(c, j, cycle, w).job;
            && (IsSucceeded(done) <==> Succeeds(j, cycle, w))
            && (IsExhausted(done) <==> Exhausts(j, cycle, w))
            && (IsRetryable(done) <==> WantsRetry(j, cycle, w))
            && (IsDropped(done) <==> Drops(j, cycle, w))
  {
    ExecutionAnswered(c, j, cycle, w);
  }

  // ---------------------------------------------------------------- one cycle

  /** A property of jobs after execution that an answer settles. */
  ghost predicate Settles(c: Checks, jobs: seq<Job>, cycle: Cycle, p: Job -> bool, said: (Job, Cycle, nat) -> bool) {
    forall k, w: nat :: 0 <= k < |jobs| ==> p(Execution(c, jobs[k], cycle, w).job) == said(jobs[k], cycle, w)
  }

  function Shares(jobs: seq<Job>, cycle: Cycle, n: nat, said: (Job, Cycle, nat) -> bool, f: Job -> int): seq<int>
    requires n <= |jobs| && n <= |cycle.polls|
  {
    seq(n, k requires 0 <= k < n => if said(jobs[k], cycle, cycle.polls[k]) then f(jobs[k]) else 0)
  }

  /** A quantity summed over those of the first `n` jobs whose handler gives such an answer. */
  function Told(jobs: seq<Job>, cycle: Cycle, n: nat, said: (Job, Cycle, nat) -> bool, f: Job -> int): int
    requires n <= |jobs| && n <= |cycle.polls|
  {
    Total(Shares(jobs, cycle, n, said, f))
  }

  lemma ToldAlong(c: Checks, jobs: seq<Job>, cycle: Cycle, n: nat, p: Job -> bool, said: (Job, Cycle, nat) -> bool, f: Job -> int)
    requires n <= |jobs| && n <= |cycle.polls| && Settles(c, jobs, cycle, p, said) && Foretells(c, jobs, cycle, f, f)
    ensures Along(c, jobs, cycle, n, p, f) == Told(jobs, cycle, n, said, f)
  {
    var weights, shares := Weights(c, jobs, cycle, n, p, f), Shares(jobs, cycle, n, said, f);
    forall k | 0 <= k < n ensures weights[k] == shares[k] {
      ExecutionKeepsCore(c, jobs[k], cycle, cycle.polls[k]);
    }
    assert weights == shares;
  }

  lemma SelectedByAnswer(c: Checks, jobs: seq<Job>, closed: bool, workers: nat, cycle: Cycle, p: Job -> bool,
                         said: (Job, Cycle, nat) -> bool, f: Job -> int)
    requires Wellformed(cycle, workers) && Settles(c, jobs, cycle, p, said) && Foretells(c, jobs, cycle, f, f)
    ensures Sum(Select(Results(c, jobs, closed, workers, cycle), p), f)
         == Told(jobs, cycle, Taken(jobs, closed, cycle), said, f)
  {
    PolledTally(c, jobs, closed, workers, cycle, |cycle.polls|, p, f);
    TallyIsSum(Results(c, jobs, closed, workers, cycle), p, f);
    ToldAlong(c, jobs, cycle, Taken(jobs, closed, cycle), p, said, f);
  }

  lemma AnswersSettle(c: Checks, jobs: seq<Job>, cycle: Cycle)
    requires AllQueued(c, jobs)
    ensures Settles(c, jobs, cycle, IsSucceeded, Succeeds) && Settles(c, jobs, cycle, IsExhausted, Exhausts)
    ensures Settles(c, jobs, cycle, IsRetryable, WantsRetry) && Settles(c, jobs, cycle, IsDropped, Drops)
  {
    forall k, w: nat | 0 <= k < |jobs|
      ensures var done := Execution(c, jobs[k], cycle, w).job;
              && IsSucceeded(done) == Succeeds(jobs[k], cycle, w) && IsExhausted(done) == Exhausts(jobs[k], cycle, w)
              && IsRetryable(done) == WantsRetry(jobs[k], cycle, w) && IsDropped(done) == Drops(jobs[k], cycle, w)
    {
      assert jobs[k] in jobs;
      ExecutionRead(c, jobs[k], cycle, w);
    }
  }

  /** The jobs a cycle reports as succeeded, exhausted, to be retried or neither are, by any
      quantity that execution does not change, those whose handlers say so. */
  lemma CycleAnswered(c: Checks, jobs: seq<Job>, closed: bool, workers: nat, cycle: Cycle, f: Job -> int)
    requires Wellformed(cycle, workers) && AllQueued(c, jobs) && Foretells(c, jobs, cycle, f, f)
    ensures var rs, n := Results(c, jobs, closed, workers, cycle), Taken(jobs, closed, cycle);
            && Sum(Select(rs, IsSucceeded), f) == Told(jobs, cycle, n, Succeeds, f)
            && Sum(Select(rs, IsExhausted), f) == Told(jobs, cycle, n, Exhausts, f)
            && Sum(Select(rs, IsRetryable), f) == Told(jobs, cycle, n, WantsRetry, f)
            && Sum(Select(rs, IsDropped), f) == Told(jobs, cycle, n, Drops, f)
  {
    AnswersSettle(c, jobs, cycle);
    SelectedByAnswer(c, jobs, closed, workers, cycle, IsSucceeded, Succeeds, f);
    SelectedByAnswer(c, jobs, closed, workers, cycle, IsExhausted, Exhausts, f);
    SelectedByAnswer(c, jobs, closed, workers, cycle, IsRetryable, WantsRetry, f);
    SelectedByAnswer(c, jobs, closed, workers, cycle, IsDropped, Drops, f);
  }

  /** How many of the first `n` jobs have such an answer. */
  function ToldCount(jobs: seq<Job>, cycle: Cycle, n: nat, said: (Job, Cycle, nat) -> bool): int
    requires n <= |jobs| && n <= |cycle.polls|
  {
    Told(jobs, cycle, n, said, One)
  }

  /** The counters of a cycle, from the handlers' answers alone. */
  lemma CycleCounts(c: Checks, jobs: seq<Job>, closed: bool, workers: nat, cycle: Cycle)
    requires Wellformed(cycle, workers) && AllQueued(c, jobs)
    ensures var rs, n := Results(c, jobs, closed, workers, cycle), Taken(jobs, closed, cycle);
            && |Select(rs, IsSucceeded)| == ToldCount(jobs, cycle, n, Succeeds)
            && |Select(rs, IsExhausted)| == ToldCount(jobs, cycle, n, Exhausts)
            && |Select(rs, IsRetryable)| == ToldCount(jobs, cycle, n, WantsRetry)
            && |Select(rs, IsDropped)| == ToldCount(jobs, cycle, n, Drops)
  {
    var rs := Results(c, jobs, closed, workers, cycle);
    CycleAnswered(c, jobs, closed, workers, cycle, One);
    SumOnes(Select(rs, IsSucceeded));
    SumOnes(Select(rs, IsExhausted));
    SumOnes(Select(rs, IsRetryable));
    SumOnes(Select(rs, IsDropped));
  }

  // ---------------------------------------------------------------- the ledger

  /** A cycle enters a job as succeeded or as failed for good exactly as often as its handler
      says so, and from then on it stays there. */
  lemma TurnAnswered(u: Setup, s: Ledger, cycle: Cycle, m: Meanwhile, k: Job)
    requires Wellformed(cycle, u.workers) && SoundChannel(u.checks, u.capacity, Channel(s.queue, s.closed, []))
    ensures var t, s' := Cycling(u, s, cycle, m), Next(u, s, Turn(cycle, m));
            && Count(s'.succeeded, k) == Count(s.succeeded, k) + Told(t.stream, cycle, t.taken, Succeeds, Indicator(k))
            && Count(s'.exhausted, k) == Count(s.exhausted, k) + Told(t.stream, cycle, t.taken, Exhausts, Indicator(k))
  {
    var t := Cycling(u, s, cycle, m);
    CycleKeepsQueued(u, s, cycle, m);
    IndicatorForetells(u.checks, t.stream, cycle, k);
    CycleAnswered(u.checks, t.stream, s.closed, u.workers, cycle, Indicator(k));
    SumConcat(s.succeeded, Select(t.rs, IsSucceeded), Indicator(k));
    SumConcat(s.exhausted, Select(t.rs, IsExhausted), Indicator(k));
  }

  /** The same quantity for one event, and over all events of a run. */
  ghost function StepTold(u: Setup, s: Ledger, e: Event, said: (Job, Cycle, nat) -> bool, f: Job -> int): int
    requires Feasible(u, e)
  {
    if !e.Turn? then 0 else
    var t := Cycling(u, s, e.cycle, e.m);
    Told(t.stream, e.cycle, t.taken, said, f)
  }

  ghost function RunTold(u: Setup, es: seq<Event>, said: (Job, Cycle, nat) -> bool, f: Job -> int): int
    requires AllFeasible(u, es)
  {
    if es == [] then 0 else
    var front, last := es[..|es| - 1], es[|es| - 1];
    assert last in es;
    RunTold(u, front, said, f) + StepTold(u, Run(u, EMPTY, front), last, said, f)
  }

  lemma StepAnswered(u: Setup, s: Ledger, e: Event, k: Job)
    requires Feasible(u, e) && SoundChannel(u.checks, u.capacity, Channel(s.queue, s.closed, []))
    ensures var s' := Next(u, s, e);
            && Count(s'.succeeded, k) == Count(s.succeeded, k) + StepTold(u, s, e, Succeeds, Indicator(k))
            && Count(s'.exhausted, k) == Count(s.exhausted, k) + StepTold(u, s, e, Exhausts, Indicator(k))
  {
    if e.Turn? {
      TurnAnswered(u, s, e.cycle, e.m, k);
    }
  }

  /** In every run a job is entered as succeeded, and as failed for good, exactly as often as its
      handler has said so. */
  lemma {:induction false} RunAnswered(u: Setup, es: seq<Event>, k: Job)
    requires AllFeasible(u, es)
    ensures var s := Run(u, EMPTY, es);
            && Count(s.succeeded, k) == RunTold(u, es, Succeeds, Indicator(k))
            && Count(s.exhausted, k) == RunTold(u, es, Exhausts, Indicator(k))
  {
    if es != [] {
      var front, last := es[..|es| - 1], es[|es| - 1];
      assert last in es;
      RunAnswered(u, front, k);
      RunSound(u, front);
      StepAnswered(u, Run(u, EMPTY, front), last, k);
    }
  }
}
