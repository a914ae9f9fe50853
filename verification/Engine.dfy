/** One dispatcher cycle over the shared queue: workers poll, handlers run, failed jobs go back
    (internal/worker/worker.go, internal/worker/pool.go, internal/dispatcher/dispatcher.go). */
module Engine {
  import opened Text
  import opened Jobs
  import opened Queue
  import opened Sharing

  datatype HandlerResult = HandlerResult(status: Status, now: int, err: bool)

  /** Idle: the worker found nothing to do, or could not poll. */
  datatype RunResult = Idle(err: bool) | Executed(job: Job, err: bool)

  /** Everything one cycle does not decide itself. `polls` lists the workers whose poll reached
      the queue while the context was live, in the order the queue's lock served them; the
      handler answers as it likes for each worker and job; `liveFor` is the number of retry
      enqueues that still see a live context. */
  datatype Cycle = Cycle(
    polls: seq<nat>,
    handler: (nat, Job) -> HandlerResult,
    started: nat -> Clock,
    finished: nat -> Clock,
    ended: Clock,
    requeuedAt: nat -> Clock,
    liveFor: nat)

  /** Every poll is by one of the workers. */
  predicate Addressed(cycle: Cycle, workers: nat) {
    forall i :: 0 <= i < |cycle.polls| ==> cycle.polls[i] < workers
  }

  /** And none of them polls twice. */
  ghost predicate Wellformed(cycle: Cycle, workers: nat) {
    && Addressed(cycle, workers)
    && (forall i, j :: 0 <= i < j < |cycle.polls| ==> cycle.polls[i] != cycle.polls[j])
  }

  // ---------------------------------------------------------------- worker

  function FinalStatus(h: HandlerResult): (s: Status)
    ensures IsTerminal(s)
  {
    var s := if h.err then Is(Failed) else if h.status.Empty? then Is(Succeeded) else h.status;
    if IsTerminal(s) then s else Is(Failed)
  }

  /** What worker `w` reports for a job it dequeued. */
  function Execution(c: Checks, queued: Job, cycle: Cycle, w: nat): (r: RunResult) {
    var running := WithAttemptStatus(c, queued, Is(Running), cycle.started(w), cycle.started(w));
    if running.None? then Executed(queued, true) else
    var h := cycle.handler(w, running.value);
    var final := running.value.(status := FinalStatus(h), updatedAt := Stamp(h.now, cycle.finished(w)));
    Executed(final, h.err || !(h.status.Empty? || IsTerminal(h.status)))
  }

  method WorkerRunOnce(c: Checks, q: MemoryQueue, cycle: Cycle, w: nat) returns (r: RunResult)
    requires q.Bounded()
    modifies q`jobs
    ensures q.Bounded()
    ensures q.closed || old(q.jobs) == [] ==> r == Idle(q.closed) && q.jobs == old(q.jobs)
    ensures !q.closed && old(q.jobs) != [] ==>
              r == Execution(c, old(q.jobs)[0], cycle, w) && q.jobs == old(q.jobs)[1..]
  {
    var job, err := q.Dequeue(true);
    if err.Some? {
      return Idle(true);
    }
    if job.None? {
      return Idle(false);
    }
    var queued := job.value;
    var running := WithAttemptStatus(c, queued, Is(Running), cycle.started(w), cycle.started(w));
    if running.None? {
      return Executed(queued, true);
    }
    var inWork := running.value;
    var handled := cycle.handler(w, inWork);
    var handlerErr := handled.err;
    var ended := if handled.now == 0 then cycle.finished(w) else handled.now;
    var status := handled.status;
    if status.Empty? {
      status := Is(Succeeded);
    }
    if handlerErr {
      status := Is(Failed);
    }
    if !IsTerminal(status) {
      status := Is(Failed);
      handlerErr := true;
    }
    var final := inWork.(status := status, updatedAt := ended);
    if !Valid(c, final) {
      return Executed(inWork, true);
    }
    return Executed(final, handlerErr);
  }

  // ---------------------------------------------------------------- pool

  /** The result slots after the first `i` polls; every slot starts out idle. */
  function Polled(c: Checks, jobs: seq<Job>, closed: bool, workers: nat, cycle: Cycle, i: nat): (rs: seq<RunResult>)
    requires i <= |cycle.polls|
    requires Addressed(cycle, workers)
    ensures |rs| == workers
  {
    if i == 0 then seq(workers, _ => Idle(true)) else
    Polled(c, jobs, closed, workers, cycle, i - 1)[cycle.polls[i - 1] :=
      if closed || i - 1 >= |jobs| then Idle(closed) else Execution(c, jobs[i - 1], cycle, cycle.polls[i - 1])]
  }

  lemma OneMorePoll(c: Checks, jobs: seq<Job>, closed: bool, workers: nat, cycle: Cycle, i: nat)
    requires i < |cycle.polls| && Addressed(cycle, workers)
    ensures Polled(c, jobs, closed, workers, cycle, i + 1)
         == Polled(c, jobs, closed, workers, cycle, i)[cycle.polls[i] :=
              if closed || i >= |jobs| then Idle(closed) else Execution(c, jobs[i], cycle, cycle.polls[i])]
  {
  }

  function Results(c: Checks, jobs: seq<Job>, closed: bool, workers: nat, cycle: Cycle): (rs: seq<RunResult>)
    requires Addressed(cycle, workers)
  {
    Polled(c, jobs, closed, workers, cycle, |cycle.polls|)
  }

  /** The number of jobs the first `i` polls take. */
  function Front(jobs: seq<Job>, closed: bool, i: nat): (k: nat)
    ensures k <= |jobs| && k <= i
  {
    if closed then 0 else Min(i, |jobs|)
  }

  /** How many jobs a cycle takes off the queue. */
  function Taken(jobs: seq<Job>, closed: bool, cycle: Cycle): (k: nat)
    ensures k <= |jobs|
  {
    if closed then 0 else Min(|cycle.polls|, |jobs|)
  }

  /** An arrival the queue takes if it is open and has room. */
  predicate Acceptable(c: Checks, a: Arrival) {
    a.live && Valid(c, a.job) && (a.job.status == Is(Pending) || a.job.status == Is(Queued))
  }

  function StoredArrivals(arrivals: seq<Arrival>): (r: seq<Job>)
    ensures |r| == |arrivals|
  {
    seq(|arrivals|, i requires 0 <= i < |arrivals| => Stored(arrivals[i].job, arrivals[i].clock))
  }

  ghost predicate Timely(c: Checks, q: MemoryQueue, cycle: Cycle, early: seq<Arrival>)
    reads q
  {
    && (forall i :: 0 <= i < |early| ==> Acceptable(c, early[i]))
    && (early != [] ==> !q.closed && q.capacity > 0 && |q.jobs| + |early| <= |cycle.polls|)
  }

  /** What `i` polls leave of the `n` jobs that were in the queue. */
  function Waiting(stream: seq<Job>, n: nat, closed: bool, i: nat): seq<Job>
    requires n <= |stream|
  {
    stream[if closed then 0 else Min(i, n)..n]
  }

  lemma NextWaiting(stream: seq<Job>, n: nat, i: nat)
    requires n <= |stream|
    ensures var now, next := Waiting(stream, n, false, i), Waiting(stream, n, false, i + 1);
            if i < n then now == [stream[i]] + next && now[1..] == next else now == next == []
  {
  }

  lemma WaitingAtEnd(stream: seq<Job>, n: nat, closed: bool, cycle: Cycle)
    requires n <= |stream| && (n < |stream| ==> !closed && |stream| <= |cycle.polls|)
    ensures Waiting(stream, n, closed, |cycle.polls|) == stream[Taken(stream, closed, cycle)..]
  {
  }

  /** Poll `i` of a cycle that found `n` jobs in the queue. Jobs that arrive in time for a poll
      come right before the poll that takes them. */
  method Poll(c: Checks, q: MemoryQueue, cycle: Cycle, i: nat, n: nat, early: seq<Arrival>, ghost stream: seq<Job>)
    returns (r: RunResult)
    requires q.Bounded() && i < |cycle.polls| && |stream| == n + |early| && stream[n..] == StoredArrivals(early)
    requires early != [] ==> !q.closed && q.capacity > 0
    requires forall k :: 0 <= k < |early| ==> Acceptable(c, early[k])
    requires q.jobs == Waiting(stream, n, q.closed, i)
    modifies q`jobs
    ensures q.Bounded() && q.jobs == Waiting(stream, n, q.closed, i + 1)
    ensures r == if q.closed || i >= |stream| then Idle(q.closed) else Execution(c, stream[i], cycle, cycle.polls[i])
  {
    NextWaiting(stream, n, i);
    if n <= i < n + |early| {
      var a := early[i - n];
      assert stream[i] == stream[n..][i - n] == Stored(a.job, a.clock);
      var _ := q.Enqueue(c, a.live, a.job, a.clock);
      assert q.jobs == [stream[i]];
    }
    r := WorkerRunOnce(c, q, cycle, cycle.polls[i]);
  }

  /** Every worker polls; the result goes into its slot. */
  method PollEach(c: Checks, q: MemoryQueue, workers: nat, cycle: Cycle, early: seq<Arrival>, n: nat, ghost stream: seq<Job>)
    returns (results: seq<RunResult>)
    requires q.Bounded() && Wellformed(cycle, workers) && |stream| == n + |early| && stream[n..] == StoredArrivals(early)
    requires Timely(c, q, cycle, early) && q.jobs == Waiting(stream, n, q.closed, 0)
    modifies q`jobs
    ensures q.Bounded() && q.jobs == Waiting(stream, n, q.closed, |cycle.polls|)
    ensures results == Results(c, stream, q.closed, workers, cycle)
  {
    var slots := new RunResult[workers](_ => Idle(true));
    var i := 0;
    while i < |cycle.polls|
      invariant i <= |cycle.polls| && q.Bounded()
      invariant slots[..] == Polled(c, stream, q.closed, workers, cycle, i)
      invariant q.jobs == Waiting(stream, n, q.closed, i)
    {
      OneMorePoll(c, stream, q.closed, workers, cycle, i);
      slots[cycle.polls[i]] := Poll(c, q, cycle, i, n, early, stream);
      i := i + 1;
    }
    return slots[..];
  }

  method PoolRunOnce(c: Checks, q: MemoryQueue, workers: nat, cycle: Cycle, early: seq<Arrival>)
    returns (results: seq<RunResult>, err: bool)
    requires q.Bounded() && Wellformed(cycle, workers) && Timely(c, q, cycle, early)
    modifies q`jobs
    ensures q.Bounded()
    ensures var stream := old(q.jobs) + StoredArrivals(early);
            && results == Results(c, stream, q.closed, workers, cycle)
            && q.jobs == stream[Taken(stream, q.closed, cycle)..]
    ensures err <==> exists r :: r in results && r.err
  {
    ghost var stream := q.jobs + StoredArrivals(early);
    ghost var n := |q.jobs|;
    results := PollEach(c, q, workers, cycle, early, |q.jobs|, stream);
    WaitingAtEnd(stream, n, q.closed, cycle);
    err := exists r :: r in results && r.err;
  }

  // ---------------------------------------------------------------- dispatcher

  /** How the dispatcher reads an executed job. Its comparisons are exact, so a padded terminal
      status, or a job refused by the attempt check and still marked queued, is neither. */
  predicate IsSucceeded(j: Job) { j.status == Is(Succeeded) }
  predicate IsExhausted(j: Job) { j.status == Is(Failed) && j.attempt >= j.maxAttempts }
  predicate IsRetryable(j: Job) { j.status == Is(Failed) && j.attempt < j.maxAttempts }
  predicate IsDropped(j: Job) { j.status != Is(Succeeded) && j.status != Is(Failed) }
  predicate IsAny(j: Job) { true }

  /** The executed jobs that satisfy `p`, in worker order. */
  function Select(rs: seq<RunResult>, p: Job -> bool): (r: seq<Job>)
    ensures |r| <= |rs|
  {
    if rs == [] then [] else
    var front, last := Select(rs[..|rs| - 1], p), rs[|rs| - 1];
    if last.Executed? && p(last.job) then front + [last.job] else front
  }

  /** Selected jobs keep the order of their workers. */
  lemma {:induction false} InWorkerOrder(rs: seq<RunResult>, p: Job -> bool, w: nat)
    requires w < |rs| && rs[w].Executed? && p(rs[w].job)
    ensures var k := |Select(rs[..w], p)|;
            k < |Select(rs, p)| && Select(rs, p)[k] == rs[w].job
  {
    if w < |rs| - 1 {
      InWorkerOrder(rs[..|rs| - 1], p, w);
      assert rs[..|rs| - 1][..w] == rs[..w];
    }
  }

  /** The queue after a cycle: what nobody took, then the retried jobs in worker order. */
  function AfterCycle(c: Checks, jobs: seq<Job>, closed: bool, workers: nat, cycle: Cycle): (r: seq<Job>)
    requires Addressed(cycle, workers)
  {
    var retry := Select(Results(c, jobs, closed, workers, cycle), IsRetryable);
    jobs[Taken(jobs, closed, cycle)..] + AllStored(retry[..Min(|retry|, cycle.liveFor)], cycle.requeuedAt)
  }

  ghost predicate AllValid(c: Checks, rs: seq<RunResult>) {
    forall r :: r in rs && r.Executed? ==> Valid(c, r.job)
  }

  lemma PolledIsValid(c: Checks, jobs: seq<Job>, closed: bool, workers: nat, cycle: Cycle, i: nat)
    requires i <= |cycle.polls| && AllQueued(c, jobs)
    requires Addressed(cycle, workers)
    ensures AllValid(c, Polled(c, jobs, closed, workers, cycle, i))
  {
    if i > 0 {
      PolledIsValid(c, jobs, closed, workers, cycle, i - 1);
    }
  }

  // ---------------------------------------------------------------- sums over jobs

  /** The same quantity computed straight from the result slots. */
  function Tally(rs: seq<RunResult>, p: Job -> bool, f: Job -> int): int {
    if rs == [] then 0 else
    Tally(rs[..|rs| - 1], p, f) + Weight(rs[|rs| - 1], p, f)
  }

  function Weight(r: RunResult, p: Job -> bool, f: Job -> int): int {
    if r.Executed? && p(r.job) then f(r.job) else 0
  }

  lemma {:induction false} TallyIsSum(rs: seq<RunResult>, p: Job -> bool, f: Job -> int)
    ensures Sum(Select(rs, p), f) == Tally(rs, p, f)
  {
    if rs != [] {
      TallyIsSum(rs[..|rs| - 1], p, f);
    }
  }

  /** Filling an idle slot adds its job to the tally, wherever the slot is. */
  lemma {:induction false} TallyFilled(rs: seq<RunResult>, w: nat, r: RunResult, p: Job -> bool, f: Job -> int)
    requires w < |rs| && rs[w].Idle?
    ensures Tally(rs[w := r], p, f) == Tally(rs, p, f) + Weight(r, p, f)
  {
    var front := rs[..|rs| - 1];
    if w == |rs| - 1 {
      assert rs[w := r][..|rs| - 1] == front;
    } else {
      assert rs[w := r][..|rs| - 1] == front[w := r];
      TallyFilled(front, w, r, p, f);
    }
  }

  lemma {:induction false} TallyIdle(rs: seq<RunResult>, p: Job -> bool, f: Job -> int)
    requires forall r :: r in rs ==> r.Idle?
    ensures Tally(rs, p, f) == 0
  {
    if rs != [] {
      assert rs[|rs| - 1] in rs;
      TallyIdle(rs[..|rs| - 1], p, f);
    }
  }

  lemma {:induction false} UnpolledIsIdle(c: Checks, jobs: seq<Job>, closed: bool, workers: nat, cycle: Cycle, i: nat, w: nat)
    requires Wellformed(cycle, workers) && i <= |cycle.polls| && w < workers
    requires forall k :: 0 <= k < i ==> cycle.polls[k] != w
    ensures Polled(c, jobs, closed, workers, cycle, i)[w] == Idle(true)
  {
    if i > 0 {
      UnpolledIsIdle(c, jobs, closed, workers, cycle, i - 1, w);
    }
  }

  lemma PolledStep(c: Checks, jobs: seq<Job>, closed: bool, workers: nat, cycle: Cycle, i: nat, p: Job -> bool, f: Job -> int)
    requires Wellformed(cycle, workers) && i < |cycle.polls|
    ensures Tally(Polled(c, jobs, closed, workers, cycle, i + 1), p, f)
         == Tally(Polled(c, jobs, closed, workers, cycle, i), p, f)
            + if closed || i >= |jobs| then 0 else Weight(Execution(c, jobs[i], cycle, cycle.polls[i]), p, f)
  {
    var w := cycle.polls[i];
    var r := if closed || i >= |jobs| then Idle(closed) else Execution(c, jobs[i], cycle, w);
    UnpolledIsIdle(c, jobs, closed, workers, cycle, i, w);
    TallyFilled(Polled(c, jobs, closed, workers, cycle, i), w, r, p, f);
  }

  function Total(xs: seq<int>): int {
    if xs == [] then 0 else Total(xs[..|xs| - 1]) + xs[|xs| - 1]
  }

  /** What each of the first `n` jobs of the queue adds: job k is executed by the worker of poll k. */
  function Weights(c: Checks, jobs: seq<Job>, cycle: Cycle, n: nat, p: Job -> bool, f: Job -> int): (r: seq<int>)
    requires n <= |jobs| && n <= |cycle.polls|
    ensures |r| == n
  {
    seq(n, k requires 0 <= k < n => Weight(Execution(c, jobs[k], cycle, cycle.polls[k]), p, f))
  }

  /** The same tally taken along the queue. */
  function Along(c: Checks, jobs: seq<Job>, cycle: Cycle, n: nat, p: Job -> bool, f: Job -> int): int
    requires n <= |jobs| && n <= |cycle.polls|
  {
    Total(Weights(c, jobs, cycle, n, p, f))
  }

  lemma AlongNext(c: Checks, jobs: seq<Job>, cycle: Cycle, n: nat, p: Job -> bool, f: Job -> int)
    requires n < |jobs| && n < |cycle.polls|
    ensures Along(c, jobs, cycle, n + 1, p, f)
         == Along(c, jobs, cycle, n, p, f) + Weight(Execution(c, jobs[n], cycle, cycle.polls[n]), p, f)
  {
    assert Weights(c, jobs, cycle, n + 1, p, f)[..n] == Weights(c, jobs, cycle, n, p, f);
  }

  /** After `i` polls the result slots hold what the front of the queue became. */
  ghost predicate Accounted(c: Checks, jobs: seq<Job>, closed: bool, workers: nat, cycle: Cycle, i: nat, p: Job -> bool, f: Job -> int)
    requires Wellformed(cycle, workers) && i <= |cycle.polls|
  {
    Tally(Polled(c, jobs, closed, workers, cycle, i), p, f) == Along(c, jobs, cycle, Front(jobs, closed, i), p, f)
  }

  lemma NothingPolled(c: Checks, jobs: seq<Job>, closed: bool, workers: nat, cycle: Cycle, p: Job -> bool, f: Job -> int)
    requires Wellformed(cycle, workers)
    ensures Accounted(c, jobs, closed, workers, cycle, 0, p, f)
  {
    TallyIdle(Polled(c, jobs, closed, workers, cycle, 0), p, f);
  }

  lemma PolledNext(c: Checks, jobs: seq<Job>, closed: bool, workers: nat, cycle: Cycle, i: nat, p: Job -> bool, f: Job -> int)
    requires Wellformed(cycle, workers) && i < |cycle.polls| && Accounted(c, jobs, closed, workers, cycle, i, p, f)
    ensures Accounted(c, jobs, closed, workers, cycle, i + 1, p, f)
  {
    PolledStep(c, jobs, closed, workers, cycle, i, p, f);
    if !closed && i < |jobs| {
      AlongNext(c, jobs, cycle, i, p, f);
    }
  }

  /** So they do in whatever order the polls are served. */
  lemma {:induction false} PolledTally(c: Checks, jobs: seq<Job>, closed: bool, workers: nat, cycle: Cycle, i: nat, p: Job -> bool, f: Job -> int)
    requires Wellformed(cycle, workers) && i <= |cycle.polls|
    ensures Accounted(c, jobs, closed, workers, cycle, i, p, f)
  {
    NothingPolled(c, jobs, closed, workers, cycle, p, f);
    var k := 0;
    while k < i
      invariant k <= i && Accounted(c, jobs, closed, workers, cycle, k, p, f)
    {
      PolledNext(c, jobs, closed, workers, cycle, k, p, f);
      k := k + 1;
    }
  }

  /** A quantity before execution that tells what another one will be after it. */
  ghost predicate Foretells(c: Checks, jobs: seq<Job>, cycle: Cycle, f: Job -> int, g: Job -> int) {
    forall k, w: nat :: 0 <= k < |jobs| ==> f(Execution(c, jobs[k], cycle, w).job) == g(jobs[k])
  }

  lemma {:induction false} AlongIsSum(c: Checks, jobs: seq<Job>, cycle: Cycle, n: nat, f: Job -> int, g: Job -> int)
    requires n <= |jobs| && n <= |cycle.polls| && Foretells(c, jobs, cycle, f, g)
    ensures Along(c, jobs, cycle, n, IsAny, f) == Sum(jobs[..n], g)
  {
    if n > 0 {
      AlongIsSum(c, jobs, cycle, n - 1, f, g);
      AlongNext(c, jobs, cycle, n - 1, IsAny, f);
      SumNext(jobs, n - 1, g);
    }
  }

  /** A quantity summed over the executed jobs is the corresponding quantity summed over the front
      of the queue. */
  lemma PolledSum(c: Checks, jobs: seq<Job>, closed: bool, workers: nat, cycle: Cycle, f: Job -> int, g: Job -> int)
    requires Wellformed(cycle, workers) && Foretells(c, jobs, cycle, f, g)
    ensures Tally(Results(c, jobs, closed, workers, cycle), IsAny, f) == Sum(jobs[..Taken(jobs, closed, cycle)], g)
  {
    PolledTally(c, jobs, closed, workers, cycle, |cycle.polls|, IsAny, f);
    AlongIsSum(c, jobs, cycle, Taken(jobs, closed, cycle), f, g);
  }

  /** The four readings of an executed job cover every job exactly once. */
  lemma {:induction false} Classified(rs: seq<RunResult>, f: Job -> int)
    ensures Tally(rs, IsAny, f)
         == Tally(rs, IsSucceeded, f) + Tally(rs, IsExhausted, f) + Tally(rs, IsRetryable, f) + Tally(rs, IsDropped, f)
  {
    if rs != [] {
      Classified(rs[..|rs| - 1], f);
    }
  }

  function One(j: Job): int { 1 }

  lemma {:induction false} SumOnes(js: seq<Job>)
    ensures Sum(js, One) == |js|
  {
    if js != [] {
      SumOnes(js[..|js| - 1]);
    }
  }

  // ---------------------------------------------------------------- the cycle

  /** A cycle reports exactly the jobs it took, and never retries more than that. */
  lemma ExecutedCount(c: Checks, jobs: seq<Job>, closed: bool, workers: nat, cycle: Cycle)
    requires Wellformed(cycle, workers)
    ensures var rs := Results(c, jobs, closed, workers, cycle);
            && |Select(rs, IsAny)| == Taken(jobs, closed, cycle)
            && |Select(rs, IsSucceeded)| + |Select(rs, IsExhausted)| + |Select(rs, IsRetryable)| + |Select(rs, IsDropped)|
               == Taken(jobs, closed, cycle)
  {
    var rs := Results(c, jobs, closed, workers, cycle);
    PolledSum(c, jobs, closed, workers, cycle, One, One);
    Classified(rs, One);
    CountIsTally(rs, IsAny);
    CountIsTally(rs, IsSucceeded);
    CountIsTally(rs, IsExhausted);
    CountIsTally(rs, IsRetryable);
    CountIsTally(rs, IsDropped);
    SumOnes(jobs[..Taken(jobs, closed, cycle)]);
  }

  lemma CountIsTally(rs: seq<RunResult>, p: Job -> bool)
    ensures |Select(rs, p)| == Tally(rs, p, One)
  {
    TallyIsSum(rs, p, One);
    SumOnes(Select(rs, p));
  }

  datatype Summary = Summary(executed: nat, succeeded: nat, failed: nat, retried: nat)

  /** What the dispatcher has counted, and the jobs it has found worth retrying. */
  datatype Reading = Reading(executed: nat, succeeded: nat, failed: nat, retry: seq<Job>)

  function ReadNext(t: Reading, r: RunResult): Reading {
    if r.Idle? then t
    else if IsSucceeded(r.job) then t.(executed := t.executed + 1, succeeded := t.succeeded + 1)
    else if IsRetryable(r.job) then
      Reading(t.executed + 1, t.succeeded, t.failed + 1, t.retry + [r.job])
    else if IsExhausted(r.job) then t.(executed := t.executed + 1, failed := t.failed + 1)
    else t.(executed := t.executed + 1)
  }

  function ReadAll(rs: seq<RunResult>): Reading {
    if rs == [] then Reading(0, 0, 0, []) else ReadNext(ReadAll(rs[..|rs| - 1]), rs[|rs| - 1])
  }

  lemma {:induction false} ReadAllSelects(rs: seq<RunResult>)
    ensures ReadAll(rs) == Reading(|Select(rs, IsAny)|, |Select(rs, IsSucceeded)|,
                                   |Select(rs, IsExhausted)| + |Select(rs, IsRetryable)|, Select(rs, IsRetryable))
  {
    if rs != [] {
      ReadAllSelects(rs[..|rs| - 1]);
    }
  }

  lemma {:induction false} ReadPrefix(rs: seq<RunResult>, i: nat)
    requires i <= |rs|
    ensures ReadAll(rs[..i]).retry <= ReadAll(rs).retry
  {
    if i == |rs| {
      assert rs[..i] == rs;
    } else {
      ReadPrefix(rs[..|rs| - 1], i);
      assert rs[..|rs| - 1][..i] == rs[..i];
    }
  }

  /** Decide on one failed job and put it back when it is eligible and the queue takes it. */
  method RetryFailed(c: Checks, q: MemoryQueue, j: Job, ended: Clock, live: bool, clock: Clock)
    returns (retry: bool, err: Option<Error>)
    requires q.Bounded() && Valid(c, j) && j.status == Is(Failed)
    modifies q`jobs
    ensures q.Bounded() && retry == IsRetryable(j)
    ensures err == if retry then Blocked(live, q.closed, |old(q.jobs)|, q.capacity) else None
    ensures q.jobs == if retry && err.None? then old(q.jobs) + [Stored(j, clock)] else old(q.jobs)
  {
    var decision := Decide(c, j, ended, ended);
    err := None;
    retry := decision.Retry?;
    if retry {
      err := q.Enqueue(c, live, decision.job, clock);
    }
  }

  lemma ReadOneMore(results: seq<RunResult>, i: nat)
    requires i < |results|
    ensures ReadAll(results[..i + 1]) == ReadNext(ReadAll(results[..i]), results[i])
  {
    assert results[..i + 1][..i] == results[..i];
  }

  /** The counters agree with what has been read. */
  ghost predicate Tallies(s: Summary, t: Reading) {
    s == Summary(t.executed, t.succeeded, t.failed, |t.retry|)
  }

  /** The queue as a value; what it has accepted from others is on record elsewhere. */
  ghost predicate Mirrors(q: MemoryQueue, ch: Channel)
    reads q
  {
    q.jobs == ch.jobs && q.closed == ch.closed
  }

  /** Other users enqueue and close. */
  method Interfere(c: Checks, q: MemoryQueue, d: Disturbance, ghost ch: Channel)
    requires q.Bounded() && Mirrors(q, ch)
    modifies q`jobs, q`closed
    ensures q.Bounded() && Mirrors(q, Disturb(c, q.capacity, ch, d))
  {
    var i := 0;
    while i < |d.arrivals|
      invariant i <= |d.arrivals| && q.Bounded() && q.closed == ch.closed
      invariant Mirrors(q, ArriveAll(c, q.capacity, ch, d.arrivals[..i]))
    {
      assert d.arrivals[..i + 1][..i] == d.arrivals[..i];
      var a := d.arrivals[i];
      var _ := q.Enqueue(c, a.live, a.job, a.clock);
      i := i + 1;
    }
    assert d.arrivals[..i] == d.arrivals;
    q.closed := q.closed || d.closes;
  }

  /** Counts one result and, if its job should be retried, puts it back after `d` has happened. */
  method ReadOne(c: Checks, q: MemoryQueue, r: RunResult, cycle: Cycle, s: Summary, d: Disturbance, ghost t: Reading, ghost ch: Channel)
    returns (next: Summary, err: Option<Error>)
    requires q.Bounded() && (r.Executed? ==> Valid(c, r.job)) && Tallies(s, t) && Mirrors(q, ch)
    modifies q`jobs, q`closed
    ensures q.Bounded()
    ensures if r.Executed? && IsRetryable(r.job) then
              var facing := Disturb(c, q.capacity, ch, d);
              && err == Blocked(s.retried < cycle.liveFor, facing.closed, |facing.jobs|, q.capacity)
              && Mirrors(q, if err.None? then SentBack(facing, r.job, cycle.requeuedAt(s.retried)) else facing)
            else err.None? && Mirrors(q, ch)
    ensures if err.None? then Tallies(next, ReadNext(t, r)) else next.retried == s.retried
  {
    next, err := s, None;
    if r.Executed? {
      next := next.(executed := next.executed + 1);
      if r.job.status == Is(Succeeded) {
        next := next.(succeeded := next.succeeded + 1);
      } else if r.job.status == Is(Failed) {
        next := next.(failed := next.failed + 1);
        if IsRetryable(r.job) {
          Interfere(c, q, d, ch);
        }
        var again;
        again, err := RetryFailed(c, q, r.job, cycle.ended, next.retried < cycle.liveFor, cycle.requeuedAt(next.retried));
        if again && err.None? {
          next := next.(retried := next.retried + 1);
        }
      }
    }
  }

  /** What a cycle sends back, and what others do meanwhile. */
  function Retries(retry: seq<Job>, cycle: Cycle, m: Meanwhile): Return {
    Return(retry, cycle.requeuedAt, cycle.liveFor, m.before)
  }

  /** Having read the first `i` results, the queue is where sending back their retries leads. */
  ghost predicate ReadSoFar(c: Checks, q: MemoryQueue, ch: Channel, back: Return, results: seq<RunResult>, i: nat)
    requires i <= |results|
    reads q
  {
    var k := |ReadAll(results[..i]).retry|;
    && k <= |back.jobs| && Sent(c, q.capacity, ch, back, k) == k
    && Mirrors(q, Going(c, q.capacity, ch, back, k))
  }

  /** The next retry is the one that result `i` asks for. */
  lemma NextRetry(results: seq<RunResult>, i: nat)
    requires i < |results| && results[i].Executed? && IsRetryable(results[i].job)
    ensures var k, all := |ReadAll(results[..i]).retry|, ReadAll(results).retry;
            k < |all| && all[k] == results[i].job
  {
    ReadOneMore(results, i);
    ReadPrefix(results, i + 1);
  }

  /** The queue has refused a retry: those before it are back. */
  ghost predicate Stopped(c: Checks, q: MemoryQueue, ch: Channel, back: Return, retried: nat, err: Option<Error>)
    reads q
  {
    var k := Sent(c, q.capacity, ch, back, |back.jobs|);
    k < |back.jobs| && retried == k && err.Some? && err == Refused(c, q.capacity, ch, back, k) && Mirrors(q, Outcome(c, q.capacity, ch, back))
  }

  /** Reading result `i` after those before it. */
  method ReadAt(c: Checks, q: MemoryQueue, results: seq<RunResult>, i: nat, cycle: Cycle, m: Meanwhile, s: Summary, ghost ch: Channel)
    returns (next: Summary, err: Option<Error>)
    requires q.Bounded() && AllValid(c, results) && i < |results| && Tallies(s, ReadAll(results[..i]))
    requires ReadSoFar(c, q, ch, Retries(ReadAll(results).retry, cycle, m), results, i)
    modifies q`jobs, q`closed
    ensures q.Bounded()
    ensures var back := Retries(ReadAll(results).retry, cycle, m);
            if err.None? then Tallies(next, ReadAll(results[..i + 1])) && ReadSoFar(c, q, ch, back, results, i + 1)
            else Stopped(c, q, ch, back, next.retried, err)
  {
    ghost var t, back := ReadAll(results[..i]), Retries(ReadAll(results).retry, cycle, m);
    ghost var k := |t.retry|;
    assert results[i] in results;
    ReadOneMore(results, i);
    if results[i].Executed? && IsRetryable(results[i].job) {
      NextRetry(results, i);
    }
    next, err := ReadOne(c, q, results[i], cycle, s, m.before(s.retried), t, Going(c, q.capacity, ch, back, k));
    if err.Some? {
      SentStops(c, q.capacity, ch, back, k, |back.jobs|);
    } else if results[i].Executed? && IsRetryable(results[i].job) {
      SentGoesOn(c, q.capacity, ch, back, k);
    }
  }

  /** The results are read in worker order and the retries appended, until the queue refuses
      one: then the loop ends and the rest is not read. */
  method Requeue(c: Checks, q: MemoryQueue, results: seq<RunResult>, cycle: Cycle, m: Meanwhile)
    returns (summary: Summary, halted: Option<Error>)
    requires q.Bounded() && AllValid(c, results)
    modifies q`jobs, q`closed
    ensures q.Bounded()
    ensures var t, ch := ReadAll(results), Channel(old(q.jobs), old(q.closed), []);
            var back := Retries(t.retry, cycle, m);
            var k := Sent(c, q.capacity, ch, back, |t.retry|);
            && Mirrors(q, Outcome(c, q.capacity, ch, back))
            && halted == (if k < |t.retry| then Refused(c, q.capacity, ch, back, k) else None)
            && (halted.None? <==> k == |t.retry|)
            && summary.retried == k
            && (halted.None? ==> Tallies(summary, t))
  {
    ghost var ch, back := Channel(q.jobs, q.closed, []), Retries(ReadAll(results).retry, cycle, m);
    summary, halted := Summary(0, 0, 0, 0), None;
    var i := 0;
    while i < |results|
      invariant i <= |results| && q.Bounded() && halted.None?
      invariant Tallies(summary, ReadAll(results[..i])) && ReadSoFar(c, q, ch, back, results, i)
    {
      summary, halted := ReadAt(c, q, results, i, cycle, m, summary, ch);
      if halted.Some? {
        return;
      }
      i := i + 1;
    }
    assert results[..i] == results;
  }

  /** What other users of the queue do during a cycle. `early` are jobs that arrive in time to be
      taken by a poll of this cycle; any other arrival is in `before(n)`, which happens before the
      n-th retry. A close during the polls makes the later ones come back as if they had not
      been, so it counts as happening before the first retry. */
  datatype Meanwhile = Meanwhile(early: seq<Arrival>, before: nat -> Disturbance)

  ghost predicate Quiet(m: Meanwhile) {
    m.early == [] && forall n :: m.before(n) == CALM
  }

  function Welcome(c: Checks, arrivals: seq<Arrival>): (r: seq<Arrival>)
    ensures forall i :: 0 <= i < |r| ==> Acceptable(c, r[i])
  {
    if arrivals == [] then [] else
    var front, last := Welcome(c, arrivals[..|arrivals| - 1]), arrivals[|arrivals| - 1];
    if Acceptable(c, last) then front + [last] else front
  }

  /** The early arrivals that polls are left for. */
  function Early(c: Checks, jobs: seq<Job>, closed: bool, cycle: Cycle, m: Meanwhile, capacity: nat): (r: seq<Arrival>)
    ensures forall i :: 0 <= i < |r| ==> Acceptable(c, r[i])
    ensures r != [] ==> !closed && capacity > 0 && |jobs| + |r| <= |cycle.polls|
  {
    if closed || capacity == 0 || |cycle.polls| <= |jobs| then [] else
    var welcome := Welcome(c, m.early);
    welcome[..Min(|welcome|, |cycle.polls| - |jobs|)]
  }

  /** The jobs that the polls of a cycle find, in order. */
  function Stream(c: Checks, jobs: seq<Job>, closed: bool, cycle: Cycle, m: Meanwhile, capacity: nat): (r: seq<Job>) {
    jobs + StoredArrivals(Early(c, jobs, closed, cycle, m, capacity))
  }

  /** The queue that the retries of a cycle start from. */
  function Rest(c: Checks, jobs: seq<Job>, closed: bool, cycle: Cycle, m: Meanwhile, capacity: nat): (r: Channel)
    ensures |jobs| <= capacity ==> |r.jobs| <= capacity
  {
    var stream := Stream(c, jobs, closed, cycle, m, capacity);
    Channel(stream[Taken(stream, closed, cycle)..], closed, [])
  }

  /** The retries of a cycle. */
  function RetryList(c: Checks, jobs: seq<Job>, closed: bool, workers: nat, cycle: Cycle, m: Meanwhile, capacity: nat): seq<Job>
    requires Addressed(cycle, workers)
  {
    Select(Results(c, Stream(c, jobs, closed, cycle, m, capacity), closed, workers, cycle), IsRetryable)
  }

  /** One cycle, whatever others do to the queue meanwhile. */
  method DispatcherRunOnce(c: Checks, q: MemoryQueue, workers: nat, cycle: Cycle, m: Meanwhile)
    returns (summary: Summary, halted: Option<Error>)
    requires q.Bounded() && Wellformed(cycle, workers) && AllQueued(c, q.jobs)
    modifies q`jobs, q`closed
    ensures q.Bounded()
    ensures var stream := Stream(c, old(q.jobs), old(q.closed), cycle, m, q.capacity);
            var rs, rest := Results(c, stream, old(q.closed), workers, cycle), Rest(c, old(q.jobs), old(q.closed), cycle, m, q.capacity);
            var back := Retries(Select(rs, IsRetryable), cycle, m);
            var k := Sent(c, q.capacity, rest, back, |back.jobs|);
            && Mirrors(q, Outcome(c, q.capacity, rest, back))
            && halted == (if k < |back.jobs| then Refused(c, q.capacity, rest, back, k) else None)
            && summary.retried == k
            && (halted.None? ==> summary == Summary(Taken(stream, old(q.closed), cycle), |Select(rs, IsSucceeded)|,
                                                    |Select(rs, IsExhausted)| + |back.jobs|, |back.jobs|))
  {
    var early := Early(c, q.jobs, q.closed, cycle, m, q.capacity);
    ghost var stream := Stream(c, q.jobs, q.closed, cycle, m, q.capacity);
    StreamQueued(c, q.jobs, q.closed, cycle, m, q.capacity);
    PolledIsValid(c, stream, q.closed, workers, cycle, |cycle.polls|);
    ExecutedCount(c, stream, q.closed, workers, cycle);
    var results, _ := PoolRunOnce(c, q, workers, cycle, early);
    ReadAllSelects(results);
    summary, halted := Requeue(c, q, results, cycle, m);
  }

  lemma StreamQueued(c: Checks, jobs: seq<Job>, closed: bool, cycle: Cycle, m: Meanwhile, capacity: nat)
    requires AllQueued(c, jobs)
    ensures AllQueued(c, Stream(c, jobs, closed, cycle, m, capacity))
  {
    var early := Early(c, jobs, closed, cycle, m, capacity);
    var stored := StoredArrivals(early);
    forall i | 0 <= i < |stored| ensures Valid(c, stored[i]) && stored[i].status == Is(Queued) {
      assert Acceptable(c, early[i]);
    }
  }

  /** If nobody else touches the queue during a cycle, no retry is refused for lack of room: the
      retries that go back are cut short only by a cancelled context. */
  lemma QuietCycle(c: Checks, jobs: seq<Job>, closed: bool, workers: nat, cycle: Cycle, m: Meanwhile, capacity: nat)
    requires Wellformed(cycle, workers) && |jobs| <= capacity && Quiet(m)
    ensures Stream(c, jobs, closed, cycle, m, capacity) == jobs
    ensures var rest, back := Rest(c, jobs, closed, cycle, m, capacity),
                              Retries(RetryList(c, jobs, closed, workers, cycle, m, capacity), cycle, m);
            && Outcome(c, capacity, rest, back) == Channel(AfterCycle(c, jobs, closed, workers, cycle), closed, [])
            && Sent(c, capacity, rest, back, |back.jobs|) == Min(|back.jobs|, cycle.liveFor)
  {
    assert Stream(c, jobs, closed, cycle, m, capacity) == jobs;
    ExecutedCount(c, jobs, closed, workers, cycle);
    var rest, back := Rest(c, jobs, closed, cycle, m, capacity), Retries(RetryList(c, jobs, closed, workers, cycle, m, capacity), cycle, m);
    if !closed {
      CalmSent(c, capacity, rest, back, |back.jobs|);
    }
    CalmGoing(c, capacity, rest, back, Min(|back.jobs|, cycle.liveFor));
  }
}
