/** Whole runs of the job engine: producers offer jobs at any time, cycles run under every poll
    order and every handler behaviour, the queue may be closed, saved to a snapshot, and restored
    from it after a restart (internal/dispatcher, internal/worker, internal/queue,
    internal/server/worker_api.go, internal/bootstrap/bootstrap.go). */
module Runs {
  import opened Text
  import opened Jobs
  import opened Queue
  import opened Sharing
  import opened Engine

  /** Where every job that was ever accepted has gone. `runs` lists the jobs handed to the
      handler, `lost` the jobs that left the queue without being finished. `saved` is the
      snapshot on disk, and `stale` counts the restarts that found it out of date. */
  datatype Ledger = Ledger(
    queue: seq<Job>,
    closed: bool,
    accepted: seq<Job>,
    succeeded: seq<Job>,
    exhausted: seq<Job>,
    lost: seq<Job>,
    runs: seq<Job>,
    saved: seq<Job>,
    stale: nat)

  const EMPTY := Ledger([], false, [], [], [], [], [], [], 0)

  datatype Event =
    | Offer(arrival: Arrival)
    | Turn(cycle: Cycle, m: Meanwhile)
    | Close
    | Save
    | Restart(stamps: nat -> Clock)

  datatype Setup = Setup(checks: Checks, capacity: nat, workers: nat)

  function Handed(js: seq<Job>): seq<Job> {
    if js == [] then [] else
    var last := js[|js| - 1];
    if last.attempt < last.maxAttempts then Handed(js[..|js| - 1]) + [last] else Handed(js[..|js| - 1])
  }

  ghost predicate Feasible(u: Setup, e: Event) {
    e.Turn? ==> Wellformed(e.cycle, u.workers)
  }

  ghost predicate AllFeasible(u: Setup, es: seq<Event>) {
    forall e :: e in es ==> Feasible(u, e)
  }

  // ---------------------------------------------------------------- one cycle

  function JobsOf(arrivals: seq<Arrival>): (r: seq<Job>)
    ensures |r| == |arrivals|
  {
    seq(|arrivals|, i requires 0 <= i < |arrivals| => arrivals[i].job)
  }

  /** What one cycle does: the jobs it finds and takes, what its workers report, which retries it
      has and how many go back, and the queue and the jobs accepted from others at its end. */
  datatype Cycled = Cycled(
    early: seq<Arrival>, stream: seq<Job>, taken: nat, rs: seq<RunResult>, retry: seq<Job>, sent: nat, out: Channel)

  function Cycling(u: Setup, s: Ledger, cycle: Cycle, m: Meanwhile): (r: Cycled)
    requires Addressed(cycle, u.workers)
    ensures r.taken <= |r.stream| && r.sent <= |r.retry| && r.taken <= |cycle.polls|
    ensures r.stream == s.queue + StoredArrivals(r.early)
  {
    var stream := Stream(u.checks, s.queue, s.closed, cycle, m, u.capacity);
    var rs := Results(u.checks, stream, s.closed, u.workers, cycle);
    var back := Retries(Select(rs, IsRetryable), cycle, m);
    var rest := Rest(u.checks, s.queue, s.closed, cycle, m, u.capacity);
    Cycled(
      Early(u.checks, s.queue, s.closed, cycle, m, u.capacity), stream, Taken(stream, s.closed, cycle), rs, back.jobs,
      Sent(u.checks, u.capacity, rest, back, |back.jobs|), Outcome(u.checks, u.capacity, rest, back))
  }

  ghost function Next(u: Setup, s: Ledger, e: Event): Ledger
    requires Feasible(u, e)
  {
    match e
    case Offer(a) =>
      var ch := Arrives(u.checks, u.capacity, Channel(s.queue, s.closed, s.accepted), a);
      s.(queue := ch.jobs, accepted := ch.accepted)
    case Turn(cycle, m) =>
      var t := Cycling(u, s, cycle, m);
      s.(queue := t.out.jobs,
         closed := t.out.closed,
         accepted := s.accepted + (JobsOf(t.early) + t.out.accepted),
         succeeded := s.succeeded + Select(t.rs, IsSucceeded),
         exhausted := s.exhausted + Select(t.rs, IsExhausted),
         lost := s.lost + (Select(t.rs, IsDropped) + t.retry[t.sent..]),
         runs := s.runs + Handed(t.stream[..t.taken]))
    case Close => s.(closed := true)
    case Save => s.(saved := s.queue)
    case Restart(stamps) =>
      var restored := AllStored(s.saved, stamps);
      s.(queue := restored, saved := restored, closed := false, stale := if Current(s) then s.stale else s.stale + 1)
  }

  ghost function Run(u: Setup, s: Ledger, es: seq<Event>): Ledger
    requires AllFeasible(u, es)
  {
    if es == [] then s else Next(u, Run(u, s, es[..|es| - 1]), es[|es| - 1])
  }

  // ---------------------------------------------------------------- quantities

  /** A job is recognised by its unchanging part; `Count` says how often it occurs in a list. */
  function Count(js: seq<Job>, k: Job): int {
    Sum(js, Indicator(k))
  }

  function Indicator(k: Job): Job -> int {
    (j: Job) => if Core(j) == k then 1 else 0
  }

  function AttemptsOf(k: Job): Job -> int {
    (j: Job) => if Core(j) == k then j.attempt else 0
  }

  function Attempts(js: seq<Job>, k: Job): int {
    Sum(js, AttemptsOf(k))
  }

  /** The snapshot holds every job as often as the queue, with as many attempts. */
  ghost predicate Current(s: Ledger) {
    forall k :: Count(s.saved, k) == Count(s.queue, k) && Attempts(s.saved, k) == Attempts(s.queue, k)
  }

  /** A quantity summed over all places a job can be in. */
  function Places(s: Ledger, f: Job -> int): int {
    Sum(s.queue, f) + Sum(s.succeeded, f) + Sum(s.exhausted, f) + Sum(s.lost, f)
  }

  lemma SumSplit(js: seq<Job>, i: nat, f: Job -> int)
    requires i <= |js|
    ensures Sum(js, f) == Sum(js[..i], f) + Sum(js[i..], f)
  {
    assert js == js[..i] + js[i..];
    SumConcat(js[..i], js[i..], f);
  }

  lemma SumStored(js: seq<Job>, clock: nat -> Clock, f: Job -> int)
    requires StoreBlind(f)
    ensures Sum(AllStored(js, clock), f) == Sum(js, f)
  {
    forall i | 0 <= i < |js| ensures f(AllStored(js, clock)[i]) == f(js[i]) {
      assert AllStored(js, clock)[i] == Stored(js[i], clock(i));
    }
    SumCong(AllStored(js, clock), f, js, f);
  }

  lemma SumArrivals(arrivals: seq<Arrival>, f: Job -> int)
    requires StoreBlind(f)
    ensures Sum(StoredArrivals(arrivals), f) == Sum(JobsOf(arrivals), f)
  {
    forall i | 0 <= i < |arrivals| ensures f(StoredArrivals(arrivals)[i]) == f(JobsOf(arrivals)[i]) {
      assert StoredArrivals(arrivals)[i] == Stored(arrivals[i].job, arrivals[i].clock);
    }
    SumCong(StoredArrivals(arrivals), f, JobsOf(arrivals), f);
  }

  /** What a cycle reports adds up to what it took, and what it leaves to what it found and got. */
  lemma CycleSums(u: Setup, s: Ledger, cycle: Cycle, m: Meanwhile, f: Job -> int, g: Job -> int)
    requires Wellformed(cycle, u.workers) && StoreBlind(f) && Foretells(u.checks, Cycling(u, s, cycle, m).stream, cycle, f, g)
    ensures var t := Cycling(u, s, cycle, m);
            && Sum(t.stream[..t.taken], g)
               == Sum(Select(t.rs, IsSucceeded), f) + Sum(Select(t.rs, IsExhausted), f) + Sum(Select(t.rs, IsDropped), f) + Sum(t.retry, f)
            && Sum(t.out.jobs, f) == Sum(t.stream[t.taken..], f) + Sum(t.out.accepted, f) + Sum(t.retry[..t.sent], f)
  {
    var t := Cycling(u, s, cycle, m);
    PolledSum(u.checks, t.stream, s.closed, u.workers, cycle, f, g);
    Classified(t.rs, f);
    TallyIsSum(t.rs, IsSucceeded, f);
    TallyIsSum(t.rs, IsExhausted, f);
    TallyIsSum(t.rs, IsDropped, f);
    TallyIsSum(t.rs, IsRetryable, f);
    OutcomeSum(u.checks, u.capacity, Rest(u.checks, s.queue, s.closed, cycle, m, u.capacity), Retries(t.retry, cycle, m), f);
  }

  /** A cycle moves each job it takes into exactly one place: a quantity summed over all places
      grows by what came in, and by what the executions added to it. */
  lemma CycleConserves(u: Setup, s: Ledger, cycle: Cycle, m: Meanwhile, f: Job -> int, g: Job -> int)
    requires Wellformed(cycle, u.workers) && StoreBlind(f) && Foretells(u.checks, Cycling(u, s, cycle, m).stream, cycle, f, g)
    ensures var t, s' := Cycling(u, s, cycle, m), Next(u, s, Turn(cycle, m));
            Places(s', f) - Places(s, f)
            == Sum(s'.accepted, f) - Sum(s.accepted, f) + Sum(t.stream[..t.taken], g) - Sum(t.stream[..t.taken], f)
  {
    var t := Cycling(u, s, cycle, m);
    CycleSums(u, s, cycle, m, f, g);
    SumSplit(t.stream, t.taken, f);
    SumConcat(s.queue, StoredArrivals(t.early), f);
    SumArrivals(t.early, f);
    SumSplit(t.retry, t.sent, f);
    SumConcat(s.succeeded, Select(t.rs, IsSucceeded), f);
    SumConcat(s.exhausted, Select(t.rs, IsExhausted), f);
    SumConcat(Select(t.rs, IsDropped), t.retry[t.sent..], f);
    SumConcat(s.lost, Select(t.rs, IsDropped) + t.retry[t.sent..], f);
    SumConcat(JobsOf(t.early), t.out.accepted, f);
    SumConcat(s.accepted, JobsOf(t.early) + t.out.accepted, f);
  }

  lemma OfferConserves(u: Setup, s: Ledger, a: Arrival, f: Job -> int)
    requires StoreBlind(f)
    ensures var s' := Next(u, s, Offer(a));
            Places(s', f) - Places(s, f) == Sum(s'.accepted, f) - Sum(s.accepted, f)
  {
    SumOneMore(s.queue, Stored(a.job, a.clock), f);
    SumOneMore(s.accepted, a.job, f);
  }

  // ---------------------------------------------------------------- conservation

  /** Nothing accepted is forgotten or duplicated. */
  ghost predicate ConservedFor(s: Ledger, k: Job) {
    Count(s.accepted, k) == Places(s, Indicator(k))
  }

  /** The queue and the snapshot are well formed, and as long as no restart has found an old
      snapshot, every job is conserved. */
  ghost predicate Sound(u: Setup, s: Ledger) {
    && SoundChannel(u.checks, u.capacity, Channel(s.queue, s.closed, []))
    && SoundChannel(u.checks, u.capacity, Channel(s.saved, false, []))
    && (s.stale == 0 ==> forall k :: ConservedFor(s, k))
  }

  lemma IndicatorBlind(k: Job)
    ensures StoreBlind(Indicator(k)) && StoreBlind(AttemptsOf(k))
  {
    forall j, t: Clock ensures Core(Stored(j, t)) == Core(j) {
    }
  }

  lemma ExecutionKeepsCore(c: Checks, j: Job, cycle: Cycle, w: nat)
    ensures Execution(c, j, cycle, w).Executed?
    ensures Core(Execution(c, j, cycle, w).job) == Core(j)
  {
  }

  lemma IndicatorForetells(c: Checks, jobs: seq<Job>, cycle: Cycle, k: Job)
    ensures Foretells(c, jobs, cycle, Indicator(k), Indicator(k))
  {
    forall i, w: nat | 0 <= i < |jobs|
      ensures Indicator(k)(Execution(c, jobs[i], cycle, w).job) == Indicator(k)(jobs[i])
    {
      ExecutionKeepsCore(c, jobs[i], cycle, w);
    }
  }

  lemma {:induction false} Selected(c: Checks, rs: seq<RunResult>, p: Job -> bool)
    requires AllValid(c, rs)
    ensures forall j :: j in Select(rs, p) ==> Valid(c, j) && p(j)
  {
    if rs != [] {
      assert rs[|rs| - 1] in rs;
      Selected(c, rs[..|rs| - 1], p);
    }
  }

  lemma StoredQueued(c: Checks, js: seq<Job>, clock: nat -> Clock)
    requires forall j :: j in js ==> Valid(c, j)
    ensures AllQueued(c, AllStored(js, clock))
  {
    var s := AllStored(js, clock);
    forall i | 0 <= i < |s| ensures Valid(c, s[i]) && s[i].status == Is(Queued) {
      assert js[i] in js && s[i] == Stored(js[i], clock(i));
    }
  }

  /** After a cycle, and whatever arrived during it, every queued job is valid and the capacity
      holds. */
  lemma CycleKeepsQueued(u: Setup, s: Ledger, cycle: Cycle, m: Meanwhile)
    requires Wellformed(cycle, u.workers) && SoundChannel(u.checks, u.capacity, Channel(s.queue, s.closed, []))
    ensures var t := Cycling(u, s, cycle, m);
            && SoundChannel(u.checks, u.capacity, t.out)
            && AllQueued(u.checks, t.stream) && AllValid(u.checks, t.rs) && (forall j :: j in t.retry ==> Valid(u.checks, j) && IsRetryable(j))
  {
    var t := Cycling(u, s, cycle, m);
    StreamQueued(u.checks, s.queue, s.closed, cycle, m, u.capacity);
    PolledIsValid(u.checks, t.stream, s.closed, u.workers, cycle, |cycle.polls|);
    Selected(u.checks, t.rs, IsRetryable);
    OutcomeSound(u.checks, u.capacity, Rest(u.checks, s.queue, s.closed, cycle, m, u.capacity), Retries(t.retry, cycle, m));
  }

  lemma TurnSound(u: Setup, s: Ledger, cycle: Cycle, m: Meanwhile)
    requires Wellformed(cycle, u.workers) && Sound(u, s)
    ensures Sound(u, Next(u, s, Turn(cycle, m)))
  {
    CycleKeepsQueued(u, s, cycle, m);
    if s.stale == 0 {
      forall k ensures ConservedFor(Next(u, s, Turn(cycle, m)), k) {
        assert ConservedFor(s, k);
        IndicatorBlind(k);
        IndicatorForetells(u.checks, Cycling(u, s, cycle, m).stream, cycle, k);
        CycleConserves(u, s, cycle, m, Indicator(k), Indicator(k));
      }
    }
  }

  lemma OfferSound(u: Setup, s: Ledger, a: Arrival)
    requires Sound(u, s)
    ensures Sound(u, Next(u, s, Offer(a)))
  {
    if s.stale == 0 {
      forall k ensures ConservedFor(Next(u, s, Offer(a)), k) {
        assert ConservedFor(s, k);
        IndicatorBlind(k);
        OfferConserves(u, s, a, Indicator(k));
      }
    }
  }

  /** A restart conserves a job exactly if the snapshot holds it as often as the queue did. */
  lemma RestartConserves(u: Setup, s: Ledger, stamps: nat -> Clock, k: Job)
    requires ConservedFor(s, k)
    ensures ConservedFor(Next(u, s, Restart(stamps)), k) <==> Count(s.saved, k) == Count(s.queue, k)
  {
    IndicatorBlind(k);
    SumStored(s.saved, stamps, Indicator(k));
  }

  /** Right after a save the snapshot is current, and a restart brings the whole queue back in
      order. */
  lemma SaveThenRestart(u: Setup, s: Ledger, stamps: nat -> Clock)
    ensures var saved := Next(u, s, Save);
            && Current(saved) && saved == s.(saved := s.queue)
            && Next(u, saved, Restart(stamps)).queue == AllStored(s.queue, stamps)
            && !Next(u, saved, Restart(stamps)).closed && Next(u, saved, Restart(stamps)).stale == s.stale
  {
  }

  lemma RestartSound(u: Setup, s: Ledger, stamps: nat -> Clock)
    requires Sound(u, s)
    ensures Sound(u, Next(u, s, Restart(stamps)))
  {
    StoredQueued(u.checks, s.saved, stamps);
    if s.stale == 0 && Current(s) {
      forall k ensures ConservedFor(Next(u, s, Restart(stamps)), k) {
        assert ConservedFor(s, k);
        RestartConserves(u, s, stamps, k);
      }
    }
  }

  /** One event keeps the ledger sound, whatever was offered and whatever the handler does. */
  lemma NextSound(u: Setup, s: Ledger, e: Event)
    requires Feasible(u, e) && Sound(u, s)
    ensures Sound(u, Next(u, s, e))
  {
    match e
    case Offer(a) => OfferSound(u, s, a);
    case Turn(cycle, m) => TurnSound(u, s, cycle, m);
    case Restart(stamps) => RestartSound(u, s, stamps);
    case Close =>
      SameQueueConserved(s, Next(u, s, e));
    case Save =>
      SameQueueConserved(s, Next(u, s, e));
  }

  lemma SameQueueConserved(s: Ledger, s': Ledger)
    requires s'.(closed := s.closed, saved := s.saved) == s
    ensures forall k :: ConservedFor(s, k) ==> ConservedFor(s', k)
  {
  }

  lemma {:induction false} RunSound(u: Setup, es: seq<Event>)
    requires AllFeasible(u, es)
    ensures Sound(u, Run(u, EMPTY, es))
  {
    if es != [] {
      RunSound(u, es[..|es| - 1]);
      NextSound(u, Run(u, EMPTY, es[..|es| - 1]), es[|es| - 1]);
    }
  }

  /** A snapshot of a sound queue is always accepted back, so a restart is a Restore into an
      empty queue of the same capacity. */
  lemma SnapshotAccepted(c: Checks, jobs: seq<Job>, driver: string, now: int, clock: Clock)
    requires AllQueued(c, jobs) && TrimSpace(driver) != ""
    ensures ValidSnapshot(c, NewSnapshot(driver, jobs, now, clock))
  {
    TrimIdempotent(driver, IsSpace);
  }

  /** A restart: the queue is saved under a driver name and restored into a new queue of the same
      capacity. All of it comes back in order, unless the driver name is blank or the context is
      cancelled on the way. */
  method RestartFromSnapshot(c: Checks, q: MemoryQueue, driver: string, saved: int, clock: Clock, liveFor: nat, stamps: nat -> Clock)
    returns (r: MemoryQueue, err: Option<Error>)
    requires q.Bounded() && AllQueued(c, q.jobs)
    ensures fresh(r) && r.Bounded() && r.capacity == q.capacity && !r.closed
    ensures r.jobs == if TrimSpace(driver) == "" then [] else AllStored(q.jobs[..Min(|q.jobs|, liveFor)], stamps)
    ensures err.None? <==> TrimSpace(driver) != "" && |q.jobs| <= liveFor
    ensures err.None? ==> r.jobs == AllStored(q.jobs, stamps)
  {
    var jobs := q.TakeSnapshot();
    var snapshot := NewSnapshot(driver, jobs, saved, clock);
    TrimIdempotent(driver, IsSpace);
    if TrimSpace(driver) != "" {
      SnapshotAccepted(c, jobs, driver, saved, clock);
    }
    r := new MemoryQueue(q.capacity);
    var restored: nat;
    restored, err := Restore(c, r, snapshot, liveFor, stamps);
    assert restored == |jobs| ==> jobs[..restored] == jobs;
  }

  // ---------------------------------------------------------------- attempts

  predicate HasLeft(j: Job) { j.attempt < j.maxAttempts }

  /** No queued job has used up its attempts. */
  ghost predicate Unspent(js: seq<Job>) {
    AllSuch(js, HasLeft)
  }

  function Left(j: Job): int { j.maxAttempts - j.attempt }
  function LeftAfter(j: Job): int { Left(j) - 1 }

  lemma LeftBlind()
    ensures StoreBlind(Left) && StatusBlind(HasLeft)
  {
  }

  /** A valid job below its limit is always handed to the handler, and comes back one attempt
      further on. */
  lemma ExecutionAttempts(c: Checks, j: Job, cycle: Cycle, w: nat)
    requires Valid(c, j) && j.attempt < j.maxAttempts
    ensures var done := Execution(c, j, cycle, w).job;
            && done.attempt == j.attempt + 1 && done.maxAttempts == j.maxAttempts
            && IsTerminal(done.status)
  {
  }

  lemma LeftForetells(c: Checks, jobs: seq<Job>, cycle: Cycle)
    requires AllQueued(c, jobs) && Unspent(jobs)
    ensures Foretells(c, jobs, cycle, Left, LeftAfter)
  {
    forall i, w: nat | 0 <= i < |jobs|
      ensures Left(Execution(c, jobs[i], cycle, w).job) == LeftAfter(jobs[i])
    {
      assert jobs[i] in jobs;
      ExecutionAttempts(c, jobs[i], cycle, w);
    }
  }

  ghost predicate NonNegative(js: seq<Job>, f: Job -> int) {
    forall j :: j in js ==> f(j) >= 0
  }

  lemma {:induction false} SumNonNegative(js: seq<Job>, f: Job -> int)
    requires NonNegative(js, f)
    ensures Sum(js, f) >= 0
  {
    if js != [] {
      assert js[|js| - 1] in js;
      SumNonNegative(js[..|js| - 1], f);
    }
  }

  lemma SelectNonNegative(c: Checks, rs: seq<RunResult>, p: Job -> bool, f: Job -> int)
    requires AllValid(c, rs) && forall j :: Valid(c, j) ==> f(j) >= 0
    ensures Sum(Select(rs, p), f) >= 0
  {
    Selected(c, rs, p);
    SumNonNegative(Select(rs, p), f);
  }

  /** What is left of a quantity after a cycle, if finished jobs count for nothing. */
  lemma CycleSpends(u: Setup, s: Ledger, cycle: Cycle, m: Meanwhile, f: Job -> int, g: Job -> int)
    requires Wellformed(cycle, u.workers) && SoundChannel(u.checks, u.capacity, Channel(s.queue, s.closed, []))
    requires StoreBlind(f) && Foretells(u.checks, Cycling(u, s, cycle, m).stream, cycle, f, g)
    requires forall j :: Valid(u.checks, j) ==> f(j) >= 0
    ensures var t := Cycling(u, s, cycle, m);
            Sum(t.out.jobs, f)
            <= Sum(s.queue, f) + Sum(JobsOf(t.early) + t.out.accepted, f) + Sum(t.stream[..t.taken], g) - Sum(t.stream[..t.taken], f)
  {
    var t := Cycling(u, s, cycle, m);
    CycleKeepsQueued(u, s, cycle, m);
    CycleSums(u, s, cycle, m, f, g);
    SelectNonNegative(u.checks, t.rs, IsSucceeded, f);
    SelectNonNegative(u.checks, t.rs, IsExhausted, f);
    SelectNonNegative(u.checks, t.rs, IsDropped, f);
    SumNonNegative(t.retry[t.sent..], f);
    SumSplit(t.retry, t.sent, f);
    SumSplit(t.stream, t.taken, f);
    SumConcat(s.queue, StoredArrivals(t.early), f);
    SumArrivals(t.early, f);
    SumConcat(JobsOf(t.early), t.out.accepted, f);
  }

  lemma {:induction false} SumMinus(js: seq<Job>, f: Job -> int, d: Job -> int, g: Job -> int)
    requires forall j :: g(j) == f(j) - d(j)
    ensures Sum(js, g) == Sum(js, f) - Sum(js, d)
  {
    if js != [] {
      SumMinus(js[..|js| - 1], f, d, g);
    }
  }

  /** The attempts left in the queue drop by at least the number of jobs executed, apart from what
      arrives. */
  lemma CycleSpendsAttempts(u: Setup, s: Ledger, cycle: Cycle, m: Meanwhile)
    requires Wellformed(cycle, u.workers) && SoundChannel(u.checks, u.capacity, Channel(s.queue, s.closed, []))
    requires Unspent(Cycling(u, s, cycle, m).stream)
    ensures var t := Cycling(u, s, cycle, m);
            Sum(t.out.jobs, Left) + t.taken <= Sum(s.queue, Left) + Sum(JobsOf(t.early) + t.out.accepted, Left)
  {
    var t := Cycling(u, s, cycle, m);
    CycleKeepsQueued(u, s, cycle, m);
    LeftForetells(u.checks, t.stream, cycle);
    LeftBlind();
    CycleSpends(u, s, cycle, m, Left, LeftAfter);
    SumMinus(t.stream[..t.taken], Left, One, LeftAfter);
    SumOnes(t.stream[..t.taken]);
  }

  ghost predicate BringsSuch(m: Meanwhile, p: Job -> bool) {
    BringSuch(m.early, p) && forall n :: BringSuch(m.before(n).arrivals, p)
  }

  lemma {:induction false} WelcomeSuch(c: Checks, arrivals: seq<Arrival>, p: Job -> bool)
    requires BringSuch(arrivals, p)
    ensures BringSuch(Welcome(c, arrivals), p)
  {
    if arrivals != [] {
      WelcomeSuch(c, arrivals[..|arrivals| - 1], p);
    }
  }

  lemma StreamSuch(u: Setup, s: Ledger, cycle: Cycle, m: Meanwhile, p: Job -> bool)
    requires Addressed(cycle, u.workers) && StatusBlind(p) && AllSuch(s.queue, p) && BringSuch(m.early, p)
    ensures var t := Cycling(u, s, cycle, m);
            AllSuch(t.stream, p) && AllSuch(JobsOf(t.early), p)
  {
    var t := Cycling(u, s, cycle, m);
    WelcomeSuch(u.checks, m.early, p);
    forall i | 0 <= i < |t.early| ensures p(StoredArrivals(t.early)[i]) && p(JobsOf(t.early)[i]) {
      assert t.early[i] == Welcome(u.checks, m.early)[i];
      assert StoredArrivals(t.early)[i] == Stored(t.early[i].job, t.early[i].clock);
    }
  }

  /** If no job in the queue and no arrival has used up its attempts, none has after the cycle. */
  lemma CycleKeepsPending(u: Setup, s: Ledger, cycle: Cycle, m: Meanwhile)
    requires Wellformed(cycle, u.workers) && SoundChannel(u.checks, u.capacity, Channel(s.queue, s.closed, []))
    requires Unspent(s.queue) && BringsSuch(m, HasLeft)
    ensures var t := Cycling(u, s, cycle, m);
            Unspent(t.stream) && Unspent(t.out.jobs)
  {
    var t := Cycling(u, s, cycle, m);
    LeftBlind();
    StreamSuch(u, s, cycle, m, HasLeft);
    CycleKeepsQueued(u, s, cycle, m);
    OutcomeSuch(u.checks, u.capacity, Rest(u.checks, s.queue, s.closed, cycle, m, u.capacity), Retries(t.retry, cycle, m), HasLeft);
  }

  ghost predicate AllTurns(es: seq<Event>) {
    forall e :: e in es ==> e.Turn? && e.cycle.polls != [] && Quiet(e.m)
  }

  /** An open queue of pending jobs. */
  ghost predicate Alive(u: Setup, s: Ledger) {
    !s.closed && SoundChannel(u.checks, u.capacity, Channel(s.queue, s.closed, [])) && Unspent(s.queue)
  }

  /** A cycle that nobody disturbs spends at least one attempt while there is anything to run. */
  lemma QuietTurn(u: Setup, s: Ledger, cycle: Cycle, m: Meanwhile)
    requires Wellformed(cycle, u.workers) && Alive(u, s) && Quiet(m)
    ensures var s' := Next(u, s, Turn(cycle, m));
            Alive(u, s') && Sum(s'.queue, Left) + Min(|cycle.polls|, |s.queue|) <= Sum(s.queue, Left)
  {
    QuietCycle(u.checks, s.queue, s.closed, u.workers, cycle, m, u.capacity);
    var t := Cycling(u, s, cycle, m);
    assert BringsSuch(m, HasLeft);
    CycleKeepsPending(u, s, cycle, m);
    CycleKeepsQueued(u, s, cycle, m);
    CycleSpendsAttempts(u, s, cycle, m);
    assert JobsOf(t.early) + t.out.accepted == [];
  }

  lemma QuietProgress(u: Setup, s: Ledger, cycle: Cycle, m: Meanwhile)
    requires Wellformed(cycle, u.workers) && Alive(u, s) && Quiet(m) && cycle.polls != []
    ensures var s' := Next(u, s, Turn(cycle, m));
            Alive(u, s') && (s'.queue == [] || Sum(s'.queue, Left) + 1 <= Sum(s.queue, Left))
  {
    QuietTurn(u, s, cycle, m);
    LeftCountsAll(Next(u, s, Turn(cycle, m)).queue);
  }

  /** Every cycle with a poll spends at least one attempt while there is anything to run. */
  lemma {:induction false} AttemptsRunDown(u: Setup, s: Ledger, es: seq<Event>)
    requires AllFeasible(u, es) && AllTurns(es) && Alive(u, s)
    ensures var s' := Run(u, s, es);
            Alive(u, s') && (s'.queue == [] || Sum(s'.queue, Left) + |es| <= Sum(s.queue, Left))
  {
    if es != [] {
      var front, e := es[..|es| - 1], es[|es| - 1];
      assert e in es;
      AttemptsRunDown(u, s, front);
      QuietProgress(u, Run(u, s, front), e.cycle, e.m);
      LeftCountsAll(Run(u, s, front).queue);
      if Run(u, s, front).queue == [] {
        QuietTurn(u, Run(u, s, front), e.cycle, e.m);
        LeftCountsAll(Run(u, s, es).queue);
      }
    }
  }

  lemma {:induction false} LeftCountsAll(js: seq<Job>)
    requires Unspent(js)
    ensures Sum(js, Left) >= |js|
  {
    if js != [] {
      assert js[|js| - 1] in js;
      LeftCountsAll(js[..|js| - 1]);
    }
  }

  /** With no new producers an open queue is empty after as many cycles as attempts are left. */
  lemma {:induction false} QueueDrains(u: Setup, s: Ledger, es: seq<Event>)
    requires AllFeasible(u, es) && AllTurns(es) && Alive(u, s)
    requires |es| >= Sum(s.queue, Left)
    ensures Run(u, s, es).queue == []
  {
    AttemptsRunDown(u, s, es);
    LeftCountsAll(Run(u, s, es).queue);
  }
}
