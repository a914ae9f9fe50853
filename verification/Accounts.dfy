/** How often the handler is called for a job over whole runs, with and without restarts from old
    snapshots. */
module Accounts {
  import opened Text
  import opened Jobs
  import opened Queue
  import opened Sharing
  import opened Engine
  import opened Runs

  // ---------------------------------------------------------------- calls and attempts

  function AttemptsNext(k: Job): Job -> int {
    (j: Job) => AttemptsOf(k)(j) + Indicator(k)(j)
  }

  predicate InLimit(j: Job) { 0 <= j.attempt <= j.maxAttempts }

  /** The handler has been called for a job exactly as often as its attempts say, wherever the
      job is now. */
  ghost predicate AccountedFor(s: Ledger, k: Job) {
    Count(s.runs, k) == Places(s, AttemptsOf(k))
  }

  ghost predicate Shaped(s: Ledger) {
    && Unspent(s.queue) && Unspent(s.saved)
    && AllSuch(s.queue, InLimit) && AllSuch(s.succeeded, InLimit) && AllSuch(s.exhausted, InLimit) && AllSuch(s.lost, InLimit)
    && AllSuch(s.succeeded, IsSucceeded)
    && (forall j :: j in s.exhausted ==> j.status == Is(Failed) && j.attempt == j.maxAttempts)
  }

  lemma {:induction false} HandedAll(js: seq<Job>)
    requires Unspent(js)
    ensures Handed(js) == js
  {
    if js != [] {
      assert js[|js| - 1] in js;
      HandedAll(js[..|js| - 1]);
    }
  }

  lemma AttemptsForetell(c: Checks, jobs: seq<Job>, cycle: Cycle, k: Job)
    requires AllQueued(c, jobs) && Unspent(jobs)
    ensures Foretells(c, jobs, cycle, AttemptsOf(k), AttemptsNext(k))
  {
    forall i, w: nat | 0 <= i < |jobs|
      ensures AttemptsOf(k)(Execution(c, jobs[i], cycle, w).job) == AttemptsNext(k)(jobs[i])
    {
      assert jobs[i] in jobs;
      ExecutionAttempts(c, jobs[i], cycle, w);
      ExecutionKeepsCore(c, jobs[i], cycle, w);
    }
  }

  lemma {:induction false} SumPlus(js: seq<Job>, k: Job)
    ensures Sum(js, AttemptsNext(k)) == Attempts(js, k) + Count(js, k)
  {
    if js != [] {
      SumPlus(js[..|js| - 1], k);
    }
  }

  /** Jobs as NewJob makes them have no attempts behind them. */
  lemma {:induction false} FreshAttempts(js: seq<Job>, k: Job)
    requires AllSuch(js, Fresh)
    ensures Attempts(js, k) == 0
  {
    if js != [] {
      assert js[|js| - 1] in js;
      FreshAttempts(js[..|js| - 1], k);
    }
  }

  // ---------------------------------------------------------------- fresh arrivals

  ghost predicate FreshEvent(e: Event) {
    match e
    case Offer(a) => Fresh(a.job)
    case Turn(_, m) => BringsSuch(m, Fresh)
    case _ => true
  }

  ghost predicate FreshOffers(es: seq<Event>) {
    forall e :: e in es ==> FreshEvent(e)
  }

  lemma {:induction false} ArrivalsAccepted(c: Checks, capacity: nat, ch: Channel, arrivals: seq<Arrival>, p: Job -> bool)
    requires AllSuch(ch.accepted, p) && BringSuch(arrivals, p)
    ensures AllSuch(ArriveAll(c, capacity, ch, arrivals).accepted, p)
  {
    if arrivals != [] {
      ArrivalsAccepted(c, capacity, ch, arrivals[..|arrivals| - 1], p);
      assert p(arrivals[|arrivals| - 1].job);
    }
  }

  lemma {:induction false} GoingAccepted(c: Checks, capacity: nat, ch: Channel, r: Return, n: nat, p: Job -> bool)
    requires n <= |r.jobs| && AllSuch(ch.accepted, p) && forall i :: BringSuch(r.before(i).arrivals, p)
    ensures AllSuch(Going(c, capacity, ch, r, n).accepted, p)
    ensures n < |r.jobs| ==> AllSuch(Facing(c, capacity, ch, r, n).accepted, p)
  {
    if n > 0 {
      GoingAccepted(c, capacity, ch, r, n - 1, p);
    }
    if n < |r.jobs| {
      assert BringSuch(r.before(n).arrivals, p);
      ArrivalsAccepted(c, capacity, Going(c, capacity, ch, r, n), r.before(n).arrivals, p);
    }
  }

  /** Everything a cycle's queue accepts is what arrives. */
  lemma CycleAccepts(u: Setup, s: Ledger, cycle: Cycle, m: Meanwhile, p: Job -> bool)
    requires Addressed(cycle, u.workers) && BringsSuch(m, p)
    ensures var t := Cycling(u, s, cycle, m);
            AllSuch(JobsOf(t.early) + t.out.accepted, p)
  {
    var t := Cycling(u, s, cycle, m);
    WelcomeSuch(u.checks, m.early, p);
    forall i | 0 <= i < |t.early| ensures p(JobsOf(t.early)[i]) {
      assert t.early[i] == Welcome(u.checks, m.early)[i];
    }
    GoingAccepted(u.checks, u.capacity, Rest(u.checks, s.queue, s.closed, cycle, m, u.capacity), Retries(t.retry, cycle, m), t.sent, p);
  }

  lemma FreshHasLeft(m: Meanwhile)
    requires BringsSuch(m, Fresh)
    ensures BringsSuch(m, HasLeft)
  {
    forall n ensures BringSuch(m.before(n).arrivals, HasLeft) {
      assert BringSuch(m.before(n).arrivals, Fresh);
    }
  }

  // ---------------------------------------------------------------- the shape is kept

  lemma ValidInLimit(c: Checks, js: seq<Job>)
    requires forall j :: j in js ==> Valid(c, j)
    ensures AllSuch(js, InLimit)
  {
  }

  lemma TurnShaped(u: Setup, s: Ledger, cycle: Cycle, m: Meanwhile)
    requires Wellformed(cycle, u.workers) && Sound(u, s) && Shaped(s) && BringsSuch(m, Fresh)
    ensures Shaped(Next(u, s, Turn(cycle, m))) && Unspent(Cycling(u, s, cycle, m).stream)
  {
    var c, t := u.checks, Cycling(u, s, cycle, m);
    FreshHasLeft(m);
    CycleKeepsPending(u, s, cycle, m);
    CycleKeepsQueued(u, s, cycle, m);
    ValidInLimit(c, t.out.jobs);
    Selected(c, t.rs, IsSucceeded);
    ValidInLimit(c, Select(t.rs, IsSucceeded));
    Selected(c, t.rs, IsExhausted);
    ValidInLimit(c, Select(t.rs, IsExhausted));
    Selected(c, t.rs, IsDropped);
    ValidInLimit(c, Select(t.rs, IsDropped));
    ValidInLimit(c, t.retry);
  }

  lemma TurnAccounts(u: Setup, s: Ledger, cycle: Cycle, m: Meanwhile, k: Job)
    requires Wellformed(cycle, u.workers) && Sound(u, s) && Shaped(s) && BringsSuch(m, Fresh) && AccountedFor(s, k)
    ensures AccountedFor(Next(u, s, Turn(cycle, m)), k)
  {
    var t := Cycling(u, s, cycle, m);
    var taken, came := t.stream[..t.taken], JobsOf(t.early) + t.out.accepted;
    TurnShaped(u, s, cycle, m);
    CycleKeepsQueued(u, s, cycle, m);
    AttemptsForetell(u.checks, t.stream, cycle, k);
    IndicatorBlind(k);
    CycleConserves(u, s, cycle, m, AttemptsOf(k), AttemptsNext(k));
    SumPlus(taken, k);
    CycleAccepts(u, s, cycle, m, Fresh);
    FreshAttempts(came, k);
    SumConcat(s.accepted, came, AttemptsOf(k));
    HandedAll(taken);
    SumConcat(s.runs, taken, Indicator(k));
  }

  // ---------------------------------------------------------------- the budget of a job

  function LeftOf(k: Job): Job -> int {
    (j: Job) => if Core(j) == k then Left(j) else 0
  }

  function LeftNext(k: Job): Job -> int {
    (j: Job) => LeftOf(k)(j) - Indicator(k)(j)
  }

  function LimitOf(k: Job): Job -> int {
    (j: Job) => if Core(j) == k then j.maxAttempts else 0
  }

  /** An amount, once and again `n` times. */
  function Repeated(amount: int, n: nat): int {
    if n == 0 then amount else amount + Repeated(amount, n - 1)
  }

  lemma {:induction false} RepeatedIsProduct(amount: int, n: nat)
    ensures Repeated(amount, n) == amount * (1 + n)
  {
    if n > 0 {
      RepeatedIsProduct(amount, n - 1);
      assert amount * (1 + n) == amount + amount * n;
    }
  }

  lemma {:induction false} RepeatedGrows(amount: int, more: int, n: nat)
    requires more >= 0
    ensures Repeated(amount + more, n) >= Repeated(amount, n) + more
  {
    if n > 0 {
      RepeatedGrows(amount, more, n - 1);
    }
  }

  /** The calls a job has had and may still have in this process stay within its attempts, once
      for the run and once more for every restart from an old snapshot. */
  predicate Budget(runs: int, left: int, saved: int, allowed: int, stale: nat) {
    runs + left <= Repeated(allowed, stale) && 0 <= left <= allowed && 0 <= saved <= allowed
  }

  ghost predicate WithinBudget(s: Ledger, k: Job) {
    Budget(Count(s.runs, k), Sum(s.queue, LeftOf(k)), Sum(s.saved, LeftOf(k)), Sum(s.accepted, LimitOf(k)), s.stale)
  }

  /** New jobs bring their attempts, and every call spends one. */
  lemma SpentWithin(s: Ledger, s': Ledger, k: Job, spent: int, more: int)
    requires WithinBudget(s, k) && s'.saved == s.saved && s'.stale == s.stale && spent >= 0 && more >= 0
    requires 0 <= Sum(s'.queue, LeftOf(k)) <= Sum(s.queue, LeftOf(k)) + more - spent
    requires Count(s'.runs, k) == Count(s.runs, k) + spent
    requires Sum(s'.accepted, LimitOf(k)) == Sum(s.accepted, LimitOf(k)) + more
    ensures WithinBudget(s', k)
  {
    RepeatedGrows(Sum(s.accepted, LimitOf(k)), more, s.stale);
  }

  lemma LeftOfBlind(k: Job)
    ensures StoreBlind(LeftOf(k))
  {
    forall j, t: Clock ensures LeftOf(k)(Stored(j, t)) == LeftOf(k)(j) {
      assert Core(Stored(j, t)) == Core(j);
    }
  }

  lemma LeftOfForetells(c: Checks, jobs: seq<Job>, cycle: Cycle, k: Job)
    requires AllQueued(c, jobs) && Unspent(jobs)
    ensures Foretells(c, jobs, cycle, LeftOf(k), LeftNext(k))
  {
    forall i, w: nat | 0 <= i < |jobs|
      ensures LeftOf(k)(Execution(c, jobs[i], cycle, w).job) == LeftNext(k)(jobs[i])
    {
      assert jobs[i] in jobs;
      ExecutionAttempts(c, jobs[i], cycle, w);
      ExecutionKeepsCore(c, jobs[i], cycle, w);
    }
  }

  lemma {:induction false} FreshLeft(js: seq<Job>, k: Job)
    requires AllSuch(js, Fresh)
    ensures Sum(js, LeftOf(k)) == Sum(js, LimitOf(k)) >= 0
  {
    if js != [] {
      assert js[|js| - 1] in js;
      FreshLeft(js[..|js| - 1], k);
    }
  }

  lemma {:induction false} PendingLeft(js: seq<Job>, k: Job)
    requires Unspent(js)
    ensures Sum(js, LeftOf(k)) >= 0
  {
    if js != [] {
      assert js[|js| - 1] in js;
      PendingLeft(js[..|js| - 1], k);
    }
  }

  /** What a job has left is what its attempts have not used. */
  lemma {:induction false} LeftIsRest(js: seq<Job>, k: Job)
    ensures Sum(js, LeftOf(k)) == Count(js, k) * k.maxAttempts - Attempts(js, k)
  {
    if js != [] {
      LeftIsRest(js[..|js| - 1], k);
      LeftIsRestOf(js[|js| - 1], k);
      var n := Count(js[..|js| - 1], k);
      assert (n + 1) * k.maxAttempts == n * k.maxAttempts + k.maxAttempts;
    }
  }

  lemma LeftIsRestOf(j: Job, k: Job)
    ensures LeftOf(k)(j) == (if Core(j) == k then k.maxAttempts else 0) - AttemptsOf(k)(j)
  {
    assert Core(j).maxAttempts == j.maxAttempts;
  }

  lemma {:induction false} LimitIsProduct(js: seq<Job>, k: Job)
    ensures Sum(js, LimitOf(k)) == Count(js, k) * k.maxAttempts
  {
    if js != [] {
      LimitIsProduct(js[..|js| - 1], k);
      assert Core(js[|js| - 1]).maxAttempts == js[|js| - 1].maxAttempts;
      var n := Count(js[..|js| - 1], k);
      assert (n + 1) * k.maxAttempts == n * k.maxAttempts + k.maxAttempts;
    }
  }

  /** What a cycle spends and brings in, for one job. */
  lemma TurnSpends(u: Setup, s: Ledger, cycle: Cycle, m: Meanwhile, k: Job)
    requires Wellformed(cycle, u.workers) && Sound(u, s) && Shaped(s) && BringsSuch(m, Fresh)
    ensures var t, s' := Cycling(u, s, cycle, m), Next(u, s, Turn(cycle, m));
            var spent, more := Count(t.stream[..t.taken], k), Sum(JobsOf(t.early) + t.out.accepted, LimitOf(k));
            && spent >= 0 && more >= 0 && 0 <= Sum(s'.queue, LeftOf(k)) <= Sum(s.queue, LeftOf(k)) + more - spent
            && Count(s'.runs, k) == Count(s.runs, k) + spent
            && Sum(s'.accepted, LimitOf(k)) == Sum(s.accepted, LimitOf(k)) + more
  {
    var t := Cycling(u, s, cycle, m);
    var taken, came := t.stream[..t.taken], JobsOf(t.early) + t.out.accepted;
    TurnShaped(u, s, cycle, m);
    CycleKeepsQueued(u, s, cycle, m);
    LeftOfBlind(k);
    LeftOfForetells(u.checks, t.stream, cycle, k);
    CycleSpends(u, s, cycle, m, LeftOf(k), LeftNext(k));
    SumMinus(taken, LeftOf(k), Indicator(k), LeftNext(k));
    CycleAccepts(u, s, cycle, m, Fresh);
    FreshLeft(came, k);
    SumConcat(s.accepted, came, LimitOf(k));
    HandedAll(taken);
    SumConcat(s.runs, taken, Indicator(k));
    PendingLeft(t.out.jobs, k);
    CountNonNegative(taken, k);
  }

  lemma TurnInBudget(u: Setup, s: Ledger, cycle: Cycle, m: Meanwhile, k: Job)
    requires Wellformed(cycle, u.workers) && Sound(u, s) && Shaped(s) && BringsSuch(m, Fresh) && WithinBudget(s, k)
    ensures WithinBudget(Next(u, s, Turn(cycle, m)), k)
  {
    var t, s' := Cycling(u, s, cycle, m), Next(u, s, Turn(cycle, m));
    TurnSpends(u, s, cycle, m, k);
    SpentWithin(s, s', k, Count(t.stream[..t.taken], k), Sum(JobsOf(t.early) + t.out.accepted, LimitOf(k)));
  }

  lemma CountNonNegative(js: seq<Job>, k: Job)
    ensures Count(js, k) >= 0
  {
    SumNonNegative(js, Indicator(k));
  }

  lemma OfferInBudget(u: Setup, s: Ledger, a: Arrival, k: Job)
    requires Fresh(a.job) && WithinBudget(s, k)
    ensures WithinBudget(Next(u, s, Offer(a)), k)
  {
    var s' := Next(u, s, Offer(a));
    if s'.accepted != s.accepted {
      var more := LimitOf(k)(a.job);
      LeftOfBlind(k);
      SumOneMore(s.queue, Stored(a.job, a.clock), LeftOf(k));
      SumOneMore(s.accepted, a.job, LimitOf(k));
      SpentWithin(s, s', k, 0, more);
    }
  }

  lemma RestartLeft(u: Setup, s: Ledger, stamps: nat -> Clock, k: Job)
    ensures var s' := Next(u, s, Restart(stamps));
            Sum(s'.queue, LeftOf(k)) == Sum(s'.saved, LeftOf(k)) == Sum(s.saved, LeftOf(k))
  {
    LeftOfBlind(k);
    SumStored(s.saved, stamps, LeftOf(k));
  }

  lemma RestartInBudget(u: Setup, s: Ledger, stamps: nat -> Clock, k: Job)
    requires WithinBudget(s, k)
    ensures WithinBudget(Next(u, s, Restart(stamps)), k)
  {
    RestartLeft(u, s, stamps, k);
    if Current(s) {
      CurrentLeft(s, k);
    }
    SavedWithin(s, Next(u, s, Restart(stamps)), k);
  }

  /** What was saved is left again, which only costs if it is not what was left anyway. */
  lemma SavedWithin(s: Ledger, s': Ledger, k: Job)
    requires WithinBudget(s, k) && s'.runs == s.runs && s'.accepted == s.accepted
    requires Sum(s'.queue, LeftOf(k)) == Sum(s'.saved, LeftOf(k)) == Sum(s.saved, LeftOf(k))
    requires s'.stale == s.stale + 1 || (s'.stale == s.stale && Sum(s.saved, LeftOf(k)) == Sum(s.queue, LeftOf(k)))
    ensures WithinBudget(s', k)
  {
    BudgetAgain(Count(s.runs, k), Sum(s.queue, LeftOf(k)), Sum(s.saved, LeftOf(k)), Sum(s.accepted, LimitOf(k)), s.stale);
  }

  /** A restart from an old snapshot gives a job at most its attempts once more. */
  lemma BudgetAgain(runs: int, left: int, saved: int, allowed: int, stale: nat)
    requires Budget(runs, left, saved, allowed, stale)
    ensures Budget(runs, saved, saved, allowed, stale + 1)
  {
  }

  lemma CurrentLeft(s: Ledger, k: Job)
    requires Current(s)
    ensures Sum(s.saved, LeftOf(k)) == Sum(s.queue, LeftOf(k))
  {
    LeftIsRest(s.saved, k);
    LeftIsRest(s.queue, k);
  }

  // ---------------------------------------------------------------- whole runs

  ghost predicate Counted(u: Setup, s: Ledger) {
    && Sound(u, s)
    && Shaped(s)
    && (forall k :: WithinBudget(s, k))
    && (s.stale == 0 ==> forall k :: AccountedFor(s, k))
  }

  lemma TurnCounted(u: Setup, s: Ledger, cycle: Cycle, m: Meanwhile)
    requires Wellformed(cycle, u.workers) && Counted(u, s) && BringsSuch(m, Fresh)
    ensures Counted(u, Next(u, s, Turn(cycle, m)))
  {
    var s' := Next(u, s, Turn(cycle, m));
    TurnSound(u, s, cycle, m);
    TurnShaped(u, s, cycle, m);
    forall k ensures WithinBudget(s', k) {
      assert WithinBudget(s, k);
      TurnInBudget(u, s, cycle, m, k);
    }
    if s.stale == 0 {
      forall k ensures AccountedFor(s', k) {
        assert AccountedFor(s, k);
        TurnAccounts(u, s, cycle, m, k);
      }
    }
  }

  lemma OfferCounted(u: Setup, s: Ledger, a: Arrival)
    requires Fresh(a.job) && Counted(u, s)
    ensures Counted(u, Next(u, s, Offer(a)))
  {
    var s' := Next(u, s, Offer(a));
    OfferSound(u, s, a);
    forall k ensures WithinBudget(s', k) && (s.stale == 0 ==> AccountedFor(s', k)) {
      assert WithinBudget(s, k) && (s.stale == 0 ==> AccountedFor(s, k));
      OfferInBudget(u, s, a, k);
      SumOneMore(s.queue, Stored(a.job, a.clock), AttemptsOf(k));
    }
  }

  lemma RestartCounted(u: Setup, s: Ledger, stamps: nat -> Clock)
    requires Counted(u, s)
    ensures Counted(u, Next(u, s, Restart(stamps)))
  {
    var s' := Next(u, s, Restart(stamps));
    RestartSound(u, s, stamps);
    RestartShaped(u, s, stamps);
    forall k ensures WithinBudget(s', k) {
      assert WithinBudget(s, k);
      RestartInBudget(u, s, stamps, k);
    }
    if s'.stale == 0 {
      forall k ensures AccountedFor(s', k) {
        assert AccountedFor(s, k);
        RestartAccounts(u, s, stamps, k);
      }
    }
  }

  lemma RestartAccounts(u: Setup, s: Ledger, stamps: nat -> Clock, k: Job)
    requires Current(s) && AccountedFor(s, k)
    ensures AccountedFor(Next(u, s, Restart(stamps)), k)
  {
    IndicatorBlind(k);
    SumStored(s.saved, stamps, AttemptsOf(k));
    assert Count(s.saved, k) == Count(s.queue, k) && Attempts(s.saved, k) == Attempts(s.queue, k);
  }

  lemma RestartShaped(u: Setup, s: Ledger, stamps: nat -> Clock)
    requires Sound(u, s) && Shaped(s)
    ensures Shaped(Next(u, s, Restart(stamps)))
  {
    var restored := AllStored(s.saved, stamps);
    forall i | 0 <= i < |restored| ensures HasLeft(restored[i]) && InLimit(restored[i]) {
      assert s.saved[i] in s.saved && restored[i] == Stored(s.saved[i], stamps(i));
    }
  }

  lemma SaveCounted(u: Setup, s: Ledger, e: Event)
    requires (e.Save? || e.Close?) && Counted(u, s)
    ensures Counted(u, Next(u, s, e))
  {
    NextSound(u, s, e);
    forall k ensures WithinBudget(Next(u, s, e), k) && (s.stale == 0 ==> AccountedFor(Next(u, s, e), k)) {
      assert WithinBudget(s, k) && (s.stale == 0 ==> AccountedFor(s, k));
    }
  }

  lemma NextCounted(u: Setup, s: Ledger, e: Event)
    requires Feasible(u, e) && FreshEvent(e) && Counted(u, s)
    ensures Counted(u, Next(u, s, e))
  {
    match e
    case Offer(a) => OfferCounted(u, s, a);
    case Turn(cycle, m) => TurnCounted(u, s, cycle, m);
    case Restart(stamps) => RestartCounted(u, s, stamps);
    case Close => SaveCounted(u, s, e);
    case Save => SaveCounted(u, s, e);
  }

  /** Every run in which producers offer jobs as NewJob makes them. */
  lemma {:induction false} RunCounted(u: Setup, es: seq<Event>)
    requires AllFeasible(u, es) && FreshOffers(es)
    ensures Counted(u, Run(u, EMPTY, es))
  {
    if es != [] {
      var front, e := es[..|es| - 1], es[|es| - 1];
      assert e in es;
      RunCounted(u, front);
      NextCounted(u, Run(u, EMPTY, front), e);
    }
  }

  predicate RunsBounded(s: Ledger, k: Job) {
    && Count(s.runs, k) <= Count(s.accepted, k) * k.maxAttempts * (1 + s.stale)
    && (Count(s.accepted, k) == 1 && s.stale == 0 ==> Count(s.runs, k) <= k.maxAttempts)
  }

  /** A job accepted once is handed to the handler at most maxAttempts times in its life, and once
      more that often for every restart that found an old snapshot. */
  lemma {:induction false} HandlerRunsBounded(u: Setup, es: seq<Event>, k: Job)
    requires AllFeasible(u, es) && FreshOffers(es)
    ensures RunsBounded(Run(u, EMPTY, es), k)
  {
    RunWithinBudget(u, es, k);
    BudgetBounds(Run(u, EMPTY, es), k);
  }

  lemma {:induction false} RunWithinBudget(u: Setup, es: seq<Event>, k: Job)
    requires AllFeasible(u, es) && FreshOffers(es)
    ensures WithinBudget(Run(u, EMPTY, es), k)
  {
    RunCounted(u, es);
  }

  lemma BudgetBounds(s: Ledger, k: Job)
    requires WithinBudget(s, k)
    ensures RunsBounded(s, k)
  {
    LimitIsProduct(s.accepted, k);
    RepeatedIsProduct(Sum(s.accepted, LimitOf(k)), s.stale);
  }

  lemma FirstIsCounted(js: seq<Job>)
    requires js != []
    ensures Count(js, Core(js[0])) >= 1
  {
    var k := Core(js[0]);
    SumSplit(js, 1, Indicator(k));
    CountNonNegative(js[1..], k);
    assert js[..1] == [js[0]] && [js[0]][..0] == [];
  }

  /** A cycle that nobody disturbs uses up attempts of every job it takes. */
  lemma QuietSpends(u: Setup, s: Ledger, cycle: Cycle, m: Meanwhile, k: Job)
    requires Wellformed(cycle, u.workers) && Alive(u, s) && Quiet(m)
    ensures Sum(Next(u, s, Turn(cycle, m)).queue, LeftOf(k)) + Count(s.queue[..Min(|cycle.polls|, |s.queue|)], k) <= Sum(s.queue, LeftOf(k))
  {
    var t := Cycling(u, s, cycle, m);
    QuietCycle(u.checks, s.queue, s.closed, u.workers, cycle, m, u.capacity);
    CycleKeepsQueued(u, s, cycle, m);
    LeftOfBlind(k);
    LeftOfForetells(u.checks, t.stream, cycle, k);
    CycleSpends(u, s, cycle, m, LeftOf(k), LeftNext(k));
    SumMinus(t.stream[..t.taken], LeftOf(k), Indicator(k), LeftNext(k));
    assert JobsOf(t.early) + t.out.accepted == [];
  }

  /** A snapshot taken before a cycle that runs anything is old after it: a restart then runs the
      same attempts again. */
  lemma CycleOutdates(u: Setup, s: Ledger, cycle: Cycle, m: Meanwhile)
    requires Wellformed(cycle, u.workers) && Alive(u, s) && Quiet(m) && Current(s)
    requires s.queue != [] && cycle.polls != []
    ensures !Current(Next(u, s, Turn(cycle, m)))
  {
    var s', k := Next(u, s, Turn(cycle, m)), Core(s.queue[0]);
    QuietSpends(u, s, cycle, m, k);
    FirstIsCounted(s.queue[..Min(|cycle.polls|, |s.queue|)]);
    LeftIsRest(s.saved, k);
    LeftIsRest(s.queue, k);
    LeftIsRest(s'.queue, k);
  }
}
