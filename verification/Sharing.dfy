/** A queue shared with other users: jobs that arrive and a close that happens while a dispatcher
    sends its retries back, and which of the retries the queue still takes
    (internal/dispatcher/dispatcher.go, internal/queue/memory.go, internal/server/worker_api.go). */
module Sharing {
  import opened Text
  import opened Jobs
  import opened Queue

  /** One Enqueue by another user. */
  datatype Arrival = Arrival(job: Job, live: bool, clock: Clock)

  /** What other users do at one point: the jobs they offer, and whether they close the queue. */
  datatype Disturbance = Disturbance(arrivals: seq<Arrival>, closes: bool)

  const CALM := Disturbance([], false)

  /** A queue, and the jobs it has accepted from others. */
  datatype Channel = Channel(jobs: seq<Job>, closed: bool, accepted: seq<Job>)

  /** Jobs to send back, the i-th at `clock(i)`; the first `liveFor` attempts see a live context,
      and `before(i)` happens right before the i-th attempt. */
  datatype Return = Return(jobs: seq<Job>, clock: nat -> Clock, liveFor: nat, before: nat -> Disturbance)

  // ---------------------------------------------------------------- arrivals

  function Arrives(c: Checks, capacity: nat, ch: Channel, a: Arrival): Channel {
    if Refusal(c, a.live, a.job, ch.closed, |ch.jobs|, capacity).Some? then ch
    else ch.(jobs := ch.jobs + [Stored(a.job, a.clock)], accepted := ch.accepted + [a.job])
  }

  function ArriveAll(c: Checks, capacity: nat, ch: Channel, arrivals: seq<Arrival>): Channel {
    if arrivals == [] then ch
    else Arrives(c, capacity, ArriveAll(c, capacity, ch, arrivals[..|arrivals| - 1]), arrivals[|arrivals| - 1])
  }

  function Disturb(c: Checks, capacity: nat, ch: Channel, d: Disturbance): Channel {
    var after := ArriveAll(c, capacity, ch, d.arrivals);
    after.(closed := ch.closed || d.closes)
  }

  // ---------------------------------------------------------------- returns

  function SentBack(ch: Channel, j: Job, clock: Clock): Channel {
    ch.(jobs := ch.jobs + [Stored(j, clock)])
  }

  /** The queue after the first `n` jobs have gone back. */
  function Going(c: Checks, capacity: nat, ch: Channel, r: Return, n: nat): Channel
    requires n <= |r.jobs|
    decreases n, 0
  {
    if n == 0 then ch else SentBack(Facing(c, capacity, ch, r, n - 1), r.jobs[n - 1], r.clock(n - 1))
  }

  /** The queue that the n-th job finds. */
  function Facing(c: Checks, capacity: nat, ch: Channel, r: Return, n: nat): Channel
    requires n < |r.jobs|
    decreases n, 1
  {
    Disturb(c, capacity, Going(c, capacity, ch, r, n), r.before(n))
  }

  /** Why the n-th job is refused, if it is. */
  function Refused(c: Checks, capacity: nat, ch: Channel, r: Return, n: nat): Option<Error>
    requires n < |r.jobs|
  {
    var facing := Facing(c, capacity, ch, r, n);
    Blocked(n < r.liveFor, facing.closed, |facing.jobs|, capacity)
  }

  /** How many of the first `n` jobs go back: the first refusal ends it. */
  function Sent(c: Checks, capacity: nat, ch: Channel, r: Return, n: nat): (k: nat)
    requires n <= |r.jobs|
    ensures k <= n
  {
    if n == 0 then 0 else
    var k := Sent(c, capacity, ch, r, n - 1);
    if k == n - 1 && Refused(c, capacity, ch, r, n - 1).None? then n else k
  }

  /** The queue when the sending back is over. */
  function Outcome(c: Checks, capacity: nat, ch: Channel, r: Return): Channel {
    var k := Sent(c, capacity, ch, r, |r.jobs|);
    if k < |r.jobs| then Facing(c, capacity, ch, r, k) else Going(c, capacity, ch, r, k)
  }

  lemma {:induction false} SentIsFirstRefusal(c: Checks, capacity: nat, ch: Channel, r: Return, n: nat, i: nat)
    requires n <= |r.jobs|
    ensures i < Sent(c, capacity, ch, r, n) ==> Refused(c, capacity, ch, r, i).None?
    ensures i == Sent(c, capacity, ch, r, n) < n ==> Refused(c, capacity, ch, r, i).Some?
  {
    if n > 0 {
      SentIsFirstRefusal(c, capacity, ch, r, n - 1, i);
    }
  }

  /** Everything goes back if and only if nothing is refused. */
  lemma AllSent(c: Checks, capacity: nat, ch: Channel, r: Return)
    ensures Sent(c, capacity, ch, r, |r.jobs|) == |r.jobs|
       <==> forall i :: 0 <= i < |r.jobs| ==> Refused(c, capacity, ch, r, i).None?
  {
    var k := Sent(c, capacity, ch, r, |r.jobs|);
    forall i | 0 <= i < |r.jobs|
      ensures i < k ==> Refused(c, capacity, ch, r, i).None?
      ensures i == k ==> Refused(c, capacity, ch, r, i).Some?
    {
      SentIsFirstRefusal(c, capacity, ch, r, |r.jobs|, i);
    }
    if k < |r.jobs| {
      assert Refused(c, capacity, ch, r, k).Some?;
    }
  }

  lemma SentGoesOn(c: Checks, capacity: nat, ch: Channel, r: Return, k: nat)
    requires k < |r.jobs| && Sent(c, capacity, ch, r, k) == k && Refused(c, capacity, ch, r, k).None?
    ensures Sent(c, capacity, ch, r, k + 1) == k + 1
    ensures Going(c, capacity, ch, r, k + 1) == SentBack(Facing(c, capacity, ch, r, k), r.jobs[k], r.clock(k))
  {
  }

  lemma {:induction false} SentStops(c: Checks, capacity: nat, ch: Channel, r: Return, k: nat, n: nat)
    requires k < n <= |r.jobs| && Sent(c, capacity, ch, r, k) == k && Refused(c, capacity, ch, r, k).Some?
    ensures Sent(c, capacity, ch, r, n) == k
  {
    if n > k + 1 {
      SentStops(c, capacity, ch, r, k, n - 1);
    }
  }

  // ---------------------------------------------------------------- nothing is forgotten

  /** A quantity that does not depend on a job's status and time stamp. */
  ghost predicate StoreBlind(f: Job -> int) {
    forall j, t: Clock :: f(Stored(j, t)) == f(j)
  }

  /** What is in the queue, apart from what was accepted. */
  ghost function Own(ch: Channel, f: Job -> int): int {
    Sum(ch.jobs, f) - Sum(ch.accepted, f)
  }

  lemma SumOneMore(js: seq<Job>, j: Job, f: Job -> int)
    ensures Sum(js + [j], f) == Sum(js, f) + f(j)
  {
    assert (js + [j])[..|js|] == js;
  }

  lemma {:induction false} ArrivalsKeepOwn(c: Checks, capacity: nat, ch: Channel, arrivals: seq<Arrival>, f: Job -> int)
    requires StoreBlind(f)
    ensures Own(ArriveAll(c, capacity, ch, arrivals), f) == Own(ch, f)
  {
    if arrivals != [] {
      var front, a := arrivals[..|arrivals| - 1], arrivals[|arrivals| - 1];
      var mid := ArriveAll(c, capacity, ch, front);
      ArrivalsKeepOwn(c, capacity, ch, front, f);
      SumOneMore(mid.jobs, Stored(a.job, a.clock), f);
      SumOneMore(mid.accepted, a.job, f);
    }
  }

  /** Own jobs are what was there and what went back. */
  lemma {:induction false} GoingOwn(c: Checks, capacity: nat, ch: Channel, r: Return, n: nat, f: Job -> int)
    requires n <= |r.jobs| && StoreBlind(f)
    ensures Own(Going(c, capacity, ch, r, n), f) == Own(ch, f) + Sum(r.jobs[..n], f)
  {
    if n > 0 {
      GoingOwn(c, capacity, ch, r, n - 1, f);
      FacingOwn(c, capacity, ch, r, n - 1, f);
      SentBackOwn(Facing(c, capacity, ch, r, n - 1), r.jobs[n - 1], r.clock(n - 1), f);
      SumNext(r.jobs, n - 1, f);
    }
  }

  lemma SentBackOwn(ch: Channel, j: Job, clock: Clock, f: Job -> int)
    requires StoreBlind(f)
    ensures Own(SentBack(ch, j, clock), f) == Own(ch, f) + f(j)
  {
    SumOneMore(ch.jobs, Stored(j, clock), f);
  }

  lemma FacingOwn(c: Checks, capacity: nat, ch: Channel, r: Return, n: nat, f: Job -> int)
    requires n < |r.jobs| && StoreBlind(f)
    ensures Own(Facing(c, capacity, ch, r, n), f) == Own(Going(c, capacity, ch, r, n), f)
  {
    ArrivalsKeepOwn(c, capacity, Going(c, capacity, ch, r, n), r.before(n).arrivals, f);
  }

  /** When it is over, the queue holds what it held, what arrived and what went back. */
  lemma OutcomeSum(c: Checks, capacity: nat, ch: Channel, r: Return, f: Job -> int)
    requires StoreBlind(f)
    ensures var out, k := Outcome(c, capacity, ch, r), Sent(c, capacity, ch, r, |r.jobs|);
            Sum(out.jobs, f) + Sum(ch.accepted, f) == Sum(ch.jobs, f) + Sum(out.accepted, f) + Sum(r.jobs[..k], f)
  {
    var k := Sent(c, capacity, ch, r, |r.jobs|);
    GoingOwn(c, capacity, ch, r, k, f);
    if k < |r.jobs| {
      FacingOwn(c, capacity, ch, r, k, f);
    }
  }

  // ---------------------------------------------------------------- what the queue holds

  ghost predicate SoundChannel(c: Checks, capacity: nat, ch: Channel) {
    |ch.jobs| <= capacity && AllQueued(c, ch.jobs)
  }

  lemma {:induction false} ArrivalsSound(c: Checks, capacity: nat, ch: Channel, arrivals: seq<Arrival>)
    requires SoundChannel(c, capacity, ch)
    ensures SoundChannel(c, capacity, ArriveAll(c, capacity, ch, arrivals))
    ensures ArriveAll(c, capacity, ch, arrivals).closed == ch.closed
    ensures |ArriveAll(c, capacity, ch, arrivals).jobs| >= |ch.jobs|
  {
    if arrivals != [] {
      ArrivalsSound(c, capacity, ch, arrivals[..|arrivals| - 1]);
    }
  }

  lemma SentBackSound(c: Checks, capacity: nat, ch: Channel, j: Job, clock: Clock)
    requires SoundChannel(c, capacity, ch) && |ch.jobs| < capacity && Valid(c, j)
    ensures SoundChannel(c, capacity, SentBack(ch, j, clock))
  {
  }

  lemma {:induction false} GoingSound(c: Checks, capacity: nat, ch: Channel, r: Return, n: nat)
    requires SoundChannel(c, capacity, ch) && n <= Sent(c, capacity, ch, r, |r.jobs|) && forall j :: j in r.jobs ==> Valid(c, j)
    ensures SoundChannel(c, capacity, Going(c, capacity, ch, r, n))
    ensures n < |r.jobs| ==> SoundChannel(c, capacity, Facing(c, capacity, ch, r, n))
  {
    if n > 0 {
      GoingSound(c, capacity, ch, r, n - 1);
      SentIsFirstRefusal(c, capacity, ch, r, |r.jobs|, n - 1);
      assert r.jobs[n - 1] in r.jobs;
      SentBackSound(c, capacity, Facing(c, capacity, ch, r, n - 1), r.jobs[n - 1], r.clock(n - 1));
    }
    if n < |r.jobs| {
      ArrivalsSound(c, capacity, Going(c, capacity, ch, r, n), r.before(n).arrivals);
    }
  }

  lemma OutcomeSound(c: Checks, capacity: nat, ch: Channel, r: Return)
    requires SoundChannel(c, capacity, ch) && forall j :: j in r.jobs ==> Valid(c, j)
    ensures SoundChannel(c, capacity, Outcome(c, capacity, ch, r))
  {
    GoingSound(c, capacity, ch, r, Sent(c, capacity, ch, r, |r.jobs|));
  }

  /** A property that does not depend on a job's status and time stamp. */
  ghost predicate StatusBlind(p: Job -> bool) {
    forall j, t: Clock :: p(Stored(j, t)) == p(j)
  }

  ghost predicate AllSuch(js: seq<Job>, p: Job -> bool) {
    forall j :: j in js ==> p(j)
  }

  ghost predicate BringSuch(arrivals: seq<Arrival>, p: Job -> bool) {
    forall i :: 0 <= i < |arrivals| ==> p(arrivals[i].job)
  }

  ghost predicate HoldsSuch(ch: Channel, p: Job -> bool) {
    AllSuch(ch.jobs, p) && AllSuch(ch.accepted, p)
  }

  lemma {:induction false} ArrivalsSuch(c: Checks, capacity: nat, ch: Channel, arrivals: seq<Arrival>, p: Job -> bool)
    requires StatusBlind(p) && HoldsSuch(ch, p) && BringSuch(arrivals, p)
    ensures HoldsSuch(ArriveAll(c, capacity, ch, arrivals), p)
  {
    if arrivals != [] {
      ArrivalsSuch(c, capacity, ch, arrivals[..|arrivals| - 1], p);
      assert p(arrivals[|arrivals| - 1].job);
    }
  }

  lemma {:induction false} GoingSuch(c: Checks, capacity: nat, ch: Channel, r: Return, n: nat, p: Job -> bool)
    requires n <= |r.jobs| && StatusBlind(p) && HoldsSuch(ch, p) && AllSuch(r.jobs, p)
    requires forall i :: BringSuch(r.before(i).arrivals, p)
    ensures HoldsSuch(Going(c, capacity, ch, r, n), p)
    ensures n < |r.jobs| ==> HoldsSuch(Facing(c, capacity, ch, r, n), p)
  {
    if n > 0 {
      GoingSuch(c, capacity, ch, r, n - 1, p);
      assert r.jobs[n - 1] in r.jobs;
    }
    if n < |r.jobs| {
      assert BringSuch(r.before(n).arrivals, p);
      ArrivalsSuch(c, capacity, Going(c, capacity, ch, r, n), r.before(n).arrivals, p);
    }
  }

  /** If everything in the queue, going back and arriving has a property, so has everything in the
      queue when it is over. */
  lemma OutcomeSuch(c: Checks, capacity: nat, ch: Channel, r: Return, p: Job -> bool)
    requires StatusBlind(p) && HoldsSuch(ch, p) && AllSuch(r.jobs, p)
    requires forall i :: BringSuch(r.before(i).arrivals, p)
    ensures HoldsSuch(Outcome(c, capacity, ch, r), p)
  {
    GoingSuch(c, capacity, ch, r, Sent(c, capacity, ch, r, |r.jobs|), p);
  }

  // ---------------------------------------------------------------- the same by lengths only

  /** All that decides whether a job is taken: how full the queue is, and whether it is closed. */
  datatype Level = Level(length: nat, closed: bool)

  function LevelOf(ch: Channel): Level { Level(|ch.jobs|, ch.closed) }

  function Rises(c: Checks, capacity: nat, l: Level, arrivals: seq<Arrival>): Level {
    if arrivals == [] then l else
    var before, a := Rises(c, capacity, l, arrivals[..|arrivals| - 1]), arrivals[|arrivals| - 1];
    if Refusal(c, a.live, a.job, before.closed, before.length, capacity).Some? then before
    else before.(length := before.length + 1)
  }

  function Raise(c: Checks, capacity: nat, l: Level, d: Disturbance): Level {
    Rises(c, capacity, l, d.arrivals).(closed := l.closed || d.closes)
  }

  /** The level that the n-th job to go back finds, whatever the jobs are. */
  function LevelAt(c: Checks, capacity: nat, l: Level, before: nat -> Disturbance, n: nat): Level {
    var own := if n == 0 then l else
      var last := LevelAt(c, capacity, l, before, n - 1);
      last.(length := last.length + 1);
    Raise(c, capacity, own, before(n))
  }

  lemma {:induction false} RisesAsArrives(c: Checks, capacity: nat, ch: Channel, arrivals: seq<Arrival>)
    ensures LevelOf(ArriveAll(c, capacity, ch, arrivals)) == Rises(c, capacity, LevelOf(ch), arrivals)
  {
    if arrivals != [] {
      RisesAsArrives(c, capacity, ch, arrivals[..|arrivals| - 1]);
    }
  }

  lemma LevelDisturbed(c: Checks, capacity: nat, ch: Channel, d: Disturbance)
    ensures LevelOf(Disturb(c, capacity, ch, d)) == Raise(c, capacity, LevelOf(ch), d)
  {
    RisesAsArrives(c, capacity, ch, d.arrivals);
  }

  lemma {:induction false} LevelIsFaced(c: Checks, capacity: nat, ch: Channel, r: Return, n: nat)
    requires n < |r.jobs|
    ensures LevelOf(Facing(c, capacity, ch, r, n)) == LevelAt(c, capacity, LevelOf(ch), r.before, n)
  {
    if n > 0 {
      LevelIsFaced(c, capacity, ch, r, n - 1);
      LevelSentBack(Facing(c, capacity, ch, r, n - 1), r.jobs[n - 1], r.clock(n - 1));
    }
    LevelDisturbed(c, capacity, Going(c, capacity, ch, r, n), r.before(n));
  }

  lemma LevelSentBack(ch: Channel, j: Job, clock: Clock)
    ensures LevelOf(SentBack(ch, j, clock)) == LevelOf(ch).(length := |ch.jobs| + 1)
  {
  }

  // ---------------------------------------------------------------- nobody else

  lemma {:induction false} CalmGoing(c: Checks, capacity: nat, ch: Channel, r: Return, n: nat)
    requires n <= |r.jobs| && forall i :: r.before(i) == CALM
    ensures Going(c, capacity, ch, r, n) == ch.(jobs := ch.jobs + AllStored(r.jobs[..n], r.clock))
    ensures n < |r.jobs| ==> Facing(c, capacity, ch, r, n) == Going(c, capacity, ch, r, n)
  {
    if n == 0 {
      assert ch.jobs + AllStored(r.jobs[..0], r.clock) == ch.jobs;
    } else {
      CalmGoing(c, capacity, ch, r, n - 1);
      StoredOneMore(r.jobs, n - 1, r.clock);
    }
  }

  /** With room for all of them, only the context can stop the jobs that go back. */
  lemma {:induction false} CalmSent(c: Checks, capacity: nat, ch: Channel, r: Return, n: nat)
    requires n <= |r.jobs| && (forall i :: r.before(i) == CALM) && !ch.closed && |ch.jobs| + |r.jobs| <= capacity
    ensures Sent(c, capacity, ch, r, n) == Min(n, r.liveFor)
  {
    if n > 0 {
      CalmSent(c, capacity, ch, r, n - 1);
      CalmGoing(c, capacity, ch, r, n - 1);
    }
  }
}
