/** The bounded in-memory FIFO queue and its snapshots
    (internal/queue/memory.go, internal/queue/persistence.go). */
module Queue {
  import opened Text
  import opened Jobs

  datatype Error = ContextDone | InvalidJob | NotPending | QueueClosed | QueueFull | BadSnapshot

  /** A queued job as the queue stores it. */
  function Stored(j: Job, clock: Clock): Job {
    j.(status := Is(Queued), updatedAt := clock)
  }

  /** The reason an enqueue is refused, in the order the code checks. `live` says that the
      caller's context has not been cancelled. */
  function Refusal(c: Checks, live: bool, j: Job, closed: bool, length: nat, capacity: nat): (r: Option<Error>) {
    if !live then Some(ContextDone)
    else if !Valid(c, j) then Some(InvalidJob)
    else if j.status != Is(Pending) && j.status != Is(Queued) then Some(NotPending)
    else if closed then Some(QueueClosed)
    else if length >= capacity then Some(QueueFull)
    else None
  }

  /** A job that is fit to be queued at all. */
  predicate Fit(c: Checks, j: Job) {
    Valid(c, j) && (j.status == Is(Pending) || j.status == Is(Queued))
  }

  /** Which refusal is reported: a cancelled context hides everything else, an unfit job is told
      before the state of the queue, and a closed queue is not also called full. */
  lemma RefusedBecause(c: Checks, live: bool, j: Job, closed: bool, length: nat, capacity: nat)
    ensures var r := Refusal(c, live, j, closed, length, capacity);
            && (r == None <==> live && Fit(c, j) && !closed && length < capacity)
            && (r == Some(QueueFull) <==> live && Fit(c, j) && !closed && length >= capacity)
            && (r == Some(QueueClosed) <==> live && Fit(c, j) && closed)
            && (r == Some(NotPending) <==> live && Valid(c, j) && !Fit(c, j))
            && (r == Some(InvalidJob) <==> live && !Valid(c, j))
            && (r == Some(ContextDone) <==> !live)
    ensures Fit(c, j) ==> Blocked(live, closed, length, capacity) == Refusal(c, live, j, closed, length, capacity)
  {
  }

  /** The same for a job that is fit to be queued. */
  function Blocked(live: bool, closed: bool, length: nat, capacity: nat): Option<Error> {
    if !live then Some(ContextDone) else if closed then Some(QueueClosed)
    else if length >= capacity then Some(QueueFull) else None
  }

  /** Jobs as a queue holds them. */
  ghost predicate AllQueued(c: Checks, jobs: seq<Job>) {
    forall j :: j in jobs ==> Valid(c, j) && j.status == Is(Queued)
  }

  class MemoryQueue {
    const capacity: nat
    var jobs: seq<Job>
    var closed: bool

    ghost predicate Bounded()
      reads this
    {
      |jobs| <= capacity
    }

    constructor (capacity: nat)
      ensures Bounded() && jobs == [] && !closed && this.capacity == capacity
    {
      this.capacity := capacity;
      jobs := [];
      closed := false;
    }

    static method NewMemoryQueue(capacity: int) returns (q: Option<MemoryQueue>)
      ensures q.Some? <==> capacity > 0
      ensures q.Some? ==> fresh(q.value) && q.value.Bounded() && q.value.jobs == []
                          && !q.value.closed && q.value.capacity == capacity
    {
      if capacity <= 0 {
        return None;
      }
      var queue := new MemoryQueue(capacity);
      return Some(queue);
    }

    method Enqueue(c: Checks, live: bool, j: Job, clock: Clock) returns (err: Option<Error>)
      requires Bounded()
      modifies `jobs
      ensures Bounded()
      ensures err == Refusal(c, live, j, closed, |old(jobs)|, capacity)
      ensures jobs == if err.None? then old(jobs) + [Stored(j, clock)] else old(jobs)
      ensures err.None? ==> var x := jobs[|old(jobs)|];
                x.status == Is(Queued) && x.updatedAt == clock && x.(status := j.status, updatedAt := j.updatedAt) == j
    {
      if !live {
        return Some(ContextDone);
      }
      if !Valid(c, j) {
        return Some(InvalidJob);
      }
      if j.status != Is(Pending) && j.status != Is(Queued) {
        return Some(NotPending);
      }
      var queued := WithStatus(c, j, Is(Queued), clock, clock);
      if queued.None? {
        return Some(InvalidJob);
      }
      if closed {
        return Some(QueueClosed);
      }
      if |jobs| >= capacity {
        return Some(QueueFull);
      }
      jobs := jobs + [queued.value];
      return None;
    }

    /** `job` is None when the queue was empty. */
    method Dequeue(live: bool) returns (job: Option<Job>, err: Option<Error>)
      requires Bounded()
      modifies `jobs
      ensures Bounded()
      ensures err == if !live then Some(ContextDone) else if closed then Some(QueueClosed) else None
      ensures err.Some? || old(jobs) == [] ==> job == None && jobs == old(jobs)
      ensures err.None? && old(jobs) != [] ==> job == Some(old(jobs)[0]) && jobs == old(jobs)[1..]
    {
      if !live {
        return None, Some(ContextDone);
      }
      if closed {
        return None, Some(QueueClosed);
      }
      if |jobs| == 0 {
        return None, None;
      }
      job, err := Some(jobs[0]), None;
      jobs := jobs[1..];
    }

    /** Copies of the queued jobs, oldest first. */
    method TakeSnapshot() returns (output: seq<Job>)
      ensures output == jobs
    {
      output := [];
      while |output| < |jobs|
        invariant output <= jobs
      {
        output := output + [jobs[|output|]];
      }
    }

    method Close()
      modifies `closed
      ensures closed
    {
      closed := true;
    }
  }

  datatype Snapshot = Snapshot(version: string, driver: string, generatedAt: int, jobs: seq<Job>)

  const PERSISTENCE_VERSION := "queue.snapshot.v1"

  function NewSnapshot(driver: string, jobs: seq<Job>, now: int, clock: Clock): Snapshot {
    Snapshot(PERSISTENCE_VERSION, TrimSpace(driver), Stamp(now, clock), jobs)
  }

  predicate ValidSnapshot(c: Checks, s: Snapshot) {
    && s.version == PERSISTENCE_VERSION
    && TrimSpace(s.driver) != ""
    && s.generatedAt != 0
    && forall i :: 0 <= i < |s.jobs| ==>
         Valid(c, s.jobs[i]) && (s.jobs[i].status == Is(Pending) || s.jobs[i].status == Is(Queued))
  }

  /** A snapshot is accepted exactly if its head is in order and an open queue with room would take
      each of its jobs. */
  lemma SnapshotIsRestorable(c: Checks, s: Snapshot)
    ensures ValidSnapshot(c, s) <==>
              && s.version == "queue.snapshot.v1" && TrimSpace(s.driver) != "" && s.generatedAt != 0
              && forall j :: j in s.jobs ==> Refusal(c, true, j, false, 0, 1).None?
  {
    if ValidSnapshot(c, s) {
      forall j | j in s.jobs ensures Refusal(c, true, j, false, 0, 1).None? {
        RefusedBecause(c, true, j, false, 0, 1);
      }
    } else {
      assert forall i :: 0 <= i < |s.jobs| ==> s.jobs[i] in s.jobs;
    }
  }

  /** What a queue holds after storing `js` one after the other, the i-th at `clock(i)`. */
  function AllStored(js: seq<Job>, clock: nat -> Clock): (r: seq<Job>) {
    seq(|js|, i requires 0 <= i < |js| => Stored(js[i], clock(i)))
  }

  lemma StoredOneMore(js: seq<Job>, i: nat, clock: nat -> Clock)
    requires i < |js|
    ensures AllStored(js[..i + 1], clock) == AllStored(js[..i], clock) + [Stored(js[i], clock(i))]
  {
  }

  /** Restoring stores exactly as many jobs as fit, from the front, in order. `liveFor` is the
      number of enqueues that still see a live context. */
  method Restore(c: Checks, target: MemoryQueue, s: Snapshot, liveFor: nat, clock: nat -> Clock)
    returns (restored: nat, err: Option<Error>)
    requires target.Bounded()
    modifies target`jobs
    ensures target.Bounded()
    ensures !ValidSnapshot(c, s) ==> restored == 0 && err == Some(BadSnapshot)
    ensures ValidSnapshot(c, s) ==>
      restored == if target.closed then 0
                  else Min(Min(|s.jobs|, liveFor), target.capacity - |old(target.jobs)|)
    ensures err == None <==> ValidSnapshot(c, s) && restored == |s.jobs|
    ensures restored <= |s.jobs| && target.jobs == old(target.jobs) + AllStored(s.jobs[..restored], clock)
  {
    restored := 0;
    if !ValidSnapshot(c, s) {
      return 0, Some(BadSnapshot);
    }
    while restored < |s.jobs|
      invariant restored <= |s.jobs| && target.Bounded()
      invariant restored > 0 ==> !target.closed
      invariant restored <= liveFor
      invariant target.jobs == old(target.jobs) + AllStored(s.jobs[..restored], clock)
    {
      err := target.Enqueue(c, restored < liveFor, s.jobs[restored], clock(restored));
      if err.Some? {
        return;
      }
      StoredOneMore(s.jobs, restored, clock);
      restored := restored + 1;
    }
    err := None;
  }
}
