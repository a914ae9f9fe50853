/** The worker engine's job record: its structural validation, its status transitions and the
    retry decision (internal/worker/job.go, internal/dispatcher/retry.go). */
module Jobs {
  import opened Text

  datatype Name = Pending | Queued | Running | Succeeded | Failed

  /** A status is a string. All the code can tell about one is whether it is exactly one of the
      five names, one of them with white space around it, empty, or something else: the status
      predicates trim before comparing, the dispatcher compares exactly. */
  datatype Status = Is(name: Name) | Padded(name: Name) | Empty | Unknown

  /** A job type is a string too: "transfer" is the only one supported, after trimming. */
  datatype JobType = Transfer | PaddedTransfer | Blank | OtherType

  /** The UUID and URL recognisers belong to libraries; every result holds for any choice of them. */
  datatype Checks = Checks(isUUID: string -> bool, isURL: string -> bool)

  datatype Job = Job(
    id: string,
    externalID: string,
    jobType: JobType,
    status: Status,
    priority: int,
    attempt: int,
    maxAttempts: int,
    sourceURL: string,
    destinationKey: string,
    createdAt: int,
    updatedAt: int)

  predicate IsTerminal(s: Status) {
    (s.Is? || s.Padded?) && (s.name.Succeeded? || s.name.Failed?)
  }

  predicate IsSupported(s: Status) {
    s.Is? || s.Padded?
  }

  /** ValidateJob reports no issue. */
  predicate Valid(c: Checks, j: Job) {
    && c.isUUID(j.id)
    && (j.jobType.Transfer? || j.jobType.PaddedTransfer?)
    && IsSupported(j.status)
    && j.priority >= 0
    && j.attempt >= 0
    && j.maxAttempts > 0
    && j.attempt <= j.maxAttempts
    && c.isURL(j.sourceURL)
    && TrimSpace(j.destinationKey) != ""
    && j.createdAt != 0
    && j.updatedAt != 0
  }

  /** What identifies a job throughout its life: everything the engine never changes. */
  function Core(j: Job): Job {
    j.(status := Is(Pending), attempt := 0, updatedAt := 0)
  }

  function Stamp(now: int, clock: Clock): (r: Clock) {
    if now == 0 then clock else now
  }

  function WithStatus(c: Checks, j: Job, status: Status, now: int, clock: Clock): (r: Option<Job>) {
    var updated := j.(status := status, updatedAt := Stamp(now, clock));
    if Valid(c, updated) then Some(updated) else None
  }

  function WithAttemptStatus(c: Checks, j: Job, status: Status, now: int, clock: Clock): (r: Option<Job>) {
    var updated := j.(status := status, attempt := j.attempt + 1, updatedAt := Stamp(now, clock));
    if Valid(c, updated) then Some(updated) else None
  }

  datatype JobInput = JobInput(
    id: string, externalID: string, jobType: JobType, priority: int, maxAttempts: int,
    sourceURL: string, destinationKey: string, now: int)

  /** The input describes a job that can be created. */
  predicate Creatable(c: Checks, input: JobInput, normalized: Option<string>) {
    && normalized.Some? && c.isUUID(normalized.value)
    && !input.jobType.OtherType?
    && input.priority >= 0 && input.maxAttempts >= 0
    && c.isURL(TrimSpace(input.sourceURL)) && TrimSpace(input.destinationKey) != ""
  }

  /** `normalized` is the UUID the identity package derived from the input, or generated. */
  function NewJob(c: Checks, input: JobInput, normalized: Option<string>, clock: Clock): (r: Option<Job>)
    ensures r.Some? ==> Valid(c, r.value) && Fresh(r.value)
  {
    if normalized.None? then None else
    var now := Stamp(input.now, clock);
    var job := Job(
      normalized.value,
      TrimSpace(input.externalID),
      if input.jobType.Blank? then Transfer else input.jobType,
      Is(Pending),
      input.priority,
      0,
      if input.maxAttempts == 0 then 1 else input.maxAttempts,
      TrimSpace(input.sourceURL),
      TrimSpace(input.destinationKey),
      now,
      now);
    if Valid(c, job) then Some(job) else None
  }

  /** A job is created exactly from a proper input; it carries the trimmed texts, at least one
      attempt, and a time of creation. */
  lemma JobCreated(c: Checks, input: JobInput, normalized: Option<string>, clock: Clock)
    ensures var r := NewJob(c, input, normalized, clock);
            && (r.Some? <==> Creatable(c, input, normalized))
            && (r.Some? ==>
                  var j := r.value;
                  && Valid(c, j) && Fresh(j)
                  && j.id == normalized.value && j.externalID == TrimSpace(input.externalID)
                  && j.jobType == (if input.jobType.Blank? then Transfer else input.jobType)
                  && j.priority == input.priority && j.maxAttempts == (if input.maxAttempts == 0 then 1 else input.maxAttempts)
                  && j.sourceURL == TrimSpace(input.sourceURL) && j.destinationKey == TrimSpace(input.destinationKey)
                  && j.createdAt == j.updatedAt == Stamp(input.now, clock))
  {
    TrimIdempotent(input.destinationKey, IsSpace);
  }

  /** A job as NewJob returns it: never attempted, with at least one attempt to go. */
  predicate Fresh(j: Job) {
    j.status == Is(Pending) && j.attempt == 0 && j.maxAttempts > 0
  }

  /** The retry decision; Invalid stands for the validation errors. */
  datatype Decision = Invalid | NotFailed | MaxAttemptsReached | Retry(job: Job)

  function Decide(c: Checks, j: Job, now: int, clock: Clock): (r: Decision) {
    if !Valid(c, j) then Invalid
    else if j.status != Is(Failed) then NotFailed
    else if j.attempt >= j.maxAttempts then MaxAttemptsReached
    else
      var again := j.(status := Is(Pending), updatedAt := Stamp(now, clock));
      if Valid(c, again) then Retry(again) else Invalid
  }

  // ---------------------------------------------------------------- sums over jobs

  /** Any additive quantity over a list of jobs. */
  function Sum(js: seq<Job>, f: Job -> int): int {
    if js == [] then 0 else Sum(js[..|js| - 1], f) + f(js[|js| - 1])
  }

  lemma {:induction false} SumConcat(a: seq<Job>, b: seq<Job>, f: Job -> int)
    ensures Sum(a + b, f) == Sum(a, f) + Sum(b, f)
  {
    if b == [] {
      assert a + b == a;
    } else {
      SumConcat(a, b[..|b| - 1], f);
      assert (a + b)[..|a + b| - 1] == a + b[..|b| - 1];
    }
  }

  lemma SumNext(js: seq<Job>, i: nat, f: Job -> int)
    requires i < |js|
    ensures Sum(js[..i + 1], f) == Sum(js[..i], f) + f(js[i])
  {
    assert js[..i + 1][..i] == js[..i];
  }

  lemma {:induction false} SumCong(a: seq<Job>, f: Job -> int, b: seq<Job>, g: Job -> int)
    requires |a| == |b| && forall i :: 0 <= i < |a| ==> f(a[i]) == g(b[i])
    ensures Sum(a, f) == Sum(b, g)
  {
    if a != [] {
      SumCong(a[..|a| - 1], f, b[..|b| - 1], g);
    }
  }
}
