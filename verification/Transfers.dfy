/** Concurrent executions of transfer jobs around the shared tracker
    (internal/transfer/stats.go, internal/transfer/executor.go). */
module Transfers {
  import opened Text

  datatype ActiveJob = ActiveJob(
    uuid: string, operation: string, stage: string, message: string, sourceURL: string,
    destinationDriver: string, objectPath: string, figures: Figures, startedAt: int, updatedAt: int)

  /** How far a transfer has come. */
  datatype Figures = Figures(currentBytes: int, totalBytes: int, speedBps: int, percent: real)

  datatype Stats = Stats(maxConcurrentJobs: nat, activeJobs: nat, completedJobs: nat, failedJobs: nat, details: seq<ActiveJob>)

  /** A job as the tracker enters it: missing times are filled in. */
  function Stamped(job: ActiveJob, now: Clock): ActiveJob {
    var started := if job.startedAt == 0 then now else job.startedAt;
    job.(startedAt := started, updatedAt := if job.updatedAt == 0 then started else job.updatedAt)
  }

  predicate HasFigures(update: ActiveJob) {
    update.figures.currentBytes > 0 || update.figures.totalBytes > 0 || update.figures.percent > 0.0 || update.figures.speedBps > 0
  }

  function Or(text: string, otherwise: string): string {
    if text != "" then text else otherwise
  }

  /** A job after one report about it. */
  function Updated(was: ActiveJob, update: ActiveJob, now: Clock): ActiveJob {
    ActiveJob(
      was.uuid, Or(update.operation, was.operation), Or(update.stage, was.stage), Or(update.message, was.message),
      Or(update.sourceURL, was.sourceURL), Or(update.destinationDriver, was.destinationDriver),
      Or(update.objectPath, was.objectPath), if HasFigures(update) then update.figures else was.figures, was.startedAt, now)
  }

  method ApplyReport(was: ActiveJob, update: ActiveJob, now: Clock) returns (r: ActiveJob)
    ensures r == Updated(was, update, now)
  {
    var operation, stage, message := was.operation, was.stage, was.message;
    var sourceURL, destinationDriver, objectPath, figures := was.sourceURL, was.destinationDriver, was.objectPath, was.figures;
    if update.operation != "" {
      operation := update.operation;
    }
    if update.stage != "" {
      stage := update.stage;
    }
    if update.message != "" {
      message := update.message;
    }
    if update.sourceURL != "" {
      sourceURL := update.sourceURL;
    }
    if update.destinationDriver != "" {
      destinationDriver := update.destinationDriver;
    }
    if update.objectPath != "" {
      objectPath := update.objectPath;
    }
    if HasFigures(update) {
      figures := update.figures;
    }
    r := ActiveJob(was.uuid, operation, stage, message, sourceURL, destinationDriver, objectPath, figures, was.startedAt, now);
  }

  class Tracker {
    const max: nat
    var active: map<string, ActiveJob>
    var completed: nat
    var failed: nat

    ghost predicate Keyed()
      reads this
    {
      forall uuid :: uuid in active ==> active[uuid].uuid == uuid
    }

    constructor (maxConcurrentJobs: int)
      ensures max == if maxConcurrentJobs <= 0 then 1 else maxConcurrentJobs
      ensures Keyed() && active == map[] && completed == failed == 0
    {
      max := if maxConcurrentJobs <= 0 then 1 else maxConcurrentJobs;
      active, completed, failed := map[], 0, 0;
    }

    method TryStartJob(job: ActiveJob, now: Clock) returns (ok: bool)
      requires Keyed()
      modifies `active
      ensures Keyed() && ok == CanStart(old(active).Keys, max)
      ensures active == if ok then old(active)[job.uuid := Stamped(job, now)] else old(active)
      ensures ok ==> var x := active[job.uuid];
                     && x.startedAt == (if job.startedAt != 0 then job.startedAt else now)
                     && x.updatedAt == (if job.updatedAt != 0 then job.updatedAt else x.startedAt)
    {
      if |active| >= max {
        return false;
      }
      var entered := job;
      if entered.startedAt == 0 {
        entered := entered.(startedAt := now);
      }
      if entered.updatedAt == 0 {
        entered := entered.(updatedAt := entered.startedAt);
      }
      active := active[job.uuid := entered];
      return true;
    }

    /** An update changes the details of an active job and never the set of active jobs. */
    method UpdateJob(uuid: string, update: ActiveJob, now: Clock)
      requires Keyed()
      modifies `active
      ensures Keyed() && active.Keys == old(active).Keys
      ensures active == if uuid != "" && uuid in old(active) then old(active)[uuid := Updated(old(active)[uuid], update, now)] else old(active)
    {
      if uuid == "" || uuid !in active {
        return;
      }
      var current := ApplyReport(active[uuid], update, now);
      active := active[uuid := current];
    }

    method Finish(uuid: string, success: bool)
      requires Keyed()
      modifies `active, `completed, `failed
      ensures Keyed() && active == old(active) - {uuid}
      ensures completed == old(completed) + if success then 1 else 0
      ensures failed == old(failed) + if success then 0 else 1
    {
      active := active - {uuid};
      if success {
        completed := completed + 1;
      } else {
        failed := failed + 1;
      }
    }

    /** The snapshot lists every active job once, in the order they started. */
    method Snapshot() returns (s: Stats)
      requires Keyed()
      ensures s.maxConcurrentJobs == max && s.completedJobs == completed && s.failedJobs == failed
      ensures s.activeJobs == |active| == |s.details|
      ensures forall d :: d in s.details <==> d.uuid in active && active[d.uuid] == d
      ensures InStartOrder(s.details)
    {
      var details: seq<ActiveJob>, todo := [], active.Keys;
      while todo != {}
        invariant todo <= active.Keys && |details| + |todo| == |active.Keys|
        invariant forall d :: d in details <==> d.uuid in active && d.uuid !in todo && active[d.uuid] == d
        invariant InStartOrder(details)
        decreases |todo|
      {
        var uuid :| uuid in todo;
        details, todo := InsertByStart(active[uuid], details), todo - {uuid};
      }
      s := Stats(max, |active|, completed, failed, details);
    }
  }

  predicate InStartOrder(jobs: seq<ActiveJob>) {
    forall i :: 0 < i < |jobs| ==> jobs[i - 1].startedAt <= jobs[i].startedAt
  }

  function InsertByStart(job: ActiveJob, jobs: seq<ActiveJob>): (r: seq<ActiveJob>)
    ensures |r| == |jobs| + 1 && (r[0] == job || (jobs != [] && r[0] == jobs[0]))
    ensures forall x :: x in r <==> x == job || x in jobs
    ensures InStartOrder(jobs) ==> InStartOrder(r)
  {
    if jobs == [] || job.startedAt < jobs[0].startedAt then [job] + jobs
    else
      assert jobs == [jobs[0]] + jobs[1..];
      [jobs[0]] + InsertByStart(job, jobs[1..])
  }

  // ---------------------------------------------------------------- reports about one job

  datatype Report = Report(update: ActiveJob, now: Clock)

  /** A job after a series of reports. */
  function Reported(was: ActiveJob, reports: seq<Report>): ActiveJob {
    if reports == [] then was
    else Updated(Reported(was, reports[..|reports| - 1]), reports[|reports| - 1].update, reports[|reports| - 1].now)
  }

  /** The last nonempty text reported, or the first one if there is none. */
  function LatestText(first: string, reports: seq<Report>, field: ActiveJob -> string): string {
    if reports == [] then first
    else if field(reports[|reports| - 1].update) != "" then field(reports[|reports| - 1].update)
    else LatestText(first, reports[..|reports| - 1], field)
  }

  /** A report that says nothing of how far the transfer is. */
  predicate Silent(f: Figures) {
    f.currentBytes <= 0 && f.totalBytes <= 0 && f.speedBps <= 0 && f.percent <= 0.0
  }

  /** The last report with figures, or -1. */
  function LatestFigures(reports: seq<Report>): (i: int)
    ensures -1 <= i < |reports|
    ensures i >= 0 ==> !Silent(reports[i].update.figures)
    ensures forall j :: i < j < |reports| ==> Silent(reports[j].update.figures)
  {
    if reports == [] then -1
    else if !Silent(reports[|reports| - 1].update.figures) then |reports| - 1
    else LatestFigures(reports[..|reports| - 1])
  }

  /** However reports come in, the figures shown belong together: all four are those of the last
      report that had any. The texts are the last nonempty ones, and the job keeps its identity. */
  lemma {:induction false} ReportsConsistent(was: ActiveJob, reports: seq<Report>)
    ensures var now, i := Reported(was, reports), LatestFigures(reports);
            && now.figures == (if i == -1 then was.figures else reports[i].update.figures)
            && now.operation == LatestText(was.operation, reports, (x: ActiveJob) => x.operation)
            && now.stage == LatestText(was.stage, reports, (x: ActiveJob) => x.stage)
            && now.message == LatestText(was.message, reports, (x: ActiveJob) => x.message)
            && now.sourceURL == LatestText(was.sourceURL, reports, (x: ActiveJob) => x.sourceURL)
            && now.destinationDriver == LatestText(was.destinationDriver, reports, (x: ActiveJob) => x.destinationDriver)
            && now.objectPath == LatestText(was.objectPath, reports, (x: ActiveJob) => x.objectPath)
            && now.uuid == was.uuid && now.startedAt == was.startedAt
            && now.updatedAt == if reports == [] then was.updatedAt else reports[|reports| - 1].now
  {
    if reports != [] {
      ReportsConsistent(was, reports[..|reports| - 1]);
    }
  }

  predicate CanStart(active: set<string>, max: nat) {
    |active| < max
  }

  // ---------------------------------------------------------------- executions

  /** Where one call of Execute stands. Finishing: its terminal callback has been made and the
      deferred Finish has not run yet. */
  datatype Phase = Fresh | Admitted | Downloading | Uploading | Finishing(success: bool) | Rejected | Ended

  datatype Callback = CompletedCall | FailedCall

  /** `calls` lists the terminal callbacks the execution has made, whether or not they got through. */
  datatype Execution = Execution(uuid: string, phase: Phase, calls: seq<Callback>)

  datatype State = State(max: nat, active: set<string>, completed: nat, failed: nat, execs: seq<Execution>)

  datatype Event =
    | Spawn(uuid: string)
    | Admit(i: nat, allowed: bool)
    | Start(i: nat)
    | Downloaded(i: nat, ok: bool)
    | Uploaded(i: nat, ok: bool, callbackOk: bool)
    | Finish(i: nat)

  predicate Enabled(s: State, e: Event) {
    e.Spawn? || (e.i < |s.execs| && match e
                                     case Admit(i, _) => s.execs[i].phase.Fresh?
                                     case Start(i) => s.execs[i].phase.Admitted?
                                     case Downloaded(i, _) => s.execs[i].phase.Downloading?
                                     case Uploaded(i, _, _) => s.execs[i].phase.Uploading?
                                     case Finish(i) => s.execs[i].phase.Finishing?
                                     case Spawn(_) => true)
  }

  function Moved(x: Execution, phase: Phase, calls: seq<Callback>): Execution {
    x.(phase := phase, calls := x.calls + calls)
  }

  function Move(s: State, i: nat, phase: Phase, calls: seq<Callback>): State
    requires i < |s.execs|
  {
    s.(execs := s.execs[i := Moved(s.execs[i], phase, calls)])
  }

  function Next(s: State, e: Event): State
    requires Enabled(s, e)
  {
    match e
    case Spawn(uuid) => s.(execs := s.execs + [Execution(uuid, Fresh, [])])
    case Admit(i, allowed) => Move(s, i, if allowed then Admitted else Rejected, [])
    case Start(i) =>
      if CanStart(s.active, s.max) then Move(s, i, Downloading, []).(active := s.active + {s.execs[i].uuid})
      else Move(s, i, Rejected, [])
    case Downloaded(i, ok) => if ok then Move(s, i, Uploading, []) else Move(s, i, Finishing(false), [FailedCall])
    case Uploaded(i, ok, callbackOk) => Move(s, i, Finishing(ok && callbackOk), [if ok then CompletedCall else FailedCall])
    case Finish(i) =>
      var ended := Move(s, i, Ended, []).(active := s.active - {s.execs[i].uuid});
      if s.execs[i].phase.success then ended.(completed := s.completed + 1) else ended.(failed := s.failed + 1)
  }

  ghost predicate IsRun(s: State, es: seq<Event>)
    decreases |es|, 0
  {
    es == [] || (IsRun(s, es[..|es| - 1]) && Enabled(Run(s, es[..|es| - 1]), es[|es| - 1]))
  }

  ghost function Run(s: State, es: seq<Event>): State
    requires IsRun(s, es)
    decreases |es|, 1
  {
    if es == [] then s else Next(Run(s, es[..|es| - 1]), es[|es| - 1])
  }

  function Initial(max: nat): State { State(max, {}, 0, 0, []) }

  // ---------------------------------------------------------------- counting

  predicate InFlight(x: Execution) { x.phase.Downloading? || x.phase.Uploading? || x.phase.Finishing? }
  predicate HasStarted(x: Execution) { InFlight(x) || x.phase.Ended? }

  function Count(xs: seq<Execution>, p: Execution -> bool): nat {
    if xs == [] then 0 else Count(xs[..|xs| - 1], p) + if p(xs[|xs| - 1]) then 1 else 0
  }

  lemma CountNext(xs: seq<Execution>, x: Execution, p: Execution -> bool)
    ensures Count(xs + [x], p) == Count(xs, p) + if p(x) then 1 else 0
  {
    assert (xs + [x])[..|xs|] == xs;
  }

  lemma {:induction false} CountUpdate(xs: seq<Execution>, i: nat, x: Execution, p: Execution -> bool)
    requires i < |xs|
    ensures Count(xs[i := x], p) == Count(xs, p) - (if p(xs[i]) then 1 else 0) + if p(x) then 1 else 0
  {
    var front := xs[..|xs| - 1];
    if i == |xs| - 1 {
      assert xs[i := x][..|xs| - 1] == front;
    } else {
      assert xs[i := x][..|xs| - 1] == front[i := x];
      CountUpdate(front, i, x, p);
    }
  }

  function FlyingIDs(xs: seq<Execution>): set<string> {
    set i | 0 <= i < |xs| && InFlight(xs[i]) :: xs[i].uuid
  }

  lemma {:induction false} AtMostCount(xs: seq<Execution>)
    ensures |FlyingIDs(xs)| <= Count(xs, InFlight)
  {
    if xs != [] {
      var front, last := xs[..|xs| - 1], xs[|xs| - 1];
      AtMostCount(front);
      assert FlyingIDs(xs) == FlyingIDs(front) + if InFlight(last) then {last.uuid} else {};
    }
  }

  // ---------------------------------------------------------------- invariants of every run

  /** One terminal callback by the time the execution finishes, none before. */
  predicate OneCall(x: Execution) {
    |x.calls| == if x.phase.Finishing? || x.phase.Ended? then 1 else 0
  }

  ghost predicate Sound(s: State) {
    && |s.active| <= s.max
    && s.active <= FlyingIDs(s.execs)
    && Count(s.execs, HasStarted) == Count(s.execs, InFlight) + s.completed + s.failed
    && forall i :: 0 <= i < |s.execs| ==> OneCall(s.execs[i])
  }

  lemma NextFlying(s: State, e: Event, u: string)
    requires Enabled(s, e) && (u in s.active ==> u in FlyingIDs(s.execs)) && u in Next(s, e).active
    ensures u in FlyingIDs(Next(s, e).execs)
  {
    var xs := Next(s, e).execs;
    if e.Start? && u == s.execs[e.i].uuid && CanStart(s.active, s.max) {
      assert InFlight(xs[e.i]) && xs[e.i].uuid == u;
    } else {
      var j :| 0 <= j < |s.execs| && InFlight(s.execs[j]) && s.execs[j].uuid == u;
      assert InFlight(xs[j]) && xs[j].uuid == u;
    }
  }

  lemma NextCounts(s: State, e: Event)
    requires Enabled(s, e) && Count(s.execs, HasStarted) == Count(s.execs, InFlight) + s.completed + s.failed
    ensures var s' := Next(s, e);
            Count(s'.execs, HasStarted) == Count(s'.execs, InFlight) + s'.completed + s'.failed
  {
    var s' := Next(s, e);
    if e.Spawn? {
      assert s'.execs[..|s'.execs| - 1] == s.execs;
    } else {
      var x := s'.execs[e.i];
      assert s'.execs == s.execs[e.i := x];
      CountUpdate(s.execs, e.i, x, InFlight);
      CountUpdate(s.execs, e.i, x, HasStarted);
    }
  }

  lemma NextCalls(s: State, e: Event, j: nat)
    requires Enabled(s, e) && j < |Next(s, e).execs| && (j < |s.execs| ==> OneCall(s.execs[j]))
    ensures OneCall(Next(s, e).execs[j])
  {
  }

  lemma NextWithinLimit(s: State, e: Event)
    requires Enabled(s, e) && |s.active| <= s.max
    ensures |Next(s, e).active| <= Next(s, e).max == s.max
  {
    if e.Finish? {
      SubsetSize(s.active - {s.execs[e.i].uuid}, s.active);
    }
  }

  lemma NextSound(s: State, e: Event)
    requires Enabled(s, e) && Sound(s)
    ensures Sound(Next(s, e))
  {
    NextWithinLimit(s, e);
    NextCounts(s, e);
    forall u | u in Next(s, e).active ensures u in FlyingIDs(Next(s, e).execs) {
      NextFlying(s, e, u);
    }
    forall j | 0 <= j < |Next(s, e).execs| ensures OneCall(Next(s, e).execs[j]) {
      NextCalls(s, e, j);
    }
  }

  /** In every interleaving: the tracker never holds more jobs than allowed, every successful
      start is still running, completed or failed, and an execution that started has made
      exactly one terminal callback by the time it ends. */
  lemma {:induction false} EveryRunSound(max: nat, es: seq<Event>)
    requires IsRun(Initial(max), es)
    ensures Sound(Run(Initial(max), es))
  {
    if es != [] {
      EveryRunSound(max, es[..|es| - 1]);
      NextSound(Run(Initial(max), es[..|es| - 1]), es[|es| - 1]);
    } else {
      assert FlyingIDs([]) == {};
    }
  }

  // ---------------------------------------------------------------- what becomes of each execution

  /** The events of a run that concern one execution. */
  function About(es: seq<Event>, i: nat): seq<Event> {
    if es == [] then [] else
    var last := es[|es| - 1];
    About(es[..|es| - 1], i) + if !last.Spawn? && last.i == i then [last] else []
  }

  predicate GotIn(h: seq<Event>) {
    |h| >= 2 && h[0].Admit? && h[0].allowed && h[1].Start?
  }

  /** A history that has come to its end: the download failed, or it succeeded and the upload and
      its callback decide. */
  predicate Concludes(h: seq<Event>, success: bool, calls: seq<Callback>) {
    && GotIn(h) && |h| >= 3 && h[2].Downloaded?
    && if !h[2].ok then |h| == 3 && !success && calls == [FailedCall]
       else |h| == 4 && h[3].Uploaded? && success == (h[3].ok && h[3].callbackOk)
            && calls == [if h[3].ok then CompletedCall else FailedCall]
  }

  /** Where an execution with such a history stands, and which callback it has made. */
  predicate Story(h: seq<Event>, x: Execution) {
    match x.phase
    case Fresh => h == [] && x.calls == []
    case Rejected => x.calls == [] && ((|h| == 1 && h[0].Admit? && !h[0].allowed) || (|h| == 2 && GotIn(h)))
    case Admitted => x.calls == [] && |h| == 1 && h[0].Admit? && h[0].allowed
    case Downloading => x.calls == [] && |h| == 2 && GotIn(h)
    case Uploading => x.calls == [] && |h| == 3 && GotIn(h) && h[2].Downloaded? && h[2].ok
    case Finishing(success) => Concludes(h, success, x.calls)
    case Ended => h != [] && h[|h| - 1].Finish? && x.calls != [] && (Concludes(h[..|h| - 1], true, x.calls) || Concludes(h[..|h| - 1], false, x.calls))
  }

  lemma {:induction false} AboutFuture(s: State, es: seq<Event>, i: nat)
    requires IsRun(s, es) && i >= |Run(s, es).execs|
    ensures About(es, i) == []
  {
    if es != [] {
      AboutFuture(s, es[..|es| - 1], i);
    }
  }

  lemma StoryGoesOn(s: State, e: Event, h: seq<Event>)
    requires Enabled(s, e) && !e.Spawn? && Story(h, s.execs[e.i])
    ensures Story(h + [e], Next(s, e).execs[e.i])
  {
    assert (h + [e])[..|h|] == h;
  }

  /** In every run each execution is where its own history leads, and has made the one callback
      that goes with it. */
  lemma {:induction false} EveryStory(max: nat, es: seq<Event>, i: nat)
    requires IsRun(Initial(max), es) && i < |Run(Initial(max), es).execs|
    ensures Story(About(es, i), Run(Initial(max), es).execs[i])
  {
    if es != [] {
      var front, e := es[..|es| - 1], es[|es| - 1];
      var s := Run(Initial(max), front);
      if i < |s.execs| {
        EveryStory(max, front, i);
      } else {
        AboutFuture(Initial(max), front, i);
      }
      StoryNext(s, e, i, About(front, i));
      assert About(es, i) == About(front, i) + if !e.Spawn? && e.i == i then [e] else [];
    }
  }

  lemma StoryNext(s: State, e: Event, i: nat, h: seq<Event>)
    requires Enabled(s, e) && i < |Next(s, e).execs| && (if i < |s.execs| then Story(h, s.execs[i]) else h == [])
    ensures Story(h + (if !e.Spawn? && e.i == i then [e] else []), Next(s, e).execs[i])
  {
    if !e.Spawn? && e.i == i {
      StoryGoesOn(s, e, h);
    } else {
      assert h + [] == h;
    }
  }

  predicate EndsWell(e: Event) { e.Uploaded? && e.ok && e.callbackOk }
  predicate EndsBadly(e: Event) { (e.Downloaded? && !e.ok) || (e.Uploaded? && !(e.ok && e.callbackOk)) }

  function CountEvents(es: seq<Event>, p: Event -> bool): nat {
    if es == [] then 0 else CountEvents(es[..|es| - 1], p) + if p(es[|es| - 1]) then 1 else 0
  }

  predicate AboutToComplete(x: Execution) { x.phase == Finishing(true) }
  predicate AboutToFail(x: Execution) { x.phase == Finishing(false) }

  lemma NextOutcome(s: State, e: Event)
    requires Enabled(s, e)
    ensures var s' := Next(s, e);
            && s'.completed + Count(s'.execs, AboutToComplete)
               == s.completed + Count(s.execs, AboutToComplete) + (if EndsWell(e) then 1 else 0)
            && s'.failed + Count(s'.execs, AboutToFail)
               == s.failed + Count(s.execs, AboutToFail) + (if EndsBadly(e) then 1 else 0)
  {
    var s' := Next(s, e);
    if e.Spawn? {
      CountNext(s.execs, Execution(e.uuid, Fresh, []), AboutToComplete);
      CountNext(s.execs, Execution(e.uuid, Fresh, []), AboutToFail);
    } else {
      var x := s'.execs[e.i];
      assert s'.execs == s.execs[e.i := x];
      CountUpdate(s.execs, e.i, x, AboutToComplete);
      CountUpdate(s.execs, e.i, x, AboutToFail);
    }
  }

  /** In every run the jobs counted as completed, or about to be, are those that were downloaded,
      uploaded and reported without error; all others that got as far count as failed. */
  lemma {:induction false} EveryOutcomeCounted(max: nat, es: seq<Event>)
    requires IsRun(Initial(max), es)
    ensures var s := Run(Initial(max), es);
            && s.completed + Count(s.execs, AboutToComplete) == CountEvents(es, EndsWell)
            && s.failed + Count(s.execs, AboutToFail) == CountEvents(es, EndsBadly)
  {
    if es != [] {
      EveryOutcomeCounted(max, es[..|es| - 1]);
      NextOutcome(Run(Initial(max), es[..|es| - 1]), es[|es| - 1]);
    }
  }

  // ---------------------------------------------------------------- exact counting

  /** The tracker counts the executions in flight exactly. */
  ghost predicate Exact(s: State) {
    |s.active| == Count(s.execs, InFlight)
  }

  /** A start that finds its own UUID already active. */
  predicate Duplicate(s: State, e: Event)
    requires Enabled(s, e)
  {
    e.Start? && CanStart(s.active, s.max) && s.execs[e.i].uuid in s.active
  }

  lemma ExactMeansSame(s: State)
    requires Sound(s) && Exact(s)
    ensures s.active == FlyingIDs(s.execs)
  {
    AtMostCount(s.execs);
    SubsetOfSize(s.active, FlyingIDs(s.execs));
  }

  lemma SubsetOfSize(a: set<string>, b: set<string>)
    requires a <= b && |a| >= |b|
    ensures a == b
  {
    if x :| x in b && x !in a {
      assert |b - {x}| == |b| - 1;
      SubsetSize(a, b - {x});
    }
  }

  lemma SubsetSize(a: set<string>, b: set<string>)
    requires a <= b
    ensures |a| <= |b|
  {
    if x :| x in a {
      SubsetSize(a - {x}, b - {x});
    }
  }

  lemma MovedInFlight(s: State, i: nat, phase: Phase, calls: seq<Callback>)
    requires i < |s.execs|
    ensures Count(Move(s, i, phase, calls).execs, InFlight)
         == Count(s.execs, InFlight) - (if InFlight(s.execs[i]) then 1 else 0)
            + if phase.Downloading? || phase.Uploading? || phase.Finishing? then 1 else 0
  {
    CountUpdate(s.execs, i, Move(s, i, phase, calls).execs[i], InFlight);
  }

  /** How many executions are in flight after a step. */
  lemma NextInFlight(s: State, e: Event)
    requires Enabled(s, e)
    ensures Count(Next(s, e).execs, InFlight)
         == Count(s.execs, InFlight) + (if e.Start? && CanStart(s.active, s.max) then 1 else 0) - (if e.Finish? then 1 else 0)
  {
    match e
    case Spawn(uuid) => CountNext(s.execs, Execution(uuid, Fresh, []), InFlight);
    case Admit(i, allowed) => MovedInFlight(s, i, if allowed then Admitted else Rejected, []);
    case Start(i) => MovedInFlight(s, i, if CanStart(s.active, s.max) then Downloading else Rejected, []);
    case Downloaded(i, ok) =>
      MovedInFlight(s, i, Uploading, []);
      MovedInFlight(s, i, Finishing(false), [FailedCall]);
    case Uploaded(i, ok, callbackOk) => MovedInFlight(s, i, Finishing(ok && callbackOk), [if ok then CompletedCall else FailedCall]);
    case Finish(i) => MovedInFlight(s, i, Ended, []);
  }

  lemma GrownBy(a: set<string>, u: string)
    ensures |a + {u}| == |a| + if u in a then 0 else 1
  {
    if u in a {
      assert a + {u} == a;
    }
  }

  lemma FinishedIsActive(s: State, i: nat)
    requires Sound(s) && Exact(s) && i < |s.execs| && InFlight(s.execs[i])
    ensures s.execs[i].uuid in s.active
  {
    ExactMeansSame(s);
  }

  /** The count goes wrong exactly when a UUID is started while it is active. */
  lemma ExactUntilDuplicate(s: State, e: Event)
    requires Enabled(s, e) && Sound(s) && Exact(s)
    ensures Exact(Next(s, e)) <==> !Duplicate(s, e)
  {
    NextInFlight(s, e);
    if e.Start? {
      GrownBy(s.active, s.execs[e.i].uuid);
    } else if e.Finish? {
      FinishedIsActive(s, e.i);
    }
  }

  ghost predicate NoDuplicates(s: State, es: seq<Event>)
    requires IsRun(s, es)
  {
    es == [] || (NoDuplicates(s, es[..|es| - 1]) && !Duplicate(Run(s, es[..|es| - 1]), es[|es| - 1]))
  }

  /** With distinct concurrent UUIDs the limit bounds the executions themselves, and starts are
      conserved as active, completed and failed jobs. */
  lemma {:induction false} ConcurrencyBound(max: nat, es: seq<Event>)
    requires IsRun(Initial(max), es) && NoDuplicates(Initial(max), es)
    ensures var s := Run(Initial(max), es);
            && Count(s.execs, InFlight) <= max
            && Count(s.execs, HasStarted) == |s.active| + s.completed + s.failed
            && Sound(s) && Exact(s) && s.max == max
  {
    EveryRunSound(max, es);
    if es != [] {
      ConcurrencyBound(max, es[..|es| - 1]);
      ExactUntilDuplicate(Run(Initial(max), es[..|es| - 1]), es[|es| - 1]);
    }
  }

  // ---------------------------------------------------------------- shared UUIDs

  lemma RunExtend(s: State, es: seq<Event>, e: Event)
    requires IsRun(s, es) && Enabled(Run(s, es), e)
    ensures IsRun(s, es + [e]) && Run(s, es + [e]) == Next(Run(s, es), e)
  {
    assert (es + [e])[..|es|] == es;
  }

  /** The same job executed `n` times at once. */
  function Burst(uuid: string, n: nat): seq<Event> {
    if n == 0 then [] else Burst(uuid, n - 1) + [Spawn(uuid)] + [Admit(n - 1, true)] + [Start(n - 1)]
  }

  /** One more execution from its call to its start. */
  lemma Joins(s: State, uuid: string)
    requires CanStart(s.active, s.max)
    ensures var i := |s.execs|;
            var s1, s2 := Next(s, Spawn(uuid)), s.(execs := s.execs + [Execution(uuid, Admitted, [])]);
            && Enabled(s1, Admit(i, true)) && Next(s1, Admit(i, true)) == s2 && Enabled(s2, Start(i))
            && Next(s2, Start(i)) == s.(execs := s.execs + [Execution(uuid, Downloading, [])], active := s.active + {uuid})
  {
    var i, s1, s2 := |s.execs|, Next(s, Spawn(uuid)), s.(execs := s.execs + [Execution(uuid, Admitted, [])]);
    var none: seq<Callback> := [];
    assert none + [] == none;
    assert s1.execs[i := Execution(uuid, Admitted, [])] == s2.execs;
    assert s2.execs[i := Execution(uuid, Downloading, [])] == s.execs + [Execution(uuid, Downloading, [])];
  }

  lemma JoinsRun(init: State, es: seq<Event>, uuid: string)
    requires IsRun(init, es) && CanStart(Run(init, es).active, Run(init, es).max)
    ensures var s := Run(init, es);
            var more := es + [Spawn(uuid)] + [Admit(|s.execs|, true)] + [Start(|s.execs|)];
            && IsRun(init, more)
            && Run(init, more) == s.(execs := s.execs + [Execution(uuid, Downloading, [])], active := s.active + {uuid})
  {
    var s := Run(init, es);
    var i := |s.execs|;
    Joins(s, uuid);
    RunExtend(init, es, Spawn(uuid));
    RunExtend(init, es + [Spawn(uuid)], Admit(i, true));
    RunExtend(init, es + [Spawn(uuid)] + [Admit(i, true)], Start(i));
  }

  /** All `n` executions are of the one job, and in flight. */
  ghost predicate Flying(s: State, max: nat, uuid: string, n: nat) {
    s.max == max && |s.execs| == Count(s.execs, InFlight) == n && s.active == (if n == 0 then {} else {uuid})
  }

  lemma OneMoreFlying(s: State, max: nat, uuid: string, n: nat)
    requires max >= 2 && Flying(s, max, uuid, n)
    ensures CanStart(s.active, s.max)
    ensures Flying(s.(execs := s.execs + [Execution(uuid, Downloading, [])], active := s.active + {uuid}), max, uuid, n + 1)
  {
    CountNext(s.execs, Execution(uuid, Downloading, []), InFlight);
    assert s.active + {uuid} == {uuid};
  }

  ghost predicate BurstIsRun(max: nat, uuid: string, n: nat) {
    IsRun(Initial(max), Burst(uuid, n)) && Flying(Run(Initial(max), Burst(uuid, n)), max, uuid, n)
  }

  lemma BurstGrows(max: nat, uuid: string, n: nat)
    requires max >= 2 && BurstIsRun(max, uuid, n)
    ensures BurstIsRun(max, uuid, n + 1)
  {
    var s := Run(Initial(max), Burst(uuid, n));
    OneMoreFlying(s, max, uuid, n);
    JoinsRun(Initial(max), Burst(uuid, n), uuid);
    assert Burst(uuid, n + 1) == Burst(uuid, n) + [Spawn(uuid)] + [Admit(|s.execs|, true)] + [Start(|s.execs|)];
  }

  /** With room for two jobs any number of executions of one job get through, because they count
      as one. */
  lemma {:induction false} BurstRuns(max: nat, uuid: string, n: nat)
    requires max >= 2
    ensures BurstIsRun(max, uuid, n)
  {
    if n > 0 {
      BurstRuns(max, uuid, n - 1);
      BurstGrows(max, uuid, n - 1);
    }
  }

  /** A limit of one admits nothing while anything is active. */
  lemma {:induction false} NoDuplicatesUnderOne(max: nat, es: seq<Event>)
    requires max <= 1 && IsRun(Initial(max), es)
    ensures NoDuplicates(Initial(max), es) && Run(Initial(max), es).max == max
  {
    if es != [] {
      NoDuplicatesUnderOne(max, es[..|es| - 1]);
    }
  }

  ghost predicate LimitHolds(max: nat) {
    forall es :: IsRun(Initial(max), es) ==> Count(Run(Initial(max), es).execs, InFlight) <= max
  }

  /** If UUIDs may be shared, the limit bounds the executions in flight only if it is one. */
  lemma LimitHoldsUpToOne(max: nat)
    ensures LimitHolds(max) <==> max <= 1
  {
    if max <= 1 {
      forall es | IsRun(Initial(max), es) ensures Count(Run(Initial(max), es).execs, InFlight) <= max {
        NoDuplicatesUnderOne(max, es);
        ConcurrencyBound(max, es);
      }
    } else {
      BurstRuns(max, "", max + 1);
      assert IsRun(Initial(max), Burst("", max + 1));
    }
  }
}
