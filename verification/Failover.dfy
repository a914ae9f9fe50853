/** Load balancing, leader election and failover planning (internal/cluster/cluster.go). Load
    ratios are exact; the float64 comparison of the code agrees with it for loads between 0 and
    the capacity and capacities up to 2^26. */
module Failover {
  import opened Text
  import Jobs

  /** The three known statuses, one of them with white space around it, or anything else. */
  datatype AgentStatus = Available | Draining | Unhealthy | PaddedStatus | UnknownStatus

  datatype Agent = Agent(id: string, fingerprint: string, hostname: string, version: string, status: AgentStatus,
                         capacity: int, activeJobs: int, lastSeenAt: int)

  /** The recognisers of the identity package. */
  datatype AgentChecks = AgentChecks(isUUID: string -> bool, isFingerprint: string -> bool, isHostname: string -> bool)

  /** ValidateAgent reports no issue. */
  predicate ValidAgent(c: AgentChecks, a: Agent) {
    && c.isUUID(a.id) && c.isFingerprint(a.fingerprint) && c.isHostname(a.hostname)
    && TrimSpace(a.version) != ""
    && !a.status.UnknownStatus?
    && a.capacity > 0 && 0 <= a.activeJobs <= a.capacity
    && a.lastSeenAt != 0
  }

  // ---------------------------------------------------------------- string order

  /** Go's < on strings. */
  predicate Before(a: string, b: string) {
    b != "" && (a == "" || a[0] < b[0] || (a[0] == b[0] && Before(a[1..], b[1..])))
  }

  lemma BeforeIrreflexive(a: string)
    ensures !Before(a, a)
  {
  }

  lemma {:induction false} BeforeTransitive(a: string, b: string, c: string)
    requires Before(a, b) && Before(b, c)
    ensures Before(a, c)
  {
    if a != "" && a[0] == b[0] == c[0] {
      BeforeTransitive(a[1..], b[1..], c[1..]);
    }
  }

  lemma {:induction false} BeforeTotal(a: string, b: string)
    ensures a == b || Before(a, b) || Before(b, a)
  {
    if a != "" && b != "" && a[0] == b[0] {
      BeforeTotal(a[1..], b[1..]);
      assert a == [a[0]] + a[1..] && b == [b[0]] + b[1..];
    }
  }

  /** The strings agree up to `n`, and there the first one ends or has the smaller character. */
  predicate FirstDifference(a: string, b: string, n: nat) {
    n <= |a| && n < |b| && a[..n] == b[..n] && (n == |a| || a[n] < b[n])
  }

  /** The order is decided at the first difference. */
  lemma {:induction false} BeforeIs(a: string, b: string)
    ensures Before(a, b) <==> exists n :: FirstDifference(a, b, n)
  {
    if a != "" && b != "" && a[0] == b[0] {
      BeforeIs(a[1..], b[1..]);
      forall n: nat ensures FirstDifference(a[1..], b[1..], n) == FirstDifference(a, b, n + 1) {
        DifferenceBehind(a, b, n);
      }
      if n: nat :| FirstDifference(a, b, n) {
        assert n > 0 by {
          assert !FirstDifference(a, b, 0);
        }
        assert FirstDifference(a[1..], b[1..], n - 1) == FirstDifference(a, b, n - 1 + 1);
      }
    } else if b != "" && (a == "" || a[0] < b[0]) {
      assert FirstDifference(a, b, 0);
    } else if n: nat :| FirstDifference(a, b, n) {
      DifferenceAhead(a, b, n);
    }
  }

  lemma DifferenceAhead(a: string, b: string, n: nat)
    requires FirstDifference(a, b, n)
    ensures b != "" && (a == "" || a[0] <= b[0])
  {
    if 0 < n {
      assert a[..n][0] == b[..n][0];
    }
  }

  lemma DifferenceBehind(a: string, b: string, n: nat)
    requires a != "" && b != "" && a[0] == b[0]
    ensures FirstDifference(a[1..], b[1..], n) == FirstDifference(a, b, n + 1)
  {
    if n < |a| && n + 1 < |b| {
      assert a[..n + 1] == [a[0]] + a[1..][..n] && b[..n + 1] == [b[0]] + b[1..][..n];
      assert a[..n + 1][1..] == a[1..][..n] && b[..n + 1][1..] == b[1..][..n];
    }
  }

  // ---------------------------------------------------------------- least agent

  /** The first element after filtering by `ok` and sorting by `less`. */
  function Least(agents: seq<Agent>, ok: Agent -> bool, less: (Agent, Agent) -> bool): (r: Option<Agent>) {
    if agents == [] then None else
    var best, last := Least(agents[..|agents| - 1], ok, less), agents[|agents| - 1];
    if !ok(last) then best
    else if best.None? || less(last, best.value) then Some(last)
    else best
  }

  ghost predicate StrictOrder(agents: seq<Agent>, less: (Agent, Agent) -> bool) {
    && (forall a :: a in agents ==> !less(a, a))
    && (forall a, b, c :: a in agents && b in agents && c in agents && less(a, b) && less(b, c) ==> less(a, c))
    && (forall a, b :: a in agents && b in agents && a != b ==> less(a, b) || less(b, a))
  }

  ghost predicate IsLeast(agents: seq<Agent>, ok: Agent -> bool, less: (Agent, Agent) -> bool, a: Agent) {
    a in agents && ok(a) && forall b :: b in agents && ok(b) && b != a ==> less(a, b)
  }

  lemma {:induction false} LeastExists(agents: seq<Agent>, ok: Agent -> bool, less: (Agent, Agent) -> bool)
    requires StrictOrder(agents, less)
    ensures match Least(agents, ok, less)
            case None => forall a :: a in agents ==> !ok(a)
            case Some(a) => IsLeast(agents, ok, less, a)
  {
    if agents != [] {
      var front, last := agents[..|agents| - 1], agents[|agents| - 1];
      assert agents == front + [last];
      LeastExists(front, ok, less);
    }
  }

  lemma LeastUnique(agents: seq<Agent>, ok: Agent -> bool, less: (Agent, Agent) -> bool, a: Agent)
    requires StrictOrder(agents, less)
    ensures Least(agents, ok, less) == Some(a) <==> IsLeast(agents, ok, less, a)
  {
    LeastExists(agents, ok, less);
  }

  /** The least agent depends on which agents there are, not on how they are listed. */
  lemma LeastSameMembers(xs: seq<Agent>, ys: seq<Agent>, ok: Agent -> bool, less: (Agent, Agent) -> bool)
    requires StrictOrder(xs, less) && StrictOrder(ys, less)
    requires forall a :: a in xs <==> a in ys
    ensures Least(xs, ok, less) == Least(ys, ok, less)
  {
    LeastExists(xs, ok, less);
    LeastExists(ys, ok, less);
    if Least(xs, ok, less).Some? {
      LeastUnique(ys, ok, less, Least(xs, ok, less).value);
    }
  }

  ghost predicate UniqueIDs(agents: seq<Agent>) {
    forall i, j :: 0 <= i < j < |agents| ==> agents[i].id != agents[j].id
  }

  // ---------------------------------------------------------------- load order

  function Load(a: Agent): real {
    if a.capacity > 0 then a.activeJobs as real / a.capacity as real else 0.0
  }

  predicate HasRoom(a: Agent) {
    a.status.Available? && a.capacity > 0 && a.activeJobs < a.capacity
  }

  predicate LessLoaded(a: Agent, b: Agent) {
    Load(a) < Load(b) || (Load(a) == Load(b) && Before(a.id, b.id))
  }

  function SelectLeastLoaded(agents: seq<Agent>): (r: Option<Agent>) {
    Least(agents, HasRoom, LessLoaded)
  }

  /** The smaller share of the capacity in use, ties going by ID: compared without dividing. */
  predicate Lighter(a: Agent, b: Agent) {
    var x, y := a.activeJobs * b.capacity, b.activeJobs * a.capacity;
    x < y || (x == y && Before(a.id, b.id))
  }

  lemma CrossMultiply(x: real, c: real, y: real, d: real)
    requires c > 0.0 && d > 0.0
    ensures x / c < y / d <==> x * d < y * c
    ensures x / c == y / d <==> x * d == y * c
  {
    var p, q := x / c, y / d;
    assert x == p * c && y == q * d;
    assert x * d == p * (c * d) && y * c == q * (c * d);
    assert c * d > 0.0;
    ScaleOrder(p, q, c * d);
  }

  lemma ScaleOrder(p: real, q: real, k: real)
    requires k > 0.0
    ensures p < q <==> p * k < q * k
    ensures p == q <==> p * k == q * k
  {
    assert (q - p) * k == q * k - p * k;
  }

  /** The load order is that of the ratios of active jobs to capacity. */
  lemma LessLoadedIs(a: Agent, b: Agent)
    requires a.capacity > 0 && b.capacity > 0
    ensures LessLoaded(a, b) <==> Lighter(a, b)
  {
    CrossMultiply(a.activeJobs as real, a.capacity as real, b.activeJobs as real, b.capacity as real);
    assert a.activeJobs as real * b.capacity as real == (a.activeJobs * b.capacity) as real;
    assert b.activeJobs as real * a.capacity as real == (b.activeJobs * a.capacity) as real;
  }

  /** Registered agents use between none and all of their capacity, which is what makes the load
      comparison exact in floating point. */
  lemma ValidLoad(c: AgentChecks, a: Agent)
    requires ValidAgent(c, a)
    ensures a.capacity > 0 && 0.0 <= Load(a) <= 1.0
  {
    var x, k := a.activeJobs as real, a.capacity as real;
    DivideOrder(x, 0.0, k);
    DivideOrder(k, x, k);
    assert k / k == 1.0 && 0.0 / k == 0.0;
  }

  lemma LessLoadedTransitive(a: Agent, b: Agent, c: Agent)
    requires LessLoaded(a, b) && LessLoaded(b, c)
    ensures LessLoaded(a, c)
  {
    if Load(a) == Load(b) == Load(c) {
      BeforeTransitive(a.id, b.id, c.id);
    }
  }

  lemma LoadOrder(agents: seq<Agent>)
    requires UniqueIDs(agents)
    ensures StrictOrder(agents, LessLoaded)
  {
    forall a | a in agents ensures !LessLoaded(a, a) {
      BeforeIrreflexive(a.id);
    }
    forall a, b, c | LessLoaded(a, b) && LessLoaded(b, c) ensures LessLoaded(a, c) {
      LessLoadedTransitive(a, b, c);
    }
    forall a, b | a in agents && b in agents && a != b ensures LessLoaded(a, b) || LessLoaded(b, a) {
      BeforeTotal(a.id, b.id);
    }
  }

  lemma DivideOrder(x: real, y: real, c: real)
    requires c > 0.0
    ensures x < y <==> x / c < y / c
  {
    var p, q := x / c, y / c;
    assert x == p * c && y == q * c;
    if p < q {
      assert (q - p) * c > 0.0;
    } else {
      assert (p - q) * c >= 0.0;
    }
  }

  lemma LoadGrows(a: Agent)
    requires a.capacity > 0
    ensures Load(a) < Load(a.(activeJobs := a.activeJobs + 1))
    ensures Load(a) < 1.0 <==> a.activeJobs < a.capacity
  {
    var x, c := a.activeJobs as real, a.capacity as real;
    DivideOrder(x, x + 1.0, c);
    DivideOrder(x, c, c);
    assert c / c == 1.0;
  }

  // ---------------------------------------------------------------- greedy placement

  datatype Assignment = Assignment(jobID: string, agentID: string)

  datatype Progress = Progress(agents: seq<Agent>, placed: seq<Assignment>, unassigned: seq<string>)

  function Busier(a: Agent): Agent { a.(activeJobs := a.activeJobs + 1) }
  function Calmer(a: Agent): Agent { a.(activeJobs := a.activeJobs - 1) }

  /** Increment the load of the first agent with the given ID. */
  function Bump(agents: seq<Agent>, id: string): (r: seq<Agent>)
    ensures |r| == |agents|
  {
    if agents == [] then []
    else if agents[0].id == id then [Busier(agents[0])] + agents[1..]
    else [agents[0]] + Bump(agents[1..], id)
  }

  function Place(p: Progress, jobID: string): Progress {
    match SelectLeastLoaded(p.agents)
    case None => p.(unassigned := p.unassigned + [jobID])
    case Some(t) => Progress(Bump(p.agents, t.id), p.placed + [Assignment(jobID, t.id)], p.unassigned)
  }

  function PlaceAll(agents: seq<Agent>, jobIDs: seq<string>): Progress {
    if jobIDs == [] then Progress(agents, [], [])
    else Place(PlaceAll(agents, jobIDs[..|jobIDs| - 1]), jobIDs[|jobIDs| - 1])
  }

  lemma {:induction false} BumpAt(agents: seq<Agent>, i: nat)
    requires i < |agents| && UniqueIDs(agents)
    ensures Bump(agents, agents[i].id) == agents[i := Busier(agents[i])]
  {
    if i > 0 {
      BumpAt(agents[1..], i - 1);
    }
  }

  /** How many jobs an agent was given. */
  function Received(plan: seq<Assignment>, agentID: string): nat {
    if plan == [] then 0 else
    Received(plan[..|plan| - 1], agentID) + if plan[|plan| - 1].agentID == agentID then 1 else 0
  }

  function JobIDs(plan: seq<Assignment>): seq<string> {
    seq(|plan|, i requires 0 <= i < |plan| => plan[i].jobID)
  }

  function FreeSlots(agents: seq<Agent>): nat {
    if agents == [] then 0 else
    var last := agents[|agents| - 1];
    FreeSlots(agents[..|agents| - 1]) + if HasRoom(last) then last.capacity - last.activeJobs else 0
  }

  lemma {:induction false} FreeSlotsBump(agents: seq<Agent>, i: nat)
    requires i < |agents| && HasRoom(agents[i])
    ensures FreeSlots(agents[i := Busier(agents[i])]) == FreeSlots(agents) - 1
  {
    var front := agents[..|agents| - 1];
    if i == |agents| - 1 {
      assert agents[i := Busier(agents[i])][..|agents| - 1] == front;
    } else {
      FreeSlotsBump(front, i);
      assert agents[i := Busier(agents[i])][..|agents| - 1] == front[i := Busier(front[i])];
    }
  }

  lemma {:induction false} NoFreeSlots(agents: seq<Agent>)
    ensures FreeSlots(agents) == 0 <==> forall a :: a in agents ==> !HasRoom(a)
  {
    if agents != [] {
      var front, last := agents[..|agents| - 1], agents[|agents| - 1];
      assert agents == front + [last];
      NoFreeSlots(front);
    }
  }

  /** Every agent is as it was, plus the jobs it was given, and never over capacity. */
  ghost predicate Filled(agents: seq<Agent>, p: Progress) {
    && |p.agents| == |agents|
    && (forall i :: 0 <= i < |agents| ==>
          p.agents[i] == agents[i].(activeJobs := agents[i].activeJobs + Received(p.placed, agents[i].id)))
    && (forall i :: 0 <= i < |agents| ==>
          if HasRoom(agents[i]) then p.agents[i].activeJobs <= agents[i].capacity
          else Received(p.placed, agents[i].id) == 0)
  }

  /** Jobs are served in order until the last free slot is gone. */
  ghost predicate Maximal(agents: seq<Agent>, jobIDs: seq<string>, p: Progress) {
    && JobIDs(p.placed) + p.unassigned == jobIDs
    && |p.placed| + FreeSlots(p.agents) == FreeSlots(agents)
    && (p.unassigned != [] ==> FreeSlots(p.agents) == 0)
  }

  /** The balance certificate: the last job an agent received would have left it at least as
      loaded anywhere else. */
  ghost predicate Balanced(agents: seq<Agent>, p: Progress) {
    |p.agents| == |agents| &&
    forall i, j :: 0 <= i < |agents| && 0 <= j < |agents| && i != j
      && HasRoom(agents[j]) && p.agents[i].activeJobs > agents[i].activeJobs
      ==> LessLoaded(Calmer(p.agents[i]), p.agents[j])
  }

  /** The agent a selection picks, by position. */
  lemma {:induction false} Selected(agents: seq<Agent>) returns (i: nat)
    requires UniqueIDs(agents) && SelectLeastLoaded(agents).Some?
    ensures i < |agents| && SelectLeastLoaded(agents) == Some(agents[i]) && HasRoom(agents[i])
    ensures forall j :: 0 <= j < |agents| && j != i && HasRoom(agents[j]) ==>
              LessLoaded(agents[i], agents[j]) && Lighter(agents[i], agents[j])
    ensures Bump(agents, agents[i].id) == agents[i := Busier(agents[i])]
  {
    LoadOrder(agents);
    LeastExists(agents, HasRoom, LessLoaded);
    i :| 0 <= i < |agents| && agents[i] == SelectLeastLoaded(agents).value;
    BumpAt(agents, i);
    forall j | 0 <= j < |agents| && j != i && HasRoom(agents[j]) ensures Lighter(agents[i], agents[j]) {
      LessLoadedIs(agents[i], agents[j]);
    }
  }

  lemma PlaceFilled(agents: seq<Agent>, p: Progress, jobID: string)
    requires UniqueIDs(agents) && Filled(agents, p)
    ensures Filled(agents, Place(p, jobID))
  {
    if SelectLeastLoaded(p.agents).Some? {
      var i := Selected(p.agents);
      assert p.agents[i].id == agents[i].id;
    }
  }

  lemma PlaceMaximal(agents: seq<Agent>, jobIDs: seq<string>, p: Progress, jobID: string)
    requires UniqueIDs(p.agents) && Maximal(agents, jobIDs, p)
    ensures Maximal(agents, jobIDs + [jobID], Place(p, jobID))
  {
    NoFreeSlots(p.agents);
    LoadOrder(p.agents);
    LeastExists(p.agents, HasRoom, LessLoaded);
    if SelectLeastLoaded(p.agents).Some? {
      var i := Selected(p.agents);
      FreeSlotsBump(p.agents, i);
      assert p.unassigned == [];
      assert JobIDs(p.placed + [Assignment(jobID, p.agents[i].id)]) == JobIDs(p.placed) + [jobID];
    } else {
      assert JobIDs(p.placed) + (p.unassigned + [jobID]) == jobIDs + [jobID];
    }
  }

  lemma ChosenIsLessLoaded(c: Agent, d: Agent)
    requires HasRoom(c) && d.status.Available? && d.capacity > 0
    requires HasRoom(d) ==> LessLoaded(c, d)
    ensures LessLoaded(c, d)
  {
    LoadGrows(c);
    LoadGrows(d);
  }

  lemma BusierIsMoreLoaded(x: Agent, c: Agent)
    requires c.capacity > 0 && LessLoaded(x, c)
    ensures LessLoaded(x, Busier(c))
  {
    LoadGrows(c);
  }

  lemma {:induction false} PlaceBalancedAt(agents: seq<Agent>, p: Progress, t: nat, i: nat, j: nat)
    requires Filled(agents, p) && Balanced(agents, p)
    requires t < |agents| && i < |agents| && j < |agents| && i != j && HasRoom(agents[j]) && HasRoom(p.agents[t])
    requires j != t && HasRoom(p.agents[j]) ==> LessLoaded(p.agents[t], p.agents[j])
    requires i != t ==> p.agents[i].activeJobs > agents[i].activeJobs
    ensures var after := p.agents[t := Busier(p.agents[t])];
            LessLoaded(Calmer(after[i]), after[j])
  {
    if i == t {
      assert Calmer(Busier(p.agents[t])) == p.agents[t];
      ChosenIsLessLoaded(p.agents[t], p.agents[j]);
    } else {
      assert LessLoaded(Calmer(p.agents[i]), p.agents[j]);
      if j == t {
        BusierIsMoreLoaded(Calmer(p.agents[i]), p.agents[t]);
      }
    }
  }

  lemma {:induction false} PlaceBalanced(agents: seq<Agent>, p: Progress, jobID: string)
    requires UniqueIDs(agents) && Filled(agents, p) && Balanced(agents, p)
    ensures Balanced(agents, Place(p, jobID))
  {
    if SelectLeastLoaded(p.agents).Some? {
      var t := Selected(p.agents);
      var after := Place(p, jobID).agents;
      forall i, j | 0 <= i < |agents| && 0 <= j < |agents| && i != j
        && HasRoom(agents[j]) && after[i].activeJobs > agents[i].activeJobs
        ensures LessLoaded(Calmer(after[i]), after[j])
      {
        PlaceBalancedAt(agents, p, t, i, j);
      }
    }
  }

  lemma {:induction false} PlacementFilled(agents: seq<Agent>, jobIDs: seq<string>)
    requires UniqueIDs(agents)
    ensures Filled(agents, PlaceAll(agents, jobIDs))
  {
    if jobIDs != [] {
      PlacementFilled(agents, jobIDs[..|jobIDs| - 1]);
      PlaceFilled(agents, PlaceAll(agents, jobIDs[..|jobIDs| - 1]), jobIDs[|jobIDs| - 1]);
    }
  }

  lemma FilledKeepsIDs(agents: seq<Agent>, p: Progress)
    requires UniqueIDs(agents) && Filled(agents, p)
    ensures UniqueIDs(p.agents)
  {
  }

  lemma NothingPlaced(agents: seq<Agent>)
    ensures Maximal(agents, [], Progress(agents, [], []))
  {
  }

  lemma {:induction false} PlacementMaximal(agents: seq<Agent>, jobIDs: seq<string>)
    requires UniqueIDs(agents)
    ensures Maximal(agents, jobIDs, PlaceAll(agents, jobIDs))
  {
    if jobIDs == [] {
      NothingPlaced(agents);
    } else {
      var front, last := jobIDs[..|jobIDs| - 1], jobIDs[|jobIDs| - 1];
      assert jobIDs == front + [last];
      var p := PlaceAll(agents, front);
      PlacementMaximal(agents, front);
      PlacementFilled(agents, front);
      FilledKeepsIDs(agents, p);
      PlaceMaximal(agents, front, p, last);
    }
  }

  lemma {:induction false} PlacementBalanced(agents: seq<Agent>, jobIDs: seq<string>)
    requires UniqueIDs(agents)
    ensures Balanced(agents, PlaceAll(agents, jobIDs))
  {
    if jobIDs != [] {
      PlacementBalanced(agents, jobIDs[..|jobIDs| - 1]);
      PlacementFilled(agents, jobIDs[..|jobIDs| - 1]);
      PlaceBalanced(agents, PlaceAll(agents, jobIDs[..|jobIDs| - 1]), jobIDs[|jobIDs| - 1]);
    }
  }

  /** Exactly the jobs that fit are assigned, and they are the first ones. */
  lemma AssignedCount(agents: seq<Agent>, jobIDs: seq<string>)
    requires UniqueIDs(agents)
    ensures var p := PlaceAll(agents, jobIDs);
            var k := if |jobIDs| < FreeSlots(agents) then |jobIDs| else FreeSlots(agents);
            && |p.placed| == k
            && JobIDs(p.placed) == jobIDs[..k]
            && p.unassigned == jobIDs[k..]
  {
    PlacementMaximal(agents, jobIDs);
    var p := PlaceAll(agents, jobIDs);
    assert jobIDs[..|p.placed|] == JobIDs(p.placed);
  }

  // ---------------------------------------------------------------- order independence

  ghost predicate SameAgents(xs: seq<Agent>, ys: seq<Agent>) {
    |xs| == |ys| && forall a :: a in xs <==> a in ys
  }

  lemma {:induction false} SamePlacement(xs: seq<Agent>, ys: seq<Agent>, jobIDs: seq<string>)
    requires UniqueIDs(xs) && UniqueIDs(ys) && SameAgents(xs, ys)
    ensures var p, q := PlaceAll(xs, jobIDs), PlaceAll(ys, jobIDs);
            && p.placed == q.placed && p.unassigned == q.unassigned
            && UniqueIDs(p.agents) && UniqueIDs(q.agents) && SameAgents(p.agents, q.agents)
  {
    if jobIDs != [] {
      var front := jobIDs[..|jobIDs| - 1];
      SamePlacement(xs, ys, front);
      var p, q := PlaceAll(xs, front).agents, PlaceAll(ys, front).agents;
      LoadOrder(p);
      LoadOrder(q);
      LeastSameMembers(p, q, HasRoom, LessLoaded);
      if SelectLeastLoaded(p).Some? {
        var i := Selected(p);
        var j := Selected(q);
        SameAfterBump(p, q, i, j);
      }
    }
  }

  lemma SameAfterBump(p: seq<Agent>, q: seq<Agent>, i: nat, j: nat)
    requires UniqueIDs(p) && UniqueIDs(q) && SameAgents(p, q)
    requires i < |p| && j < |q| && p[i] == q[j]
    ensures SameAgents(p[i := Busier(p[i])], q[j := Busier(q[j])])
  {
    var p', q' := p[i := Busier(p[i])], q[j := Busier(q[j])];
    forall a ensures a in p' <==> a in q' {
      BumpMembers(p, i, a);
      BumpMembers(q, j, a);
    }
  }

  lemma BumpMembers(p: seq<Agent>, i: nat, a: Agent)
    requires UniqueIDs(p) && i < |p|
    ensures a in p[i := Busier(p[i])] <==> a == Busier(p[i]) || (a in p && a != p[i])
  {
    var p' := p[i := Busier(p[i])];
    assert p'[i] == Busier(p[i]);
    if a in p' {
      var k :| 0 <= k < |p'| && p'[k] == a;
      assert k != i ==> a == p[k];
    }
    if a in p && a != p[i] {
      var k :| 0 <= k < |p| && p[k] == a;
      assert p'[k] == a;
    }
  }

  // ---------------------------------------------------------------- the certificate decides

  function TotalLoad(agents: seq<Agent>): int {
    if agents == [] then 0 else TotalLoad(agents[..|agents| - 1]) + agents[|agents| - 1].activeJobs
  }

  lemma {:induction false} TotalLoadMonotone(xs: seq<Agent>, ys: seq<Agent>)
    requires |xs| == |ys| && forall i :: 0 <= i < |xs| ==> xs[i].activeJobs <= ys[i].activeJobs
    ensures TotalLoad(xs) <= TotalLoad(ys)
    ensures TotalLoad(xs) == TotalLoad(ys) ==> forall i :: 0 <= i < |xs| ==> xs[i].activeJobs == ys[i].activeJobs
  {
    if xs != [] {
      TotalLoadMonotone(xs[..|xs| - 1], ys[..|ys| - 1]);
    }
  }

  lemma LessLoadedWithFewer(a: Agent, b: Agent, x: Agent)
    requires a.id == b.id && a.capacity == b.capacity > 0 && a.activeJobs <= b.activeJobs
    ensures LessLoaded(b, x) ==> LessLoaded(a, x)
    ensures LessLoaded(x, a) ==> LessLoaded(x, b)
  {
    if a.activeJobs < b.activeJobs {
      DivideOrder(a.activeJobs as real, b.activeJobs as real, a.capacity as real);
    }
  }

  /** Two balanced placements cannot disagree in both directions. */
  lemma {:induction false} NoExchange(agents: seq<Agent>, p: Progress, q: Progress, i: nat, j: nat)
    requires Filled(agents, p) && Balanced(agents, p) && Filled(agents, q) && Balanced(agents, q)
    requires i < |agents| && j < |agents| && p.agents[i].activeJobs > q.agents[i].activeJobs
    ensures p.agents[j].activeJobs >= q.agents[j].activeJobs
  {
    if p.agents[j].activeJobs < q.agents[j].activeJobs {
      assert HasRoom(agents[i]) && HasRoom(agents[j]);
      assert LessLoaded(Calmer(p.agents[i]), p.agents[j]);
      assert LessLoaded(Calmer(q.agents[j]), q.agents[i]);
      LessLoadedWithFewer(q.agents[i], Calmer(p.agents[i]), p.agents[j]);
      LessLoadedWithFewer(p.agents[j], Calmer(q.agents[j]), q.agents[i]);
      BeforeIrreflexive(q.agents[i].id);
      LessLoadedTransitive(q.agents[i], p.agents[j], q.agents[i]);
    }
  }

  /** Every job was given to one of the agents. */
  ghost predicate Targeted(agents: seq<Agent>, plan: seq<Assignment>) {
    forall x :: x in plan ==> exists i :: 0 <= i < |agents| && agents[i].id == x.agentID
  }

  /** The agents after receiving the jobs of a plan. */
  function Loaded(agents: seq<Agent>, plan: seq<Assignment>): (r: seq<Agent>)
    ensures |r| == |agents|
  {
    seq(|agents|, i requires 0 <= i < |agents| =>
      agents[i].(activeJobs := agents[i].activeJobs + Received(plan, agents[i].id)))
  }

  lemma {:induction false} TotalLoadUpdate(xs: seq<Agent>, i: nat)
    requires i < |xs|
    ensures TotalLoad(xs[i := Busier(xs[i])]) == TotalLoad(xs) + 1
  {
    var front := xs[..|xs| - 1];
    if i == |xs| - 1 {
      assert xs[i := Busier(xs[i])][..|xs| - 1] == front;
    } else {
      TotalLoadUpdate(front, i);
      assert xs[i := Busier(xs[i])][..|xs| - 1] == front[i := Busier(front[i])];
    }
  }

  lemma LoadedNext(agents: seq<Agent>, plan: seq<Assignment>, i: nat)
    requires UniqueIDs(agents) && plan != [] && i < |agents| && agents[i].id == plan[|plan| - 1].agentID
    ensures var before := Loaded(agents, plan[..|plan| - 1]);
            Loaded(agents, plan) == before[i := Busier(before[i])]
  {
  }

  /** Each job loads one agent by one. */
  lemma {:induction false} LoadAdds(agents: seq<Agent>, plan: seq<Assignment>)
    requires UniqueIDs(agents) && Targeted(agents, plan)
    ensures TotalLoad(Loaded(agents, plan)) == TotalLoad(agents) + |plan|
  {
    if plan == [] {
      assert Loaded(agents, plan) == agents;
    } else {
      var front, last := plan[..|plan| - 1], plan[|plan| - 1];
      assert last in plan;
      var i :| 0 <= i < |agents| && agents[i].id == last.agentID;
      LoadAdds(agents, front);
      LoadedNext(agents, plan, i);
      TotalLoadUpdate(Loaded(agents, front), i);
    }
  }

  lemma FilledIsLoaded(agents: seq<Agent>, p: Progress)
    requires Filled(agents, p)
    ensures p.agents == Loaded(agents, p.placed)
  {
  }

  /** The balance certificate and the number of jobs placed leave only one possible result: any
      placement that satisfies them loads every agent exactly as the greedy planner does. */
  lemma BalancedIsUnique(agents: seq<Agent>, jobIDs: seq<string>, q: Progress)
    requires UniqueIDs(agents) && Filled(agents, q) && Targeted(agents, q.placed) && Balanced(agents, q)
    requires |q.placed| == |PlaceAll(agents, jobIDs).placed|
    ensures q.agents == PlaceAll(agents, jobIDs).agents
  {
    var p := PlaceAll(agents, jobIDs);
    PlacementFilled(agents, jobIDs);
    PlacementBalanced(agents, jobIDs);
    TargetsAreCandidates(agents, jobIDs);
    FilledIsLoaded(agents, p);
    FilledIsLoaded(agents, q);
    LoadAdds(agents, p.placed);
    LoadAdds(agents, q.placed);
    SameTotalSameLoads(agents, p, q);
  }

  lemma SameTotalSameLoads(agents: seq<Agent>, p: Progress, q: Progress)
    requires Filled(agents, p) && Balanced(agents, p) && Filled(agents, q) && Balanced(agents, q)
    requires TotalLoad(p.agents) == TotalLoad(q.agents)
    ensures p.agents == q.agents
  {
    if i :| 0 <= i < |agents| && p.agents[i].activeJobs > q.agents[i].activeJobs {
      forall j | 0 <= j < |agents| ensures p.agents[j].activeJobs >= q.agents[j].activeJobs {
        NoExchange(agents, p, q, i, j);
      }
      TotalLoadMonotone(q.agents, p.agents);
    } else {
      TotalLoadMonotone(p.agents, q.agents);
    }
    assert forall i :: 0 <= i < |agents| ==> p.agents[i] == q.agents[i];
  }

  // ---------------------------------------------------------------- leader election

  predicate IsCandidate(a: Agent) { a.status.Available? }

  predicate Precedes(a: Agent, b: Agent) {
    Before(a.fingerprint, b.fingerprint) || (a.fingerprint == b.fingerprint && Before(a.id, b.id))
  }

  function Leader(agents: seq<Agent>): (r: Option<Agent>) {
    Least(agents, IsCandidate, Precedes)
  }

  lemma PrecedesTransitive(a: Agent, b: Agent, c: Agent)
    requires Precedes(a, b) && Precedes(b, c)
    ensures Precedes(a, c)
  {
    if Before(a.fingerprint, b.fingerprint) && Before(b.fingerprint, c.fingerprint) {
      BeforeTransitive(a.fingerprint, b.fingerprint, c.fingerprint);
    } else if a.fingerprint == b.fingerprint == c.fingerprint {
      BeforeTransitive(a.id, b.id, c.id);
    }
  }

  lemma LeaderOrder(agents: seq<Agent>)
    requires UniqueIDs(agents)
    ensures StrictOrder(agents, Precedes)
  {
    forall a | a in agents ensures !Precedes(a, a) {
      BeforeIrreflexive(a.fingerprint);
      BeforeIrreflexive(a.id);
    }
    forall a, b, c | Precedes(a, b) && Precedes(b, c) ensures Precedes(a, c) {
      PrecedesTransitive(a, b, c);
    }
    forall a, b | a in agents && b in agents && a != b ensures Precedes(a, b) || Precedes(b, a) {
      BeforeTotal(a.fingerprint, b.fingerprint);
      BeforeTotal(a.id, b.id);
    }
  }

  /** What an election reports; None when there is no candidate. */
  datatype Election = Election(leaderID: string, fingerprint: string, candidates: nat)

  function CandidateCount(agents: seq<Agent>): nat {
    if agents == [] then 0 else CandidateCount(agents[..|agents| - 1]) + if IsCandidate(agents[|agents| - 1]) then 1 else 0
  }

  function ElectLeader(agents: seq<Agent>): (r: Option<Election>) {
    var leader := Leader(agents);
    if leader.None? then None else Some(Election(leader.value.id, leader.value.fingerprint, CandidateCount(agents)))
  }

  lemma CandidatesNext(front: seq<Agent>, last: Agent)
    ensures (set a | a in front + [last] && IsCandidate(a))
         == (set a | a in front && IsCandidate(a)) + if IsCandidate(last) then {last} else {}
  {
  }

  lemma {:induction false} CountOfCandidates(agents: seq<Agent>)
    requires UniqueIDs(agents)
    ensures CandidateCount(agents) == |set a | a in agents && IsCandidate(a)|
  {
    if agents != [] {
      var front, last := agents[..|agents| - 1], agents[|agents| - 1];
      CountOfCandidates(front);
      CandidatesNext(front, last);
      assert front + [last] == agents;
      assert last !in front;
    }
  }

  /** The result of an election does not depend on how the agents are listed. */
  lemma LeaderIgnoresOrder(xs: seq<Agent>, ys: seq<Agent>)
    requires UniqueIDs(xs) && UniqueIDs(ys) && SameAgents(xs, ys)
    ensures ElectLeader(xs) == ElectLeader(ys)
  {
    LeaderOrder(xs);
    LeaderOrder(ys);
    LeastSameMembers(xs, ys, IsCandidate, Precedes);
    CountOfCandidates(xs);
    CountOfCandidates(ys);
    assert (set a | a in xs && IsCandidate(a)) == (set a | a in ys && IsCandidate(a));
  }

  /** The leader by what the election promises: available, with the smallest fingerprint, ties going
      by ID. */
  ghost predicate Leads(agents: seq<Agent>, a: Agent) {
    && a in agents && a.status.Available?
    && forall b :: b in agents && b.status.Available? && b != a ==>
         !Before(b.fingerprint, a.fingerprint) && (b.fingerprint == a.fingerprint ==> Before(a.id, b.id))
  }

  /** There is a leader exactly if any agent is available; it leads, and all available agents are
      counted. */
  lemma LeaderLeads(agents: seq<Agent>)
    requires UniqueIDs(agents)
    ensures match ElectLeader(agents)
            case None => forall a :: a in agents ==> !a.status.Available?
            case Some(e) =>
              && e.candidates == |set a | a in agents && a.status.Available?|
              && exists a :: Leads(agents, a) && e.leaderID == a.id && e.fingerprint == a.fingerprint
  {
    LeaderOrder(agents);
    LeastExists(agents, IsCandidate, Precedes);
    if Leader(agents).Some? {
      var a := Leader(agents).value;
      CountOfCandidates(agents);
      assert (set b | b in agents && IsCandidate(b)) == (set b | b in agents && b.status.Available?);
      forall b | b in agents && b.status.Available? && b != a
        ensures !Before(b.fingerprint, a.fingerprint) && (b.fingerprint == a.fingerprint ==> Before(a.id, b.id))
      {
        PrecedesIsFinal(a, b);
      }
      assert Leads(agents, a);
    }
  }

  lemma PrecedesIsFinal(a: Agent, b: Agent)
    requires Precedes(a, b)
    ensures !Before(b.fingerprint, a.fingerprint) && (b.fingerprint == a.fingerprint ==> Before(a.id, b.id))
  {
    BeforeIrreflexive(a.fingerprint);
    if Before(a.fingerprint, b.fingerprint) && Before(b.fingerprint, a.fingerprint) {
      BeforeTransitive(a.fingerprint, b.fingerprint, a.fingerprint);
    }
  }

  /** Nobody else leads. */
  lemma OneLeads(agents: seq<Agent>, a: Agent, b: Agent)
    requires Leads(agents, a) && Leads(agents, b)
    ensures a == b
  {
    BeforeTotal(a.fingerprint, b.fingerprint);
    if a != b {
      BeforeIrreflexive(a.id);
      BeforeTransitive(a.id, b.id, a.id);
    }
  }

  lemma CountOneMore(xs: seq<Agent>, x: Agent)
    ensures CandidateCount(xs + [x]) == CandidateCount(xs) + if IsCandidate(x) then 1 else 0
  {
    assert (xs + [x])[..|xs|] == xs;
  }

  lemma {:induction false} CountWithout(agents: seq<Agent>, i: nat)
    requires i < |agents|
    ensures CandidateCount(agents) == CandidateCount(agents[..i] + agents[i + 1..]) + if IsCandidate(agents[i]) then 1 else 0
  {
    var without, front, last := agents[..i] + agents[i + 1..], agents[..|agents| - 1], agents[|agents| - 1];
    if i == |agents| - 1 {
      assert without == front;
    } else {
      CountWithout(front, i);
      assert agents[i + 1..] == front[i + 1..] + [last] && agents[..i] == front[..i];
      assert without == front[..i] + front[i + 1..] + [last];
      CountOneMore(front[..i] + front[i + 1..], last);
    }
  }

  lemma LeaderWithout(agents: seq<Agent>, i: nat)
    requires UniqueIDs(agents) && i < |agents|
    ensures var without := agents[..i] + agents[i + 1..];
            && UniqueIDs(without)
            && (Leader(agents) != Some(agents[i]) ==> Leader(without) == Leader(agents))
  {
    var without := agents[..i] + agents[i + 1..];
    assert forall k :: 0 <= k < |without| ==> without[k] == agents[if k < i then k else k + 1];
    LeaderOrder(agents);
    LeaderOrder(without);
    LeastExists(agents, IsCandidate, Precedes);
    assert forall a :: a in agents <==> a in without || a == agents[i];
    if Leader(agents) != Some(agents[i]) {
      match Leader(agents)
      case None =>
        LeastExists(without, IsCandidate, Precedes);
      case Some(a) =>
        LeastUnique(without, IsCandidate, Precedes, a);
    }
  }

  /** Leadership is stable: a departure changes the leader only if the leader departs, and an
      arrival either changes nothing or takes the lead itself. The number of candidates follows. */
  lemma LeaderIsStable(agents: seq<Agent>, i: nat)
    requires UniqueIDs(agents) && i < |agents|
    ensures var without := agents[..i] + agents[i + 1..];
            var with', before := ElectLeader(agents), ElectLeader(without);
            && (with'.None? ==> before.None?)
            && (with'.Some? && with'.value.leaderID != agents[i].id ==>
                  before == Some(with'.value.(candidates := CandidateCount(without))))
            && CandidateCount(agents) == CandidateCount(without) + if IsCandidate(agents[i]) then 1 else 0
  {
    LeaderWithout(agents, i);
    CountWithout(agents, i);
  }

  // ---------------------------------------------------------------- planning

  datatype Plan = Plan(failedAgentID: string, assignments: seq<Assignment>, unassignedIDs: seq<string>)

  function Candidates(agents: seq<Agent>, failedID: string): (r: seq<Agent>) {
    if agents == [] then [] else
    var front, last := Candidates(agents[..|agents| - 1], failedID), agents[|agents| - 1];
    if last.id == failedID || !last.status.Available? || last.activeJobs >= last.capacity then front
    else front + [last]
  }

  lemma {:induction false} CandidatesAre(agents: seq<Agent>, failedID: string)
    ensures forall a :: a in Candidates(agents, failedID)
                   <==> a in agents && a.id != failedID && a.status.Available? && a.activeJobs < a.capacity
    ensures UniqueIDs(agents) ==> UniqueIDs(Candidates(agents, failedID))
  {
    if agents != [] {
      var front, last := agents[..|agents| - 1], agents[|agents| - 1];
      assert agents == front + [last];
      CandidatesAre(front, failedID);
      if UniqueIDs(agents) {
        forall a | a in front ensures a.id != last.id {
          var i :| 0 <= i < |front| && front[i] == a;
          assert agents[i] == a;
        }
      }
    }
  }

  /** Sorted by a string key, as every pair of neighbours shows. */
  predicate SortedBy<T(!new)>(xs: seq<T>, key: T -> string) {
    forall i :: 0 < i < |xs| ==> !Before(key(xs[i]), key(xs[i - 1]))
  }

  function Insert<T(!new)>(x: T, xs: seq<T>, key: T -> string): seq<T> {
    if xs == [] || Before(key(x), key(xs[0])) then [x] + xs else [xs[0]] + Insert(x, xs[1..], key)
  }

  function Sort<T(!new)>(xs: seq<T>, key: T -> string): seq<T> {
    if xs == [] then [] else Insert(xs[0], Sort(xs[1..], key), key)
  }

  lemma {:induction false} InsertKeeps<T(!new)>(x: T, xs: seq<T>, key: T -> string)
    ensures multiset(Insert(x, xs, key)) == multiset(xs) + multiset{x}
    ensures SortedBy(xs, key) ==> SortedBy(Insert(x, xs, key), key)
    ensures Insert(x, xs, key)[0] == if xs == [] || Before(key(x), key(xs[0])) then x else xs[0]
  {
    if xs != [] {
      if Before(key(x), key(xs[0])) {
        if Before(key(xs[0]), key(x)) {
          BeforeIrreflexive(key(x));
          BeforeTransitive(key(x), key(xs[0]), key(x));
        }
      } else {
        assert xs == [xs[0]] + xs[1..];
        InsertKeeps(x, xs[1..], key);
      }
    }
  }

  lemma {:induction false} SortCorrect<T(!new)>(xs: seq<T>, key: T -> string)
    ensures multiset(Sort(xs, key)) == multiset(xs) && SortedBy(Sort(xs, key), key)
  {
    if xs != [] {
      assert xs == [xs[0]] + xs[1..];
      SortCorrect(xs[1..], key);
      InsertKeeps(xs[0], Sort(xs[1..], key), key);
    }
  }

  // ---------------------------------------------------------------- sorted lists

  lemma NotBeforeTransitive(a: string, b: string, c: string)
    requires !Before(b, a) && !Before(c, b)
    ensures !Before(c, a)
  {
    BeforeTotal(a, b);
    BeforeTotal(b, c);
    if Before(c, a) {
      if Before(a, b) {
        BeforeTransitive(c, a, b);
      }
    }
  }

  lemma {:induction false} FirstIsLeast<T(!new)>(xs: seq<T>, key: T -> string, i: nat)
    requires SortedBy(xs, key) && i < |xs|
    ensures !Before(key(xs[i]), key(xs[0]))
  {
    if i == 0 {
      BeforeIrreflexive(key(xs[0]));
    } else {
      FirstIsLeast(xs, key, i - 1);
      NotBeforeTransitive(key(xs[0]), key(xs[i - 1]), key(xs[i]));
    }
  }

  lemma FirstBelow<T(!new)>(xs: seq<T>, ys: seq<T>, key: T -> string)
    requires multiset(xs) == multiset(ys) && xs != [] && ys != [] && SortedBy(xs, key)
    ensures !Before(key(ys[0]), key(xs[0]))
  {
    assert ys[0] in multiset(xs);
    var i :| 0 <= i < |xs| && xs[i] == ys[0];
    FirstIsLeast(xs, key, i);
  }

  lemma SameFirst<T(!new)>(xs: seq<T>, ys: seq<T>, key: T -> string)
    requires multiset(xs) == multiset(ys) && xs != [] && ys != [] && SortedBy(xs, key) && SortedBy(ys, key)
    requires forall a, b :: a in xs && b in xs && key(a) == key(b) ==> a == b
    ensures xs[0] == ys[0]
  {
    FirstBelow(xs, ys, key);
    FirstBelow(ys, xs, key);
    BeforeTotal(key(xs[0]), key(ys[0]));
    assert ys[0] in multiset(xs);
  }

  lemma SameRest<T(!new)>(xs: seq<T>, ys: seq<T>)
    requires multiset(xs) == multiset(ys) && xs != [] && ys != [] && xs[0] == ys[0]
    ensures multiset(xs[1..]) == multiset(ys[1..])
  {
    assert xs == [xs[0]] + xs[1..] && ys == [ys[0]] + ys[1..];
    assert multiset(xs[1..]) == multiset(xs) - multiset{xs[0]};
  }

  /** Sorting by a key that tells the elements apart leaves no choice. */
  lemma {:induction false} SortedSame<T(!new)>(xs: seq<T>, ys: seq<T>, key: T -> string)
    requires multiset(xs) == multiset(ys) && SortedBy(xs, key) && SortedBy(ys, key)
    requires forall a, b :: a in xs && b in xs && key(a) == key(b) ==> a == b
    ensures xs == ys
  {
    assert |multiset(xs)| == |multiset(ys)|;
    if xs != [] {
      SameFirst(xs, ys, key);
      SameRest(xs, ys);
      SortedSame(xs[1..], ys[1..], key);
      assert xs == [xs[0]] + xs[1..] && ys == [ys[0]] + ys[1..];
    }
  }

  function Keys<T(!new)>(xs: seq<T>, key: T -> string): (r: seq<string>)
    ensures |r| == |xs|
  {
    seq(|xs|, i requires 0 <= i < |xs| => key(xs[i]))
  }

  /** Taking one element out takes its key out. */
  lemma Without<T(!new)>(xs: seq<T>, key: T -> string, k: nat) returns (rest: seq<T>)
    requires k < |xs|
    ensures |rest| == |xs| - 1 && multiset(rest) == multiset(xs) - multiset{xs[k]}
    ensures multiset(Keys(xs, key)) == multiset(Keys(rest, key)) + multiset{key(xs[k])}
  {
    rest := xs[..k] + xs[k + 1..];
    assert xs == xs[..k] + [xs[k]] + xs[k + 1..];
    assert Keys(xs, key) == Keys(xs[..k], key) + [key(xs[k])] + Keys(xs[k + 1..], key);
    assert Keys(rest, key) == Keys(xs[..k], key) + Keys(xs[k + 1..], key);
  }

  /** The keys, with their multiplicities, do not depend on the order. */
  lemma {:induction false} KeysSame<T(!new)>(xs: seq<T>, ys: seq<T>, key: T -> string)
    requires multiset(xs) == multiset(ys)
    ensures multiset(Keys(xs, key)) == multiset(Keys(ys, key))
    decreases |xs|
  {
    assert |multiset(xs)| == |multiset(ys)|;
    if xs != [] {
      assert xs[0] in multiset(ys);
      var k :| 0 <= k < |ys| && ys[k] == xs[0];
      var xs' := Without(xs, key, 0);
      var ys' := Without(ys, key, k);
      KeysSame(xs', ys', key);
    }
  }

  lemma KeysNext<T(!new)>(xs: seq<T>, key: T -> string)
    requires xs != []
    ensures Keys(xs, key) == Keys(xs[..|xs| - 1], key) + [key(xs[|xs| - 1])]
  {
    var n := |xs| - 1;
    forall i | 0 <= i < n ensures Keys(xs, key)[i] == Keys(xs[..n], key)[i] {
      assert xs[i] == xs[..n][i];
    }
  }

  function AgentOf(x: Assignment): string { x.agentID }

  lemma {:induction false} ReceivedIsCount(plan: seq<Assignment>, id: string)
    ensures Received(plan, id) == multiset(Keys(plan, AgentOf))[id]
  {
    if plan != [] {
      var n := |plan| - 1;
      ReceivedIsCount(plan[..n], id);
      KeysNext(plan, AgentOf);
    }
  }

  // ---------------------------------------------------------------- the planner

  function IDsOf(jobs: seq<Jobs.Job>): seq<string> {
    seq(|jobs|, i requires 0 <= i < |jobs| => jobs[i].id)
  }

  function JobOf(a: Assignment): string { a.jobID }
  function Itself(id: string): string { id }

  method CollectCandidates(agents: seq<Agent>, failedID: string) returns (available: seq<Agent>)
    ensures available == Candidates(agents, failedID)
  {
    available := [];
    var i := 0;
    while i < |agents|
      invariant i <= |agents| && available == Candidates(agents[..i], failedID)
    {
      assert agents[..i + 1][..i] == agents[..i];
      if !(agents[i].id == failedID || !agents[i].status.Available? || agents[i].activeJobs >= agents[i].capacity) {
        available := available + [agents[i]];
      }
      i := i + 1;
    }
    assert agents[..i] == agents;
  }

  lemma {:induction false} BumpFound(agents: seq<Agent>, i: nat, id: string)
    requires i <= |agents| && forall k :: 0 <= k < i ==> agents[k].id != id
    requires i < |agents| ==> agents[i].id == id
    ensures Bump(agents, id) == if i < |agents| then agents[i := Busier(agents[i])] else agents
  {
    if i > 0 {
      BumpFound(agents[1..], i - 1, id);
    }
  }

  method BumpFirst(agents: seq<Agent>, id: string) returns (r: seq<Agent>)
    ensures r == Bump(agents, id)
  {
    var i := 0;
    while i < |agents|
      invariant i <= |agents| && forall k :: 0 <= k < i ==> agents[k].id != id
    {
      if agents[i].id == id {
        BumpFound(agents, i, id);
        return agents[i := Busier(agents[i])];
      }
      i := i + 1;
    }
    BumpFound(agents, i, id);
    return agents;
  }

  method PlaceOne(p: Progress, jobID: string) returns (q: Progress)
    ensures q == Place(p, jobID)
  {
    var target := SelectLeastLoaded(p.agents);
    if target.None? {
      return p.(unassigned := p.unassigned + [jobID]);
    }
    var available := BumpFirst(p.agents, target.value.id);
    return Progress(available, p.placed + [Assignment(jobID, target.value.id)], p.unassigned);
  }

  ghost predicate Placed(p: Progress, candidates: seq<Agent>, ids: seq<string>, n: nat)
    requires n <= |ids|
  {
    p == PlaceAll(candidates, ids[..n])
  }

  lemma PlacedNext(p: Progress, candidates: seq<Agent>, ids: seq<string>, n: nat)
    requires n < |ids| && Placed(p, candidates, ids, n)
    ensures Placed(Place(p, ids[n]), candidates, ids, n + 1)
  {
    assert ids[..n + 1][..n] == ids[..n];
  }

  /** Places the jobs up to the first invalid one, if there is one. */
  method PlaceJobs(valid: Jobs.Job -> bool, candidates: seq<Agent>, jobs: seq<Jobs.Job>) returns (p: Progress, ok: bool)
    ensures ok <==> forall j :: j in jobs ==> valid(j)
    ensures ok ==> p == PlaceAll(candidates, IDsOf(jobs))
  {
    p := Progress(candidates, [], []);
    ghost var ids := IDsOf(jobs);
    var n := 0;
    while n < |jobs|
      invariant n <= |jobs| && forall k :: 0 <= k < n ==> valid(jobs[k])
      invariant Placed(p, candidates, ids, n)
    {
      if !valid(jobs[n]) {
        assert jobs[n] in jobs;
        return p, false;
      }
      PlacedNext(p, candidates, ids, n);
      p := PlaceOne(p, jobs[n].id);
      n := n + 1;
    }
    assert ids[..n] == ids;
    return p, true;
  }

  /** A plan holds what the greedy placement decided, sorted by job ID. */
  ghost predicate IsPlan(plan: Plan, agents: seq<Agent>, failedID: string, jobIDs: seq<string>) {
    var p := PlaceAll(Candidates(agents, failedID), jobIDs);
    && plan.failedAgentID == failedID
    && multiset(plan.assignments) == multiset(p.placed) && SortedBy(plan.assignments, JobOf)
    && multiset(plan.unassignedIDs) == multiset(p.unassigned) && SortedBy(plan.unassignedIDs, Itself)
  }

  /** An agent with `n` more jobs. */
  function With(a: Agent, n: int): Agent { a.(activeJobs := a.activeJobs + n) }

  /** The balance certificate on a plan: before its last job, an agent that got any had a smaller
      share of its capacity in use than every other eligible agent has in the end, ties going by
      ID. */
  ghost predicate Fair(plan: seq<Assignment>, agents: seq<Agent>, failedID: string) {
    forall a, b :: a in agents && b in agents && a.id != b.id && Received(plan, a.id) > 0 && Eligible(b, failedID) ==>
      Lighter(With(a, Received(plan, a.id) - 1), With(b, Received(plan, b.id)))
  }

  /** An agent that can take jobs over. */
  predicate Eligible(a: Agent, failedID: string) {
    a.id != failedID && a.status.Available? && a.capacity > 0 && a.activeJobs < a.capacity
  }

  /** The jobs all eligible agents together have room for. */
  function RoomFor(agents: seq<Agent>, failedID: string): nat {
    if agents == [] then 0 else
    var last := agents[|agents| - 1];
    RoomFor(agents[..|agents| - 1], failedID) + if Eligible(last, failedID) then last.capacity - last.activeJobs else 0
  }

  lemma {:induction false} FreeSlotsAre(agents: seq<Agent>, failedID: string)
    ensures FreeSlots(Candidates(agents, failedID)) == RoomFor(agents, failedID)
  {
    if agents != [] {
      var front, last := Candidates(agents[..|agents| - 1], failedID), agents[|agents| - 1];
      FreeSlotsAre(agents[..|agents| - 1], failedID);
      assert (front + [last])[..|front|] == front;
    }
  }

  /** What a plan guarantees: as many jobs are assigned as there are free slots, the first ones,
      and the rest is left over; the failed agent gets nothing; whoever gets something had room
      and stays within its capacity; and the load is balanced. */
  ghost predicate Safe(plan: Plan, agents: seq<Agent>, jobIDs: seq<string>) {
    var free := RoomFor(agents, plan.failedAgentID);
    var k := if |jobIDs| < free then |jobIDs| else free;
    && multiset(Keys(plan.assignments, JobOf)) == multiset(jobIDs[..k])
    && multiset(plan.unassignedIDs) == multiset(jobIDs[k..])
    && Received(plan.assignments, plan.failedAgentID) == 0
    && (forall a :: a in agents && Received(plan.assignments, a.id) > 0 ==>
          Eligible(a, plan.failedAgentID) && a.activeJobs + Received(plan.assignments, a.id) <= a.capacity)
    && Fair(plan.assignments, agents, plan.failedAgentID)
  }

  /** `failedID` is None when the given ID is not a UUID. */
  method PlanFailover(c: Jobs.Checks, agents: seq<Agent>, failedID: Option<string>, jobs: seq<Jobs.Job>)
    returns (r: Option<Plan>)
    ensures r.Some? <==> failedID.Some? && forall j :: j in jobs ==> Jobs.Valid(c, j)
    ensures r.Some? ==> IsPlan(r.value, agents, failedID.value, IDsOf(jobs))
    ensures r.Some? && UniqueIDs(agents) ==> Safe(r.value, agents, IDsOf(jobs))
  {
    if failedID.None? {
      return None;
    }
    var available := CollectCandidates(agents, failedID.value);
    var p, ok := PlaceJobs(j => Jobs.Valid(c, j), available, jobs);
    if !ok {
      return None;
    }
    SortCorrect(p.placed, JobOf);
    SortCorrect(p.unassigned, Itself);
    r := Some(Plan(failedID.value, Sort(p.placed, JobOf), Sort(p.unassigned, Itself)));
    if UniqueIDs(agents) {
      PlanIsSafe(r.value, agents, failedID.value, IDsOf(jobs));
    }
  }

  lemma ReceiverHasRoom(agents: seq<Agent>, failedID: string, jobIDs: seq<string>, id: string)
    requires UniqueIDs(agents)
    requires Received(PlaceAll(Candidates(agents, failedID), jobIDs).placed, id) > 0
    ensures id != failedID
    ensures forall a :: a in agents && a.id == id ==>
              HasRoom(a) && a.activeJobs + Received(PlaceAll(Candidates(agents, failedID), jobIDs).placed, id) <= a.capacity
  {
    var cs := Candidates(agents, failedID);
    var p := PlaceAll(cs, jobIDs);
    CandidatesAre(agents, failedID);
    PlacementFilled(cs, jobIDs);
    TargetsAreCandidates(cs, jobIDs);
    OnlyTargetsReceive(p.placed, id);
    var x :| x in p.placed && x.agentID == id;
    var i :| 0 <= i < |cs| && cs[i].id == id;
    assert cs[i] in cs;
    forall a | a in agents && a.id == id ensures a == cs[i] {
      SameID(agents, a, cs[i]);
    }
  }

  /** The same for the placement itself. */
  lemma {:induction false} PlacementIsSafe(agents: seq<Agent>, failedID: string, jobIDs: seq<string>)
    requires UniqueIDs(agents)
    ensures var cs := Candidates(agents, failedID);
            var p := PlaceAll(cs, jobIDs);
            var k := if |jobIDs| < FreeSlots(cs) then |jobIDs| else FreeSlots(cs);
            && JobIDs(p.placed) == jobIDs[..k] && p.unassigned == jobIDs[k..]
            && Received(p.placed, failedID) == 0
            && (forall a :: a in agents && Received(p.placed, a.id) > 0 ==>
                  HasRoom(a) && a.activeJobs + Received(p.placed, a.id) <= a.capacity)
  {
    CandidatesAre(agents, failedID);
    AssignedCount(Candidates(agents, failedID), jobIDs);
    var placed := PlaceAll(Candidates(agents, failedID), jobIDs).placed;
    if Received(placed, failedID) > 0 {
      ReceiverHasRoom(agents, failedID, jobIDs, failedID);
    }
    forall a | a in agents && Received(placed, a.id) > 0
      ensures HasRoom(a) && a.activeJobs + Received(placed, a.id) <= a.capacity
    {
      ReceiverHasRoom(agents, failedID, jobIDs, a.id);
    }
  }

  lemma {:induction false} FairBetween(cs: seq<Agent>, jobIDs: seq<string>, i: nat, j: nat)
    requires UniqueIDs(cs) && i < |cs| && j < |cs| && i != j && HasRoom(cs[j])
    requires Received(PlaceAll(cs, jobIDs).placed, cs[i].id) > 0
    ensures var placed := PlaceAll(cs, jobIDs).placed;
            LessLoaded(With(cs[i], Received(placed, cs[i].id) - 1), With(cs[j], Received(placed, cs[j].id)))
  {
    var p := PlaceAll(cs, jobIDs);
    PlacementFilled(cs, jobIDs);
    PlacementBalanced(cs, jobIDs);
    assert LessLoaded(Calmer(p.agents[i]), p.agents[j]);
  }

  lemma {:induction false} PlacementIsFair(agents: seq<Agent>, failedID: string, jobIDs: seq<string>)
    requires UniqueIDs(agents)
    ensures Fair(PlaceAll(Candidates(agents, failedID), jobIDs).placed, agents, failedID)
  {
    var cs := Candidates(agents, failedID);
    var placed := PlaceAll(cs, jobIDs).placed;
    CandidatesAre(agents, failedID);
    forall a, b | a in agents && b in agents && a.id != b.id && Received(placed, a.id) > 0 && Eligible(b, failedID)
      ensures Lighter(With(a, Received(placed, a.id) - 1), With(b, Received(placed, b.id)))
    {
      ReceiverHasRoom(agents, failedID, jobIDs, a.id);
      FairAmong(cs, jobIDs, a, b);
    }
  }

  lemma {:induction false} FairAmong(cs: seq<Agent>, jobIDs: seq<string>, a: Agent, b: Agent)
    requires UniqueIDs(cs) && a in cs && b in cs && a.id != b.id && HasRoom(a) && HasRoom(b)
    requires Received(PlaceAll(cs, jobIDs).placed, a.id) > 0
    ensures var placed := PlaceAll(cs, jobIDs).placed;
            Lighter(With(a, Received(placed, a.id) - 1), With(b, Received(placed, b.id)))
  {
    var placed := PlaceAll(cs, jobIDs).placed;
    var i :| 0 <= i < |cs| && cs[i] == a;
    var j :| 0 <= j < |cs| && cs[j] == b;
    FairBetween(cs, jobIDs, i, j);
    LessLoadedIs(With(a, Received(placed, a.id) - 1), With(b, Received(placed, b.id)));
  }

  lemma ReceivedSame(xs: seq<Assignment>, ys: seq<Assignment>, id: string)
    requires multiset(xs) == multiset(ys)
    ensures Received(xs, id) == Received(ys, id)
  {
    KeysSame(xs, ys, AgentOf);
    ReceivedIsCount(xs, id);
    ReceivedIsCount(ys, id);
  }

  lemma PlanCounts(plan: Plan, agents: seq<Agent>, failedID: string, jobIDs: seq<string>)
    requires UniqueIDs(agents) && IsPlan(plan, agents, failedID, jobIDs)
    ensures var free := RoomFor(agents, failedID);
            var k := if |jobIDs| < free then |jobIDs| else free;
            && multiset(Keys(plan.assignments, JobOf)) == multiset(jobIDs[..k])
            && multiset(plan.unassignedIDs) == multiset(jobIDs[k..])
  {
    var p := PlaceAll(Candidates(agents, failedID), jobIDs);
    PlacementIsSafe(agents, failedID, jobIDs);
    FreeSlotsAre(agents, failedID);
    KeysSame(plan.assignments, p.placed, JobOf);
    assert Keys(p.placed, JobOf) == JobIDs(p.placed);
  }

  lemma PlanReceivers(plan: Plan, agents: seq<Agent>, failedID: string, jobIDs: seq<string>)
    requires UniqueIDs(agents) && IsPlan(plan, agents, failedID, jobIDs)
    ensures Received(plan.assignments, failedID) == 0
    ensures forall a :: a in agents && Received(plan.assignments, a.id) > 0 ==>
              Eligible(a, failedID) && a.activeJobs + Received(plan.assignments, a.id) <= a.capacity
  {
    var p := PlaceAll(Candidates(agents, failedID), jobIDs);
    PlacementIsSafe(agents, failedID, jobIDs);
    ReceivedSame(plan.assignments, p.placed, failedID);
    forall a | a in agents && Received(plan.assignments, a.id) > 0
      ensures Eligible(a, failedID) && a.activeJobs + Received(plan.assignments, a.id) <= a.capacity
    {
      ReceivedSame(plan.assignments, p.placed, a.id);
    }
  }

  lemma PlanIsFair(plan: Plan, agents: seq<Agent>, failedID: string, jobIDs: seq<string>)
    requires UniqueIDs(agents) && IsPlan(plan, agents, failedID, jobIDs)
    ensures Fair(plan.assignments, agents, failedID)
  {
    var p := PlaceAll(Candidates(agents, failedID), jobIDs);
    forall a | a in agents ensures Received(plan.assignments, a.id) == Received(p.placed, a.id) {
      ReceivedSame(plan.assignments, p.placed, a.id);
    }
    PlacementIsFair(agents, failedID, jobIDs);
    SameIsFair(plan.assignments, p.placed, agents, failedID);
  }

  /** Sorting the placement changes none of this. */
  lemma PlanIsSafe(plan: Plan, agents: seq<Agent>, failedID: string, jobIDs: seq<string>)
    requires UniqueIDs(agents) && IsPlan(plan, agents, failedID, jobIDs)
    ensures Safe(plan, agents, jobIDs)
  {
    PlanCounts(plan, agents, failedID, jobIDs);
    PlanReceivers(plan, agents, failedID, jobIDs);
    PlanIsFair(plan, agents, failedID, jobIDs);
  }

  lemma SameIsFair(xs: seq<Assignment>, ys: seq<Assignment>, agents: seq<Agent>, failedID: string)
    requires Fair(ys, agents, failedID) && forall a :: a in agents ==> Received(xs, a.id) == Received(ys, a.id)
    ensures Fair(xs, agents, failedID)
  {
  }

  lemma SameID(agents: seq<Agent>, a: Agent, b: Agent)
    requires UniqueIDs(agents) && a in agents && b in agents && a.id == b.id
    ensures a == b
  {
  }

  lemma {:induction false} OnlyTargetsReceive(plan: seq<Assignment>, id: string)
    ensures Received(plan, id) > 0 <==> exists x :: x in plan && x.agentID == id
  {
    if plan != [] {
      var front, last := plan[..|plan| - 1], plan[|plan| - 1];
      assert plan == front + [last];
      OnlyTargetsReceive(front, id);
    }
  }

  lemma {:induction false} TargetsAreCandidates(agents: seq<Agent>, jobIDs: seq<string>)
    requires UniqueIDs(agents)
    ensures forall x :: x in PlaceAll(agents, jobIDs).placed ==> exists i :: 0 <= i < |agents| && agents[i].id == x.agentID
  {
    if jobIDs != [] {
      var p := PlaceAll(agents, jobIDs[..|jobIDs| - 1]);
      TargetsAreCandidates(agents, jobIDs[..|jobIDs| - 1]);
      PlacementFilled(agents, jobIDs[..|jobIDs| - 1]);
      if SelectLeastLoaded(p.agents).Some? {
        var i := Selected(p.agents);
        assert agents[i].id == p.agents[i].id;
      }
    }
  }

  lemma PlacementIgnoresOrder(xs: seq<Agent>, ys: seq<Agent>, failedID: string, jobIDs: seq<string>)
    requires UniqueIDs(xs) && UniqueIDs(ys) && SameAgents(xs, ys)
    ensures var p, q := PlaceAll(Candidates(xs, failedID), jobIDs), PlaceAll(Candidates(ys, failedID), jobIDs);
            p.placed == q.placed && p.unassigned == q.unassigned
  {
    CandidatesAre(xs, failedID);
    CandidatesAre(ys, failedID);
    var cx, cy := Candidates(xs, failedID), Candidates(ys, failedID);
    SameLength(cx, cy);
    SamePlacement(cx, cy, jobIDs);
  }

  ghost predicate Distinct(ids: seq<string>) {
    forall i, j :: 0 <= i < j < |ids| ==> ids[i] != ids[j]
  }

  lemma DistinctJobs(agents: seq<Agent>, jobIDs: seq<string>, a: Assignment, b: Assignment)
    requires UniqueIDs(agents) && Distinct(jobIDs)
    requires a in PlaceAll(agents, jobIDs).placed && b in PlaceAll(agents, jobIDs).placed && a.jobID == b.jobID
    ensures a == b
  {
    AssignedCount(agents, jobIDs);
    var placed := PlaceAll(agents, jobIDs).placed;
    var i :| 0 <= i < |placed| && placed[i] == a;
    var j :| 0 <= j < |placed| && placed[j] == b;
    assert jobIDs[i] == JobIDs(placed)[i] && jobIDs[j] == JobIDs(placed)[j];
  }

  /** Plans for two listings of the same agents assign the same jobs to the same agents and leave
      the same jobs over; for distinct job IDs they are identical. */
  lemma PlanIgnoresOrder(xs: seq<Agent>, ys: seq<Agent>, failedID: string, jobIDs: seq<string>, p: Plan, q: Plan)
    requires UniqueIDs(xs) && UniqueIDs(ys) && SameAgents(xs, ys)
    requires IsPlan(p, xs, failedID, jobIDs) && IsPlan(q, ys, failedID, jobIDs)
    ensures multiset(p.assignments) == multiset(q.assignments) && p.unassignedIDs == q.unassignedIDs
    ensures Distinct(jobIDs) ==> p == q
  {
    PlacementIgnoresOrder(xs, ys, failedID, jobIDs);
    SortedSame(p.unassignedIDs, q.unassignedIDs, Itself);
    if Distinct(jobIDs) {
      var cs := Candidates(xs, failedID);
      CandidatesAre(xs, failedID);
      forall a, b | a in p.assignments && b in p.assignments && JobOf(a) == JobOf(b) ensures a == b {
        assert a in multiset(p.assignments) && b in multiset(p.assignments);
        DistinctJobs(cs, jobIDs, a, b);
      }
      SortedSame(p.assignments, q.assignments, JobOf);
    }
  }

  lemma {:induction false} SameLength(xs: seq<Agent>, ys: seq<Agent>)
    requires UniqueIDs(xs) && UniqueIDs(ys) && forall a :: a in xs <==> a in ys
    ensures |xs| == |ys|
  {
    MembersCount(xs);
    MembersCount(ys);
    assert (set a | a in xs) == (set a | a in ys);
  }

  lemma {:induction false} MembersCount(xs: seq<Agent>)
    requires UniqueIDs(xs)
    ensures |set a | a in xs| == |xs|
  {
    if xs != [] {
      var front, last := xs[..|xs| - 1], xs[|xs| - 1];
      MembersCount(front);
      assert (set a | a in xs) == (set a | a in front) + {last};
      assert last !in front;
    }
  }

  // ---------------------------------------------------------------- registry

  function IDOf(a: Agent): string { a.id }

  /** The agents known, by ID. */
  class Registry {
    var agents: map<string, Agent>

    ghost predicate Keyed()
      reads this
    {
      forall id :: id in agents ==> agents[id].id == id
    }

    constructor ()
      ensures Keyed() && agents == map[]
    {
      agents := map[];
    }

    /** A valid record replaces the one under its ID; an invalid one changes nothing. */
    method Register(c: AgentChecks, a: Agent) returns (ok: bool)
      requires Keyed()
      modifies this
      ensures Keyed() && ok == ValidAgent(c, a)
      ensures forall id :: id != a.id || !ok ==> (id in agents <==> id in old(agents)) && (id in agents ==> agents[id] == old(agents)[id])
      ensures ok ==> a.id in agents && agents[a.id] == a
    {
      if !ValidAgent(c, a) {
        return false;
      }
      agents := agents[a.id := a];
      return true;
    }

    /** The listing holds every agent once, in ID order. */
    method List() returns (list: seq<Agent>)
      requires Keyed()
      ensures UniqueIDs(list) && SortedBy(list, IDOf)
      ensures forall a :: a in list <==> a.id in agents && agents[a.id] == a
    {
      var todo, found: seq<Agent> := agents.Keys, [];
      while todo != {}
        invariant todo <= agents.Keys && UniqueIDs(found)
        invariant forall a :: a in found <==> a.id in agents && a.id !in todo && agents[a.id] == a
        decreases |todo|
      {
        var id :| id in todo;
        assert forall i :: 0 <= i < |found| ==> found[i] in found && found[i].id != id;
        found, todo := found + [agents[id]], todo - {id};
      }
      SortCorrect(found, IDOf);
      list := Sort(found, IDOf);
      SortedUnique(found, list);
    }
  }

  lemma SortedUnique(xs: seq<Agent>, ys: seq<Agent>)
    requires multiset(xs) == multiset(ys) && UniqueIDs(xs)
    ensures UniqueIDs(ys) && forall a :: a in xs <==> a in ys
  {
    forall a ensures a in xs <==> a in ys {
      assert a in multiset(xs) <==> a in multiset(ys);
    }
    forall i, j | 0 <= i < j < |ys| ensures ys[i].id != ys[j].id {
      if ys[i].id == ys[j].id {
        assert ys[i] in xs && ys[j] in xs;
        SameID(xs, ys[i], ys[j]);
        TwiceCounts(ys, i, j);
        OnceCounts(xs, ys[i]);
      }
    }
  }

  lemma TwiceCounts(ys: seq<Agent>, i: nat, j: nat)
    requires i < j < |ys| && ys[i] == ys[j]
    ensures multiset(ys)[ys[i]] >= 2
  {
    assert ys == ys[..j] + [ys[j]] + ys[j + 1..];
    assert ys[i] in ys[..j];
  }

  lemma {:induction false} OnceCounts(xs: seq<Agent>, a: Agent)
    requires UniqueIDs(xs)
    ensures multiset(xs)[a] <= 1
  {
    if xs != [] {
      var front, last := xs[..|xs| - 1], xs[|xs| - 1];
      OnceCounts(front, a);
      assert xs == front + [last];
      assert last !in front;
    }
  }
}
