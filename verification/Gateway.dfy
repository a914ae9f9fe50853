/** Concurrent gateway handlers around the session tracker
    (internal/gateway/tracker.go, internal/gateway/runtime.go). */
module Gateway {

  class Tracker {
    var sessions: map<string, int>
    var bytesSent: int

    constructor ()
      ensures sessions == map[] && bytesSent == 0
    {
      sessions, bytesSent := map[], 0;
    }

    /** `generated` is the random ID for a session that brings none. */
    method Start(sessionID: string, generated: string) returns (id: string)
      modifies `sessions
      ensures id == if sessionID == "" then generated else sessionID
      ensures id in sessions && sessions[id] == 0 && sessions.Keys == old(sessions).Keys + {id}
      ensures forall k :: k in old(sessions) && k != id ==> sessions[k] == old(sessions)[k]
    {
      id := sessionID;
      if id == "" {
        id := generated;
      }
      sessions := sessions[id := 0];
    }

    /** A session that is not in the map is put back, with only the bytes added now. */
    method AddBytes(sessionID: string, amount: int)
      modifies `sessions, `bytesSent
      ensures sessions == AddedTo(old(sessions), sessionID, amount)
      ensures bytesSent == old(bytesSent) + if amount > 0 then amount else 0
      ensures amount > 0 ==> sessions.Keys == old(sessions).Keys + {sessionID}
      ensures amount > 0 ==>
                sessions[sessionID] == amount + if sessionID in old(sessions) then old(sessions)[sessionID] else 0
      ensures forall k :: k in old(sessions) && (k != sessionID || amount <= 0) ==> k in sessions && sessions[k] == old(sessions)[k]
    {
      if amount <= 0 {
        return;
      }
      var sent := if sessionID in sessions then sessions[sessionID] else 0;
      sessions := sessions[sessionID := sent + amount];
      bytesSent := bytesSent + amount;
    }

    method Close(sessionID: string) returns (sent: int)
      modifies `sessions
      ensures sessions == old(sessions) - {sessionID}
      ensures sent == if sessionID in old(sessions) then old(sessions)[sessionID] else 0
    {
      sent := if sessionID in sessions then sessions[sessionID] else 0;
      sessions := sessions - {sessionID};
    }
  }

  function AddedTo(sessions: map<string, int>, id: string, amount: int): map<string, int> {
    if amount <= 0 then sessions
    else sessions[id := (if id in sessions then sessions[id] else 0) + amount]
  }

  // ---------------------------------------------------------------- handlers

  /** One call of handle, from its Start to its deferred Close. `sent` is what it has added. */
  datatype Handler = Handler(sessionID: string, open: bool, sent: int)

  datatype State = State(sessions: map<string, int>, bytesSent: int, handlers: seq<Handler>)

  datatype Event = Enter(sessionID: string) | Add(h: nat, amount: int) | Leave(h: nat)

  predicate Enabled(s: State, e: Event) {
    e.Enter? || (e.h < |s.handlers| && s.handlers[e.h].open)
  }

  function Next(s: State, e: Event): State
    requires Enabled(s, e)
  {
    match e
    case Enter(id) => State(s.sessions[id := 0], s.bytesSent, s.handlers + [Handler(id, true, 0)])
    case Add(h, amount) =>
      if amount <= 0 then s else
      State(AddedTo(s.sessions, s.handlers[h].sessionID, amount), s.bytesSent + amount,
            s.handlers[h := s.handlers[h].(sent := s.handlers[h].sent + amount)])
    case Leave(h) =>
      State(s.sessions - {s.handlers[h].sessionID}, s.bytesSent, s.handlers[h := s.handlers[h].(open := false)])
  }

  const EMPTY := State(map[], 0, [])

  ghost predicate IsRun(es: seq<Event>)
    decreases |es|, 0
  {
    es == [] || (IsRun(es[..|es| - 1]) && Enabled(Run(es[..|es| - 1]), es[|es| - 1]))
  }

  ghost function Run(es: seq<Event>): State
    requires IsRun(es)
    decreases |es|, 1
  {
    if es == [] then EMPTY else Next(Run(es[..|es| - 1]), es[|es| - 1])
  }

  function TotalSent(hs: seq<Handler>): int {
    if hs == [] then 0 else TotalSent(hs[..|hs| - 1]) + hs[|hs| - 1].sent
  }

  lemma {:induction false} TotalSentUpdate(hs: seq<Handler>, h: nat, x: Handler)
    requires h < |hs|
    ensures TotalSent(hs[h := x]) == TotalSent(hs) - hs[h].sent + x.sent
  {
    var front := hs[..|hs| - 1];
    if h == |hs| - 1 {
      assert hs[h := x][..|hs| - 1] == front;
    } else {
      assert hs[h := x][..|hs| - 1] == front[h := x];
      TotalSentUpdate(front, h, x);
    }
  }

  ghost predicate HasOwner(s: State, id: string) {
    exists h :: 0 <= h < |s.handlers| && s.handlers[h].open && s.handlers[h].sessionID == id
  }

  /** Every session in the map belongs to a handler still in flight, and the byte counter is
      the sum of all positive additions. */
  ghost predicate Sound(s: State) {
    && (forall id :: id in s.sessions ==> HasOwner(s, id))
    && s.bytesSent == TotalSent(s.handlers)
  }

  lemma NextOwned(s: State, e: Event, id: string)
    requires Enabled(s, e) && (id in s.sessions ==> HasOwner(s, id)) && id in Next(s, e).sessions
    ensures HasOwner(Next(s, e), id)
  {
    var s' := Next(s, e);
    if e.Enter? && id == e.sessionID {
      assert s'.handlers[|s.handlers|].sessionID == id;
    } else if e.Add? && id == s.handlers[e.h].sessionID {
      assert s'.handlers[e.h].sessionID == id;
    } else {
      var j :| 0 <= j < |s.handlers| && s.handlers[j].open && s.handlers[j].sessionID == id;
      assert s'.handlers[j].sessionID == id;
    }
  }

  lemma NextTotal(s: State, e: Event)
    requires Enabled(s, e) && s.bytesSent == TotalSent(s.handlers)
    ensures Next(s, e).bytesSent == TotalSent(Next(s, e).handlers)
  {
    var hs := Next(s, e).handlers;
    if e.Enter? {
      assert hs[..|hs| - 1] == s.handlers;
    } else if hs != s.handlers {
      assert hs == s.handlers[e.h := hs[e.h]];
      TotalSentUpdate(s.handlers, e.h, hs[e.h]);
    }
  }

  lemma NextSound(s: State, e: Event)
    requires Enabled(s, e) && Sound(s)
    ensures Sound(Next(s, e))
  {
    NextTotal(s, e);
    forall id | id in Next(s, e).sessions ensures HasOwner(Next(s, e), id) {
      NextOwned(s, e, id);
    }
  }

  /** In every interleaving of handlers, also of handlers that share a session ID. */
  lemma {:induction false} EveryRunSound(es: seq<Event>)
    requires IsRun(es)
    ensures Sound(Run(es))
    ensures (forall h :: 0 <= h < |Run(es).handlers| ==> !Run(es).handlers[h].open) ==> Run(es).sessions == map[]
  {
    if es != [] {
      EveryRunSound(es[..|es| - 1]);
      NextSound(Run(es[..|es| - 1]), es[|es| - 1]);
    }
  }

  /** No handler enters under a session ID that is in use. */
  ghost predicate Exclusive(es: seq<Event>)
    requires IsRun(es)
  {
    es == [] ||
    (Exclusive(es[..|es| - 1]) && (es[|es| - 1].Enter? ==> !HasOwner(Run(es[..|es| - 1]), es[|es| - 1].sessionID)))
  }

  /** Sessions and open handlers correspond one to one, with the right byte count each. */
  ghost predicate Matched(s: State) {
    && (forall h :: 0 <= h < |s.handlers| && s.handlers[h].open ==>
          s.handlers[h].sessionID in s.sessions && s.sessions[s.handlers[h].sessionID] == s.handlers[h].sent)
    && (forall h, k :: 0 <= h < k < |s.handlers| && s.handlers[h].open && s.handlers[k].open ==>
          s.handlers[h].sessionID != s.handlers[k].sessionID)
  }

  /** The correspondence lasts exactly until a handler enters under an ID in use. */
  lemma MatchedUntilShared(s: State, e: Event)
    requires Enabled(s, e) && Matched(s)
    ensures Matched(Next(s, e)) <==> !(e.Enter? && HasOwner(s, e.sessionID))
  {
    var s' := Next(s, e);
    if e.Enter? && HasOwner(s, e.sessionID) {
      var h :| 0 <= h < |s.handlers| && s.handlers[h].open && s.handlers[h].sessionID == e.sessionID;
      assert s'.handlers[h] == s.handlers[h] && s'.handlers[|s.handlers|].sessionID == e.sessionID;
    }
  }

  /** Over a whole run: matched at every point if and only if no ID was ever shared. */
  lemma {:induction false} ExclusiveMatched(es: seq<Event>)
    requires IsRun(es)
    ensures Exclusive(es) <==> forall n :: 0 <= n <= |es| ==> IsRun(es[..n]) && Matched(Run(es[..n]))
  {
    if es == [] {
      assert es[..0] == es;
    } else {
      var front, e := es[..|es| - 1], es[|es| - 1];
      ExclusiveMatched(front);
      if Matched(Run(front)) {
        MatchedUntilShared(Run(front), e);
      }
      assert es[..|es|] == es && es[..|front|] == front && front[..|front|] == front;
      forall n | 0 <= n <= |front| ensures es[..n] == front[..n] {
      }
    }
  }
}
