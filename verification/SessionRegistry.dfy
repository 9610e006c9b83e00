/** Session ids, the registry of sessions, the connection counters, and the exactly-once
    disconnect flag they all hang on. Accepting and disconnecting are atomic steps. */
module SessionRegistry {

  type SessionId = nat

  /** Whose call of Disconnect found the flag unset. */
  datatype Closer =
    | ByServer        // HandleDisconnect: receive error, guard, peer gone, heartbeat timeout
    | BySend          // PostSend, when WSASend fails at once
    | ByPolicy        // the accept path, when the connection limiter refuses

  datatype State = State(
    registered: set<SessionId>,
    nextSessionId: SessionId,
    closed: map<SessionId, Closer>,
    totalConnections: nat,
    currentConnections: int,
    policyRejections: nat)

  datatype Event =
    | Accept(hasToken: bool)
    | HandleDisconnect(id: SessionId)
    | SendFails(id: SessionId)

  function Initial(): State {
    State({}, 1, map[], 0, 0, 0)
  }

  predicate Exists(s: State, id: SessionId) {
    1 <= id < s.nextSessionId
  }

  function Step(s: State, e: Event): State {
    match e
    case Accept(hasToken) =>
      var id := s.nextSessionId;
      if !hasToken then
        s.(nextSessionId := id + 1, closed := s.closed[id := ByPolicy], policyRejections := s.policyRejections + 1)
      else
        s.(nextSessionId := id + 1, registered := s.registered + {id},
           totalConnections := s.totalConnections + 1, currentConnections := s.currentConnections + 1)
    case HandleDisconnect(id) =>
      if !Exists(s, id) || id in s.closed then s
      else s.(closed := s.closed[id := ByServer], currentConnections := s.currentConnections - 1,
              registered := s.registered - {id})
    case SendFails(id) =>
      if !Exists(s, id) || id in s.closed then s else s.(closed := s.closed[id := BySend])
  }

  function Run(events: seq<Event>): State {
    if events == [] then Initial() else Step(Run(events[..|events| - 1]), events[|events| - 1])
  }

  function ClosedBy(closed: map<SessionId, Closer>, who: Closer): set<SessionId> {
    set id | id in closed && closed[id] == who
  }

  ghost predicate Inv(s: State) {
    && 1 <= s.nextSessionId
    && (forall id :: id in s.closed ==> Exists(s, id))
    && (forall id :: id in s.registered <==> Exists(s, id) && (id in s.closed ==> s.closed[id] == BySend))
    && s.currentConnections == |s.registered|
    && s.totalConnections == |s.registered| + |ClosedBy(s.closed, ByServer)|
    && s.policyRejections == |ClosedBy(s.closed, ByPolicy)|
    && s.nextSessionId - 1 == s.totalConnections + s.policyRejections
  }

  /** Closing a session by `who` adds one to that set and nothing to any other. */
  lemma ClosedByUpdate(closed: map<SessionId, Closer>, id: SessionId, who: Closer, any: Closer)
    requires id !in closed
    ensures |ClosedBy(closed[id := who], any)| == |ClosedBy(closed, any)| + (if any == who then 1 else 0)
  {
    if any == who {
      assert ClosedBy(closed[id := who], any) == ClosedBy(closed, any) + {id};
    } else {
      assert ClosedBy(closed[id := who], any) == ClosedBy(closed, any);
    }
  }

  lemma AcceptKeeps(s: State, hasToken: bool)
    requires Inv(s)
    ensures Inv(Step(s, Accept(hasToken)))
  {
    var id := s.nextSessionId;
    assert !Exists(s, id);
    assert id !in s.closed && id !in s.registered;
    ClosedByUpdate(s.closed, id, ByPolicy, ByServer);
    ClosedByUpdate(s.closed, id, ByPolicy, ByPolicy);
  }

  lemma DisconnectKeeps(s: State, id: SessionId)
    requires Inv(s)
    ensures Inv(Step(s, HandleDisconnect(id)))
  {
    if Exists(s, id) && id !in s.closed {
      ClosedByUpdate(s.closed, id, ByServer, ByServer);
      ClosedByUpdate(s.closed, id, ByServer, ByPolicy);
      assert id in s.registered;
    }
  }

  lemma SendFailsKeeps(s: State, id: SessionId)
    requires Inv(s)
    ensures Inv(Step(s, SendFails(id)))
  {
    if Exists(s, id) && id !in s.closed {
      ClosedByUpdate(s.closed, id, BySend, ByServer);
      ClosedByUpdate(s.closed, id, BySend, ByPolicy);
    }
  }

  lemma StepKeeps(s: State, e: Event)
    requires Inv(s)
    ensures Inv(Step(s, e))
  {
    match e
    case Accept(hasToken) => AcceptKeeps(s, hasToken);
    case HandleDisconnect(id) => DisconnectKeeps(s, id);
    case SendFails(id) => SendFailsKeeps(s, id);
  }

  lemma InitialHolds()
    ensures Inv(Initial())
  {
  }

  lemma {:induction false} RunKeeps(events: seq<Event>)
    ensures Inv(Run(events))
  {
    if events == [] {
      InitialHolds();
    } else {
      RunKeeps(events[..|events| - 1]);
      StepKeeps(Run(events[..|events| - 1]), events[|events| - 1]);
    }
  }

  /** On every run the gauge of current connections is the size of the registry and never
      negative, and every id ever issued is accounted for as a connection or a rejection. */
  lemma Accounting(events: seq<Event>)
    ensures var s := Run(events);
      && s.currentConnections == |s.registered| >= 0
      && s.nextSessionId - 1 == s.totalConnections + s.policyRejections
      && s.totalConnections - s.currentConnections == |ClosedBy(s.closed, ByServer)|
  {
    RunKeeps(events);
  }

  /** Once closed, a session stays closed by whoever was first; whatever happens later, it is
      never taken off the gauge a second time and its id is never issued again. */
  lemma {:induction false} ClosedIsFinal(events: seq<Event>, more: seq<Event>, id: SessionId)
    requires id in Run(events).closed
    ensures var s, t := Run(events), Run(events + more);
      && id in t.closed && t.closed[id] == s.closed[id]
      && (id in t.registered <==> id in s.registered)
      && Step(t, HandleDisconnect(id)) == t && id < t.nextSessionId
  {
    RunKeeps(events);
    if more == [] {
      assert events + more == events;
    } else {
      var n := |more| - 1;
      assert (events + more)[..|events + more| - 1] == events + more[..n];
      ClosedIsFinal(events, more[..n], id);
      RunKeeps(events + more[..n]);
      StepKeepsClosed(Run(events + more[..n]), more[n], id);
    }
  }

  lemma StepKeepsClosed(s: State, e: Event, id: SessionId)
    requires Inv(s) && id in s.closed
    ensures var t := Step(s, e);
      && id in t.closed && t.closed[id] == s.closed[id]
      && (id in t.registered <==> id in s.registered) && id < t.nextSessionId
  {
  }

  /** A closed session is not always off the registry. It stays on it, and on the gauge, exactly
      when the failing send was the first to close it: HandleDisconnect then finds the flag set
      and returns at once. */
  lemma StillRegisteredExactly(events: seq<Event>, id: SessionId)
    requires id in Run(events).closed
    ensures id in Run(events).registered <==> Run(events).closed[id] == BySend
  {
    RunKeeps(events);
  }

  // ----- told from the events alone -----

  function Accepts(events: seq<Event>, hasToken: bool): nat {
    if events == [] then 0
    else Accepts(events[..|events| - 1], hasToken) + (if events[|events| - 1] == Accept(hasToken) then 1 else 0)
  }

  /** How many ids have been issued. */
  function Issued(events: seq<Event>): nat {
    Accepts(events, true) + Accepts(events, false)
  }

  /** Every accept with a token is a connection, every other one a policy rejection; ids are issued
      in order, one for each. */
  lemma {:induction false} CountersAreEvents(events: seq<Event>)
    ensures var s := Run(events);
      && s.totalConnections == Accepts(events, true) && s.policyRejections == Accepts(events, false)
      && s.nextSessionId == Issued(events) + 1
  {
    if events != [] {
      CountersAreEvents(events[..|events| - 1]);
    }
  }

  /** With so many ids issued, the event is a reason for the session to be closed. */
  predicate IsReason(e: Event, issued: nat, id: SessionId, who: Closer) {
    match e
    case Accept(hasToken) => !hasToken && who == ByPolicy && id == issued + 1
    case HandleDisconnect(d) => d == id && who == ByServer && 1 <= id <= issued
    case SendFails(d) => d == id && who == BySend && 1 <= id <= issued
  }

  ghost predicate Closes(events: seq<Event>, i: nat, id: SessionId, who: Closer) {
    i < |events| && IsReason(events[i], Issued(events[..i]), id, who)
  }

  ghost predicate FirstCloses(events: seq<Event>, i: nat, id: SessionId, who: Closer) {
    Closes(events, i, id, who) && forall j: nat, other :: j < i ==> !Closes(events, j, id, other)
  }

  lemma ClosesEarlier(events: seq<Event>, n: nat, i: nat, id: SessionId, who: Closer)
    requires i < n <= |events|
    ensures Closes(events[..n], i, id, who) <==> Closes(events, i, id, who)
  {
    assert events[..n][..i] == events[..i];
  }

  lemma FirstClosesEarlier(events: seq<Event>, n: nat, i: nat, id: SessionId, who: Closer)
    requires i < n <= |events|
    ensures FirstCloses(events[..n], i, id, who) <==> FirstCloses(events, i, id, who)
  {
    forall j: nat, other | j <= i ensures Closes(events[..n], j, id, other) <==> Closes(events, j, id, other) {
      ClosesEarlier(events, n, j, id, other);
    }
  }

  lemma ReasonCloses(s: State, e: Event, issued: nat, id: SessionId, who: Closer)
    requires Inv(s) && s.nextSessionId == issued + 1
    ensures var t := Step(s, e);
      && (id in s.closed ==> id in t.closed && t.closed[id] == s.closed[id])
      && (id !in s.closed ==> (id in t.closed && t.closed[id] == who <==> IsReason(e, issued, id, who)))
  {
  }

  lemma StepCloses(events: seq<Event>, id: SessionId, who: Closer)
    requires events != []
    ensures var n := |events| - 1; var s, t := Run(events[..n]), Run(events);
      && (id in s.closed ==> id in t.closed && t.closed[id] == s.closed[id])
      && (id !in s.closed ==> (id in t.closed && t.closed[id] == who <==> Closes(events, n, id, who)))
  {
    var n := |events| - 1;
    CountersAreEvents(events[..n]);
    RunKeeps(events[..n]);
    ReasonCloses(Run(events[..n]), events[n], Issued(events[..n]), id, who);
  }

  lemma {:induction false} ClosedMeansCloses(events: seq<Event>, id: SessionId)
    ensures id in Run(events).closed <==> exists i: nat, who :: Closes(events, i, id, who)
  {
    if events != [] {
      var n := |events| - 1;
      ClosedMeansCloses(events[..n], id);
      forall who ensures Closes(events, n, id, who) ==> id in Run(events).closed {
        StepCloses(events, id, who);
      }
      forall i: nat, who | i < n ensures Closes(events[..n], i, id, who) <==> Closes(events, i, id, who) {
        ClosesEarlier(events, n, i, id, who);
      }
      if id in Run(events).closed {
        StepCloses(events, id, Run(events).closed[id]);
      }
    }
  }

  /** A session is closed by whoever was the first of all events to have a reason to: the limiter
      when it was accepted, the server, or a failing send. */
  lemma {:induction false} ClosedByFirst(events: seq<Event>, id: SessionId, who: Closer)
    ensures id in Run(events).closed && Run(events).closed[id] == who <==> exists i: nat :: FirstCloses(events, i, id, who)
  {
    if events != [] {
      var n := |events| - 1;
      ClosedByFirst(events[..n], id, who);
      ClosedMeansCloses(events[..n], id);
      StepCloses(events, id, who);
      forall i: nat | i < n ensures FirstCloses(events[..n], i, id, who) <==> FirstCloses(events, i, id, who) {
        FirstClosesEarlier(events, n, i, id, who);
      }
      forall i: nat, other | i < n ensures Closes(events[..n], i, id, other) <==> Closes(events, i, id, other) {
        ClosesEarlier(events, n, i, id, other);
      }
      assert FirstCloses(events, n, id, who) <==> Closes(events, n, id, who) && id !in Run(events[..n]).closed;
    }
  }

  // ----- in place -----

  /** SessionManager with the counters and the disconnect flags of its sessions. */
  class SessionManager {
    var sessions: set<SessionId>
    var nextSessionId: SessionId
    var disconnected: map<SessionId, Closer>
    var totalConnections: nat
    var currentConnections: int
    var policyRejections: nat

    ghost function View(): State
      reads this
    {
      State(sessions, nextSessionId, disconnected, totalConnections, currentConnections, policyRejections)
    }

    constructor ()
      ensures View() == Initial()
    {
      sessions, nextSessionId, disconnected := {}, 1, map[];
      totalConnections, currentConnections, policyRejections := 0, 0, 0;
    }

    method Add() returns (id: SessionId)
      modifies `nextSessionId, `sessions
      ensures id == old(nextSessionId) && nextSessionId == id + 1
      ensures sessions == old(sessions) + {id}
    {
      id := nextSessionId;
      nextSessionId := nextSessionId + 1;
      sessions := sessions + {id};
    }

    method Remove(id: SessionId)
      modifies `sessions
      ensures sessions == old(sessions) - {id}
    {
      sessions := sessions - {id};
    }

    /** The atomic exchange of ServerSession::Disconnect: true for the first caller only. */
    method Disconnect(id: SessionId, who: Closer) returns (first: bool)
      modifies `disconnected
      ensures first <==> id !in old(disconnected)
      ensures disconnected == if first then old(disconnected)[id := who] else old(disconnected)
    {
      first := id !in disconnected;
      if first {
        disconnected := disconnected[id := who];
      }
    }

    method AcceptCompletion(hasToken: bool) returns (admitted: bool)
      requires Inv(View())
      modifies this
      ensures View() == Step(old(View()), Accept(hasToken)) && Inv(View())
      ensures admitted <==> hasToken
    {
      StepKeeps(View(), Accept(hasToken));
      var id := Add();
      if !hasToken {
        policyRejections := policyRejections + 1;
        var first := Disconnect(id, ByPolicy);
        Remove(id);
        return false;
      }
      totalConnections := totalConnections + 1;
      currentConnections := currentConnections + 1;
      return true;
    }

    method Drop(id: SessionId)
      requires Inv(View()) && Exists(View(), id)
      modifies this
      ensures View() == Step(old(View()), HandleDisconnect(id)) && Inv(View())
    {
      StepKeeps(View(), HandleDisconnect(id));
      var first := Disconnect(id, ByServer);
      if !first {
        return;
      }
      currentConnections := currentConnections - 1;
      Remove(id);
    }

    method SendFailed(id: SessionId)
      requires Inv(View()) && Exists(View(), id)
      modifies this
      ensures View() == Step(old(View()), SendFails(id)) && Inv(View())
    {
      StepKeeps(View(), SendFails(id));
      var first := Disconnect(id, BySend);
    }
  }
}
