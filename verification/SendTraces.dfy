/** What is sent, told from the requests alone: which Begin event took a context, what the network
    gets when that send completes, and which sessions the failures close. */
module SendTraces {
  import opened Bytes
  import opened Collections
  import opened SendContexts

  /** The i-th event is the request for a send that took this context. */
  ghost predicate Took(events: seq<Event>, i: nat, id: ContextId) {
    i < |events| && events[i].Begin? && id !in Run(events[..i]).busy && id in Run(events[..i + 1]).busy
  }

  /** And no later one has taken it since. */
  ghost predicate LastTook(events: seq<Event>, i: nat, id: ContextId) {
    Took(events, i, id) && forall j :: i < j < |events| ==> !Took(events, j, id)
  }

  lemma RunSnoc(events: seq<Event>, e: Event)
    ensures Run(events + [e]) == Step(Run(events), e)
  {
    assert (events + [e])[..|events|] == events;
  }

  /** Whether a context was taken by an event does not depend on what comes later. */
  lemma TookEarlier(events: seq<Event>, n: nat, i: nat, id: ContextId)
    requires i < n <= |events|
    ensures Took(events[..n], i, id) <==> Took(events, i, id)
  {
    assert events[..n][..i] == events[..i] && events[..n][..i + 1] == events[..i + 1];
  }

  lemma StillLast(events: seq<Event>, n: nat, i: nat, id: ContextId)
    requires n < |events| && LastTook(events[..n], i, id) && forall j :: n <= j < |events| ==> !Took(events, j, id)
    ensures LastTook(events, i, id)
  {
    TookEarlier(events, n, i, id);
    forall j | i < j < |events| ensures !Took(events, j, id) {
      if j < n {
        TookEarlier(events, n, j, id);
      }
    }
  }

  /** What one event does to a context that is in use before or after it. */
  lemma StepBusy(s: State, e: Event, id: ContextId)
    requires Inv(s) && id in Step(s, e).busy
    ensures id !in s.busy ==> e.Begin? && Step(s, e).memory[id] == Memory(e.session, e.message)
    ensures id in s.busy ==> Step(s, e).memory[id] == s.memory[id]
  {
    if e.Begin? {
      AllocateConserves(s, e.session, e.message);
    }
  }

  lemma LastStepBusy(events: seq<Event>, id: ContextId)
    requires events != [] && id in Run(events).busy
    ensures var n := |events| - 1; var s, t := Run(events[..n]), Run(events);
      && id in t.memory
      && (if id in s.busy then !Took(events, n, id) && id in s.memory && t.memory[id] == s.memory[id]
          else Took(events, n, id) && t.memory[id] == Memory(events[n].session, events[n].message))
  {
    var n := |events| - 1;
    RunKeeps(events);
    RunKeeps(events[..n]);
    StepBusy(Run(events[..n]), events[n], id);
    assert events[..n + 1] == events;
  }

  /** A context in use holds session and message of the request that took it last. */
  lemma {:induction false} BusyIsBegun(events: seq<Event>, id: ContextId) returns (i: nat)
    requires id in Run(events).busy
    ensures LastTook(events, i, id)
    ensures id in Run(events).memory && Run(events).memory[id] == Memory(events[i].session, events[i].message)
  {
    assert events != [];
    var n := |events| - 1;
    LastStepBusy(events, id);
    if id in Run(events[..n]).busy {
      i := BusyIsBegun(events[..n], id);
      StillLast(events, n, i, id);
    } else {
      i := n;
    }
  }

  // ----- what a request, a post and a completion bring about -----

  /** What a request does: it takes the oldest context of the pool, or a new one, unless the
      session is closed or the message does not fit; then nothing happens. */
  ghost predicate Begins(s: State, t: State, session: SessionId, message: seq<byte>, shared: bool, id: ContextId) {
    if session in s.closed || (!shared && |message| > 4096) then t == s
    else
      && id !in s.busy && t.busy == s.busy[id := Held] && t.closed == s.closed
      && id in t.memory && t.memory[id] == Memory(session, message)
      && t.log == s.log + [Allocated(id, session, message)]
      && (if s.free == [] then id == s.created && t.free == [] && t.created == s.created + 1
          else s.free == [id] + t.free && t.created == s.created)
  }

  lemma StepBegins(s: State, session: SessionId, message: seq<byte>, shared: bool) returns (id: ContextId)
    requires Conserved(s)
    ensures Begins(s, Step(s, Begin(session, message, shared)), session, message, shared, id)
  {
    AllocateConserves(s, session, message);
    id := if s.free == [] then s.created else s.free[0];
  }

  lemma BeginTakes(events: seq<Event>, session: SessionId, message: seq<byte>, shared: bool) returns (id: ContextId)
    ensures Begins(Run(events), Run(events + [Begin(session, message, shared)]), session, message, shared, id)
  {
    RunKeeps(events);
    RunSnoc(events, Begin(session, message, shared));
    id := StepBegins(Run(events), session, message, shared);
  }

  /** A send given up before it was posted returns its context and closes nothing. */
  lemma AbortReturns(events: seq<Event>, id: ContextId)
    requires id in Run(events).busy && Run(events).busy[id] == Held
    ensures var s := Run(events); var t := Run(events + [Abort(id)]);
      t.free == s.free + [id] && t.busy == s.busy - {id} && t.log == s.log + [Returned(id)] && t.closed == s.closed
  {
    RunSnoc(events, Abort(id));
  }

  /** The completion of a send: if it succeeds the network has got the session and message of the
      request that took the context, and no session is closed; if it fails, the network has got
      nothing and exactly that session is closed. */
  lemma CompletionTakes(events: seq<Event>, id: ContextId, success: bool) returns (i: nat)
    requires var s := Run(events); id in s.busy && s.busy[id] == InFlight
    ensures LastTook(events, i, id)
    ensures var s := Run(events); var t := Run(events + [Complete(id, success)]);
      if success then
        t.log == s.log + [Taken(id, events[i].session, events[i].message)] + [Returned(id)] && t.closed == s.closed
      else
        t.log == s.log + [Returned(id)] && t.closed == s.closed + {events[i].session}
  {
    i := BusyIsBegun(events, id);
    RunSnoc(events, Complete(id, success));
  }

  /** A message sent on an open session, if it fits, reaches the network as it is, provided that
      posting and completion succeed. */
  lemma SentIsTaken(events: seq<Event>, session: SessionId, message: seq<byte>, shared: bool) returns (id: ContextId)
    requires session !in Run(events).closed && (shared || |message| <= MAX_BUF_SIZE)
    ensures Run(events + [Begin(session, message, shared)] + [Post(id, false)] + [Complete(id, true)]).log ==
      Run(events).log + [Allocated(id, session, message)] + [Taken(id, session, message)] + [Returned(id)]
  {
    id := BeginTakes(events, session, message, shared);
    RunSnoc(events + [Begin(session, message, shared)], Post(id, false));
    RunSnoc(events + [Begin(session, message, shared)] + [Post(id, false)], Complete(id, true));
  }

  // ----- the whole trace -----

  /** The k-th event is the successful completion of the send that the i-th event requested. */
  ghost predicate Delivers(events: seq<Event>, k: nat, i: nat, id: ContextId) {
    && k < |events| && events[k] == Complete(id, true)
    && id in Run(events[..k]).busy && Run(events[..k]).busy[id] == InFlight && LastTook(events[..k], i, id)
  }

  lemma DeliversEarlier(events: seq<Event>, n: nat, k: nat, i: nat, id: ContextId)
    requires n <= |events| && Delivers(events[..n], k, i, id)
    ensures Delivers(events, k, i, id)
  {
    assert events[..n][..k] == events[..k];
  }

  lemma OnlyCompletionsTake(s: State, e: Event, p: nat)
    requires |s.log| <= p < |Step(s, e).log| && Step(s, e).log[p].Taken?
    ensures e == Complete(Step(s, e).log[p].id, true) && e.id in s.busy && s.busy[e.id] == InFlight
    ensures p == |s.log| && |Step(s, e).log| == |s.log| + 2
  {
  }

  lemma LogGrows(s: State, e: Event)
    ensures s.log <= Step(s, e).log
  {
  }

  /** Whatever the network ever got is the message of a request, on the session it was meant for:
      the request that had last taken the context when that send completed. */
  lemma {:induction false} TakenIsBegun(events: seq<Event>, p: nat) returns (k: nat, i: nat)
    requires p < |Run(events).log| && Run(events).log[p].Taken?
    ensures var e := Run(events).log[p];
      Delivers(events, k, i, e.id) && e.session == events[i].session && e.bytes == events[i].message
  {
    var n := |events| - 1;
    var s, e := Run(events[..n]), events[n];
    LogGrows(s, e);
    if p < |s.log| {
      k, i := TakenIsBegun(events[..n], p);
      DeliversEarlier(events, n, k, i, s.log[p].id);
    } else {
      OnlyCompletionsTake(s, e, p);
      k := n;
      i := CompletionTakes(events[..n], e.id, true);
      assert events[..n] + [e] == events;
    }
  }

  /** The k-th event closes the session: somebody disconnects it, or a send of it fails at once or
      on completion. */
  ghost predicate Closes(events: seq<Event>, k: nat, session: SessionId) {
    && k < |events|
    && match events[k]
       case Close(s) => s == session
       case Post(id, fails) => fails && Sends(events[..k], id, Held, session)
       case Complete(id, success) => !success && Sends(events[..k], id, InFlight, session)
       case _ => false
  }

  /** The context is in use, at that stage, for a send on the session. */
  ghost predicate Sends(events: seq<Event>, id: ContextId, stage: Stage, session: SessionId) {
    && id in Run(events).busy && Run(events).busy[id] == stage
    && exists i: nat :: LastTook(events, i, id) && events[i].session == session
  }

  lemma SendsMeansMemory(events: seq<Event>, id: ContextId, stage: Stage, session: SessionId)
    ensures Sends(events, id, stage, session) <==>
      var s := Run(events); id in s.busy && s.busy[id] == stage && id in s.memory && s.memory[id].session == session
  {
    if id in Run(events).busy {
      var i := BusyIsBegun(events, id);
      forall j: nat | LastTook(events, j, id) ensures j == i {
        assert !(i < j) && !(j < i);
      }
    }
  }

  /** A session is closed if and only if some event has closed it. */
  lemma {:induction false} ClosedExactly(events: seq<Event>, session: SessionId)
    ensures session in Run(events).closed <==> exists k: nat :: Closes(events, k, session)
  {
    if events != [] {
      var n := |events| - 1;
      ClosedExactly(events[..n], session);
      assert forall k :: 0 <= k < n ==> events[..n][..k] == events[..k];
      assert forall k :: 0 <= k < n ==> (Closes(events, k, session) <==> Closes(events[..n], k, session));
      var e := events[n];
      if e.Post? {
        SendsMeansMemory(events[..n], e.id, Held, session);
      } else if e.Complete? {
        SendsMeansMemory(events[..n], e.id, InFlight, session);
      }
      assert session in Run(events).closed <==> session in Run(events[..n]).closed || Closes(events, n, session);
    }
  }
}
