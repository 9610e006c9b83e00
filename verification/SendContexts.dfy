/** The life of a send context: taken from the pool, filled, posted, completed, returned. Every
    step below is atomic; any number of sends of any number of sessions interleave. */
module SendContexts {
  import opened Bytes
  import opened Collections

  type ContextId = nat
  type SessionId = nat

  /** What lies in a context's memory. A recycled context still holds its last message until it
      is filled again. */
  datatype Memory = Memory(session: SessionId, buffer: seq<byte>)

  datatype Stage = Held | InFlight

  /** The trace of the pool: which allocation carried which message, when a context went back,
      and what bytes the network took from it. */
  datatype Entry =
    | Allocated(id: ContextId, session: SessionId, message: seq<byte>)
    | Returned(id: ContextId)
    | Taken(id: ContextId, session: SessionId, bytes: seq<byte>)

  datatype State = State(
    created: nat,                       // contexts constructed so far, numbered from 0
    free: seq<ContextId>,               // the pool, oldest first
    busy: map<ContextId, Stage>,        // contexts some thread or the network holds
    memory: map<ContextId, Memory>,
    closed: set<SessionId>,             // sessions whose Disconnect has run
    log: seq<Entry>)

  datatype Event =
    | Begin(session: SessionId, message: seq<byte>, shared: bool)  // up to the filled context
    | Abort(id: ContextId)                // serialisation failed
    | Post(id: ContextId, fails: bool)    // PostSend, with WSASend's answer
    | Complete(id: ContextId, success: bool)  // the completion is dequeued
    | Close(session: SessionId)           // any other Disconnect

  function Initial(): State {
    State(0, [], map[], map[], {}, [])
  }

  function Allocate(s: State, session: SessionId, message: seq<byte>): State {
    var id := if s.free == [] then s.created else s.free[0];
    s.(created := if s.free == [] then s.created + 1 else s.created,
       free := if s.free == [] then [] else s.free[1..],
       busy := s.busy[id := Held],
       memory := s.memory[id := Memory(session, message)],
       log := s.log + [Allocated(id, session, message)])
  }

  function Deallocate(s: State, id: ContextId): State {
    s.(free := s.free + [id], busy := s.busy - {id}, log := s.log + [Returned(id)])
  }

  /** A step that is not possible in `s` leaves it as it is. */
  function Step(s: State, e: Event): State {
    match e
    case Begin(session, message, shared) =>
      if session in s.closed || (!shared && |message| > MAX_BUF_SIZE) then s
      else Allocate(s, session, message)
    case Abort(id) =>
      if id in s.busy && s.busy[id] == Held then Deallocate(s, id) else s
    case Post(id, fails) =>
      if id !in s.busy || s.busy[id] != Held || id !in s.memory then s
      else if s.memory[id].session in s.closed then Deallocate(s, id)
      else if fails then Deallocate(s, id).(closed := s.closed + {s.memory[id].session})
      else s.(busy := s.busy[id := InFlight])
    case Complete(id, success) =>
      if id !in s.busy || s.busy[id] != InFlight || id !in s.memory then s
      else
        var m := s.memory[id];
        if success then Deallocate(s.(log := s.log + [Taken(id, m.session, m.buffer)]), id)
        else Deallocate(s, id).(closed := s.closed + {m.session})
    case Close(session) => s.(closed := s.closed + {session})
  }

  function Run(events: seq<Event>): State {
    if events == [] then Initial() else Step(Run(events[..|events| - 1]), events[|events| - 1])
  }

  // ----- reading the trace -----

  function Allocations(log: seq<Entry>, id: ContextId): nat {
    if log == [] then 0
    else Allocations(log[..|log| - 1], id) + (if log[|log| - 1].Allocated? && log[|log| - 1].id == id then 1 else 0)
  }

  function Returns(log: seq<Entry>, id: ContextId): nat {
    if log == [] then 0
    else Returns(log[..|log| - 1], id) + (if log[|log| - 1] == Returned(id) then 1 else 0)
  }

  /** What the most recent allocation of a context was for. */
  function LastAllocation(log: seq<Entry>, id: ContextId): Option<Memory> {
    if log == [] then None
    else
      var e := log[|log| - 1];
      if e.Allocated? && e.id == id then Some(Memory(e.session, e.message))
      else LastAllocation(log[..|log| - 1], id)
  }

  /** Every time the network took bytes, they were the message of the current allocation, sent
      on the session it was meant for. */
  ghost predicate Faithful(log: seq<Entry>) {
    forall i :: 0 <= i < |log| && log[i].Taken? ==>
      LastAllocation(log[..i], log[i].id) == Some(Memory(log[i].session, log[i].bytes))
  }

  // ----- the invariant -----

  /** Every context ever created is in the pool or in use, never both, and in the pool once. */
  ghost predicate Conserved(s: State) {
    && NoDuplicates(s.free)
    && (forall i :: 0 <= i < |s.free| ==> s.free[i] !in s.busy && s.free[i] < s.created)
    && (forall id :: id in s.busy ==> id < s.created)
    && s.created == |s.free| + |s.busy|
  }

  /** Each allocation has been returned, once, unless its context is still in use. */
  ghost predicate Balanced(s: State) {
    forall id :: Allocations(s.log, id) == Returns(s.log, id) + (if id in s.busy then 1 else 0)
  }

  ghost predicate Intact(s: State) {
    forall id :: id in s.busy ==> id in s.memory && LastAllocation(s.log, id) == Some(s.memory[id])
  }

  ghost predicate Inv(s: State) {
    Conserved(s) && Balanced(s) && Intact(s) && Faithful(s.log)
  }

  lemma FaithfulSnoc(log: seq<Entry>, e: Entry)
    requires Faithful(log)
    requires e.Taken? ==> LastAllocation(log, e.id) == Some(Memory(e.session, e.bytes))
    ensures Faithful(log + [e])
  {
    forall i | 0 <= i < |log + [e]| && (log + [e])[i].Taken?
      ensures LastAllocation((log + [e])[..i], (log + [e])[i].id) == Some(Memory((log + [e])[i].session, (log + [e])[i].bytes))
    {
      if i < |log| {
        assert (log + [e])[..i] == log[..i];
      } else {
        assert (log + [e])[..i] == log;
      }
    }
  }

  lemma LogSnoc(log: seq<Entry>, e: Entry, id: ContextId)
    ensures Allocations(log + [e], id) == Allocations(log, id) + (if e.Allocated? && e.id == id then 1 else 0)
    ensures Returns(log + [e], id) == Returns(log, id) + (if e == Returned(id) then 1 else 0)
    ensures LastAllocation(log + [e], id) ==
      if e.Allocated? && e.id == id then Some(Memory(e.session, e.message)) else LastAllocation(log, id)
  {
    assert (log + [e])[..|log|] == log;
  }

  lemma AllocateConserves(s: State, session: SessionId, message: seq<byte>)
    requires Conserved(s)
    ensures Conserved(Allocate(s, session, message))
    ensures (if s.free == [] then s.created else s.free[0]) !in s.busy
  {
    var id := if s.free == [] then s.created else s.free[0];
    var t := Allocate(s, session, message);
    assert id !in s.busy;
    assert t.busy.Keys == s.busy.Keys + {id};
    assert |t.busy| == |t.busy.Keys| && |s.busy| == |s.busy.Keys|;
    assert forall i :: 0 <= i < |t.free| ==> t.free[i] == s.free[i + 1];
  }

  lemma AllocateKeeps(s: State, session: SessionId, message: seq<byte>)
    requires Inv(s)
    ensures Inv(Allocate(s, session, message))
  {
    var id := if s.free == [] then s.created else s.free[0];
    var e := Allocated(id, session, message);
    var t := Allocate(s, session, message);
    AllocateConserves(s, session, message);
    FaithfulSnoc(s.log, e);
    forall c ensures Allocations(t.log, c) == Returns(t.log, c) + (if c in t.busy then 1 else 0) {
      LogSnoc(s.log, e, c);
    }
    forall c | c in t.busy ensures c in t.memory && LastAllocation(t.log, c) == Some(t.memory[c]) {
      LogSnoc(s.log, e, c);
    }
  }

  lemma DeallocateKeeps(s: State, id: ContextId)
    requires Inv(s) && id in s.busy
    ensures Inv(Deallocate(s, id))
  {
    var t := Deallocate(s, id);
    assert t.busy.Keys == s.busy.Keys - {id};
    assert |t.busy| == |t.busy.Keys| && |s.busy| == |s.busy.Keys|;
    FaithfulSnoc(s.log, Returned(id));
    forall c ensures Allocations(t.log, c) == Returns(t.log, c) + (if c in t.busy then 1 else 0) {
      LogSnoc(s.log, Returned(id), c);
    }
    forall c | c in t.busy ensures c in t.memory && LastAllocation(t.log, c) == Some(t.memory[c]) {
      LogSnoc(s.log, Returned(id), c);
    }
  }

  lemma TakenKeeps(s: State, id: ContextId)
    requires Inv(s) && id in s.busy
    ensures Inv(s.(log := s.log + [Taken(id, s.memory[id].session, s.memory[id].buffer)]))
  {
    var e := Taken(id, s.memory[id].session, s.memory[id].buffer);
    FaithfulSnoc(s.log, e);
    forall c ensures
      && Allocations(s.log + [e], c) == Allocations(s.log, c)
      && Returns(s.log + [e], c) == Returns(s.log, c)
      && LastAllocation(s.log + [e], c) == LastAllocation(s.log, c)
    {
      LogSnoc(s.log, e, c);
    }
  }

  lemma PostKeeps(s: State, id: ContextId)
    requires Inv(s) && id in s.busy
    ensures Inv(s.(busy := s.busy[id := InFlight]))
  {
    assert s.busy[id := InFlight].Keys == s.busy.Keys;
    assert |s.busy[id := InFlight]| == |s.busy[id := InFlight].Keys| && |s.busy| == |s.busy.Keys|;
  }

  lemma CloseKeeps(s: State, session: SessionId)
    requires Inv(s)
    ensures Inv(s.(closed := s.closed + {session}))
  {
  }

  lemma PostStepKeeps(s: State, id: ContextId, fails: bool)
    requires Inv(s)
    ensures Inv(Step(s, Post(id, fails)))
  {
    if id in s.busy {
      PostKeeps(s, id);
      DeallocateKeeps(s, id);
      CloseKeeps(Deallocate(s, id), s.memory[id].session);
    }
  }

  lemma CompleteStepKeeps(s: State, id: ContextId, success: bool)
    requires Inv(s)
    ensures Inv(Step(s, Complete(id, success)))
  {
    if id in s.busy {
      var m := s.memory[id];
      TakenKeeps(s, id);
      DeallocateKeeps(s.(log := s.log + [Taken(id, m.session, m.buffer)]), id);
      DeallocateKeeps(s, id);
      CloseKeeps(Deallocate(s, id), m.session);
    }
  }

  lemma StepKeeps(s: State, e: Event)
    requires Inv(s)
    ensures Inv(Step(s, e))
  {
    match e
    case Begin(session, message, _) => AllocateKeeps(s, session, message);
    case Abort(id) => if id in s.busy { DeallocateKeeps(s, id); }
    case Post(id, fails) => PostStepKeeps(s, id, fails);
    case Complete(id, success) => CompleteStepKeeps(s, id, success);
    case Close(session) => CloseKeeps(s, session);
  }

  lemma {:induction false} RunKeeps(events: seq<Event>)
    ensures Inv(Run(events))
  {
    if events != [] {
      RunKeeps(events[..|events| - 1]);
      StepKeeps(Run(events[..|events| - 1]), events[|events| - 1]);
    }
  }

  /** On every run: created = free + in use, nothing is in the pool twice or in the pool and in
      use, and every allocation is returned exactly once unless still in use. */
  lemma Conservation(events: seq<Event>, id: ContextId)
    ensures var s := Run(events);
      && s.created == |s.free| + |s.busy| && NoDuplicates(s.free)
      && (id in s.free ==> id !in s.busy)
      && Allocations(s.log, id) - Returns(s.log, id) == (if id in s.busy then 1 else 0)
  {
    RunKeeps(events);
  }

  /** A context in use is never overwritten: whenever the network took bytes, they were the
      message of the latest allocation of that context, for the session it was posted on. */
  lemma NetworkTakesWhatWasPosted(events: seq<Event>, i: nat)
    requires var log := Run(events).log; i < |log| && log[i].Taken?
    ensures var log := Run(events).log;
      LastAllocation(log[..i], log[i].id) == Some(Memory(log[i].session, log[i].bytes))
  {
    RunKeeps(events);
  }

  /** Posting either hands the context to the network or returns it, and returns it exactly when
      the session is closed already or the send fails at once, which closes it. */
  lemma PostReturnsExactly(s: State, id: ContextId, fails: bool)
    requires Inv(s) && id in s.busy && s.busy[id] == Held
    ensures var t := Step(s, Post(id, fails)); var owner := s.memory[id].session;
      if owner in s.closed || fails then id !in t.busy && t.free == s.free + [id] && owner in t.closed
      else id in t.busy && t.busy[id] == InFlight && t.free == s.free && t.closed == s.closed
  {
  }

  /** A completion returns its context, exactly once: a second completion of the same posting
      changes nothing. */
  lemma CompletionReturnsOnce(events: seq<Event>, id: ContextId, success: bool, again: bool)
    requires var s := Run(events); id in s.busy && s.busy[id] == InFlight
    ensures var s := Run(events); var t := Step(s, Complete(id, success));
      && t.free == s.free + [id] && id !in t.busy
      && Returns(t.log, id) == Returns(s.log, id) + 1
      && Step(t, Complete(id, again)) == t
  {
    RunKeeps(events);
    var s := Run(events);
    var m := s.memory[id];
    LogSnoc(s.log, Returned(id), id);
    LogSnoc(s.log, Taken(id, m.session, m.buffer), id);
    LogSnoc(s.log + [Taken(id, m.session, m.buffer)], Returned(id), id);
  }
}
