/** Sessions that are closed and yet stay members of a room. A disconnect queues a leave on the
    room the session points to at that moment, if it points to one, and a session that PostSend
    closes gets none at all: HandleDisconnect returns early when it is called for it later. */
module DeadMembers {
  import opened RoomModel
  import opened RoomSafety
  import opened World
  import opened WorldSafety
  import opened SmallRooms
  import opened Stories
  import Registry = SessionRegistry

  predicate LeavePending(r: Room, s: SessionId) {
    Leave(s) in r.batch || Leave(s) in r.jobs
  }

  /** No packet of the session is handled; everything else may happen. */
  ghost predicate Silent(events: seq<Event>, s: SessionId) {
    forall i :: 0 <= i < |events| ==> !IsPacketOf(events[i], s)
  }

  predicate IsPacketOf(e: Event, s: SessionId) {
    (e.EnterRequest? || e.LeaveRequest? || e.ReadyRequest? || e.MoveRequest?) && e.session == s
  }

  /** Whatever happens from now on, the session is a member of the room, and so the room is never
      collected. */
  ghost predicate Stuck(w: State, s: SessionId, room: RoomId, cfg: Config) {
    forall events :: Silent(events, s) ==> IsMember(StepAll(w, events, cfg), s, room)
  }

  predicate IsMember(w: State, s: SessionId, room: RoomId) {
    room in w.rooms && s in w.rooms[room].members
  }

  // ----- without a leave in the queue nothing ever removes it -----

  predicate Abandoned(w: State, s: SessionId, room: RoomId) {
    s in w.sessions.closed && IsMember(w, s, room) && !LeavePending(w.rooms[room], s)
  }

  lemma PushAbandons(w: State, target: RoomId, job: Job, s: SessionId, room: RoomId)
    requires Abandoned(w, s, room) && job != Leave(s)
    ensures Abandoned(PushTo(w, target, job), s, room)
  {
  }

  lemma RequestAbandons(w: State, e: Event, s: SessionId, room: RoomId, cfg: Config)
    requires Abandoned(w, s, room) && !IsPacketOf(e, s)
    requires e.LoginDone? || e.LeaveRequest? || e.ReadyRequest? || e.MoveRequest?
    ensures Abandoned(Step(w, e, cfg), s, room)
  {
    var t, a := e.session, AccountOf(w.accounts, e.session);
    if e.LoginDone? {
      PushAbandons(w, e.choice, Rejoin(t), s, room);
    } else if t in w.at {
      PushAbandons(w, w.at[t], if e.ReadyRequest? then Ready(a) else if e.MoveRequest? then Move(a, e.position) else Leave(t), s, room);
    }
  }

  lemma DisconnectAbandons(w: State, t: SessionId, s: SessionId, room: RoomId)
    requires Abandoned(w, s, room)
    ensures Abandoned(HandleDisconnect(w, t), s, room)
  {
    if t in w.at && t != s {
      PushAbandons(w, w.at[t], Leave(t), s, room);
    }
  }

  lemma EnterAbandons(w: State, t: SessionId, name: string, s: SessionId, room: RoomId, cfg: Config)
    requires Abandoned(w, s, room) && t != s && NamesGood(w)
    ensures Abandoned(RequestEnter(w, t, name, cfg), s, room)
  {
    var u := PushToCurrent(w, t, Leave(t));
    if t in w.at {
      PushAbandons(w, w.at[t], Leave(t), s, room);
    }
    var (v, target) := GetOrCreate(u, name, cfg);
    assert Abandoned(v, s, room);
    PushAbandons(v, target, Enter(t), s, room);
  }

  lemma JobAbandons(r: Room, accounts: Accounts, now: int, first: SessionId, s: SessionId)
    requires r.batch != [] && s in r.members && !LeavePending(r, s)
    ensures var q := RunNext(r, accounts, now, first); s in q.members && !LeavePending(q, s)
  {
    JobMembers(r, accounts, now, first);
    RunNextQueues(r, accounts, now, first);
    assert r.batch[0] != Leave(s);
  }

  lemma RoomStepAbandons(w: State, e: Event, s: SessionId, room: RoomId, cfg: Config)
    requires Abandoned(w, s, room) && (e.BeginFlush? || e.RunJob? || e.EndTick?)
    ensures Abandoned(Step(w, e, cfg), s, room)
  {
    if e.room == room {
      if e.RunJob? && w.rooms[room].batch != [] {
        JobAbandons(w.rooms[room], w.accounts, w.now, e.first, s);
      }
    }
  }

  lemma CollectAbandons(w: State, s: SessionId, room: RoomId, cfg: Config)
    requires Abandoned(w, s, room) && RoomsGood(w, cfg)
    ensures Abandoned(Collect(w, cfg), s, room)
  {
    if Idle(w, room, cfg) {
      IdleRoom(w.rooms[room], w.now, cfg);
    }
  }

  lemma SessionStepAbandons(w: State, e: Event, s: SessionId, room: RoomId, cfg: Config)
    requires Abandoned(w, s, room) && !IsPacketOf(e, s)
    requires e.Tick? || e.Connection? || e.Disconnect? || (e.EnterRequest? && NamesGood(w))
    ensures Abandoned(Step(w, e, cfg), s, room)
  {
    if e.EnterRequest? {
      EnterAbandons(w, e.session, e.name, s, room, cfg);
    } else if e.Disconnect? {
      DisconnectAbandons(w, e.session, s, room);
    }
  }

  lemma StepAbandons(w: State, e: Event, s: SessionId, room: RoomId, cfg: Config)
    requires NamesGood(w) && RoomsGood(w, cfg) && Abandoned(w, s, room) && !IsPacketOf(e, s)
    ensures Abandoned(Step(w, e, cfg), s, room)
  {
    if e.CollectIdle? {
      CollectAbandons(w, s, room, cfg);
    } else if e.BeginFlush? || e.RunJob? || e.EndTick? {
      RoomStepAbandons(w, e, s, room, cfg);
    } else if e.LoginDone? || e.LeaveRequest? || e.ReadyRequest? || e.MoveRequest? {
      RequestAbandons(w, e, s, room, cfg);
    } else {
      SessionStepAbandons(w, e, s, room, cfg);
    }
  }

  lemma {:induction false} AbandonedForGood(w: State, events: seq<Event>, s: SessionId, room: RoomId, cfg: Config)
    requires Inv(w, cfg) && Abandoned(w, s, room) && Silent(events, s)
    ensures Abandoned(StepAll(w, events, cfg), s, room)
  {
    if events != [] {
      var n := |events| - 1;
      AbandonedForGood(w, events[..n], s, room, cfg);
      StepAllKeeps(w, events[..n], cfg);
      StepAbandons(StepAll(w, events[..n], cfg), events[n], s, room, cfg);
    }
  }

  // ----- with one, the next ticks remove it -----

  lemma SomebodyFirst(r: Room, job: Job) returns (first: SessionId)
    ensures CanComeFirst(r, job, first)
  {
    first := 0;
    if job.Leave? && job.session in r.members && r.phase == InGame && r.members != {job.session} {
      assert r.members - {job.session} != {};
      first :| first in r.members && first != job.session;
    }
  }

  lemma StepFirst(w: State, e: Event, events: seq<Event>, cfg: Config)
    ensures StepAll(w, [e] + events, cfg) == StepAll(Step(w, e, cfg), events, cfg)
  {
    StepAllAppend(w, [e], events, cfg);
    assert [e][..0] == [];
    assert StepAll(w, [e], cfg) == Step(w, e, cfg);
  }

  /** Flushing the room and running its jobs, up to the leave. */
  lemma {:induction false} LeaveRuns(w: State, s: SessionId, room: RoomId, cfg: Config) returns (events: seq<Event>)
    requires room in w.rooms && LeavePending(w.rooms[room], s)
    ensures Silent(events, s) && !IsMember(StepAll(w, events, cfg), s, room)
    decreases |w.rooms[room].batch| + |w.rooms[room].jobs|, |w.rooms[room].jobs|
  {
    var r := w.rooms[room];
    var e := BeginFlush(room);
    if r.batch != [] {
      var first := SomebodyFirst(r, r.batch[0]);
      e := RunJob(room, first);
      RunNextQueues(r, w.accounts, w.now, first);
      JobMembers(r, w.accounts, w.now, first);
    }
    var v := Step(w, e, cfg);
    assert room in v.rooms;
    var rest := [];
    if r.batch == [] || r.batch[0] != Leave(s) {
      rest := LeaveRuns(v, s, room, cfg);
    }
    events := [e] + rest;
    StepFirst(w, e, rest, cfg);
  }

  /** A closed session that is a member of a room stays one for good if and only if no leave of it
      waits in the room's queue. */
  lemma ClosedMemberStays(w: State, s: SessionId, room: RoomId, cfg: Config)
    requires Inv(w, cfg) && s in w.sessions.closed && IsMember(w, s, room)
    ensures Stuck(w, s, room, cfg) <==> !LeavePending(w.rooms[room], s)
  {
    if LeavePending(w.rooms[room], s) {
      var events := LeaveRuns(w, s, room, cfg);
    } else {
      forall events | Silent(events, s) ensures IsMember(StepAll(w, events, cfg), s, room) {
        AbandonedForGood(w, events, s, room, cfg);
      }
    }
  }

  lemma DisconnectQueues(w: State, s: SessionId, room: RoomId)
    requires Registry.Exists(w.sessions, s) && s !in w.sessions.closed && IsMember(w, s, room)
    ensures var v := HandleDisconnect(w, s);
      && s in v.sessions.closed && IsMember(v, s, room)
      && (LeavePending(v.rooms[room], s) <==> LeavePending(w.rooms[room], s) || (s in w.at && w.at[s] == room))
  {
  }

  lemma SendFailureQueues(w: State, s: SessionId)
    requires Registry.Exists(w.sessions, s) && s !in w.sessions.closed
    ensures var sessions := Registry.Step(w.sessions, Registry.SendFails(s));
      && s in sessions.closed && HandleDisconnect(w.(sessions := sessions), s) == w.(sessions := sessions)
  {
  }

  /** A member that the server disconnects stays a member for good if and only if it does not
      point to the room at that moment and had not asked to leave it. */
  lemma DisconnectedMemberStays(start: int, events: seq<Event>, cfg: Config, s: SessionId, room: RoomId)
    requires 0 < start
    requires var w := Run(start, events, cfg);
      Registry.Exists(w.sessions, s) && s !in w.sessions.closed && IsMember(w, s, room)
    ensures var w := Run(start, events, cfg);
      Stuck(Step(w, Disconnect(s), cfg), s, room, cfg) <==>
        !LeavePending(w.rooms[room], s) && !(s in w.at && w.at[s] == room)
  {
    var w := Run(start, events, cfg);
    RunKeeps(start, events, cfg);
    StepKeeps(w, Disconnect(s), cfg);
    DisconnectQueues(w, s, room);
    ClosedMemberStays(HandleDisconnect(w, s), s, room, cfg);
  }

  /** A member closed by a failing send stays a member for good unless it had asked to leave, even
      if the server disconnects it as well. */
  lemma SendFailedMemberStays(start: int, events: seq<Event>, cfg: Config, s: SessionId, room: RoomId)
    requires 0 < start
    requires var w := Run(start, events, cfg);
      Registry.Exists(w.sessions, s) && s !in w.sessions.closed && IsMember(w, s, room)
    ensures var w := Run(start, events, cfg); var v := Step(w, Connection(Registry.SendFails(s)), cfg);
      && (Stuck(v, s, room, cfg) <==> !LeavePending(w.rooms[room], s))
      && Step(v, Disconnect(s), cfg) == v
  {
    var w := Run(start, events, cfg);
    var v := w.(sessions := Registry.Step(w.sessions, Registry.SendFails(s)));
    RunKeeps(start, events, cfg);
    ConnectionKeeps(w, Registry.SendFails(s), cfg);
    SendFailureQueues(w, s);
    ClosedMemberStays(v, s, room, cfg);
  }

  // ----- when it happens -----

  /** On no run does a closed session stay a member for good. */
  ghost predicate ClosedMembersLeave(cfg: Config) {
    forall start: int, events: seq<Event>, s: SessionId, room: RoomId ::
      0 < start && s in Run(start, events, cfg).sessions.closed && IsMember(Run(start, events, cfg), s, room) ==>
        !Stuck(Run(start, events, cfg), s, room, cfg)
  }

  lemma OneEnters(start: int, cfg: Config) returns (t: Story, r: Room)
    requires 0 < start && 1 <= cfg.maxPlayers
    ensures Told(t, start, cfg) && t.guests == 1 && Solo(t.w, start, r, map[1 := 0], map[1 := "a"])
    ensures r.members == {1} && r.jobs == [] && r.batch == []
  {
    t := Opening(start, cfg);
    t := NextPlayer(t, "a", start, cfg);
    assert t.w.accounts == map[1 := "a"];
    t, r := FirstEnter(t, 1, start, cfg);
    t, r := NextFlush(t, r, map[], map[1 := "a"], start, cfg);
    assert r.batch == [Enter(1)];
    t, r := NextJob(t, 0, r, map[], map[1 := "a"], start, cfg);
  }

  lemma DeadMember(start: int, cfg: Config) returns (events: seq<Event>)
    requires 0 < start && 1 <= cfg.maxPlayers
    ensures Real(start, events, cfg)
    ensures var w := Run(start, events, cfg); 1 in w.sessions.closed && IsMember(w, 1, 0) && Stuck(w, 1, 0, cfg)
  {
    var t, r := OneEnters(start, cfg);
    var e := Connection(Registry.SendFails(1));
    RunSessions(start, t.events, cfg);
    assert Connected(t.w.sessions, 1);
    RealSnoc(start, t.events, e, cfg);
    SendFailedMemberStays(start, t.events, cfg, 1, 0);
    events := t.events + [e];
  }

  /** Closed sessions always leave in the end if and only if nobody can enter at all. */
  lemma ClosedMembersLeaveExactly(cfg: Config)
    ensures ClosedMembersLeave(cfg) <==> cfg.maxPlayers <= 0
  {
    if cfg.maxPlayers <= 0 {
      forall start: int, events: seq<Event>, s: SessionId, room: RoomId | 0 < start ensures !IsMember(Run(start, events, cfg), s, room) {
        RunSmall(start, events, cfg);
      }
    } else {
      var events := DeadMember(1, cfg);
    }
  }
}
