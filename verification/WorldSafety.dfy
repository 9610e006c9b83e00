/** What holds in every reachable state of the room world. */
module WorldSafety {
  import opened RoomModel
  import opened RoomHistory
  import opened RoomSafety
  import opened World
  import Registry = SessionRegistry

  /** A session's room pointer leads to a registered room that has the session as a member. */
  ghost predicate PointersGood(w: State) {
    forall s :: s in w.at ==> w.at[s] in w.rooms && s in w.rooms[w.at[s]].members
  }

  ghost predicate AllHold(rooms: map<RoomId, Room>, now: int, window: int) {
    forall r :: r in rooms ==> RoomInv(rooms[r], now, window)
  }

  ghost predicate RoomsGood(w: State, cfg: Config) {
    AllHold(w.rooms, w.now, cfg.window)
  }

  /** Names and rooms correspond one to one; room numbers are below the next one to be used. */
  ghost predicate NamesGood(w: State) {
    && OneName(w)
    && (forall r :: r in w.rooms ==> r < w.nextRoom)
    && (forall r :: r in w.collected ==> r < w.nextRoom && r !in w.rooms)
  }

  /** A collected room owed nobody a slot, and satisfied the history laws to the end. */
  ghost predicate CollectedGood(w: State, cfg: Config) {
    && AllHold(w.collected, w.now, cfg.window)
    && (cfg.window <= cfg.idleMs ==>
          forall r, a :: r in w.collected && a in Owed(w.collected[r].log) ==> w.now - Owed(w.collected[r].log)[a] > cfg.window)
  }

  ghost predicate Inv(w: State, cfg: Config) {
    && 0 < w.now
    && PointersGood(w)
    && RoomsGood(w, cfg)
    && NamesGood(w)
    && CollectedGood(w, cfg)
  }

  /** A request to enter concerns names and rooms only. */
  lemma RequestEnterElsewhere(w: State, s: SessionId, name: string, cfg: Config)
    ensures var v := RequestEnter(w, s, name, cfg); v == w.(names := v.names, rooms := v.rooms, nextRoom := v.nextRoom)
  {
    var u := PushToCurrent(w, s, Leave(s));
    assert u == w.(rooms := u.rooms);
    var (v, room) := GetOrCreate(u, name, cfg);
    assert v == u.(names := v.names, rooms := v.rooms, nextRoom := v.nextRoom);
  }

  /** Nothing but clocks and rooms matters to the room half of the invariant. */
  lemma SameRooms(w: State, v: State, cfg: Config)
    requires Inv(w, cfg) && v == w.(at := v.at, accounts := v.accounts, sessions := v.sessions)
    requires PointersGood(v)
    ensures Inv(v, cfg)
  {
  }

  lemma UpdateRooms(w: State, room: RoomId, r: Room, cfg: Config)
    requires RoomsGood(w, cfg) && RoomInv(r, w.now, cfg.window)
    ensures RoomsGood(w.(rooms := w.rooms[room := r]), cfg)
  {
  }

  lemma UpdateNames(w: State, room: RoomId, r: Room)
    requires NamesGood(w) && room in w.rooms && r.name == w.rooms[room].name
    ensures NamesGood(w.(rooms := w.rooms[room := r]))
  {
  }

  lemma UpdatePointers(w: State, room: RoomId, r: Room)
    requires PointersGood(w) && room in w.rooms && w.rooms[room].members <= r.members
    ensures PointersGood(w.(rooms := w.rooms[room := r]))
  {
  }

  /** Replacing one room by another value of the same name, with the same or more members. */
  lemma UpdateRoomKeeps(w: State, room: RoomId, r: Room, cfg: Config)
    requires Inv(w, cfg) && room in w.rooms
    requires RoomInv(r, w.now, cfg.window) && r.name == w.rooms[room].name && w.rooms[room].members <= r.members
    ensures Inv(w.(rooms := w.rooms[room := r]), cfg)
  {
    UpdateRooms(w, room, r, cfg);
    UpdateNames(w, room, r);
    UpdatePointers(w, room, r);
  }

  lemma PushToKeeps(w: State, room: RoomId, job: Job, cfg: Config)
    requires Inv(w, cfg)
    ensures Inv(PushTo(w, room, job), cfg)
    ensures PushTo(w, room, job).at == w.at && PushTo(w, room, job).names == w.names
  {
    if room in w.rooms {
      PushKeeps(w.rooms[room], job, w.now, cfg.window);
      UpdateRoomKeeps(w, room, Push(w.rooms[room], job), cfg);
    }
  }

  lemma AllHoldLater(rooms: map<RoomId, Room>, now: int, later: int, window: int)
    requires AllHold(rooms, now, window) && now <= later
    ensures AllHold(rooms, later, window)
  {
    forall r | r in rooms ensures RoomInv(rooms[r], later, window) {
      TimePasses(rooms[r], now, later, window);
    }
  }

  lemma TickRooms(w: State, ms: nat, cfg: Config)
    requires RoomsGood(w, cfg)
    ensures RoomsGood(w.(now := w.now + ms), cfg)
  {
    var v := w.(now := w.now + ms);
    assert v.rooms == w.rooms && v.now == w.now + ms;
    AllHoldLater(w.rooms, w.now, v.now, cfg.window);
  }

  lemma TickCollected(w: State, ms: nat, cfg: Config)
    requires CollectedGood(w, cfg)
    ensures CollectedGood(w.(now := w.now + ms), cfg)
  {
    var v := w.(now := w.now + ms);
    assert v.collected == w.collected && v.now == w.now + ms;
    AllHoldLater(w.collected, w.now, v.now, cfg.window);
  }

  lemma TickNames(w: State, ms: nat)
    requires PointersGood(w) && NamesGood(w)
    ensures PointersGood(w.(now := w.now + ms)) && NamesGood(w.(now := w.now + ms))
  {
  }

  lemma TickKeeps(w: State, ms: nat, cfg: Config)
    requires Inv(w, cfg)
    ensures Inv(w.(now := w.now + ms), cfg)
  {
    TickRooms(w, ms, cfg);
    TickCollected(w, ms, cfg);
    TickNames(w, ms);
  }

  lemma CreatedRooms(w: State, name: string, cfg: Config)
    requires RoomsGood(w, cfg)
    ensures RoomsGood(GetOrCreate(w, name, cfg).0, cfg)
  {
    NewRoomHolds(name, cfg.maxPlayers, w.now, cfg.window);
  }

  lemma CreatedNames(w: State, name: string, cfg: Config)
    requires NamesGood(w) && PointersGood(w)
    ensures var (v, room) := GetOrCreate(w, name, cfg);
      NamesGood(v) && PointersGood(v) && room in v.rooms && v.rooms[room].name == name
  {
  }

  lemma GetOrCreateKeeps(w: State, name: string, cfg: Config)
    requires Inv(w, cfg)
    ensures Inv(GetOrCreate(w, name, cfg).0, cfg)
  {
    CreatedRooms(w, name, cfg);
    CreatedNames(w, name, cfg);
  }

  lemma DisconnectKeeps(w: State, s: SessionId, cfg: Config)
    requires Inv(w, cfg)
    ensures Inv(HandleDisconnect(w, s), cfg)
  {
    var v := w.(sessions := Registry.Step(w.sessions, Registry.HandleDisconnect(s)), at := w.at - {s});
    SameRooms(w, v, cfg);
    SameRooms(w, v.(at := w.at), cfg);
    if s in w.at {
      PushToKeeps(v, w.at[s], Leave(s), cfg);
    }
  }

  lemma LoginKeeps(w: State, s: SessionId, a: Account, choice: RoomId, cfg: Config)
    requires Inv(w, cfg)
    ensures Inv(FinishLogin(w, s, a, choice), cfg)
  {
    var v := w.(accounts := w.accounts[s := a]);
    SameRooms(w, v, cfg);
    PushToKeeps(v, choice, Rejoin(s), cfg);
  }

  lemma EnterRequestKeeps(w: State, s: SessionId, name: string, cfg: Config)
    requires Inv(w, cfg)
    ensures Inv(RequestEnter(w, s, name, cfg), cfg)
  {
    if s in w.at {
      PushToKeeps(w, w.at[s], Leave(s), cfg);
    }
    var v := PushToCurrent(w, s, Leave(s));
    GetOrCreateKeeps(v, name, cfg);
    PushToKeeps(GetOrCreate(v, name, cfg).0, GetOrCreate(v, name, cfg).1, Enter(s), cfg);
  }

  function MembersAfter(r: Room, job: Job): set<SessionId> {
    match job
    case Enter(s) => if Admits(r) then r.members + {s} else r.members
    case Leave(s) => r.members - {s}
    case Rejoin(s) => r.members + {s}
    case Ready(_) => r.members
    case Move(_, _) => r.members
  }

  lemma JobMembers(r: Room, accounts: Accounts, now: int, first: SessionId)
    requires r.batch != []
    ensures var q := RunNext(r, accounts, now, first);
      q.name == r.name && q.members == MembersAfter(r, r.batch[0])
  {
  }

  /** A job changes membership and pointer of one session together. */
  lemma JobMovesTogether(r: Room, job: Job, room: RoomId, at: map<SessionId, RoomId>)
    ensures var at' := Pointers(r, job, room, at);
      && (forall s :: s in at' && at'[s] == room && (s in at && at[s] == room ==> s in r.members) ==> s in MembersAfter(r, job))
      && (forall s :: s in at' && at'[s] != room ==> s in at && at[s] == at'[s])
  {
  }

  lemma RunOneJobPointers(w: State, room: RoomId, first: SessionId)
    requires PointersGood(w) && room in w.rooms && w.rooms[room].batch != []
    ensures PointersGood(RunOneJob(w, room, first))
  {
    JobMembers(w.rooms[room], w.accounts, w.now, first);
    JobMovesTogether(w.rooms[room], w.rooms[room].batch[0], room, w.at);
  }

  lemma RunOneJobRooms(w: State, room: RoomId, first: SessionId, cfg: Config)
    requires RoomsGood(w, cfg) && 0 < w.now && room in w.rooms && w.rooms[room].batch != []
    requires CanComeFirst(w.rooms[room], w.rooms[room].batch[0], first)
    ensures RoomsGood(RunOneJob(w, room, first), cfg)
  {
    var q := RunNext(w.rooms[room], w.accounts, w.now, first);
    RunNextKeeps(w.rooms[room], w.accounts, w.now, first, cfg.window);
    UpdateRooms(w, room, q, cfg);
  }

  lemma RunOneJobNames(w: State, room: RoomId, first: SessionId)
    requires NamesGood(w) && room in w.rooms && w.rooms[room].batch != []
    ensures NamesGood(RunOneJob(w, room, first))
  {
    var q := RunNext(w.rooms[room], w.accounts, w.now, first);
    JobMembers(w.rooms[room], w.accounts, w.now, first);
    UpdateNames(w, room, q);
  }

  lemma RunOneJobKeeps(w: State, room: RoomId, first: SessionId, cfg: Config)
    requires Inv(w, cfg) && room in w.rooms && w.rooms[room].batch != []
    requires CanComeFirst(w.rooms[room], w.rooms[room].batch[0], first)
    ensures Inv(RunOneJob(w, room, first), cfg)
  {
    RunOneJobPointers(w, room, first);
    RunOneJobRooms(w, room, first, cfg);
    RunOneJobNames(w, room, first);
  }

  lemma EndTickKeeps(w: State, room: RoomId, cfg: Config)
    requires Inv(w, cfg) && room in w.rooms
    ensures Inv(w.(rooms := w.rooms[room := TickTail(w.rooms[room], w.now, cfg.window)]), cfg)
  {
    TickTailKeeps(w.rooms[room], w.now, cfg.window);
    UpdateRoomKeeps(w, room, TickTail(w.rooms[room], w.now, cfg.window), cfg);
  }

  lemma IdleRoom(r: Room, now: int, cfg: Config)
    requires RoomInv(r, now, cfg.window) && Collectable(r, now, cfg.idleMs)
    ensures r.members == {}
    ensures cfg.window <= cfg.idleMs ==> forall a :: a in Owed(r.log) ==> now - Owed(r.log)[a] > cfg.window
  {
    if cfg.window <= cfg.idleMs {
      CollectableOwesNothing(r, now, cfg.window, cfg.idleMs);
    }
  }

  lemma CollectPointers(w: State, cfg: Config)
    requires PointersGood(w) && forall r :: Idle(w, r, cfg) ==> w.rooms[r].members == {}
    ensures PointersGood(Collect(w, cfg))
  {
  }

  lemma CollectNames(w: State, cfg: Config)
    requires NamesGood(w)
    ensures NamesGood(Collect(w, cfg))
  {
  }

  lemma CollectRooms(w: State, cfg: Config)
    requires RoomsGood(w, cfg) && CollectedGood(w, cfg)
    ensures RoomsGood(Collect(w, cfg), cfg) && CollectedGood(Collect(w, cfg), cfg)
  {
    var v := Collect(w, cfg);
    forall r | r in v.collected && r !in w.collected
      ensures RoomInv(v.collected[r], v.now, cfg.window)
      ensures cfg.window <= cfg.idleMs ==>
        forall a :: a in Owed(v.collected[r].log) ==> v.now - Owed(v.collected[r].log)[a] > cfg.window
    {
      IdleRoom(w.rooms[r], w.now, cfg);
    }
  }

  lemma CollectKeeps(w: State, cfg: Config)
    requires Inv(w, cfg)
    ensures Inv(Collect(w, cfg), cfg)
  {
    forall r | Idle(w, r, cfg) ensures w.rooms[r].members == {} {
      IdleRoom(w.rooms[r], w.now, cfg);
    }
    CollectPointers(w, cfg);
    CollectNames(w, cfg);
    CollectRooms(w, cfg);
  }

  lemma PushToCurrentKeeps(w: State, s: SessionId, job: Job, cfg: Config)
    requires Inv(w, cfg)
    ensures Inv(PushToCurrent(w, s, job), cfg)
  {
    if s in w.at {
      PushToKeeps(w, w.at[s], job, cfg);
    }
  }

  lemma ConnectionKeeps(w: State, c: Registry.Event, cfg: Config)
    requires Inv(w, cfg)
    ensures Inv(w.(sessions := Registry.Step(w.sessions, c)), cfg)
  {
    SameRooms(w, w.(sessions := Registry.Step(w.sessions, c)), cfg);
  }

  lemma BeginFlushInWorld(w: State, room: RoomId, cfg: Config)
    requires Inv(w, cfg) && room in w.rooms && w.rooms[room].batch == []
    ensures Inv(w.(rooms := w.rooms[room := RoomModel.BeginFlush(w.rooms[room])]), cfg)
  {
    BeginFlushKeeps(w.rooms[room], w.now, cfg.window);
    UpdateRoomKeeps(w, room, RoomModel.BeginFlush(w.rooms[room]), cfg);
  }

  lemma RequestKeeps(w: State, e: Event, cfg: Config)
    requires Inv(w, cfg) && (e.LeaveRequest? || e.ReadyRequest? || e.MoveRequest?)
    ensures Inv(Step(w, e, cfg), cfg)
  {
    var s, a := e.session, AccountOf(w.accounts, e.session);
    var job := if e.LeaveRequest? then Leave(s) else if e.ReadyRequest? then Ready(a) else Move(a, e.position);
    PushToCurrentKeeps(w, s, job, cfg);
    assert Step(w, e, cfg) in {w, PushToCurrent(w, s, job)};
  }

  lemma RoomStepKeeps(w: State, e: Event, cfg: Config)
    requires Inv(w, cfg) && (e.BeginFlush? || e.RunJob? || e.EndTick?)
    ensures Inv(Step(w, e, cfg), cfg)
  {
    if Step(w, e, cfg) != w {
      if e.BeginFlush? {
        BeginFlushInWorld(w, e.room, cfg);
      } else if e.RunJob? {
        RunOneJobKeeps(w, e.room, e.first, cfg);
      } else {
        EndTickKeeps(w, e.room, cfg);
      }
    }
  }

  lemma SessionStepKeeps(w: State, e: Event, cfg: Config)
    requires Inv(w, cfg) && (e.Connection? || e.Disconnect? || e.LoginDone? || e.EnterRequest?)
    ensures Inv(Step(w, e, cfg), cfg)
  {
    match e
    case Connection(c) => ConnectionKeeps(w, c, cfg);
    case Disconnect(s) => DisconnectKeeps(w, s, cfg);
    case LoginDone(s, a, choice) => LoginKeeps(w, s, a, choice, cfg);
    case EnterRequest(s, name) => EnterRequestKeeps(w, s, name, cfg);
  }

  lemma StepKeeps(w: State, e: Event, cfg: Config)
    requires Inv(w, cfg)
    ensures Inv(Step(w, e, cfg), cfg)
  {
    if e.Tick? {
      TickKeeps(w, e.ms, cfg);
    } else if e.CollectIdle? {
      CollectKeeps(w, cfg);
    } else if e.LeaveRequest? || e.ReadyRequest? || e.MoveRequest? {
      RequestKeeps(w, e, cfg);
    } else if e.BeginFlush? || e.RunJob? || e.EndTick? {
      RoomStepKeeps(w, e, cfg);
    } else {
      SessionStepKeeps(w, e, cfg);
    }
  }

  lemma {:induction false} StepAllKeeps(w: State, events: seq<Event>, cfg: Config)
    requires Inv(w, cfg)
    ensures Inv(StepAll(w, events, cfg), cfg)
  {
    if events != [] {
      StepAllKeeps(w, events[..|events| - 1], cfg);
      StepKeeps(StepAll(w, events[..|events| - 1], cfg), events[|events| - 1], cfg);
    }
  }

  lemma InitialHolds(start: int, cfg: Config)
    requires 0 < start
    ensures Inv(Initial(start), cfg)
  {
  }

  lemma RunKeeps(start: int, events: seq<Event>, cfg: Config)
    requires 0 < start
    ensures Inv(Run(start, events, cfg), cfg)
  {
    InitialHolds(start, cfg);
    StepAllKeeps(Initial(start), events, cfg);
  }

  lemma RunRoom(start: int, events: seq<Event>, cfg: Config, room: RoomId)
    requires 0 < start && room in Run(start, events, cfg).rooms
    ensures var w := Run(start, events, cfg); 0 < w.now && RoomInv(w.rooms[room], w.now, cfg.window)
  {
    RunKeeps(start, events, cfg);
  }

  lemma RunPointers(start: int, events: seq<Event>, cfg: Config)
    requires 0 < start
    ensures PointersGood(Run(start, events, cfg)) && NamesGood(Run(start, events, cfg))
  {
    RunKeeps(start, events, cfg);
  }

  /** Sessions are accepted and disconnected in the world as the registry says. */
  lemma StepSessions(w: State, e: Event, cfg: Config)
    requires Registry.Inv(w.sessions)
    ensures Registry.Inv(Step(w, e, cfg).sessions)
  {
    if e.Connection? {
      Registry.StepKeeps(w.sessions, e.e);
    } else if e.Disconnect? {
      Registry.StepKeeps(w.sessions, Registry.HandleDisconnect(e.session));
    }
  }

  lemma {:induction false} StepAllSessions(w: State, events: seq<Event>, cfg: Config)
    requires Registry.Inv(w.sessions)
    ensures Registry.Inv(StepAll(w, events, cfg).sessions)
  {
    if events != [] {
      StepAllSessions(w, events[..|events| - 1], cfg);
      StepSessions(StepAll(w, events[..|events| - 1], cfg), events[|events| - 1], cfg);
    }
  }

  lemma RunSessions(start: int, events: seq<Event>, cfg: Config)
    ensures Registry.Inv(Run(start, events, cfg).sessions)
  {
    Registry.InitialHolds();
    StepAllSessions(Initial(start), events, cfg);
  }
}
