/** The server's shared tables in place: the room registry, the sessions' room pointers and
    accounts, and the handlers that work on them. Every method is one step of World, or, for a
    tick of all rooms, a sequence of steps. */
module Servers {
  import opened RoomModel
  import opened World
  import Registry = SessionRegistry

  /** The registry part way through a collector pass: rooms whose name is still to be looked at,
      and rooms that are not idle. */
  ghost function KeptNames(w: State, todo: set<string>, cfg: Config): map<string, RoomId> {
    map n | n in w.names && (n in todo || !Idle(w, w.names[n], cfg)) :: w.names[n]
  }

  ghost function KeptRooms(w: State, todo: set<string>, cfg: Config): map<RoomId, Room> {
    map r | r in w.rooms && (w.rooms[r].name in todo || !Idle(w, r, cfg)) :: w.rooms[r]
  }

  lemma EraseName(w: State, todo: set<string>, n: string, cfg: Config)
    requires OneName(w) && n in todo && n in w.names
    ensures n in KeptNames(w, todo, cfg)
    ensures KeptNames(w, todo - {n}, cfg) == KeptNames(w, todo, cfg) - (if Idle(w, w.names[n], cfg) then {n} else {})
  {
  }

  lemma EraseRoom(w: State, todo: set<string>, n: string, cfg: Config)
    requires OneName(w) && n in todo && n in w.names
    ensures var room := w.names[n];
      && room in KeptRooms(w, todo, cfg) && KeptRooms(w, todo, cfg)[room] == w.rooms[room]
      && KeptRooms(w, todo - {n}, cfg) == KeptRooms(w, todo, cfg) - (if Idle(w, room, cfg) then {room} else {})
  {
    var room := w.names[n];
    assert forall r :: r in w.rooms && w.rooms[r].name == n ==> r == room;
  }

  /** One turn of the erase loop, on the registry as it is part way through. */
  lemma EraseStep(w: State, todo: set<string>, n: string, names: map<string, RoomId>, rooms: map<RoomId, Room>, cfg: Config)
    requires OneName(w) && n in todo && n in w.names
    requires names == KeptNames(w, todo, cfg) && rooms == KeptRooms(w, todo, cfg)
    ensures n in names && names[n] in rooms
    ensures if Collectable(rooms[names[n]], w.now, cfg.idleMs) then
        names - {n} == KeptNames(w, todo - {n}, cfg) && rooms - {names[n]} == KeptRooms(w, todo - {n}, cfg)
      else
        names == KeptNames(w, todo - {n}, cfg) && rooms == KeptRooms(w, todo - {n}, cfg)
  {
    EraseName(w, todo, n, cfg);
    EraseRoom(w, todo, n, cfg);
  }

  lemma NothingAndEverythingKept(w: State, cfg: Config)
    requires OneName(w)
    ensures KeptNames(w, w.names.Keys, cfg) == w.names && KeptRooms(w, w.names.Keys, cfg) == w.rooms
    ensures KeptNames(w, {}, cfg) == Collect(w, cfg).names && KeptRooms(w, {}, cfg) == Collect(w, cfg).rooms
  {
  }

  lemma OneKeyLess(m: map<string, RoomId>, n: string)
    requires n in m
    ensures |m - {n}| == |m| - 1
  {
    assert (m - {n}).Keys == m.Keys - {n};
    assert |m - {n}| == |(m - {n}).Keys| && |m| == |m.Keys|;
  }

  class Server {
    const cfg: Config
    var now: int
    var names: map<string, RoomId>
    var rooms: map<RoomId, Room>
    var at: map<SessionId, RoomId>
    var accounts: Accounts
    var sessions: Registry.State
    var nextRoom: RoomId
    ghost var collected: map<RoomId, Room>

    ghost function View(): State
      reads this
    {
      State(now, names, rooms, at, accounts, sessions, nextRoom, collected)
    }

    constructor (cfg: Config, start: int)
      ensures View() == Initial(start) && this.cfg == cfg
    {
      this.cfg, now := cfg, start;
      names, rooms, at, accounts, sessions, nextRoom, collected := map[], map[], map[], map[], Registry.Initial(), 0, map[];
    }

    method PushJob(room: RoomId, job: Job)
      requires room in rooms
      modifies `rooms
      ensures View() == PushTo(old(View()), room, job)
    {
      rooms := rooms[room := Push(rooms[room], job)];
    }

    // ----- the room registry -----

    method GetOrCreateRoom(name: string) returns (room: RoomId)
      modifies this
      ensures (View(), room) == GetOrCreate(old(View()), name, cfg)
    {
      if name in names {
        return names[name];
      }
      room := nextRoom;
      nextRoom := nextRoom + 1;
      rooms := rooms[room := NewRoom(name, cfg.maxPlayers)];
      names := names[name := room];
    }

    /** Looks through the registered rooms in any order. */
    method FindReconnect(account: Account) returns (found: bool, room: RoomId)
      ensures found <==> HasReconnect(View(), account)
      ensures found ==> CanFindReconnect(View(), account, room)
    {
      var todo := rooms.Keys;
      while todo != {}
        invariant todo <= rooms.Keys
        invariant forall r :: r in rooms && r !in todo ==> account !in rooms[r].slots
        decreases |todo|
      {
        room :| room in todo;
        if account in rooms[room].slots {
          assert CanFindReconnect(View(), account, room);
          return true, room;
        }
        todo := todo - {room};
      }
      return false, 0;
    }

    /** One room of the collector's pass. It reads nothing of the room but the stamp. */
    method EraseIfIdle(n: string, ghost w: State, ghost todo: set<string>) returns (erased: bool)
      requires OneName(w) && n in todo && n in w.names && now == w.now
      requires names == KeptNames(w, todo, cfg) && rooms == KeptRooms(w, todo, cfg)
      modifies `names, `rooms
      ensures names == KeptNames(w, todo - {n}, cfg) && rooms == KeptRooms(w, todo - {n}, cfg)
      ensures |names| + (if erased then 1 else 0) == |old(names)|
    {
      EraseStep(w, todo, n, names, rooms, cfg);
      var room := names[n];
      erased := rooms[room].emptySince > 0 && now - rooms[room].emptySince > cfg.idleMs;
      if erased {
        OneKeyLess(names, n);
        names := names - {n};
        rooms := rooms - {room};
      }
    }

    /** The erase loop of the collector. */
    method EraseIdleRooms(ghost w: State) returns (removed: nat)
      requires w == View() && OneName(w)
      modifies `names, `rooms
      ensures names == KeptNames(w, {}, cfg) && rooms == KeptRooms(w, {}, cfg)
      ensures removed + |names| == |w.names|
    {
      var todo := names.Keys;
      removed := 0;
      NothingAndEverythingKept(w, cfg);
      while todo != {}
        invariant todo <= w.names.Keys
        invariant names == KeptNames(w, todo, cfg) && rooms == KeptRooms(w, todo, cfg)
        invariant removed + |names| == |w.names|
        decreases |todo|
      {
        var n :| n in todo;
        var erased := EraseIfIdle(n, w, todo);
        if erased {
          removed := removed + 1;
        }
        todo := todo - {n};
      }
    }

    method RemoveIdleRooms() returns (removed: nat)
      requires OneName(View())
      modifies this
      ensures View() == Step(old(View()), CollectIdle, cfg)
      ensures removed == |old(names)| - |names|
    {
      ghost var w := View();
      removed := EraseIdleRooms(w);
      NothingAndEverythingKept(w, cfg);
      collected := Collect(w, cfg).collected;
    }

    // ----- handlers -----

    method HandleDisconnect(s: SessionId)
      requires !UsesDanglingPointer(View(), Disconnect(s))
      modifies this
      ensures View() == Step(old(View()), Disconnect(s), cfg)
    {
      var first := Registry.Exists(sessions, s) && s !in sessions.closed;
      sessions := Registry.Step(sessions, Registry.HandleDisconnect(s));
      if !first {
        return;
      }
      if s in at {
        var room := at[s];
        at := at - {s};
        PushJob(room, Leave(s));
      }
    }

    /** The callback of a valid login. */
    method OnLogin(s: SessionId, account: Account) returns (choice: RoomId)
      modifies this
      ensures View() == Step(old(View()), LoginDone(s, account, choice), cfg)
      ensures HasReconnect(old(View()), account) ==> CanFindReconnect(old(View()), account, choice)
    {
      accounts := accounts[s := account];
      var found;
      found, choice := FindReconnect(account);
      assert HasReconnect(View(), account) <==> HasReconnect(old(View()), account) by {
        assert forall r :: CanFindReconnect(View(), account, r) <==> CanFindReconnect(old(View()), account, r);
      }
      if found {
        PushJob(choice, Rejoin(s));
      }
    }

    method OnEnterRequest(s: SessionId, name: string)
      requires !UsesDanglingPointer(View(), EnterRequest(s, name))
      modifies this
      ensures View() == Step(old(View()), EnterRequest(s, name), cfg)
    {
      if AccountOf(accounts, s) == "" {
        return;
      }
      if s in at {
        PushJob(at[s], Leave(s));
      }
      var room := GetOrCreateRoom(name);
      if room in rooms {
        PushJob(room, Enter(s));
      }
    }

    method OnLeaveRequest(s: SessionId)
      requires !UsesDanglingPointer(View(), LeaveRequest(s))
      modifies this
      ensures View() == Step(old(View()), LeaveRequest(s), cfg)
    {
      if s in at {
        PushJob(at[s], Leave(s));
      }
    }

    method OnReadyRequest(s: SessionId)
      requires !UsesDanglingPointer(View(), ReadyRequest(s))
      modifies this
      ensures View() == Step(old(View()), ReadyRequest(s), cfg)
    {
      if AccountOf(accounts, s) == "" {
        return;
      }
      if s in at {
        PushJob(at[s], Ready(AccountOf(accounts, s)));
      }
    }

    method OnMoveRequest(s: SessionId, position: Position)
      requires !UsesDanglingPointer(View(), MoveRequest(s, position))
      modifies this
      ensures View() == Step(old(View()), MoveRequest(s, position), cfg)
    {
      if s in at {
        PushJob(at[s], Move(AccountOf(accounts, s), position));
      }
    }

    // ----- the tick thread -----

    method RunJobOf(room: RoomId) returns (first: SessionId)
      requires room in rooms && rooms[room].batch != []
      modifies `rooms, `at
      ensures View() == Step(old(View()), RunJob(room, first), cfg)
      ensures rooms.Keys == old(rooms).Keys && forall r :: r in rooms && r != room ==> rooms[r] == old(rooms)[r]
      ensures rooms[room].batch == old(rooms)[room].batch[1..] && rooms[room].jobs == old(rooms)[room].jobs
    {
      var r := rooms[room];
      var job := r.batch[0];
      first := 0;
      if job.Leave? && job.session in r.members && r.phase == InGame && r.members != {job.session} {
        assert r.members - {job.session} != {};
        first :| first in r.members && first != job.session;
      }
      RunNextQueues(r, accounts, now, first);
      rooms := rooms[room := RunNext(r, accounts, now, first)];
      at := Pointers(r, job, room, at);
    }

    /** One room's tick, undisturbed: its steps in the transition system are returned. */
    method TickRoom(room: RoomId) returns (ghost trace: seq<Event>)
      requires room in rooms && rooms[room].batch == []
      modifies this
      ensures View() == StepAll(old(View()), trace, cfg)
      ensures rooms.Keys == old(rooms).Keys && rooms[room].batch == [] && rooms[room].jobs == []
      ensures forall r :: r in rooms && r != room ==> rooms[r] == old(rooms)[r]
    {
      ghost var w := View();
      trace := [BeginFlush(room)];
      rooms := rooms[room := RoomModel.BeginFlush(rooms[room])];
      StepAllSnoc(w, [], BeginFlush(room), cfg);
      assert [] + trace == trace;
      while rooms[room].batch != []
        invariant View() == StepAll(w, trace, cfg)
        invariant rooms.Keys == w.rooms.Keys && rooms[room].jobs == []
        invariant forall r :: r in rooms && r != room ==> rooms[r] == w.rooms[r]
        decreases |rooms[room].batch|
      {
        var first := RunJobOf(room);
        StepAllSnoc(w, trace, RunJob(room, first), cfg);
        trace := trace + [RunJob(room, first)];
      }
      StepAllSnoc(w, trace, EndTick(room), cfg);
      TickTailQueues(rooms[room], now, cfg.window);
      rooms := rooms[room := TickTail(rooms[room], now, cfg.window)];
      trace := trace + [EndTick(room)];
    }

    /** Ticks every room that is registered at the start, one after the other: afterwards every
        job that was queued has run, and the whole is a run of the transition system. */
    method TickAll() returns (ghost trace: seq<Event>)
      requires forall r :: r in rooms ==> rooms[r].batch == []
      modifies this
      ensures View() == StepAll(old(View()), trace, cfg)
      ensures rooms.Keys == old(rooms).Keys
      ensures forall r :: r in rooms ==> rooms[r].batch == [] && rooms[r].jobs == []
    {
      ghost var w := View();
      var todo := rooms.Keys;
      trace := [];
      while todo != {}
        invariant todo <= rooms.Keys == w.rooms.Keys
        invariant View() == StepAll(w, trace, cfg)
        invariant forall r :: r in rooms ==> rooms[r].batch == [] && (r !in todo ==> rooms[r].jobs == [])
        decreases |todo|
      {
        var room :| room in todo;
        ghost var more := TickRoom(room);
        StepAllAppend(w, trace, more, cfg);
        trace := trace + more;
        todo := todo - {room};
      }
    }
  }
}
