/** What the clients ask for is what the rooms run: the jobs of a room, the accounts, the sessions
    and the clock of any run, told from its events. */
module Requests {
  import opened RoomModel
  import opened World
  import opened WorldSafety
  import Registry = SessionRegistry

  // ----- jobs -----

  /** The jobs that a step from w to v asks one room to run. A leave goes to the room the session
      is in; an entry to the room of that name, once there is one; a rejoin to the room that was
      found; ready marks and moves to the room the session is in, for its account at that time.
      Entering and being ready take a login. */
  function JobsOf(w: State, e: Event, v: State, room: RoomId): seq<Job> {
    match e
    case Disconnect(s) =>
      if IsIn(w, s, room) && Registry.Exists(w.sessions, s) && s !in w.sessions.closed then [Leave(s)] else []
    case LoginDone(s, a, choice) =>
      if choice == room && room in w.rooms && a in w.rooms[room].slots then [Rejoin(s)] else []
    case EnterRequest(s, name) =>
      if AccountOf(w.accounts, s) == "" then []
      else (if IsIn(w, s, room) then [Leave(s)] else []) + (if room in v.rooms && v.rooms[room].name == name then [Enter(s)] else [])
    case LeaveRequest(s) => if IsIn(w, s, room) then [Leave(s)] else []
    case ReadyRequest(s) =>
      if IsIn(w, s, room) && AccountOf(w.accounts, s) != "" then [Ready(AccountOf(w.accounts, s))] else []
    case MoveRequest(s, p) => if IsIn(w, s, room) then [Move(AccountOf(w.accounts, s), p)] else []
    case _ => []
  }

  predicate IsIn(w: State, s: SessionId, room: RoomId) {
    s in w.at && w.at[s] == room
  }

  /** All that was asked of a room in the course of a run, in order. */
  function Asked(start: int, events: seq<Event>, cfg: Config, room: RoomId): seq<Job> {
    if events == [] then []
    else
      var before := events[..|events| - 1];
      Asked(start, before, cfg, room) +
        JobsOf(Run(start, before, cfg), events[|events| - 1], Run(start, events, cfg), room)
  }

  function PushedOn(w: State, room: RoomId): seq<Job> {
    if room in w.rooms then w.rooms[room].pushed else []
  }

  lemma PushToPushes(w: State, target: RoomId, job: Job, room: RoomId)
    requires target in w.rooms
    ensures var v := PushTo(w, target, job);
      && PushedOn(v, room) == PushedOn(w, room) + (if target == room then [job] else [])
      && v.rooms.Keys == w.rooms.Keys && (room in w.rooms ==> v.rooms[room].name == w.rooms[room].name)
  {
  }

  lemma CurrentPushes(w: State, s: SessionId, job: Job, room: RoomId)
    requires PointersGood(w) && NamesGood(w)
    ensures var v := PushToCurrent(w, s, job);
      && PushedOn(v, room) == PushedOn(w, room) + (if IsIn(w, s, room) then [job] else [])
      && v.rooms.Keys == w.rooms.Keys && NamesGood(v)
  {
    if s in w.at {
      PushToPushes(w, w.at[s], job, room);
      UpdateNames(w, w.at[s], Push(w.rooms[w.at[s]], job));
    }
  }

  lemma CreatedPushes(w: State, name: string, cfg: Config, room: RoomId)
    requires NamesGood(w)
    ensures var (v, target) := GetOrCreate(w, name, cfg);
      && target in v.rooms && PushedOn(v, room) == PushedOn(w, room)
      && (room in v.rooms ==> (v.rooms[room].name == name <==> room == target))
  {
  }

  lemma TargetPushes(w: State, s: SessionId, name: string, cfg: Config, room: RoomId)
    requires NamesGood(w)
    ensures var (u, target) := GetOrCreate(w, name, cfg); var v := PushTo(u, target, Enter(s));
      room in v.rooms ==> PushedOn(v, room) == PushedOn(w, room) + (if v.rooms[room].name == name then [Enter(s)] else [])
  {
    var (u, target) := GetOrCreate(w, name, cfg);
    CreatedPushes(w, name, cfg, room);
    PushToPushes(u, target, Enter(s), room);
  }

  lemma EnterParts(w: State, s: SessionId, name: string, cfg: Config, room: RoomId)
    requires PointersGood(w) && NamesGood(w) && AccountOf(w.accounts, s) != ""
    ensures var v := RequestEnter(w, s, name, cfg);
      room in v.rooms ==>
        PushedOn(v, room) == PushedOn(w, room) + (if IsIn(w, s, room) then [Leave(s)] else [])
                             + (if v.rooms[room].name == name then [Enter(s)] else [])
  {
    CurrentPushes(w, s, Leave(s), room);
    TargetPushes(PushToCurrent(w, s, Leave(s)), s, name, cfg, room);
  }

  lemma EnterPushes(w: State, s: SessionId, name: string, cfg: Config, room: RoomId)
    requires PointersGood(w) && NamesGood(w) && room in RequestEnter(w, s, name, cfg).rooms
    ensures var v := RequestEnter(w, s, name, cfg);
      PushedOn(v, room) == PushedOn(w, room) + JobsOf(w, EnterRequest(s, name), v, room)
  {
    if AccountOf(w.accounts, s) != "" {
      var v := RequestEnter(w, s, name, cfg);
      EnterParts(w, s, name, cfg, room);
      TwoPushes(PushedOn(w, room), if IsIn(w, s, room) then [Leave(s)] else [], if v.rooms[room].name == name then [Enter(s)] else []);
    }
  }

  lemma TwoPushes(jobs: seq<Job>, first: seq<Job>, second: seq<Job>)
    ensures jobs + first + second == jobs + (first + second)
  {
  }

  lemma LoginPushes(w: State, s: SessionId, a: Account, choice: RoomId, cfg: Config, room: RoomId)
    ensures var e := LoginDone(s, a, choice); var v := Step(w, e, cfg);
      PushedOn(v, room) == PushedOn(w, room) + JobsOf(w, e, v, room)
  {
    if CanFindReconnect(w, a, choice) {
      PushToPushes(w.(accounts := w.accounts[s := a]), choice, Rejoin(s), room);
    }
  }

  lemma RequestPushes(w: State, e: Event, cfg: Config, room: RoomId)
    requires PointersGood(w) && NamesGood(w) && (e.LeaveRequest? || e.ReadyRequest? || e.MoveRequest?)
    ensures var v := Step(w, e, cfg); PushedOn(v, room) == PushedOn(w, room) + JobsOf(w, e, v, room)
  {
    var s, a := e.session, AccountOf(w.accounts, e.session);
    CurrentPushes(w, s, if e.ReadyRequest? then Ready(a) else if e.MoveRequest? then Move(a, e.position) else Leave(s), room);
  }

  lemma DisconnectPushes(w: State, s: SessionId, room: RoomId)
    requires PointersGood(w)
    ensures var v := HandleDisconnect(w, s); PushedOn(v, room) == PushedOn(w, room) + JobsOf(w, Disconnect(s), v, room)
  {
  }

  lemma OthersPush(w: State, e: Event, cfg: Config, room: RoomId)
    requires e.BeginFlush? || e.RunJob? || e.EndTick? || e.CollectIdle? || e.Tick? || e.Connection?
    requires room in Step(w, e, cfg).rooms
    ensures PushedOn(Step(w, e, cfg), room) == PushedOn(w, room)
  {
    if e.RunJob? && e.room in w.rooms && w.rooms[e.room].batch != [] {
      RunNextQueues(w.rooms[e.room], w.accounts, w.now, e.first);
    }
  }

  lemma StepPushes(w: State, e: Event, cfg: Config, room: RoomId)
    requires PointersGood(w) && NamesGood(w) && room in Step(w, e, cfg).rooms
    ensures var v := Step(w, e, cfg); PushedOn(v, room) == PushedOn(w, room) + JobsOf(w, e, v, room)
  {
    match e
    case Disconnect(s) => DisconnectPushes(w, s, room);
    case LoginDone(s, a, choice) => LoginPushes(w, s, a, choice, cfg, room);
    case EnterRequest(s, name) => EnterPushes(w, s, name, cfg, room);
    case LeaveRequest(s) => RequestPushes(w, e, cfg, room);
    case ReadyRequest(s) => RequestPushes(w, e, cfg, room);
    case MoveRequest(s, p) => RequestPushes(w, e, cfg, room);
    case _ => OthersPush(w, e, cfg, room);
  }

  // ----- runs -----

  /** The step creates no room, or one that gets the next number. */
  ghost predicate NumbersGrow(w: State, v: State) {
    w.nextRoom <= v.nextRoom && forall room :: room in v.rooms && room !in w.rooms ==> w.nextRoom <= room < v.nextRoom
  }

  lemma PushToNumbers(w: State, target: RoomId, job: Job)
    requires target in w.rooms
    ensures PushTo(w, target, job).rooms.Keys == w.rooms.Keys && PushTo(w, target, job).nextRoom == w.nextRoom
  {
  }

  lemma EnterNumbers(w: State, s: SessionId, name: string, cfg: Config)
    requires PointersGood(w) && NamesGood(w)
    ensures NumbersGrow(w, RequestEnter(w, s, name, cfg))
  {
    var u := PushToCurrent(w, s, Leave(s));
    CurrentPushes(w, s, Leave(s), 0);
    if s in w.at {
      PushToNumbers(w, w.at[s], Leave(s));
    }
    CreatedPushes(u, name, cfg, 0);
    var (v, target) := GetOrCreate(u, name, cfg);
    PushToNumbers(v, target, Enter(s));
  }

  lemma RequestNumbers(w: State, e: Event, cfg: Config)
    requires PointersGood(w)
    requires e.Disconnect? || e.LoginDone? || e.LeaveRequest? || e.ReadyRequest? || e.MoveRequest?
    ensures NumbersGrow(w, Step(w, e, cfg))
  {
    var s, a := e.session, AccountOf(w.accounts, e.session);
    if !e.LoginDone? && s in w.at {
      PushToNumbers(w, w.at[s], if e.ReadyRequest? then Ready(a) else if e.MoveRequest? then Move(a, e.position) else Leave(s));
    }
  }

  lemma OthersNumber(w: State, e: Event, cfg: Config)
    requires e.BeginFlush? || e.RunJob? || e.EndTick? || e.CollectIdle? || e.Tick? || e.Connection?
    ensures NumbersGrow(w, Step(w, e, cfg))
  {
  }

  /** Rooms are numbered in the order they are created, and a number is not used twice. */
  lemma StepNumbers(w: State, e: Event, cfg: Config)
    requires PointersGood(w) && NamesGood(w)
    ensures NumbersGrow(w, Step(w, e, cfg))
  {
    if e.EnterRequest? {
      EnterNumbers(w, e.session, e.name, cfg);
    } else if e.BeginFlush? || e.RunJob? || e.EndTick? || e.CollectIdle? || e.Tick? || e.Connection? {
      OthersNumber(w, e, cfg);
    } else {
      RequestNumbers(w, e, cfg);
    }
  }

  lemma NothingAskedYet(w: State, e: Event, cfg: Config, room: RoomId)
    requires PointersGood(w) && NamesGood(w) && Step(w, e, cfg).nextRoom <= room
    ensures JobsOf(w, e, Step(w, e, cfg), room) == []
  {
    StepNumbers(w, e, cfg);
  }

  lemma {:induction false} AskedIsPushed(start: int, events: seq<Event>, cfg: Config, room: RoomId)
    requires 0 < start
    ensures var w := Run(start, events, cfg);
      && (room in w.rooms ==> w.rooms[room].pushed == Asked(start, events, cfg, room))
      && (w.nextRoom <= room ==> Asked(start, events, cfg, room) == [])
  {
    if events != [] {
      var n := |events| - 1;
      var w := Run(start, events[..n], cfg);
      AskedIsPushed(start, events[..n], cfg, room);
      RunPointers(start, events[..n], cfg);
      StepNumbers(w, events[n], cfg);
      if room in Run(start, events, cfg).rooms {
        StepPushes(w, events[n], cfg, room);
      } else if Run(start, events, cfg).nextRoom <= room {
        NothingAskedYet(w, events[n], cfg, room);
      }
    }
  }

  /** On every run, what a room has run, is running and has yet to run is exactly what was asked of
      it, in the order it was asked. */
  lemma RoomsRunWhatIsAsked(start: int, events: seq<Event>, cfg: Config, room: RoomId)
    requires 0 < start && room in Run(start, events, cfg).rooms
    ensures var r := Run(start, events, cfg).rooms[room]; r.ran + r.batch + r.jobs == Asked(start, events, cfg, room)
  {
    AskedIsPushed(start, events, cfg, room);
    RunRoom(start, events, cfg, room);
  }

  // ----- accounts, sessions, clock -----

  /** The login can happen: it names a room with a slot for the account if there is one. */
  ghost predicate CanLogIn(w: State, e: Event, s: SessionId, a: Account) {
    e.LoginDone? && e.session == s && e.account == a && (HasReconnect(w, a) ==> CanFindReconnect(w, a, e.choice))
  }

  ghost predicate LogsIn(start: int, events: seq<Event>, cfg: Config, i: nat, s: SessionId, a: Account) {
    i < |events| && CanLogIn(Run(start, events[..i], cfg), events[i], s, a)
  }

  ghost predicate LastLogin(start: int, events: seq<Event>, cfg: Config, i: nat, s: SessionId, a: Account) {
    LogsIn(start, events, cfg, i, s, a) && forall j: nat, b :: i < j < |events| ==> !LogsIn(start, events, cfg, j, s, b)
  }

  lemma StepAccounts(w: State, e: Event, cfg: Config, s: SessionId)
    ensures var v := Step(w, e, cfg);
      if e.LoginDone? && CanLogIn(w, e, s, e.account) then s in v.accounts && v.accounts[s] == e.account
      else (s in v.accounts <==> s in w.accounts) && (s in w.accounts ==> v.accounts[s] == w.accounts[s])
  {
    if e.EnterRequest? {
      RequestEnterElsewhere(w, e.session, e.name, cfg);
    }
  }

  /** The account of a session is that of its last login. */
  lemma {:induction false} AccountIsLastLogin(start: int, events: seq<Event>, cfg: Config, s: SessionId, a: Account)
    ensures var w := Run(start, events, cfg);
      s in w.accounts && w.accounts[s] == a <==> exists i: nat :: LastLogin(start, events, cfg, i, s, a)
  {
    if events != [] {
      var n := |events| - 1;
      AccountIsLastLogin(start, events[..n], cfg, s, a);
      StepAccounts(Run(start, events[..n], cfg), events[n], cfg, s);
      forall i: nat, b | i < n ensures LogsIn(start, events[..n], cfg, i, s, b) <==> LogsIn(start, events, cfg, i, s, b) {
        assert events[..n][..i] == events[..i];
      }
      LastLoginSnoc(start, events, cfg, s, a);
      var e, w := events[n], Run(start, events[..n], cfg);
      assert forall b :: LogsIn(start, events, cfg, n, s, b) <==> CanLogIn(w, e, s, b);
      assert e.LoginDone? && CanLogIn(w, e, s, e.account) ==> LogsIn(start, events, cfg, n, s, e.account);
    }
  }

  lemma LastLoginSnoc(start: int, events: seq<Event>, cfg: Config, s: SessionId, a: Account)
    requires events != []
    requires var n := |events| - 1;
      forall i: nat, b :: i < n ==> (LogsIn(start, events[..n], cfg, i, s, b) <==> LogsIn(start, events, cfg, i, s, b))
    ensures var n := |events| - 1;
      (exists i: nat :: LastLogin(start, events, cfg, i, s, a)) <==>
        LogsIn(start, events, cfg, n, s, a) ||
        ((forall b :: !LogsIn(start, events, cfg, n, s, b)) && exists i: nat :: LastLogin(start, events[..n], cfg, i, s, a))
  {
    var n := |events| - 1;
    if LogsIn(start, events, cfg, n, s, a) {
      assert LastLogin(start, events, cfg, n, s, a);
    } else {
      forall i: nat | i < n && forall b :: !LogsIn(start, events, cfg, n, s, b)
        ensures LastLogin(start, events, cfg, i, s, a) <==> LastLogin(start, events[..n], cfg, i, s, a)
      {
      }
    }
  }

  /** What the step is to the registry of sessions. */
  function SessionEvents(events: seq<Event>): seq<Registry.Event> {
    if events == [] then []
    else
      var e := events[|events| - 1];
      SessionEvents(events[..|events| - 1]) +
        (if e.Connection? && !e.e.HandleDisconnect? then [e.e]
         else if e.Disconnect? then [Registry.HandleDisconnect(e.session)]
         else [])
  }

  function Elapsed(events: seq<Event>): nat {
    if events == [] then 0
    else Elapsed(events[..|events| - 1]) + (if events[|events| - 1].Tick? then events[|events| - 1].ms else 0)
  }

  lemma RegistrySnoc(events: seq<Registry.Event>, e: Registry.Event)
    ensures Registry.Run(events + [e]) == Registry.Step(Registry.Run(events), e)
  {
    assert (events + [e])[..|events|] == events;
  }

  /** Sessions are those of the registry on the same accepts, disconnects and failing sends, and
      the clock shows the time that has passed. */
  lemma {:induction false} SessionsAndClock(start: int, events: seq<Event>, cfg: Config)
    ensures var w := Run(start, events, cfg);
      w.sessions == Registry.Run(SessionEvents(events)) && w.now == start + Elapsed(events)
  {
    if events != [] {
      var n, e := |events| - 1, events[|events| - 1];
      SessionsAndClock(start, events[..n], cfg);
      StepSessionsAndClock(Run(start, events[..n], cfg), e, cfg);
      assert SessionEvents(events[..n]) + [] == SessionEvents(events[..n]);
      if e.Connection? {
        RegistrySnoc(SessionEvents(events[..n]), e.e);
      } else if e.Disconnect? {
        RegistrySnoc(SessionEvents(events[..n]), Registry.HandleDisconnect(e.session));
      }
    }
  }

  lemma StepSessionsAndClock(w: State, e: Event, cfg: Config)
    ensures var v := Step(w, e, cfg);
      && v.sessions == (if e.Connection? && !e.e.HandleDisconnect? then Registry.Step(w.sessions, e.e)
                        else if e.Disconnect? then Registry.Step(w.sessions, Registry.HandleDisconnect(e.session))
                        else w.sessions)
      && v.now == w.now + (if e.Tick? then e.ms else 0)
  {
    if e.EnterRequest? {
      RequestEnterElsewhere(w, e.session, e.name, cfg);
    }
  }
}
