/** The main results about the room world, for every run. */
module WorldTheorems {
  import opened RoomModel
  import opened RoomHistory
  import opened RoomSafety
  import opened World
  import opened WorldSafety

  // ----- pointers -----

  /** A session that points to a room points to one the registry still owns, under its name, and
      is one of its members. */
  lemma NoStaleRoomPointer(start: int, events: seq<Event>, cfg: Config, s: SessionId)
    requires 0 < start && s in Run(start, events, cfg).at
    ensures var w := Run(start, events, cfg); var room := w.at[s];
      room in w.rooms && s in w.rooms[room].members
      && w.rooms[room].name in w.names && w.names[w.rooms[room].name] == room
  {
    RunPointers(start, events, cfg);
  }

  /** So no handler ever pushes a job on a room that is gone, whatever happens next. */
  lemma NoDanglingUse(start: int, events: seq<Event>, cfg: Config, e: Event)
    requires 0 < start
    ensures !UsesDanglingPointer(Run(start, events, cfg), e)
  {
    RunPointers(start, events, cfg);
  }

  // ----- history -----

  predicate Existed(w: State, room: RoomId) {
    room in w.rooms || room in w.collected
  }

  /** A room as it is, or as it last was when it was collected. */
  function RoomOf(w: State, room: RoomId): Room
    requires Existed(w, room)
  {
    if room in w.rooms then w.rooms[room] else w.collected[room]
  }

  function History(w: State, room: RoomId): seq<Entry>
    requires Existed(w, room)
  {
    RoomOf(w, room).log
  }

  /** The room is still known, and nothing of its history is lost. */
  ghost predicate Remembers(w: State, v: State, room: RoomId) {
    Existed(w, room) && Existed(v, room) && History(w, room) <= History(v, room)
  }

  /** The room is still known, and nothing has happened in it. */
  ghost predicate Untouched(w: State, v: State, room: RoomId) {
    Existed(w, room) && Existed(v, room) && History(w, room) == History(v, room)
  }

  lemma PushToUntouched(w: State, target: RoomId, job: Job, room: RoomId)
    requires Existed(w, room)
    ensures Untouched(w, PushTo(w, target, job), room)
  {
  }

  lemma GetOrCreateUntouched(w: State, name: string, cfg: Config, room: RoomId)
    requires Existed(w, room) && w.nextRoom != room
    ensures Untouched(w, GetOrCreate(w, name, cfg).0, room)
  {
  }

  lemma EnterRequestUntouched(w: State, s: SessionId, name: string, cfg: Config, room: RoomId)
    requires NamesGood(w) && Existed(w, room)
    ensures Untouched(w, RequestEnter(w, s, name, cfg), room)
  {
    var u := PushToCurrent(w, s, Leave(s));
    if s in w.at {
      PushToUntouched(w, w.at[s], Leave(s), room);
    }
    var (v, target) := GetOrCreate(u, name, cfg);
    GetOrCreateUntouched(u, name, cfg, room);
    PushToUntouched(v, target, Enter(s), room);
  }

  lemma SessionUntouched(w: State, e: Event, cfg: Config, room: RoomId)
    requires Existed(w, room) && (e.Disconnect? || e.LoginDone?)
    ensures Untouched(w, Step(w, e, cfg), room)
  {
    if e.LoginDone? {
      PushToUntouched(w.(accounts := w.accounts[e.session := e.account]), e.choice, Rejoin(e.session), room);
    } else if e.session in w.at {
      PushToUntouched(w, w.at[e.session], Leave(e.session), room);
    }
  }

  lemma RequestUntouched(w: State, e: Event, cfg: Config, room: RoomId)
    requires Existed(w, room) && (e.LeaveRequest? || e.ReadyRequest? || e.MoveRequest?)
    ensures Untouched(w, Step(w, e, cfg), room)
  {
    var s, a := e.session, AccountOf(w.accounts, e.session);
    if s in w.at {
      PushToUntouched(w, w.at[s], if e.ReadyRequest? then Ready(a) else if e.MoveRequest? then Move(a, e.position) else Leave(s), room);
    }
  }

  lemma CollectUntouched(w: State, cfg: Config, room: RoomId)
    requires NamesGood(w) && Existed(w, room)
    ensures Untouched(w, Collect(w, cfg), room)
  {
  }

  lemma BeginFlushUntouched(w: State, target: RoomId, cfg: Config, room: RoomId)
    requires Existed(w, room)
    ensures Untouched(w, Step(w, BeginFlush(target), cfg), room)
  {
  }

  /** Only running a job and ending a tick do anything to a room. */
  lemma StepUntouched(w: State, e: Event, cfg: Config, room: RoomId)
    requires NamesGood(w) && Existed(w, room) && !e.RunJob? && !e.EndTick?
    ensures Untouched(w, Step(w, e, cfg), room)
  {
    if e.EnterRequest? {
      EnterRequestUntouched(w, e.session, e.name, cfg, room);
    } else if e.BeginFlush? {
      BeginFlushUntouched(w, e.room, cfg, room);
    } else if e.CollectIdle? {
      CollectUntouched(w, cfg, room);
    } else if e.Tick? || e.Connection? {
      assert Step(w, e, cfg).rooms == w.rooms && Step(w, e, cfg).collected == w.collected;
    } else if e.Disconnect? || e.LoginDone? {
      SessionUntouched(w, e, cfg, room);
    } else {
      RequestUntouched(w, e, cfg, room);
    }
  }

  lemma ExecuteExtendsLog(r: Room, job: Job, accounts: Accounts, now: int, first: SessionId)
    ensures r.log <= Execute(r, job, accounts, now, first).log
  {
    match job
    case Enter(s) =>
    case Leave(s) =>
    case Rejoin(s) =>
    case Ready(a) =>
    case Move(a, p) =>
  }

  lemma RunNextExtendsLog(r: Room, accounts: Accounts, now: int, first: SessionId)
    requires r.batch != []
    ensures r.log <= RunNext(r, accounts, now, first).log
  {
    ExecuteExtendsLog(Dequeue(r), r.batch[0], accounts, now, first);
  }

  lemma TickTailExtendsLog(r: Room, now: int, window: int)
    ensures r.log <= TickTail(r, now, window).log
  {
  }

  lemma RoomStepRemembers(w: State, e: Event, cfg: Config, room: RoomId)
    requires Existed(w, room) && (e.RunJob? || e.EndTick?)
    ensures Remembers(w, Step(w, e, cfg), room)
  {
    if e.room in w.rooms {
      if e.RunJob? && w.rooms[e.room].batch != [] {
        RunNextExtendsLog(w.rooms[e.room], w.accounts, w.now, e.first);
      }
      TickTailExtendsLog(w.rooms[e.room], w.now, cfg.window);
    }
  }

  /** Histories only ever grow, and survive the collection of their room. */
  lemma HistoryGrows(w: State, e: Event, cfg: Config, room: RoomId)
    requires NamesGood(w) && Existed(w, room)
    ensures Remembers(w, Step(w, e, cfg), room)
  {
    if e.RunJob? || e.EndTick? {
      RoomStepRemembers(w, e, cfg, room);
    } else {
      StepUntouched(w, e, cfg, room);
    }
  }

  lemma EveryRoomHolds(start: int, events: seq<Event>, cfg: Config, room: RoomId)
    requires 0 < start && Existed(Run(start, events, cfg), room)
    ensures var w := Run(start, events, cfg); RoomInv(RoomOf(w, room), w.now, cfg.window)
  {
    RunKeeps(start, events, cfg);
  }

  // ----- reconnecting -----

  /** The reconnect guarantee. With rooms kept idle at least as long as the reconnect window: if
      the latest mid-game departure of an account from a room, in the whole history of that room,
      was at t, no more than a window ago, and was not followed by a rejoin, then the room has not
      been collected and FindReconnect(account) finds it. */
  lemma ReconnectGuarantee(start: int, events: seq<Event>, cfg: Config, room: RoomId, a: Account, i: nat)
    requires 0 < start && cfg.window <= cfg.idleMs
    requires Existed(Run(start, events, cfg), room)
    requires var w := Run(start, events, cfg); var log := History(w, room);
      && i < |log| && log[i].Departed? && log[i].midGame && log[i].account == a
      && w.now - log[i].at <= cfg.window
      && forall j :: i < j < |log| ==> !SupersedesSlot(log[j], a)
    ensures var w := Run(start, events, cfg); CanFindReconnect(w, a, room) && HasReconnect(w, a)
  {
    var w := Run(start, events, cfg);
    var log := History(w, room);
    RunKeeps(start, events, cfg);
    OwedMeaning(log, a, log[i].at);
    assert MidGameDeparture(log[i], a, log[i].at);
    assert room in w.rooms;
  }

  /** And FindReconnect finds nobody by mistake: a room it can return for an account is one whose
      history has a mid-game departure of that account not followed by a rejoin. */
  lemma ReconnectOnlyIfOwed(start: int, events: seq<Event>, cfg: Config, room: RoomId, a: Account)
    requires 0 < start && CanFindReconnect(Run(start, events, cfg), a, room)
    ensures var log := Run(start, events, cfg).rooms[room].log;
      exists i :: 0 <= i < |log| && log[i].Departed? && log[i].midGame && log[i].account == a
        && forall j :: i < j < |log| ==> !SupersedesSlot(log[j], a)
  {
    RunKeeps(start, events, cfg);
    var r := Run(start, events, cfg).rooms[room];
    OwedMeaning(r.log, a, Owed(r.log)[a]);
  }

  // ----- games -----

  /** A game in progress has at least two members; outside WAITING nobody is marked ready. */
  lemma LiveGames(start: int, events: seq<Event>, cfg: Config, room: RoomId)
    requires 0 < start && room in Run(start, events, cfg).rooms
    ensures var r := Run(start, events, cfg).rooms[room];
      (r.phase == InGame ==> 2 <= |r.members|) && (r.phase != Waiting ==> r.ready == {})
  {
    RunRoom(start, events, cfg, room);
  }

  /** Whenever a job makes a member leave during a game, the game ends there and then with one
      result, and the winner is the account of a session that is still in the room. */
  lemma EveryDepartureHasAWinner(start: int, events: seq<Event>, cfg: Config, room: RoomId, first: SessionId)
    requires 0 < start && room in Run(start, events, cfg).rooms
    requires var r := Run(start, events, cfg).rooms[room];
      && r.batch != [] && r.batch[0].Leave? && r.batch[0].session in r.members && r.phase == InGame
      && CanComeFirst(r, r.batch[0], first)
    ensures var w := Run(start, events, cfg); var r := w.rooms[room];
      var q := Step(w, RunJob(room, first), cfg).rooms[room];
      && first in q.members && q.phase == Finished
      && q.log == r.log + [Departed(r.batch[0].session, AccountOf(w.accounts, r.batch[0].session), true, w.now)]
                        + [GameResult(AccountOf(w.accounts, first), w.now)]
  {
    RunRoom(start, events, cfg, room);
    var w := Run(start, events, cfg);
    DepartureEndsGame(Dequeue(w.rooms[room]), w.rooms[room].batch[0].session, w.accounts, w.now, first);
  }

  /** Starts, results and resets of a room take turns, at every moment of its history, and its
      state says whose turn it is; every result is the result of one mid-game departure; every
      reset comes more than five seconds after the result it clears away, and any two starts are
      more than five seconds apart. */
  lemma TimedLifecycle(start: int, events: seq<Event>, cfg: Config, room: RoomId)
    requires 0 < start && Existed(Run(start, events, cfg), room)
    ensures var r := RoomOf(Run(start, events, cfg), room);
      && TakesTurns(r.log) && StartsSpaced(r.log) && ScreensLong(r.log)
      && Starts(r.log) - Results(r.log) == (if r.phase == InGame then 1 else 0)
      && Results(r.log) - Resets(r.log) == (if r.phase == Finished then 1 else 0)
      && Results(r.log) == MidGameDepartures(r.log)
  {
    EveryRoomHolds(start, events, cfg, room);
  }

  /** The result screen ends in time: when a tick ends, the result of a game that the room has not
      gone back to waiting from is still being shown if and only if it is at most five seconds
      old, and otherwise the room is waiting again from now on. */
  lemma ResultScreenEnds(start: int, events: seq<Event>, cfg: Config, room: RoomId, i: nat)
    requires 0 < start && room in Run(start, events, cfg).rooms
    requires var r := Run(start, events, cfg).rooms[room];
      && r.batch == [] && i < |r.log| && r.log[i].GameResult?
      && forall j :: i < j < |r.log| ==> !SupersedesResult(r.log[j])
    ensures var w := Run(start, events, cfg); var r := w.rooms[room];
      var q := Step(w, EndTick(room), cfg).rooms[room];
      && r.phase == Finished
      && (if w.now - r.log[i].at <= 5000 then q.phase == Finished && q.log == r.log
          else q.phase == Waiting && q.log == r.log + [BackToWaiting(w.now)])
  {
    RunRoom(start, events, cfg, room);
    var w := Run(start, events, cfg);
    ScreenEnds(w.rooms[room], w.now, cfg.window, i);
  }

  // ----- jobs and moves -----

  /** Every job pushed on a room is run at most once and in push order; what has not run yet is
      waiting in the current batch or, behind it, in the queue. */
  lemma JobsRunInOrder(start: int, events: seq<Event>, cfg: Config, room: RoomId)
    requires 0 < start && room in Run(start, events, cfg).rooms
    ensures var r := Run(start, events, cfg).rooms[room]; r.ran + r.batch + r.jobs == r.pushed
  {
    RunRoom(start, events, cfg, room);
  }

  /** A tick outside FINISHED broadcasts exactly, for each account, the last move accepted since
      the last broadcast and since the account's last departure. */
  lemma BroadcastIsLastMoves(start: int, events: seq<Event>, cfg: Config, room: RoomId)
    requires 0 < start && room in Run(start, events, cfg).rooms
    requires var r := Run(start, events, cfg).rooms[room]; r.batch == [] && r.phase != Finished && r.moves != map[]
    ensures var w := Run(start, events, cfg); var r := w.rooms[room];
      var q := Step(w, EndTick(room), cfg).rooms[room];
      && q.log == r.log + [MovesBroadcast(r.moves)] && q.moves == map[]
      && AreLastMoves(r.moves, r.log)
  {
    RunRoom(start, events, cfg, room);
    var w := Run(start, events, cfg);
    TickBroadcastsUnsentMoves(w.rooms[room], w.now, cfg.window);
    UnsentAreLastMoves(w.rooms[room].log);
  }
}
