/** A room is what its history says, and what a job or a tick adds to the history follows from the
    history too: the laws of a room without its fields. */
module HistoryLaws {
  import opened Collections
  import opened RoomModel
  import opened RoomHistory
  import opened RoomSafety
  import opened World
  import opened WorldSafety
  import opened WorldTheorems
  import opened Occupancy
  import Registry = SessionRegistry

  /** A game has started and has no result yet. */
  predicate InProgress(log: seq<Entry>) {
    Results(log) < Starts(log)
  }

  /** Every game has had its result, and every result has been cleared away. */
  predicate IsWaiting(log: seq<Entry>) {
    Starts(log) == Resets(log)
  }

  // ----- the state -----

  /** Phase, members, ready marks, pending moves and stamp are those of the history; the slots are
      debts of the history, and none of the last `window` milliseconds is missing. */
  ghost predicate IsItsHistory(r: Room, now: int, window: int) {
    && (r.phase == InGame <==> InProgress(r.log)) && (r.phase == Waiting <==> IsWaiting(r.log))
    && (r.phase == Finished <==> Shown(r.log) == Some(r.finishedAt))
    && r.members == Inside(r.log).Keys && r.ready == Marked(r.log) && r.moves == Unsent(r.log) && r.emptySince == Stamp(r.log)
    && (forall a :: a in r.slots ==> a in Owed(r.log) && r.slots[a] == Owed(r.log)[a])
    && (forall a :: a in Owed(r.log) && now - Owed(r.log)[a] <= window ==> a in r.slots)
  }

  lemma InvMeansHistory(r: Room, now: int, window: int)
    requires RoomInv(r, now, window) && Fits(r)
    ensures IsItsHistory(r, now, window)
  {
  }

  lemma RoomIsItsHistory(start: int, events: seq<Event>, cfg: Config, room: RoomId)
    requires 0 < start && room in Run(start, events, cfg).rooms
    ensures var w := Run(start, events, cfg); IsItsHistory(w.rooms[room], w.now, cfg.window) && w.rooms[room].maxPlayers == cfg.maxPlayers
  {
    RunRoom(start, events, cfg, room);
    RoomsWithinLimit(start, events, cfg);
    var w := Run(start, events, cfg);
    InvMeansHistory(w.rooms[room], w.now, cfg.window);
  }

  // ----- what a job adds -----

  /** An entry is refused during a game and when the room is full. */
  ghost predicate EnterLogs(log: seq<Entry>, maxPlayers: int, s: SessionId, added: seq<Entry>) {
    added == [if InProgress(log) || |Inside(log).Keys| >= maxPlayers then Refused(s) else Entered(s)]
  }

  /** Whoever is inside departs; a game ends with that, won by somebody else who is inside. */
  ghost predicate LeaveLogs(log: seq<Entry>, s: SessionId, accounts: Accounts, now: int, added: seq<Entry>) {
    var e := Departed(s, AccountOf(accounts, s), InProgress(log), now);
    if s !in Inside(log) then added == []
    else if !InProgress(log) then added == [e]
    else exists t :: t in Inside(log) && t != s && added == [e] + [GameResult(AccountOf(accounts, t), now)]
  }

  /** While the room waits, the account is toggled, and a game starts if two or more are inside
      and at least as many accounts are ready. */
  ghost predicate ReadyLogs(log: seq<Entry>, a: Account, accounts: Accounts, now: int, added: seq<Entry>) {
    var inside, marked := Inside(log).Keys, Marked(log + [ReadyToggled(a)]);
    added ==
      if !IsWaiting(log) then []
      else [ReadyToggled(a)] +
           (if 2 <= |inside| && |inside| <= |marked| then [GameStarted(now, AccountsOf(accounts, inside), marked)] else [])
  }

  ghost predicate JobLogs(log: seq<Entry>, maxPlayers: int, job: Job, accounts: Accounts, now: int, added: seq<Entry>) {
    match job
    case Enter(s) => EnterLogs(log, maxPlayers, s, added)
    case Leave(s) => LeaveLogs(log, s, accounts, now, added)
    case Rejoin(s) => added == [Rejoined(s, AccountOf(accounts, s))]
    case Ready(a) => ReadyLogs(log, a, accounts, now, added)
    case Move(a, p) => added == if InProgress(log) then [MoveAccepted(a, p)] else []
  }

  lemma LeaveAdds(r: Room, s: SessionId, accounts: Accounts, now: int, first: SessionId, window: int) returns (added: seq<Entry>)
    requires IsItsHistory(r, now, window) && Live(r) && CanComeFirst(r, Leave(s), first)
    ensures HandleLeave(r, s, accounts, now, first).log == r.log + added && LeaveLogs(r.log, s, accounts, now, added)
  {
    added := [];
    if s in r.members {
      added := [Departed(s, AccountOf(accounts, s), r.phase == InGame, now)];
      if r.phase == InGame {
        DepartureEndsGame(r, s, accounts, now, first);
        added := added + [GameResult(AccountOf(accounts, first), now)];
      }
    }
  }

  lemma ReadyAdds(r: Room, a: Account, accounts: Accounts, now: int, window: int) returns (added: seq<Entry>)
    requires IsItsHistory(r, now, window)
    ensures HandleReady(r, a, accounts, now).log == r.log + added && ReadyLogs(r.log, a, accounts, now, added)
  {
    added := [];
    Snoc(r.log, ReadyToggled(a));
    if r.phase == Waiting {
      var marked := Toggled(r.ready, a);
      added := [ReadyToggled(a)] +
        (if 2 <= |r.members| && |r.members| <= |marked| then [GameStarted(now, AccountsOf(accounts, r.members), marked)] else []);
    }
  }

  lemma JobAdds(r: Room, accounts: Accounts, now: int, first: SessionId, window: int) returns (added: seq<Entry>)
    requires IsItsHistory(r, now, window) && Live(r) && r.batch != [] && CanComeFirst(r, r.batch[0], first)
    ensures RunNext(r, accounts, now, first).log == r.log + added
    ensures JobLogs(r.log, r.maxPlayers, r.batch[0], accounts, now, added)
  {
    var q := Dequeue(r);
    match r.batch[0]
    case Enter(s) => added := [if Admits(q) then Entered(s) else Refused(s)];
    case Leave(s) => added := LeaveAdds(q, s, accounts, now, first, window);
    case Rejoin(s) => added := [Rejoined(s, AccountOf(accounts, s))];
    case Ready(a) => added := ReadyAdds(q, a, accounts, now, window);
    case Move(a, p) => added := if q.phase == InGame then [MoveAccepted(a, p)] else [];
  }

  // ----- what the end of a tick adds -----

  /** A result more than five seconds old is cleared away; without a result to be shown the
      pending moves are broadcast, if there are any. */
  ghost predicate TickLogs(log: seq<Entry>, now: int, added: seq<Entry>) {
    added ==
      if Shown(log).Some? then (if now - Shown(log).value > 5000 then [BackToWaiting(now)] else [])
      else if Unsent(log) == map[] then []
      else [MovesBroadcast(Unsent(log))]
  }

  lemma TickAdds(r: Room, now: int, window: int) returns (added: seq<Entry>)
    requires RoomInv(r, now, window)
    ensures TickTail(r, now, window).log == r.log + added && TickLogs(r.log, now, added)
  {
    added :=
      if r.phase == Finished then (if now - r.finishedAt > FINISHED_MS then [BackToWaiting(now)] else [])
      else if r.moves == map[] then []
      else [MovesBroadcast(r.moves)];
  }

  // ----- every step of every run -----

  /** The step runs the next job of the room. */
  ghost predicate RunsJob(w: State, e: Event, room: RoomId) {
    && e.RunJob? && e.room == room && room in w.rooms && w.rooms[room].batch != []
    && CanComeFirst(w.rooms[room], w.rooms[room].batch[0], e.first)
  }

  /** The step ends a tick of the room, all of whose jobs have run. */
  ghost predicate EndsTick(w: State, e: Event, room: RoomId) {
    e == EndTick(room) && room in w.rooms && w.rooms[room].batch == []
  }

  lemma OthersAddNothing(w: State, e: Event, cfg: Config, room: RoomId)
    requires NamesGood(w) && Existed(w, room) && !RunsJob(w, e, room) && !EndsTick(w, e, room)
    ensures Existed(Step(w, e, cfg), room) && History(Step(w, e, cfg), room) == History(w, room)
  {
    if !e.RunJob? && !e.EndTick? {
      StepUntouched(w, e, cfg, room);
    } else {
      RoomStepElsewhere(w, e, cfg, room);
    }
  }

  lemma RoomStepElsewhere(w: State, e: Event, cfg: Config, room: RoomId)
    requires Existed(w, room) && (e.RunJob? || e.EndTick?) && !RunsJob(w, e, room) && !EndsTick(w, e, room)
    ensures Untouched(w, Step(w, e, cfg), room)
  {
    var v := Step(w, e, cfg);
    assert v.collected == w.collected;
    assert v.rooms == w.rooms || (e.room in w.rooms && e.room != room && v.rooms == w.rooms[e.room := v.rooms[e.room]]);
  }

  /** What a step adds to the history of a room: what the job says, what the end of a tick says,
      and nothing otherwise. */
  lemma StepAdds(start: int, events: seq<Event>, cfg: Config, e: Event, room: RoomId) returns (added: seq<Entry>)
    requires 0 < start && Existed(Run(start, events, cfg), room)
    ensures var w := Run(start, events, cfg); var v := Step(w, e, cfg); var log := History(w, room);
      && Existed(v, room) && History(v, room) == log + added
      && (if RunsJob(w, e, room) then JobLogs(log, cfg.maxPlayers, w.rooms[room].batch[0], w.accounts, w.now, added)
          else if EndsTick(w, e, room) then TickLogs(log, w.now, added)
          else added == [])
  {
    var w := Run(start, events, cfg);
    added := [];
    if RunsJob(w, e, room) {
      RoomIsItsHistory(start, events, cfg, room);
      RunRoom(start, events, cfg, room);
      added := JobAdds(w.rooms[room], w.accounts, w.now, e.first, cfg.window);
    } else if EndsTick(w, e, room) {
      RunRoom(start, events, cfg, room);
      added := TickAdds(w.rooms[room], w.now, cfg.window);
    } else {
      RunPointers(start, events, cfg);
      OthersAddNothing(w, e, cfg, room);
    }
  }

  /** When a tick ends, the accounts with a slot are exactly those whose debt is no older than the
      window, each with the time of its departure. */
  lemma SlotsAfterTick(start: int, events: seq<Event>, cfg: Config, room: RoomId, a: Account)
    requires 0 < start && room in Run(start, events, cfg).rooms && Run(start, events, cfg).rooms[room].batch == []
    ensures var w := Run(start, events, cfg); var slots := Step(w, EndTick(room), cfg).rooms[room].slots;
      var owed := Owed(w.rooms[room].log);
      && (a in slots <==> a in owed && w.now - owed[a] <= cfg.window)
      && (a in slots ==> slots[a] == owed[a])
  {
    var w := Run(start, events, cfg);
    RunRoom(start, events, cfg, room);
    TickLeavesLiveSlots(w.rooms[room], w.now, cfg.window, a);
  }

  // ----- and what it does to the sessions' room pointers -----

  type PointerMap = map<SessionId, RoomId>

  ghost predicate SamePointer(before: PointerMap, after: PointerMap, s: SessionId) {
    (s in before <==> s in after) && (s in before ==> after[s] == before[s])
  }

  /** Coming in sets the session's pointer to the room, going clears it; nobody else's changes. */
  ghost predicate PointerFollows(before: PointerMap, after: PointerMap, room: RoomId, added: seq<Entry>, s: SessionId) {
    && (forall i :: 0 <= i < |added| && (added[i].Entered? || added[i].Rejoined?) && added[i].session == s ==>
          s in after && after[s] == room)
    && (forall i :: 0 <= i < |added| && added[i].Departed? && added[i].session == s ==> s !in after)
    && ((forall i :: 0 <= i < |added| ==> !Places(added[i], s)) ==> SamePointer(before, after, s))
  }

  lemma Dropped(log: seq<Entry>, added: seq<Entry>)
    ensures (log + added)[|log|..] == added
  {
  }

  lemma LeavePoints(r: Room, t: SessionId, accounts: Accounts, now: int, first: SessionId, room: RoomId, at: PointerMap, s: SessionId)
    ensures PointerFollows(at, Pointers(r, Leave(t), room, at), room, HandleLeave(r, t, accounts, now, first).log[|r.log|..], s)
  {
    var e := Departed(t, AccountOf(accounts, t), r.phase == InGame, now);
    Dropped(r.log, []);
    Dropped(r.log, [e]);
    Dropped(r.log, [e] + [GameResult(AccountOf(accounts, first), now)]);
    assert r.log + [] == r.log;
    assert r.log + ([e] + [GameResult(AccountOf(accounts, first), now)]) == r.log + [e] + [GameResult(AccountOf(accounts, first), now)];
    assert [e][0] == e && ([e] + [GameResult(AccountOf(accounts, first), now)])[0] == e;
  }

  lemma ReadyPoints(r: Room, a: Account, accounts: Accounts, now: int, room: RoomId, at: PointerMap, s: SessionId)
    ensures PointerFollows(at, at, room, HandleReady(r, a, accounts, now).log[|r.log|..], s)
  {
    var q := HandleReady(r, a, accounts, now);
    assert forall i :: |r.log| <= i < |q.log| ==> q.log[i].ReadyToggled? || q.log[i].GameStarted?;
  }

  lemma JobPoints(r: Room, job: Job, accounts: Accounts, now: int, first: SessionId, room: RoomId, at: PointerMap, s: SessionId)
    ensures PointerFollows(at, Pointers(r, job, room, at), room, Execute(r, job, accounts, now, first).log[|r.log|..], s)
  {
    match job
    case Enter(t) =>
      var e := if Admits(r) then Entered(t) else Refused(t);
      Dropped(r.log, [e]);
      assert [e][0] == e;
    case Leave(t) => LeavePoints(r, t, accounts, now, first, room, at, s);
    case Rejoin(t) =>
      var e := Rejoined(t, AccountOf(accounts, t));
      Dropped(r.log, [e]);
      assert [e][0] == e;
    case Ready(a) => ReadyPoints(r, a, accounts, now, room, at, s);
    case Move(a, p) =>
  }

  /** A session's room pointer follows the histories: it changes only with an entry about the
      session, and when the server first disconnects it. */
  lemma PointersFollowHistory(w: State, e: Event, cfg: Config, s: SessionId)
    ensures var v := Step(w, e, cfg);
      if e.RunJob? && RunsJob(w, e, e.room) then
        && w.rooms[e.room].log <= v.rooms[e.room].log
        && PointerFollows(w.at, v.at, e.room, v.rooms[e.room].log[|w.rooms[e.room].log|..], s)
      else if e == Disconnect(s) && Registry.Exists(w.sessions, s) && s !in w.sessions.closed then s !in v.at
      else SamePointer(w.at, v.at, s)
  {
    if e.RunJob? && RunsJob(w, e, e.room) {
      var r := w.rooms[e.room];
      RunNextExtendsLog(r, w.accounts, w.now, e.first);
      JobPoints(Dequeue(r), r.batch[0], w.accounts, w.now, e.first, e.room, w.at, s);
      assert Pointers(Dequeue(r), r.batch[0], e.room, w.at) == Pointers(r, r.batch[0], e.room, w.at);
    } else if e.Disconnect? {
      DisconnectPoints(w, e.session, s);
    } else {
      OthersPoint(w, e, cfg);
    }
  }

  lemma DisconnectPoints(w: State, t: SessionId, s: SessionId)
    ensures var v := HandleDisconnect(w, t);
      if t == s && Registry.Exists(w.sessions, s) && s !in w.sessions.closed then s !in v.at else SamePointer(w.at, v.at, s)
  {
  }

  lemma OthersPoint(w: State, e: Event, cfg: Config)
    requires !e.Disconnect? && !(e.RunJob? && RunsJob(w, e, e.room))
    ensures Step(w, e, cfg).at == w.at
  {
    if e.EnterRequest? {
      RequestEnterElsewhere(w, e.session, e.name, cfg);
    }
  }
}
