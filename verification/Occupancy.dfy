/** How full a room can get. Entering respects the limit; rejoining does not look at it. So it is
    the sessions that entered that never exceed the limit, and a room as a whole can. */
module Occupancy {
  import opened RoomModel
  import opened World
  import opened Collections
  import opened SmallRooms
  import opened Stories

  datatype Way = ByEntry | ByRejoin

  function InsideAfter(inside: map<SessionId, Way>, e: Entry): map<SessionId, Way> {
    if e.Entered? then inside[e.session := ByEntry]
    else if e.Rejoined? then inside[e.session := ByRejoin]
    else if e.Departed? then inside - {e.session}
    else inside
  }

  /** Who is in the room according to its history, and how they last came in. */
  function Inside(log: seq<Entry>): map<SessionId, Way> {
    if log == [] then map[] else InsideAfter(Inside(log[..|log| - 1]), log[|log| - 1])
  }

  function Enterers(log: seq<Entry>): set<SessionId> {
    set s | s in Inside(log) && Inside(log)[s] == ByEntry
  }

  predicate Places(e: Entry, s: SessionId) {
    (e.Entered? || e.Rejoined? || e.Departed?) && e.session == s
  }

  predicate BringsIn(e: Entry, s: SessionId, way: Way) {
    match way
    case ByEntry => e == Entered(s)
    case ByRejoin => e.Rejoined? && e.session == s
  }

  /** Inside, said without replaying: the last entry about the session says how it came in. */
  lemma {:induction false} InsideMeaning(log: seq<Entry>, s: SessionId, way: Way)
    ensures s in Inside(log) && Inside(log)[s] == way <==>
      exists i :: 0 <= i < |log| && BringsIn(log[i], s, way) && forall j :: i < j < |log| ==> !Places(log[j], s)
  {
    if log != [] {
      var n := |log| - 1;
      InsideMeaning(log[..n], s, way);
      if s in Inside(log) && Inside(log)[s] == way {
        if !BringsIn(log[n], s, way) {
          var i :| 0 <= i < n && BringsIn(log[..n][i], s, way) && forall j :: i < j < n ==> !Places(log[..n][j], s);
          assert BringsIn(log[i], s, way) && forall j :: i < j < |log| ==> !Places(log[j], s);
        }
      }
    }
  }

  /** Since when the room is empty; 0 while it is in use. */
  function Stamp(log: seq<Entry>): int {
    if log == [] then 0
    else
      var e, before := log[|log| - 1], Stamp(log[..|log| - 1]);
      if e.Entered? || e.Rejoined? then 0
      else if e.Departed? && Inside(log) == map[] then e.at
      else before
  }

  /** The members are those the history says are inside, no more of them have come in by entering
      than the limit allows, and the stamp says since when the room is empty. */
  ghost predicate Fits(r: Room) {
    r.members == Inside(r.log).Keys && |Enterers(r.log)| <= Capacity(r.maxPlayers) && r.emptySince == Stamp(r.log)
  }

  // ----- every step keeps it -----

  lemma InsideSnoc(log: seq<Entry>, e: Entry)
    ensures Inside(log + [e]) == InsideAfter(Inside(log), e)
    ensures !e.Entered? ==> Enterers(log + [e]) <= Enterers(log) && |Enterers(log + [e])| <= |Enterers(log)|
    ensures e.Entered? ==> Enterers(log + [e]) == Enterers(log) + {e.session}
    ensures Stamp(log + [e]) ==
      if e.Entered? || e.Rejoined? then 0 else if e.Departed? && Inside(log + [e]) == map[] then e.at else Stamp(log)
  {
    assert (log + [e])[..|log|] == log;
    if !e.Entered? {
      SubsetSize(Enterers(log + [e]), Enterers(log));
    }
  }

  lemma OneMoreEnters(members: set<SessionId>, enterers: set<SessionId>, s: SessionId)
    requires enterers <= members
    ensures |enterers + {s}| <= |members| + 1
    ensures s in members ==> |enterers + {s}| <= |members|
  {
    SubsetSize(enterers + {s}, members + {s});
    assert s in members ==> members + {s} == members;
  }

  lemma EnterFits(r: Room, s: SessionId)
    requires Fits(r)
    ensures Fits(HandleEnter(r, s))
  {
    if Admits(r) {
      InsideSnoc(r.log, Entered(s));
      OneMoreEnters(r.members, Enterers(r.log), s);
    } else {
      InsideSnoc(r.log, Refused(s));
    }
  }

  lemma LeaveFits(r: Room, s: SessionId, accounts: Accounts, now: int, first: SessionId)
    requires Fits(r)
    ensures Fits(HandleLeave(r, s, accounts, now, first))
  {
    var e := Departed(s, AccountOf(accounts, s), r.phase == InGame, now);
    InsideSnoc(r.log, e);
    InsideSnoc(r.log + [e], GameResult(AccountOf(accounts, first), now));
  }

  lemma RejoinFits(r: Room, s: SessionId, accounts: Accounts)
    requires Fits(r)
    ensures Fits(HandleRejoin(r, s, accounts))
  {
    InsideSnoc(r.log, Rejoined(s, AccountOf(accounts, s)));
  }

  lemma ReadyFits(r: Room, a: Account, accounts: Accounts, now: int)
    requires Fits(r)
    ensures Fits(HandleReady(r, a, accounts, now))
  {
    var ready := if a in r.ready then r.ready - {a} else r.ready + {a};
    InsideSnoc(r.log, ReadyToggled(a));
    InsideSnoc(r.log + [ReadyToggled(a)], GameStarted(now, AccountsOf(accounts, r.members), ready));
  }

  lemma MoveFits(r: Room, a: Account, p: Position)
    requires Fits(r)
    ensures Fits(HandleMove(r, a, p))
  {
    InsideSnoc(r.log, MoveAccepted(a, p));
  }

  lemma ExecuteFits(r: Room, job: Job, accounts: Accounts, now: int, first: SessionId)
    requires Fits(r)
    ensures Fits(Execute(r, job, accounts, now, first))
  {
    match job
    case Enter(s) => EnterFits(r, s);
    case Leave(s) => LeaveFits(r, s, accounts, now, first);
    case Rejoin(s) => RejoinFits(r, s, accounts);
    case Ready(a) => ReadyFits(r, a, accounts, now);
    case Move(a, p) => MoveFits(r, a, p);
  }

  lemma RunNextFits(r: Room, accounts: Accounts, now: int, first: SessionId)
    requires Fits(r) && r.batch != []
    ensures Fits(RunNext(r, accounts, now, first))
  {
    ExecuteFits(Dequeue(r), r.batch[0], accounts, now, first);
  }

  lemma TickTailFits(r: Room, now: int, window: int)
    requires Fits(r)
    ensures Fits(TickTail(r, now, window))
  {
    InsideSnoc(r.log, BackToWaiting(now));
    InsideSnoc(r.log, MovesBroadcast(r.moves));
  }

  ghost predicate AllFit(rooms: map<RoomId, Room>, maxPlayers: int) {
    forall room :: room in rooms ==> Fits(rooms[room]) && rooms[room].maxPlayers == maxPlayers
  }

  lemma UpdateFits(rooms: map<RoomId, Room>, room: RoomId, r: Room)
    requires AllFit(rooms, r.maxPlayers) && Fits(r)
    ensures AllFit(rooms[room := r], r.maxPlayers)
  {
  }

  lemma PushToFits(w: State, room: RoomId, job: Job, cfg: Config)
    requires AllFit(w.rooms, cfg.maxPlayers)
    ensures AllFit(PushTo(w, room, job).rooms, cfg.maxPlayers)
  {
    if room in w.rooms {
      UpdateFits(w.rooms, room, Push(w.rooms[room], job));
    }
  }

  lemma EnterRequestFits(w: State, s: SessionId, name: string, cfg: Config)
    requires AllFit(w.rooms, cfg.maxPlayers)
    ensures AllFit(RequestEnter(w, s, name, cfg).rooms, cfg.maxPlayers)
  {
    if s in w.at {
      PushToFits(w, w.at[s], Leave(s), cfg);
    }
    var u := PushToCurrent(w, s, Leave(s));
    UpdateFits(u.rooms, u.nextRoom, NewRoom(name, cfg.maxPlayers));
    var (v, room) := GetOrCreate(u, name, cfg);
    PushToFits(v, room, Enter(s), cfg);
  }

  lemma RequestFits(w: State, e: Event, cfg: Config)
    requires AllFit(w.rooms, cfg.maxPlayers)
    requires e.Disconnect? || e.LoginDone? || e.LeaveRequest? || e.ReadyRequest? || e.MoveRequest?
    ensures AllFit(Step(w, e, cfg).rooms, cfg.maxPlayers)
  {
    var s, a := e.session, AccountOf(w.accounts, e.session);
    if e.LoginDone? {
      PushToFits(w, e.choice, Rejoin(s), cfg);
    } else if s in w.at {
      PushToFits(w, w.at[s], if e.ReadyRequest? then Ready(a) else if e.MoveRequest? then Move(a, e.position) else Leave(s), cfg);
    }
  }

  lemma RunJobFits(w: State, e: Event, cfg: Config)
    requires AllFit(w.rooms, cfg.maxPlayers) && e.RunJob?
    ensures AllFit(Step(w, e, cfg).rooms, cfg.maxPlayers)
  {
    var v := Step(w, e, cfg);
    if v.rooms != w.rooms {
      var r := w.rooms[e.room];
      RunNextFits(r, w.accounts, w.now, e.first);
      RunNextLimit(r, w.accounts, w.now, e.first);
      UpdateFits(w.rooms, e.room, RunNext(r, w.accounts, w.now, e.first));
    }
  }

  lemma RunNextLimit(r: Room, accounts: Accounts, now: int, first: SessionId)
    requires r.batch != []
    ensures RunNext(r, accounts, now, first).maxPlayers == r.maxPlayers
  {
  }

  lemma TickStepFits(w: State, e: Event, cfg: Config)
    requires AllFit(w.rooms, cfg.maxPlayers) && (e.BeginFlush? || e.EndTick?)
    ensures AllFit(Step(w, e, cfg).rooms, cfg.maxPlayers)
  {
    if e.room in w.rooms && w.rooms[e.room].batch == [] {
      var r := w.rooms[e.room];
      TickTailFits(r, w.now, cfg.window);
      UpdateFits(w.rooms, e.room, if e.EndTick? then TickTail(r, w.now, cfg.window) else RoomModel.BeginFlush(r));
    }
  }

  lemma StepFits(w: State, e: Event, cfg: Config)
    requires AllFit(w.rooms, cfg.maxPlayers)
    ensures AllFit(Step(w, e, cfg).rooms, cfg.maxPlayers)
  {
    if e.EnterRequest? {
      EnterRequestFits(w, e.session, e.name, cfg);
    } else if e.RunJob? {
      RunJobFits(w, e, cfg);
    } else if e.BeginFlush? || e.EndTick? {
      TickStepFits(w, e, cfg);
    } else if !e.Tick? && !e.Connection? && !e.CollectIdle? {
      RequestFits(w, e, cfg);
    }
  }

  /** On every run, in every room: the members are the sessions that came in and have not left
      since, and those among them that last came in by entering are never more than the limit. */
  lemma {:induction false} RoomsWithinLimit(start: int, events: seq<Event>, cfg: Config)
    ensures AllFit(Run(start, events, cfg).rooms, cfg.maxPlayers)
  {
    if events != [] {
      RoomsWithinLimit(start, events[..|events| - 1], cfg);
      StepFits(Run(start, events[..|events| - 1], cfg), events[|events| - 1], cfg);
    }
  }

  // ----- the members altogether -----

  /** A room that shows the result of a game has k + 1 members, all of them connected, and owes a
      slot to the first session's account. */
  ghost predicate Crowd(t: Story, r: Room, k: nat, start: int, cfg: Config) {
    && Told(t, start, cfg) && t.guests == k + 2
    && Solo(t.w, start, r, t.w.at, t.w.accounts)
    && r.phase == Finished && r.maxPlayers == cfg.maxPlayers && |r.members| == k + 1
    && r.batch == [] && r.jobs == [] && r.slots == map["a" := start]
    && (forall s :: s in r.members || s in t.w.at ==> 2 <= s <= k + 2)
  }

  /** One more session is accepted, logs in and enters. */
  lemma CrowdGrows(t: Story, r: Room, k: nat, start: int, cfg: Config) returns (u: Story, q: Room)
    requires Crowd(t, r, k, start, cfg) && k + 1 < cfg.maxPlayers
    ensures Crowd(u, q, k + 1, start, cfg)
  {
    var s := k + 3;
    u := NextPlayer(t, "x", start, cfg);
    var at, accounts := u.w.at, u.w.accounts;
    u, q := NextEnter(u, s, r, at, accounts, start, cfg);
    u, q := NextFlush(u, q, at, accounts, start, cfg);
    assert q.batch == [Enter(s)];
    u, q := NextJob(u, 0, q, at, accounts, start, cfg);
    assert q.members == r.members + {s} && s !in r.members;
  }

  lemma {:induction false} CrowdOf(k: nat, start: int, cfg: Config) returns (t: Story, r: Room)
    requires 0 < start && 2 <= cfg.maxPlayers && k < cfg.maxPlayers
    ensures Crowd(t, r, k, start, cfg)
  {
    if k == 0 {
      t, r := FirstLeaves(start, cfg);
    } else {
      t, r := CrowdOf(k - 1, start, cfg);
      t, r := CrowdGrows(t, r, k - 1, start, cfg);
    }
  }

  /** Whatever the limit: a game ends by a departure, others fill the room up while the result is
      shown, and then the one who left logs in again and is put back. */
  lemma OverFull(start: int, cfg: Config) returns (events: seq<Event>)
    requires 0 < start && 2 <= cfg.maxPlayers
    ensures Real(start, events, cfg)
    ensures var w := Run(start, events, cfg); 0 in w.rooms && |w.rooms[0].members| == cfg.maxPlayers + 1
  {
    var t, r := CrowdOf(cfg.maxPlayers - 1, start, cfg);
    var at, accounts := t.w.at, t.w.accounts[1 := "a"];
    t := Next(t, LoginDone(1, "a", 0), start, cfg);
    var q := Push(r, Rejoin(1));
    assert Solo(t.w, start, q, at, accounts);
    t, q := NextFlush(t, q, at, accounts, start, cfg);
    assert q.batch == [Rejoin(1)];
    t, q := NextJob(t, 0, q, at, accounts, start, cfg);
    assert q.members == r.members + {1} && 1 !in r.members;
    events := t.events;
  }

  /** On every run no room has more members than its limit. */
  ghost predicate LimitHolds(cfg: Config) {
    forall start: int, events: seq<Event>, room: RoomId ::
      0 < start && room in Run(start, events, cfg).rooms ==>
        |Run(start, events, cfg).rooms[room].members| <= Capacity(cfg.maxPlayers)
  }

  /** The limit is kept for exactly those settings under which nobody can ever rejoin. */
  lemma LimitHoldsExactly(cfg: Config)
    ensures LimitHolds(cfg) <==> cfg.maxPlayers < 2
  {
    if cfg.maxPlayers < 2 {
      forall start: int, events: seq<Event>, room: RoomId | 0 < start && room in Run(start, events, cfg).rooms
        ensures |Run(start, events, cfg).rooms[room].members| <= Capacity(cfg.maxPlayers)
      {
        RunSmall(start, events, cfg);
      }
    } else {
      var events := OverFull(1, cfg);
      assert 0 in Run(1, events, cfg).rooms;
    }
  }
}
