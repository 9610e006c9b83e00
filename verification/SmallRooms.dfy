/** Rooms with room for fewer than two players. No game is ever started in one, so nobody is ever
    owed a slot and nobody rejoins. These are the settings under which promises about games and
    reconnects hold because there is nothing to promise. */
module SmallRooms {
  import opened RoomModel
  import opened RoomHistory
  import opened World
  import opened Collections

  ghost predicate NoGames(log: seq<Entry>) {
    forall i :: 0 <= i < |log| ==> !log[i].GameStarted? && !(log[i].Departed? && log[i].midGame)
  }

  ghost predicate NoRejoins(jobs: seq<Job>) {
    forall i :: 0 <= i < |jobs| ==> !jobs[i].Rejoin?
  }

  ghost predicate Small(r: Room, cfg: Config) {
    && r.maxPlayers == cfg.maxPlayers && r.phase == Waiting && r.slots == map[]
    && |r.members| <= Capacity(r.maxPlayers) && NoRejoins(r.jobs) && NoRejoins(r.batch) && NoGames(r.log)
  }

  ghost predicate AllSmall(w: State, cfg: Config) {
    && (forall room :: room in w.rooms ==> Small(w.rooms[room], cfg))
    && (forall room :: room in w.collected ==> NoGames(w.collected[room].log))
  }

  lemma {:induction false} NobodyOwed(log: seq<Entry>)
    requires NoGames(log)
    ensures Owed(log) == map[]
  {
    if log != [] {
      NobodyOwed(log[..|log| - 1]);
    }
  }

  lemma JobKeepsSmall(r: Room, accounts: Accounts, now: int, first: SessionId, cfg: Config)
    requires cfg.maxPlayers < 2 && Small(r, cfg) && r.batch != []
    ensures Small(RunNext(r, accounts, now, first), cfg)
  {
    var job, q := r.batch[0], RunNext(r, accounts, now, first);
    assert NoRejoins(r.batch[1..]);
    if job.Enter? {
      assert |r.members + {job.session}| <= |r.members| + 1;
    } else if job.Leave? {
      SubsetSize(r.members - {job.session}, r.members);
    }
  }

  lemma TickTailKeepsSmall(r: Room, now: int, window: int, cfg: Config)
    requires Small(r, cfg)
    ensures Small(TickTail(r, now, window), cfg)
  {
  }

  lemma PushToSmall(w: State, room: RoomId, job: Job, cfg: Config)
    requires AllSmall(w, cfg) && !job.Rejoin?
    ensures AllSmall(PushTo(w, room, job), cfg)
  {
  }

  lemma EnterRequestSmall(w: State, s: SessionId, name: string, cfg: Config)
    requires AllSmall(w, cfg)
    ensures AllSmall(RequestEnter(w, s, name, cfg), cfg)
  {
    if s in w.at {
      PushToSmall(w, w.at[s], Leave(s), cfg);
    }
    var (v, room) := GetOrCreate(PushToCurrent(w, s, Leave(s)), name, cfg);
    PushToSmall(v, room, Enter(s), cfg);
  }

  lemma LoginSmall(w: State, s: SessionId, a: Account, choice: RoomId, cfg: Config)
    requires AllSmall(w, cfg)
    ensures AllSmall(Step(w, LoginDone(s, a, choice), cfg), cfg)
  {
    assert !CanFindReconnect(w, a, choice);
  }

  lemma RequestSmall(w: State, e: Event, cfg: Config)
    requires AllSmall(w, cfg) && (e.Disconnect? || e.LeaveRequest? || e.ReadyRequest? || e.MoveRequest?)
    ensures AllSmall(Step(w, e, cfg), cfg)
  {
    var s, a := e.session, AccountOf(w.accounts, e.session);
    if s in w.at {
      PushToSmall(w, w.at[s], if e.ReadyRequest? then Ready(a) else if e.MoveRequest? then Move(a, e.position) else Leave(s), cfg);
    }
  }

  lemma RoomStepSmall(w: State, e: Event, cfg: Config)
    requires cfg.maxPlayers < 2 && AllSmall(w, cfg) && (e.BeginFlush? || e.RunJob? || e.EndTick?)
    ensures AllSmall(Step(w, e, cfg), cfg)
  {
    if e.room in w.rooms {
      if e.RunJob? && w.rooms[e.room].batch != [] {
        JobKeepsSmall(w.rooms[e.room], w.accounts, w.now, e.first, cfg);
      }
      TickTailKeepsSmall(w.rooms[e.room], w.now, cfg.window, cfg);
    }
  }

  lemma StepSmall(w: State, e: Event, cfg: Config)
    requires cfg.maxPlayers < 2 && AllSmall(w, cfg)
    ensures AllSmall(Step(w, e, cfg), cfg)
  {
    if e.EnterRequest? {
      EnterRequestSmall(w, e.session, e.name, cfg);
    } else if e.BeginFlush? || e.RunJob? || e.EndTick? {
      RoomStepSmall(w, e, cfg);
    } else if e.LoginDone? {
      LoginSmall(w, e.session, e.account, e.choice, cfg);
    } else if !e.Tick? && !e.Connection? && !e.CollectIdle? {
      RequestSmall(w, e, cfg);
    }
  }

  /** In every run with room for fewer than two players, no room ever saw a game, holds a slot, or
      has more members than its setting allows. */
  lemma {:induction false} RunSmall(start: int, events: seq<Event>, cfg: Config)
    requires cfg.maxPlayers < 2
    ensures AllSmall(Run(start, events, cfg), cfg)
  {
    if events != [] {
      RunSmall(start, events[..|events| - 1], cfg);
      StepSmall(Run(start, events[..|events| - 1], cfg), events[|events| - 1], cfg);
    }
  }
}
