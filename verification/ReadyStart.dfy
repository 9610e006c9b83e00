/** When a game starts, is everybody ready? The start condition only compares the sizes of two
    sets, so it depends on the ready set holding nothing but accounts of members. */
module ReadyStart {
  import opened RoomModel
  import opened RoomHistory
  import opened World
  import opened WorldSafety
  import opened Collections
  import opened SmallRooms
  import opened Stories

  /** Every start so far happened when exactly the accounts in the room were ready. */
  ghost predicate AllStartsReady(log: seq<Entry>) {
    forall i :: 0 <= i < |log| && log[i].GameStarted? ==> log[i].ready == log[i].players
  }

  ghost predicate ReadyAreMembers(r: Room, accounts: Accounts) {
    r.ready <= AccountsOf(accounts, r.members)
  }

  ghost predicate Good(r: Room, accounts: Accounts) {
    ReadyAreMembers(r, accounts) && AllStartsReady(r.log)
  }

  /** An orderly step: a login does not change the account of a session that is in a room, and a
      ready job that runs is for an account that is still in its room. */
  ghost predicate Orderly(w: State, e: Event) {
    && (e.LoginDone? ==> forall room :: room in w.rooms && e.session in w.rooms[room].members ==>
          AccountOf(w.accounts, e.session) == e.account)
    && (e.RunJob? && e.room in w.rooms && w.rooms[e.room].batch != [] && w.rooms[e.room].batch[0].Ready? ==>
          w.rooms[e.room].batch[0].account in AccountsOf(w.accounts, w.rooms[e.room].members))
  }

  ghost predicate OrderlyRun(start: int, events: seq<Event>, cfg: Config) {
    forall i :: 0 <= i < |events| ==> Orderly(Run(start, events[..i], cfg), events[i])
  }

  // ----- counting -----

  /** There are at most as many accounts as sessions. */
  lemma {:induction false} AccountsSize(accounts: Accounts, members: set<SessionId>)
    ensures |AccountsOf(accounts, members)| <= |members|
  {
    if s :| s in members {
      AccountsSize(accounts, members - {s});
      assert AccountsOf(accounts, members) == AccountsOf(accounts, members - {s}) + {AccountOf(accounts, s)};
    }
  }

  /** The pigeonhole behind the size comparison: nobody can be missing. */
  lemma StartMeansAllReady(r: Room, accounts: Accounts)
    requires ReadyAreMembers(r, accounts) && CanStart(r)
    ensures r.ready == AccountsOf(accounts, r.members)
  {
    AccountsSize(accounts, r.members);
    SubsetSize(r.ready, AccountsOf(accounts, r.members));
  }

  /** Once the ready job has toggled its account, only accounts in the room are marked ready. */
  ghost predicate NoOutsiderReady(r: Room, a: Account, accounts: Accounts) {
    forall x :: x in r.ready + {a} && (x == a ==> a !in r.ready) ==> x in AccountsOf(accounts, r.members)
  }

  /** Which starts are bad: a ready job that starts a game starts it with exactly its players ready
      if and only if nobody from outside the room is marked ready then; as long as only members
      have been marked, that is if and only if the job is for an account that is in the room. */
  lemma StartIsFairExactly(r: Room, a: Account, accounts: Accounts, now: int)
    requires r.phase == Waiting && HandleReady(r, a, accounts, now).phase == InGame
    ensures var log := HandleReady(r, a, accounts, now).log; var e := log[|log| - 1]; var inside := AccountsOf(accounts, r.members);
      && e.GameStarted? && e.players == inside
      && (e.ready == e.players <==> NoOutsiderReady(r, a, accounts))
      && (ReadyAreMembers(r, accounts) ==> (e.ready == e.players <==> a in inside))
  {
    var q := r.(ready := if a in r.ready then r.ready - {a} else r.ready + {a});
    assert forall x :: x in q.ready <==> x in r.ready + {a} && (x == a ==> a !in r.ready);
    if ReadyAreMembers(q, accounts) {
      StartMeansAllReady(q, accounts);
    }
  }

  ghost predicate DistinctAccounts(accounts: Accounts, members: set<SessionId>) {
    forall s, t :: s in members && t in members && s != t ==> AccountOf(accounts, s) != AccountOf(accounts, t)
  }

  lemma {:induction false} DistinctAccountsSize(accounts: Accounts, members: set<SessionId>)
    requires DistinctAccounts(accounts, members)
    ensures |AccountsOf(accounts, members)| == |members|
  {
    if s :| s in members {
      DistinctAccountsSize(accounts, members - {s});
      assert AccountsOf(accounts, members) == AccountsOf(accounts, members - {s}) + {AccountOf(accounts, s)};
      assert AccountOf(accounts, s) !in AccountsOf(accounts, members - {s});
    }
  }

  /** When a ready job starts a game: it always toggles the account, and then there must be two
      members or more and at least as many accounts marked ready. Among members with distinct
      accounts, of whom alone some are marked, that is when all of them are ready. */
  lemma StartsExactlyWhenAllReady(r: Room, a: Account, accounts: Accounts, now: int)
    requires r.phase == Waiting
    ensures var q := HandleReady(r, a, accounts, now); var players, marked := AccountsOf(accounts, r.members), Toggled(r.ready, a);
      && (q.phase == InGame <==> 2 <= |r.members| && |r.members| <= |marked|)
      && (marked <= players && DistinctAccounts(accounts, r.members) ==>
            (q.phase == InGame <==> 2 <= |r.members| && marked == players))
      && q == (if q.phase == InGame then
                 r.(phase := InGame, ready := {}, log := r.log + [ReadyToggled(a)] + [GameStarted(now, players, marked)])
               else r.(ready := marked, log := r.log + [ReadyToggled(a)]))
  {
    var marked := Toggled(r.ready, a);
    if marked <= AccountsOf(accounts, r.members) && DistinctAccounts(accounts, r.members) {
      DistinctAccountsSize(accounts, r.members);
      SubsetSize(marked, AccountsOf(accounts, r.members));
    }
  }

  // ----- every job keeps it -----

  lemma AccountsGrow(accounts: Accounts, members: set<SessionId>, more: set<SessionId>)
    requires members <= more
    ensures AccountsOf(accounts, members) <= AccountsOf(accounts, more)
  {
  }

  lemma FairSnoc(log: seq<Entry>, e: Entry)
    ensures AllStartsReady(log + [e]) <==> AllStartsReady(log) && (e.GameStarted? ==> e.ready == e.players)
  {
    assert forall i :: 0 <= i < |log| ==> (log + [e])[i] == log[i];
    assert (log + [e])[|log|] == e;
  }

  lemma ReadyKeepsGood(r: Room, a: Account, accounts: Accounts, now: int)
    requires Good(r, accounts) && a in AccountsOf(accounts, r.members)
    ensures Good(HandleReady(r, a, accounts, now), accounts)
  {
    if r.phase == Waiting {
      var q := r.(ready := Toggled(r.ready, a), log := r.log + [ReadyToggled(a)]);
      FairSnoc(r.log, ReadyToggled(a));
      if CanStart(q) {
        StartMeansAllReady(q, accounts);
        FairSnoc(q.log, GameStarted(now, AccountsOf(accounts, r.members), q.ready));
      }
    }
  }

  lemma LeaveKeepsGood(r: Room, s: SessionId, accounts: Accounts, now: int, first: SessionId)
    requires Good(r, accounts)
    ensures Good(HandleLeave(r, s, accounts, now, first), accounts)
  {
    var a := AccountOf(accounts, s);
    forall x | x in r.ready - {a} ensures x in AccountsOf(accounts, r.members - {s}) {
      var t :| t in r.members && AccountOf(accounts, t) == x;
      assert t in r.members - {s};
    }
  }

  lemma RunNextKeepsGood(r: Room, accounts: Accounts, now: int, first: SessionId)
    requires Good(r, accounts) && r.batch != []
    requires r.batch[0].Ready? ==> r.batch[0].account in AccountsOf(accounts, r.members)
    ensures Good(RunNext(r, accounts, now, first), accounts)
  {
    var q := Dequeue(r);
    match r.batch[0]
    case Enter(s) => AccountsGrow(accounts, q.members, q.members + {s});
    case Leave(s) => LeaveKeepsGood(q, s, accounts, now, first);
    case Rejoin(s) => AccountsGrow(accounts, q.members, q.members + {s});
    case Ready(a) => ReadyKeepsGood(q, a, accounts, now);
    case Move(_, _) =>
  }

  // ----- every step keeps it -----

  ghost predicate AllGood(rooms: map<RoomId, Room>, accounts: Accounts) {
    forall room :: room in rooms ==> Good(rooms[room], accounts)
  }

  /** Every game of every room was started with exactly its players ready. */
  ghost predicate AllFair(rooms: map<RoomId, Room>) {
    forall room :: room in rooms ==> AllStartsReady(rooms[room].log)
  }

  ghost predicate WorldGood(w: State) {
    AllGood(w.rooms, w.accounts) && AllFair(w.collected)
  }

  lemma UpdateGood(rooms: map<RoomId, Room>, accounts: Accounts, room: RoomId, r: Room)
    requires AllGood(rooms, accounts) && Good(r, accounts)
    ensures AllGood(rooms[room := r], accounts)
  {
  }

  lemma PushToGood(w: State, room: RoomId, job: Job)
    requires WorldGood(w)
    ensures WorldGood(PushTo(w, room, job))
  {
  }

  lemma LoginGood(w: State, s: SessionId, a: Account, choice: RoomId)
    requires WorldGood(w) && Orderly(w, LoginDone(s, a, choice))
    ensures WorldGood(FinishLogin(w, s, a, choice))
  {
    var v := w.(accounts := w.accounts[s := a]);
    forall room | room in w.rooms ensures Good(w.rooms[room], v.accounts) {
      SameAccounts(w.accounts, v.accounts, w.rooms[room].members);
    }
    PushToGood(v, choice, Rejoin(s));
  }

  lemma SameAccounts(before: Accounts, after: Accounts, members: set<SessionId>)
    requires forall s :: s in members ==> AccountOf(before, s) == AccountOf(after, s)
    ensures AccountsOf(before, members) == AccountsOf(after, members)
  {
  }

  lemma EnterRequestGood(w: State, s: SessionId, name: string, cfg: Config)
    requires WorldGood(w)
    ensures WorldGood(RequestEnter(w, s, name, cfg))
  {
    if s in w.at {
      PushToGood(w, w.at[s], Leave(s));
    }
    var (v, room) := GetOrCreate(PushToCurrent(w, s, Leave(s)), name, cfg);
    PushToGood(v, room, Enter(s));
  }

  lemma RequestGood(w: State, e: Event, cfg: Config)
    requires WorldGood(w) && (e.Disconnect? || e.LeaveRequest? || e.ReadyRequest? || e.MoveRequest?)
    ensures WorldGood(Step(w, e, cfg))
  {
  }

  lemma RoomStepGood(w: State, e: Event, cfg: Config)
    requires AllGood(w.rooms, w.accounts) && Orderly(w, e) && (e.BeginFlush? || e.RunJob? || e.EndTick?)
    ensures AllGood(Step(w, e, cfg).rooms, w.accounts)
  {
    if e.room in w.rooms {
      var r := w.rooms[e.room];
      if e.RunJob? && r.batch != [] {
        RunNextKeepsGood(r, w.accounts, w.now, e.first);
        UpdateGood(w.rooms, w.accounts, e.room, RunNext(r, w.accounts, w.now, e.first));
      } else if e.EndTick? {
        UpdateGood(w.rooms, w.accounts, e.room, TickTail(r, w.now, cfg.window));
      } else if e.BeginFlush? && r.batch == [] {
        UpdateGood(w.rooms, w.accounts, e.room, RoomModel.BeginFlush(r));
      }
    }
  }

  lemma RoomStepElsewhere(w: State, e: Event, cfg: Config)
    requires e.BeginFlush? || e.RunJob? || e.EndTick?
    ensures Step(w, e, cfg).accounts == w.accounts && Step(w, e, cfg).collected == w.collected
  {
  }

  lemma StepGood(w: State, e: Event, cfg: Config)
    requires WorldGood(w) && Orderly(w, e)
    ensures WorldGood(Step(w, e, cfg))
  {
    if e.LoginDone? {
      LoginGood(w, e.session, e.account, e.choice);
    } else if e.EnterRequest? {
      EnterRequestGood(w, e.session, e.name, cfg);
    } else if e.BeginFlush? || e.RunJob? || e.EndTick? {
      RoomStepGood(w, e, cfg);
      RoomStepElsewhere(w, e, cfg);
    } else if e.Disconnect? || e.LeaveRequest? || e.ReadyRequest? || e.MoveRequest? {
      RequestGood(w, e, cfg);
    }
  }

  /** In every orderly run, every game of every room, collected or not, was started when exactly
      the accounts of the sessions in the room were ready. */
  lemma {:induction false} GamesStartAllReady(start: int, events: seq<Event>, cfg: Config)
    requires OrderlyRun(start, events, cfg)
    ensures WorldGood(Run(start, events, cfg))
  {
    if events != [] {
      var n := |events| - 1;
      assert forall i :: 0 <= i < n ==> events[..n][..i] == events[..i];
      GamesStartAllReady(start, events[..n], cfg);
      StepGood(Run(start, events[..n], cfg), events[n], cfg);
    }
  }

  // ----- exactly which runs are fair -----

  /** Every game of every room, collected or not, was started with exactly its players ready. */
  ghost predicate FairSoFar(w: State) {
    AllFair(w.rooms) && AllFair(w.collected)
  }

  /** If the step runs a ready job that starts a game, only accounts in the room are marked ready
      then. */
  ghost predicate FairStep(w: State, e: Event) {
    e.RunJob? && e.room in w.rooms ==> FairJob(w.rooms[e.room], w.accounts)
  }

  ghost predicate FairJob(r: Room, accounts: Accounts) {
    r.batch != [] && r.batch[0].Ready? && HandleReady(r, r.batch[0].account, accounts, 0).phase == InGame && r.phase == Waiting ==>
      NoOutsiderReady(r, r.batch[0].account, accounts)
  }

  lemma ReadyFair(r: Room, a: Account, accounts: Accounts, now: int)
    ensures var q := HandleReady(r, a, accounts, now);
      AllStartsReady(q.log) <==> AllStartsReady(r.log) && (r.phase == Waiting && q.phase == InGame ==> NoOutsiderReady(r, a, accounts))
  {
    var q := HandleReady(r, a, accounts, now);
    if r.phase == Waiting && q.phase == InGame {
      StartIsFairExactly(r, a, accounts, now);
    }
    if r.phase == Waiting {
      var e := ReadyToggled(a);
      FairSnoc(r.log, e);
      FairSnoc(r.log + [e], q.log[|q.log| - 1]);
    }
  }

  lemma OtherJobFair(r: Room, job: Job, accounts: Accounts, now: int, first: SessionId)
    requires !job.Ready?
    ensures AllStartsReady(Execute(r, job, accounts, now, first).log) <==> AllStartsReady(r.log)
  {
    match job
    case Enter(s) => FairSnoc(r.log, if Admits(r) then Entered(s) else Refused(s));
    case Leave(s) =>
      var e := Departed(s, AccountOf(accounts, s), r.phase == InGame, now);
      FairSnoc(r.log, e);
      FairSnoc(r.log + [e], GameResult(AccountOf(accounts, first), now));
    case Rejoin(s) => FairSnoc(r.log, Rejoined(s, AccountOf(accounts, s)));
    case Move(a, p) => FairSnoc(r.log, MoveAccepted(a, p));
  }

  lemma JobFair(r: Room, accounts: Accounts, now: int, first: SessionId)
    requires r.batch != []
    ensures AllStartsReady(RunNext(r, accounts, now, first).log) <==> AllStartsReady(r.log) && FairJob(r, accounts)
  {
    var q, job := Dequeue(r), r.batch[0];
    if job.Ready? {
      ReadyFair(q, job.account, accounts, now);
      assert NoOutsiderReady(q, job.account, accounts) <==> NoOutsiderReady(r, job.account, accounts);
    } else {
      OtherJobFair(q, job, accounts, now, first);
    }
  }

  lemma TickTailFair(r: Room, now: int, window: int)
    ensures AllStartsReady(TickTail(r, now, window).log) <==> AllStartsReady(r.log)
  {
    FairSnoc(r.log, BackToWaiting(now));
    FairSnoc(r.log, MovesBroadcast(r.moves));
  }

  lemma UpdateFair(rooms: map<RoomId, Room>, room: RoomId, r: Room, fair: bool)
    requires room in rooms ==> (AllStartsReady(r.log) <==> AllStartsReady(rooms[room].log) && fair)
    requires room !in rooms ==> AllStartsReady(r.log) && fair
    ensures AllFair(rooms[room := r]) <==> AllFair(rooms) && fair
  {
    var v := rooms[room := r];
    if AllFair(v) {
      assert room in v;
      forall q | q in rooms ensures AllStartsReady(rooms[q].log) {
        assert q in v;
      }
    }
  }

  lemma PushToFair(w: State, room: RoomId, job: Job)
    ensures AllFair(PushTo(w, room, job).rooms) <==> AllFair(w.rooms)
  {
    if room in w.rooms {
      UpdateFair(w.rooms, room, Push(w.rooms[room], job), true);
    }
  }

  lemma RoomStepFair(w: State, e: Event, cfg: Config)
    requires e.BeginFlush? || e.EndTick? || (e.RunJob? && Step(w, e, cfg) != w)
    ensures AllFair(Step(w, e, cfg).rooms) <==> AllFair(w.rooms) && FairStep(w, e)
  {
    if e.room in w.rooms {
      var r := w.rooms[e.room];
      if e.RunJob? {
        JobFair(r, w.accounts, w.now, e.first);
        UpdateFair(w.rooms, e.room, RunNext(r, w.accounts, w.now, e.first), FairJob(r, w.accounts));
      } else if e.EndTick? {
        TickTailFair(r, w.now, cfg.window);
        UpdateFair(w.rooms, e.room, TickTail(r, w.now, cfg.window), true);
      } else if r.batch == [] {
        UpdateFair(w.rooms, e.room, RoomModel.BeginFlush(r), true);
      }
    }
  }

  lemma RequestFair(w: State, e: Event, cfg: Config)
    requires e.Disconnect? || e.LoginDone? || e.LeaveRequest? || e.ReadyRequest? || e.MoveRequest?
    ensures AllFair(Step(w, e, cfg).rooms) <==> AllFair(w.rooms)
  {
    var s, a := e.session, AccountOf(w.accounts, e.session);
    if e.LoginDone? {
      PushToFair(w, e.choice, Rejoin(s));
    } else if s in w.at {
      PushToFair(w, w.at[s], if e.ReadyRequest? then Ready(a) else if e.MoveRequest? then Move(a, e.position) else Leave(s));
    }
  }

  lemma EnterRequestFair(w: State, s: SessionId, name: string, cfg: Config)
    requires NamesGood(w)
    ensures AllFair(RequestEnter(w, s, name, cfg).rooms) <==> AllFair(w.rooms)
  {
    var u := PushToCurrent(w, s, Leave(s));
    if s in w.at {
      PushToFair(w, w.at[s], Leave(s));
    }
    if u.nextRoom !in u.rooms {
      UpdateFair(u.rooms, u.nextRoom, NewRoom(name, cfg.maxPlayers), true);
    }
    var (v, room) := GetOrCreate(u, name, cfg);
    PushToFair(v, room, Enter(s));
  }

  lemma CollectFair(w: State, cfg: Config)
    requires NamesGood(w)
    ensures FairSoFar(Collect(w, cfg)) <==> FairSoFar(w)
  {
    var v := Collect(w, cfg);
    if FairSoFar(v) {
      forall room | room in w.rooms ensures AllStartsReady(w.rooms[room].log) {
        assert if Idle(w, room, cfg) then room in v.collected else room in v.rooms;
      }
      forall room | room in w.collected ensures AllStartsReady(w.collected[room].log) {
        assert room in v.collected;
      }
    }
  }

  lemma SessionEventFair(w: State, e: Event, cfg: Config)
    requires NamesGood(w)
    requires e.Tick? || e.Connection? || e.Disconnect? || e.LoginDone? || e.EnterRequest? || e.LeaveRequest? || e.ReadyRequest? || e.MoveRequest?
    ensures AllFair(Step(w, e, cfg).rooms) <==> AllFair(w.rooms)
  {
    if e.EnterRequest? {
      EnterRequestFair(w, e.session, e.name, cfg);
    } else if e.Tick? || e.Connection? {
      assert Step(w, e, cfg).rooms == w.rooms;
    } else {
      RequestFair(w, e, cfg);
    }
  }

  lemma RoomEventFair(w: State, e: Event, cfg: Config)
    requires e.BeginFlush? || e.RunJob? || e.EndTick?
    ensures AllFair(Step(w, e, cfg).rooms) <==> AllFair(w.rooms) && FairStep(w, e)
  {
    if !e.RunJob? || Step(w, e, cfg) != w {
      RoomStepFair(w, e, cfg);
    }
  }

  lemma OnlyCollectorCollects(w: State, e: Event, cfg: Config)
    requires !e.CollectIdle?
    ensures Step(w, e, cfg).collected == w.collected
  {
    if e.EnterRequest? {
      RequestEnterElsewhere(w, e.session, e.name, cfg);
    }
  }

  lemma StepFair(w: State, e: Event, cfg: Config)
    requires NamesGood(w)
    ensures FairSoFar(Step(w, e, cfg)) <==> FairSoFar(w) && FairStep(w, e)
  {
    if e.CollectIdle? {
      CollectFair(w, cfg);
    } else {
      OnlyCollectorCollects(w, e, cfg);
      if e.BeginFlush? || e.RunJob? || e.EndTick? {
        RoomEventFair(w, e, cfg);
      } else {
        SessionEventFair(w, e, cfg);
      }
    }
  }

  /** A run has none but fair starts if and only if each time a ready job started a game, nobody
      from outside the room was marked ready. */
  lemma {:induction false} FairRunsExactly(start: int, events: seq<Event>, cfg: Config)
    requires 0 < start
    ensures FairSoFar(Run(start, events, cfg)) <==>
      forall i :: 0 <= i < |events| ==> FairStep(Run(start, events[..i], cfg), events[i])
  {
    if events != [] {
      var n := |events| - 1;
      assert forall i :: 0 <= i < n ==> events[..n][..i] == events[..i];
      FairRunsExactly(start, events[..n], cfg);
      RunPointers(start, events[..n], cfg);
      StepFair(Run(start, events[..n], cfg), events[n], cfg);
    }
  }

  // ----- and without order it can fail -----

  function ThreeAccounts(): Accounts {
    map[1 := "a", 2 := "b", 3 := "c"]
  }

  function TwoOfThree(): map<SessionId, RoomId> {
    map[1 := 0, 3 := 0]
  }

  lemma TwoRequestEntryOfThree(start: int, cfg: Config) returns (t: Story, r: Room)
    requires 0 < start
    ensures Told(t, start, cfg) && t.guests == 3 && Solo(t.w, start, r, map[], ThreeAccounts())
    ensures r == Push(Push(NewRoom(ARENA, cfg.maxPlayers), Enter(1)), Enter(3))
  {
    t := Opening(start, cfg);
    t := NextPlayer(t, "a", start, cfg);
    t := NextPlayer(t, "b", start, cfg);
    t := NextPlayer(t, "c", start, cfg);
    assert t.w.accounts == ThreeAccounts();
    t, r := FirstEnter(t, 1, start, cfg);
    t, r := NextEnter(t, 3, r, map[], ThreeAccounts(), start, cfg);
  }

  lemma TwoOfThreeEnter(start: int, cfg: Config) returns (t: Story, r: Room)
    requires 0 < start && 2 <= cfg.maxPlayers
    ensures Told(t, start, cfg) && t.guests == 3 && Solo(t.w, start, r, TwoOfThree(), ThreeAccounts())
    ensures r.phase == Waiting && r.maxPlayers == cfg.maxPlayers && r.members == {1, 3} && r.ready == {}
    ensures r.jobs == [] && r.batch == []
  {
    t, r := TwoRequestEntryOfThree(start, cfg);
    assert r.jobs == [Enter(1), Enter(3)];
    t, r := NextFlush(t, r, map[], ThreeAccounts(), start, cfg);
    t, r := NextJob(t, 0, r, map[], ThreeAccounts(), start, cfg);
    assert r.batch == [Enter(3)] && r.members == {1} && |r.members| == 1;
    t, r := NextJob(t, 0, r, map[1 := 0], ThreeAccounts(), start, cfg);
  }

  lemma RequestsBeforeTick(start: int, cfg: Config) returns (t: Story, r: Room)
    requires 0 < start && 2 <= cfg.maxPlayers
    ensures Told(t, start, cfg) && Solo(t.w, start, r, TwoOfThree(), ThreeAccounts())
    ensures r.phase == Waiting && r.maxPlayers == cfg.maxPlayers && r.members == {1, 3} && r.ready == {}
    ensures r.batch == [Leave(3), Ready("c"), Enter(2), Ready("a")]
  {
    t, r := TwoOfThreeEnter(start, cfg);
    t, r := NextRequest(t, LeaveRequest(3), Leave(3), r, TwoOfThree(), ThreeAccounts(), start, cfg);
    t, r := NextRequest(t, ReadyRequest(3), Ready("c"), r, TwoOfThree(), ThreeAccounts(), start, cfg);
    t, r := NextEnter(t, 2, r, TwoOfThree(), ThreeAccounts(), start, cfg);
    t, r := NextRequest(t, ReadyRequest(1), Ready("a"), r, TwoOfThree(), ThreeAccounts(), start, cfg);
    t, r := NextFlush(t, r, TwoOfThree(), ThreeAccounts(), start, cfg);
  }

  lemma GoneButReady(start: int, cfg: Config) returns (t: Story, r: Room)
    requires 0 < start && 2 <= cfg.maxPlayers
    ensures Told(t, start, cfg) && Solo(t.w, start, r, map[1 := 0], ThreeAccounts())
    ensures r.phase == Waiting && r.maxPlayers == cfg.maxPlayers && r.members == {1} && r.ready == {"c"}
    ensures r.batch == [Enter(2), Ready("a")]
  {
    t, r := RequestsBeforeTick(start, cfg);
    t, r := NextJob(t, 0, r, TwoOfThree(), ThreeAccounts(), start, cfg);
    assert TwoOfThree() - {3} == map[1 := 0];
    assert r.members == {1} && r.ready == {} && r.phase == Waiting && r.batch == [Ready("c"), Enter(2), Ready("a")];
    assert |{1}| == 1;
    t, r := NextJob(t, 0, r, map[1 := 0], ThreeAccounts(), start, cfg);
  }

  /** A leave request followed by a ready request, both queued before the next tick: the ready
      job runs for somebody who is gone, and one more ready player then starts a game of two with
      a member who never was ready. */
  lemma GameStartsWithoutEverybodyReady(start: int, cfg: Config) returns (events: seq<Event>)
    requires 0 < start && 2 <= cfg.maxPlayers
    ensures Real(start, events, cfg)
    ensures var w := Run(start, events, cfg);
      && 0 in w.rooms && w.rooms[0].phase == InGame && w.rooms[0].members == {1, 2}
      && GameStarted(start, {"a", "b"}, {"a", "c"}) in w.rooms[0].log
  {
    var t, r := GoneButReady(start, cfg);
    assert |{1}| == 1;
    t, r := NextJob(t, 0, r, map[1 := 0], ThreeAccounts(), start, cfg);
    assert r.members == {1, 2} && r.ready == {"c"} && r.phase == Waiting && r.batch == [Ready("a")];
    assert |{1, 2}| == 2 && {"c"} + {"a"} == {"a", "c"} && |{"a", "c"}| == 2;
    BothAccounts();
    t, r := NextJob(t, 0, r, map[1 := 0, 2 := 0], ThreeAccounts(), start, cfg);
    assert r.log[|r.log| - 1] == GameStarted(start, {"a", "b"}, {"a", "c"});
    events := t.events;
  }

  lemma BothAccounts()
    ensures AccountsOf(ThreeAccounts(), {1, 2}) == {"a", "b"}
  {
    assert AccountOf(ThreeAccounts(), 1) == "a" && AccountOf(ThreeAccounts(), 2) == "b";
  }

  /** Every game of every run starts with exactly its players ready. */
  ghost predicate StartsAreFair(cfg: Config) {
    forall start: int, events: seq<Event> :: 0 < start ==> FairSoFar(Run(start, events, cfg))
  }

  /** The start condition keeps its promise for exactly those settings under which no game is ever
      started: with room for two, some run breaks it. */
  lemma StartsAreFairExactly(cfg: Config)
    ensures StartsAreFair(cfg) <==> cfg.maxPlayers < 2
  {
    if cfg.maxPlayers < 2 {
      forall start: int, events: seq<Event> | 0 < start ensures FairSoFar(Run(start, events, cfg)) {
        RunSmall(start, events, cfg);
      }
    } else {
      var events := GameStartsWithoutEverybodyReady(1, cfg);
      var w := Run(1, events, cfg);
      var i :| 0 <= i < |w.rooms[0].log| && w.rooms[0].log[i] == GameStarted(1, {"a", "b"}, {"a", "c"});
      assert "c" !in w.rooms[0].log[i].players && "c" in w.rooms[0].log[i].ready;
      assert !FairSoFar(w);
    }
  }
}
