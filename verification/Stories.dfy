/** Telling concrete runs of the room world step by step, for the lemmas that need an example.
    Everything that happens in a story can happen to the server: whoever sends a packet has been
    accepted and has not been disconnected. */
module Stories {
  import opened RoomModel
  import opened RoomHistory
  import opened RoomSafety
  import opened World
  import opened WorldSafety
  import Registry = SessionRegistry

  const ARENA := "arena"

  predicate Connected(sessions: Registry.State, s: SessionId) {
    s in sessions.registered && s !in sessions.closed
  }

  /** Packets, logins, broken sockets and disconnects all concern sessions that are connected. */
  predicate Possible(w: State, e: Event) {
    match e
    case Connection(c) => if c.Accept? then true else Connected(w.sessions, c.id)
    case Disconnect(s) => Connected(w.sessions, s)
    case LoginDone(s, _, _) => Connected(w.sessions, s)
    case EnterRequest(s, _) => Connected(w.sessions, s)
    case LeaveRequest(s) => Connected(w.sessions, s)
    case ReadyRequest(s) => Connected(w.sessions, s)
    case MoveRequest(s, _) => Connected(w.sessions, s)
    case _ => true
  }

  ghost predicate Real(start: int, events: seq<Event>, cfg: Config) {
    0 < start && forall i :: 0 <= i < |events| ==> Possible(Run(start, events[..i], cfg), events[i])
  }

  /** A run, where it has got to, and how many sessions have been accepted. */
  datatype Story = Story(events: seq<Event>, w: State, guests: nat)

  ghost predicate Told(t: Story, start: int, cfg: Config) {
    && t.w == Run(start, t.events, cfg) && Real(start, t.events, cfg)
    && AllConnected(t.w.sessions, t.guests)
  }

  ghost predicate AllConnected(sessions: Registry.State, guests: nat) {
    sessions.nextSessionId == guests + 1 && forall s :: 1 <= s <= guests ==> Connected(sessions, s)
  }

  /** A world with no room yet. */
  ghost predicate NoRoom(w: State, now: int, accounts: Accounts) {
    && w.now == now && w.names == map[] && w.rooms == map[] && w.at == map[] && w.nextRoom == 0
    && w.accounts == accounts && w.collected == map[]
  }

  /** A world with one room. */
  ghost predicate Solo(w: State, now: int, r: Room, at: map<SessionId, RoomId>, accounts: Accounts) {
    && w.now == now && w.names == map[ARENA := 0] && w.rooms == map[0 := r] && w.at == at
    && w.accounts == accounts && w.collected == map[]
  }

  lemma Opening(start: int, cfg: Config) returns (t: Story)
    requires 0 < start
    ensures Told(t, start, cfg) && NoRoom(t.w, start, map[]) && t.guests == 0
  {
    t := Story([], Initial(start), 0);
  }

  lemma RealSnoc(start: int, events: seq<Event>, e: Event, cfg: Config)
    requires Real(start, events, cfg) && Possible(Run(start, events, cfg), e)
    ensures Real(start, events + [e], cfg) && Run(start, events + [e], cfg) == Step(Run(start, events, cfg), e, cfg)
  {
    var all := events + [e];
    assert all[..|events|] == events;
    forall i | 0 <= i < |all| ensures Possible(Run(start, all[..i], cfg), all[i]) {
      if i < |events| {
        assert all[..i] == events[..i];
      }
    }
  }

  lemma SameSessions(w: State, e: Event, cfg: Config)
    requires !e.Connection? && !e.Disconnect?
    ensures Step(w, e, cfg).sessions == w.sessions
  {
    if e.EnterRequest? {
      RequestEnterElsewhere(w, e.session, e.name, cfg);
    }
  }

  lemma Next(t: Story, e: Event, start: int, cfg: Config) returns (u: Story)
    requires Told(t, start, cfg) && Possible(t.w, e) && !e.Connection? && !e.Disconnect?
    ensures u == Story(t.events + [e], Step(t.w, e, cfg), t.guests) && Told(u, start, cfg)
  {
    var v := Step(t.w, e, cfg);
    RealSnoc(start, t.events, e, cfg);
    SameSessions(t.w, e, cfg);
    assert v.sessions == t.w.sessions;
    assert AllConnected(v.sessions, t.guests);
    u := Story(t.events + [e], v, t.guests);
  }

  lemma Accepted(sessions: Registry.State, guests: nat)
    requires Registry.Inv(sessions) && AllConnected(sessions, guests)
    ensures AllConnected(Registry.Step(sessions, Registry.Accept(true)), guests + 1)
  {
    var more := Registry.Step(sessions, Registry.Accept(true));
    assert !Registry.Exists(sessions, guests + 1);
    forall s | 1 <= s <= guests + 1 ensures Connected(more, s) {
      assert s <= guests ==> Connected(sessions, s);
    }
  }

  lemma NextGuest(t: Story, start: int, cfg: Config) returns (u: Story)
    requires Told(t, start, cfg)
    ensures Told(u, start, cfg) && u.guests == t.guests + 1 && u.w == t.w.(sessions := u.w.sessions)
  {
    var e := Connection(Registry.Accept(true));
    RunSessions(start, t.events, cfg);
    Accepted(t.w.sessions, t.guests);
    RealSnoc(start, t.events, e, cfg);
    u := Story(t.events + [e], Step(t.w, e, cfg), t.guests + 1);
  }

  /** Any login: one whose account has a slot names a room that has it. */
  lemma NextLogin(t: Story, s: SessionId, a: Account, start: int, cfg: Config) returns (u: Story)
    requires Told(t, start, cfg) && 1 <= s <= t.guests && forall room :: room in t.w.rooms ==> a !in t.w.rooms[room].slots
    ensures Told(u, start, cfg) && u.guests == t.guests && u.w == t.w.(accounts := t.w.accounts[s := a])
  {
    u := Next(t, LoginDone(s, a, 0), start, cfg);
    assert !HasReconnect(t.w, a) && !CanFindReconnect(t.w, a, 0);
  }

  /** One more session, logged in. */
  lemma NextPlayer(t: Story, a: Account, start: int, cfg: Config) returns (u: Story)
    requires Told(t, start, cfg) && forall room :: room in t.w.rooms ==> a !in t.w.rooms[room].slots
    ensures Told(u, start, cfg) && u.guests == t.guests + 1
    ensures u.w == t.w.(sessions := u.w.sessions, accounts := t.w.accounts[t.guests + 1 := a])
  {
    u := NextGuest(t, start, cfg);
    u := NextLogin(u, u.guests, a, start, cfg);
  }

  lemma FirstEnter(t: Story, s: SessionId, start: int, cfg: Config) returns (u: Story, q: Room)
    requires Told(t, start, cfg) && 1 <= s <= t.guests
    requires NoRoom(t.w, start, t.w.accounts) && AccountOf(t.w.accounts, s) != ""
    ensures Told(u, start, cfg) && u.guests == t.guests && q == Push(NewRoom(ARENA, cfg.maxPlayers), Enter(s))
    ensures Solo(u.w, start, q, map[], t.w.accounts)
  {
    u := Next(t, EnterRequest(s, ARENA), start, cfg);
    q := Push(NewRoom(ARENA, cfg.maxPlayers), Enter(s));
  }

  lemma NextEnter(t: Story, s: SessionId, r: Room, at: map<SessionId, RoomId>, accounts: Accounts, start: int, cfg: Config)
    returns (u: Story, q: Room)
    requires Told(t, start, cfg) && 1 <= s <= t.guests
    requires Solo(t.w, start, r, at, accounts) && s !in at && AccountOf(accounts, s) != ""
    ensures Told(u, start, cfg) && u.guests == t.guests && q == Push(r, Enter(s)) && Solo(u.w, start, q, at, accounts)
  {
    u := Next(t, EnterRequest(s, ARENA), start, cfg);
    q := Push(r, Enter(s));
  }

  lemma NextRequest(t: Story, e: Event, job: Job, r: Room, at: map<SessionId, RoomId>, accounts: Accounts, start: int, cfg: Config)
    returns (u: Story, q: Room)
    requires Told(t, start, cfg) && Solo(t.w, start, r, at, accounts)
    requires (e.ReadyRequest? && AccountOf(accounts, e.session) != "" && job == Ready(AccountOf(accounts, e.session)))
          || (e.LeaveRequest? && job == Leave(e.session))
    requires 1 <= e.session <= t.guests && e.session in at && at[e.session] == 0
    ensures Told(u, start, cfg) && u.guests == t.guests && q == Push(r, job) && Solo(u.w, start, q, at, accounts)
  {
    u := Next(t, e, start, cfg);
    q := Push(r, job);
  }

  lemma NextFlush(t: Story, r: Room, at: map<SessionId, RoomId>, accounts: Accounts, start: int, cfg: Config)
    returns (u: Story, q: Room)
    requires Told(t, start, cfg) && Solo(t.w, start, r, at, accounts) && r.batch == []
    ensures Told(u, start, cfg) && u.guests == t.guests && q == RoomModel.BeginFlush(r) && Solo(u.w, start, q, at, accounts)
  {
    u := Next(t, BeginFlush(0), start, cfg);
    q := RoomModel.BeginFlush(r);
  }

  lemma NextJob(t: Story, first: SessionId, r: Room, at: map<SessionId, RoomId>, accounts: Accounts, start: int, cfg: Config)
    returns (u: Story, q: Room)
    requires Told(t, start, cfg) && Solo(t.w, start, r, at, accounts) && r.batch != [] && CanComeFirst(r, r.batch[0], first)
    ensures Told(u, start, cfg) && u.guests == t.guests && q == RunNext(r, accounts, start, first)
    ensures Solo(u.w, start, q, Pointers(r, r.batch[0], 0, at), accounts)
  {
    u := Next(t, RunJob(0, first), start, cfg);
    q := RunNext(r, accounts, start, first);
  }

  // ----- two players, and a game between them -----

  function TwoAccounts(): Accounts {
    map[1 := "a", 2 := "b"]
  }

  function BothIn(): map<SessionId, RoomId> {
    map[1 := 0, 2 := 0]
  }

  lemma TwoRequestEntry(start: int, cfg: Config) returns (t: Story, r: Room)
    requires 0 < start
    ensures Told(t, start, cfg) && t.guests == 2 && Solo(t.w, start, r, map[], TwoAccounts())
    ensures r == Push(Push(NewRoom(ARENA, cfg.maxPlayers), Enter(1)), Enter(2))
  {
    t := Opening(start, cfg);
    t := NextPlayer(t, "a", start, cfg);
    t := NextPlayer(t, "b", start, cfg);
    assert t.w.accounts == TwoAccounts();
    t, r := FirstEnter(t, 1, start, cfg);
    t, r := NextEnter(t, 2, r, map[], TwoAccounts(), start, cfg);
  }

  lemma TwoEnter(start: int, cfg: Config) returns (t: Story, r: Room)
    requires 0 < start && 2 <= cfg.maxPlayers
    ensures Told(t, start, cfg) && t.guests == 2 && Solo(t.w, start, r, BothIn(), TwoAccounts())
    ensures r.phase == Waiting && r.maxPlayers == cfg.maxPlayers && r.members == {1, 2} && r.ready == {} && r.slots == map[]
    ensures r.jobs == [] && r.batch == []
  {
    t, r := TwoRequestEntry(start, cfg);
    assert r.jobs == [Enter(1), Enter(2)];
    t, r := NextFlush(t, r, map[], TwoAccounts(), start, cfg);
    t, r := NextJob(t, 0, r, map[], TwoAccounts(), start, cfg);
    assert r.batch == [Enter(2)] && r.members == {1} && |r.members| == 1;
    t, r := NextJob(t, 0, r, map[1 := 0], TwoAccounts(), start, cfg);
  }

  lemma TwoAreReady(start: int, cfg: Config) returns (t: Story, r: Room)
    requires 0 < start && 2 <= cfg.maxPlayers
    ensures Told(t, start, cfg) && t.guests == 2 && Solo(t.w, start, r, BothIn(), TwoAccounts())
    ensures r.phase == Waiting && r.maxPlayers == cfg.maxPlayers && r.members == {1, 2} && r.ready == {} && r.slots == map[]
    ensures r.batch == [Ready("a"), Ready("b"), Leave(1)] && r.jobs == []
  {
    t, r := TwoEnter(start, cfg);
    t, r := NextRequest(t, ReadyRequest(1), Ready("a"), r, BothIn(), TwoAccounts(), start, cfg);
    t, r := NextRequest(t, ReadyRequest(2), Ready("b"), r, BothIn(), TwoAccounts(), start, cfg);
    t, r := NextRequest(t, LeaveRequest(1), Leave(1), r, BothIn(), TwoAccounts(), start, cfg);
    t, r := NextFlush(t, r, BothIn(), TwoAccounts(), start, cfg);
  }

  lemma TwoPlay(start: int, cfg: Config) returns (t: Story, r: Room)
    requires 0 < start && 2 <= cfg.maxPlayers
    ensures Told(t, start, cfg) && t.guests == 2 && Solo(t.w, start, r, BothIn(), TwoAccounts())
    ensures r.phase == InGame && r.maxPlayers == cfg.maxPlayers && r.ready == {} && r.members == {1, 2} && r.slots == map[]
    ensures r.batch == [Leave(1)] && r.jobs == []
  {
    t, r := TwoAreReady(start, cfg);
    t, r := NextJob(t, 0, r, BothIn(), TwoAccounts(), start, cfg);
    assert r.ready == {"a"} && |r.ready| == 1 && r.members == {1, 2};
    assert |{1, 2}| == 2;
    t, r := NextJob(t, 0, r, BothIn(), TwoAccounts(), start, cfg);
    assert {"a"} + {"b"} == {"a", "b"} && |{"a", "b"}| == 2;
  }

  lemma FirstLeavesRoom(q: Room, start: int) returns (r: Room)
    requires q.phase == InGame && q.ready == {} && q.members == {1, 2} && q.slots == map[] && q.batch == [Leave(1)] && q.jobs == []
    ensures r == RunNext(q, TwoAccounts(), start, 2)
    ensures r.phase == Finished && r.members == {2} && r.batch == [] && r.jobs == [] && r.slots == map["a" := start]
    ensures r.maxPlayers == q.maxPlayers && "a" in Owed(r.log) && Owed(r.log)["a"] == start
  {
    r := RunNext(q, TwoAccounts(), start, 2);
    assert |{1, 2}| == 2;
    DepartureEndsGame(Dequeue(q), 1, TwoAccounts(), start, 2);
    RunNextQueues(q, TwoAccounts(), start, 2);
    Snoc(q.log, Departed(1, "a", true, start));
    Snoc(q.log + [Departed(1, "a", true, start)], GameResult("b", start));
  }

  /** The first player leaves the game: it is over, and the room owes the player a slot. */
  lemma FirstLeaves(start: int, cfg: Config) returns (t: Story, r: Room)
    requires 0 < start && 2 <= cfg.maxPlayers
    ensures Told(t, start, cfg) && t.guests == 2 && Solo(t.w, start, r, map[2 := 0], TwoAccounts())
    ensures r.phase == Finished && r.members == {2} && r.batch == [] && r.jobs == [] && r.slots == map["a" := start]
    ensures r.maxPlayers == cfg.maxPlayers && "a" in Owed(r.log) && Owed(r.log)["a"] == start
  {
    var q;
    t, q := TwoPlay(start, cfg);
    t, r := NextJob(t, 2, q, BothIn(), TwoAccounts(), start, cfg);
    var same := FirstLeavesRoom(q, start);
    assert BothIn() - {1} == map[2 := 0];
  }
}
