/** The room world: the registry of rooms, the sessions' room pointers, the packet handlers that
    push jobs, the tick thread, and the collector of idle rooms, as one transition system. A room
    pointer is the number its room was constructed with; numbers are not used twice. */
module World {
  import opened RoomModel
  import Registry = SessionRegistry

  type RoomId = nat

  datatype Config = Config(window: int, idleMs: int, maxPlayers: int)

  datatype State = State(
    now: int,
    names: map<string, RoomId>,          // the registry
    rooms: map<RoomId, Room>,            // the rooms it owns
    at: map<SessionId, RoomId>,          // m_room of each session that has one
    accounts: Accounts,
    sessions: Registry.State,
    nextRoom: RoomId,
    collected: map<RoomId, Room>)        // rooms the collector destroyed, as they last were

  datatype Event =
    | Tick(ms: nat)                                              // time passes
    | Connection(e: Registry.Event)                              // accept, or PostSend failing
    | Disconnect(session: SessionId)                             // HandleDisconnect
    | LoginDone(session: SessionId, account: Account, choice: RoomId)
    | EnterRequest(session: SessionId, name: string)
    | LeaveRequest(session: SessionId)
    | ReadyRequest(session: SessionId)
    | MoveRequest(session: SessionId, position: Position)
    | BeginFlush(room: RoomId)
    | RunJob(room: RoomId, first: SessionId)
    | EndTick(room: RoomId)
    | CollectIdle

  function Initial(start: int): State {
    State(start, map[], map[], map[], map[], Registry.Initial(), 0, map[])
  }

  function PushTo(w: State, room: RoomId, job: Job): State {
    if room in w.rooms then w.(rooms := w.rooms[room := Push(w.rooms[room], job)]) else w
  }

  /** The job a handler pushes on the session's current room, if it has one. */
  function PushToCurrent(w: State, s: SessionId, job: Job): State {
    if s in w.at then PushTo(w, w.at[s], job) else w
  }

  function GetOrCreate(w: State, name: string, cfg: Config): (State, RoomId) {
    if name in w.names then (w, w.names[name])
    else
      (w.(names := w.names[name := w.nextRoom], rooms := w.rooms[w.nextRoom := NewRoom(name, cfg.maxPlayers)],
          nextRoom := w.nextRoom + 1), w.nextRoom)
  }

  /** FindReconnect may return any registered room with a slot for the account. */
  predicate CanFindReconnect(w: State, a: Account, room: RoomId) {
    room in w.rooms && a in w.rooms[room].slots
  }

  predicate HasReconnect(w: State, a: Account) {
    exists room :: room in w.rooms && CanFindReconnect(w, a, room)
  }

  function HandleDisconnect(w: State, s: SessionId): State {
    var sessions := Registry.Step(w.sessions, Registry.HandleDisconnect(s));
    if !Registry.Exists(w.sessions, s) || s in w.sessions.closed then w
    else if s !in w.at then w.(sessions := sessions)
    else PushTo(w.(sessions := sessions, at := w.at - {s}), w.at[s], Leave(s))
  }

  function FinishLogin(w: State, s: SessionId, a: Account, choice: RoomId): State {
    var v := w.(accounts := w.accounts[s := a]);
    if CanFindReconnect(w, a, choice) then PushTo(v, choice, Rejoin(s)) else v
  }

  function RequestEnter(w: State, s: SessionId, name: string, cfg: Config): State {
    if AccountOf(w.accounts, s) == "" then w
    else
      var (v, room) := GetOrCreate(PushToCurrent(w, s, Leave(s)), name, cfg);
      PushTo(v, room, Enter(s))
  }

  function RunOneJob(w: State, room: RoomId, first: SessionId): State
    requires room in w.rooms && w.rooms[room].batch != []
  {
    var r := w.rooms[room];
    w.(rooms := w.rooms[room := RunNext(r, w.accounts, w.now, first)],
       at := Pointers(r, r.batch[0], room, w.at))
  }

  predicate Idle(w: State, room: RoomId, cfg: Config) {
    room in w.rooms && Collectable(w.rooms[room], w.now, cfg.idleMs)
  }

  function Collect(w: State, cfg: Config): State {
    w.(names := map n | n in w.names && !Idle(w, w.names[n], cfg) :: w.names[n],
       rooms := map r | r in w.rooms && !Idle(w, r, cfg) :: w.rooms[r],
       collected := map r | r in w.collected.Keys + w.rooms.Keys && (r in w.collected || Idle(w, r, cfg)) ::
                      if r in w.collected then w.collected[r] else w.rooms[r])
  }

  /** A step that is not possible in `w` leaves it as it is. */
  function Step(w: State, e: Event, cfg: Config): State {
    match e
    case Tick(ms) => w.(now := w.now + ms)
    case Connection(c) => if c.HandleDisconnect? then w else w.(sessions := Registry.Step(w.sessions, c))
    case Disconnect(s) => HandleDisconnect(w, s)
    case LoginDone(s, a, choice) =>
      if !HasReconnect(w, a) || CanFindReconnect(w, a, choice) then FinishLogin(w, s, a, choice) else w
    case EnterRequest(s, name) => RequestEnter(w, s, name, cfg)
    case LeaveRequest(s) => PushToCurrent(w, s, Leave(s))
    case ReadyRequest(s) =>
      if AccountOf(w.accounts, s) == "" then w else PushToCurrent(w, s, Ready(AccountOf(w.accounts, s)))
    case MoveRequest(s, p) => PushToCurrent(w, s, Move(AccountOf(w.accounts, s), p))
    case BeginFlush(room) =>
      if room in w.rooms && w.rooms[room].batch == [] then
        w.(rooms := w.rooms[room := RoomModel.BeginFlush(w.rooms[room])])
      else w
    case RunJob(room, first) =>
      if room in w.rooms && w.rooms[room].batch != [] && CanComeFirst(w.rooms[room], w.rooms[room].batch[0], first) then
        RunOneJob(w, room, first)
      else w
    case EndTick(room) =>
      if room in w.rooms && w.rooms[room].batch == [] then
        w.(rooms := w.rooms[room := TickTail(w.rooms[room], w.now, cfg.window)])
      else w
    case CollectIdle => Collect(w, cfg)
  }

  function StepAll(w: State, events: seq<Event>, cfg: Config): State {
    if events == [] then w else Step(StepAll(w, events[..|events| - 1], cfg), events[|events| - 1], cfg)
  }

  function Run(start: int, events: seq<Event>, cfg: Config): State {
    StepAll(Initial(start), events, cfg)
  }

  lemma {:induction false} StepAllAppend(w: State, a: seq<Event>, b: seq<Event>, cfg: Config)
    ensures StepAll(w, a + b, cfg) == StepAll(StepAll(w, a, cfg), b, cfg)
  {
    if b == [] {
      assert a + b == a;
    } else {
      assert (a + b)[..|a + b| - 1] == a + b[..|b| - 1];
      StepAllAppend(w, a, b[..|b| - 1], cfg);
    }
  }

  lemma StepAllSnoc(w: State, a: seq<Event>, e: Event, cfg: Config)
    ensures StepAll(w, a + [e], cfg) == Step(StepAll(w, a, cfg), e, cfg)
  {
    assert (a + [e])[..|a|] == a;
  }

  /** Registered names and registered rooms correspond one to one. */
  ghost predicate OneName(w: State) {
    && (forall n :: n in w.names ==> w.names[n] in w.rooms && w.rooms[w.names[n]].name == n)
    && (forall r :: r in w.rooms ==> w.rooms[r].name in w.names && w.names[w.rooms[r].name] == r)
  }

  /** The step uses the room pointer of a session, and the room is gone. */
  predicate UsesDanglingPointer(w: State, e: Event) {
    match e
    case Disconnect(s) => s in w.at && w.at[s] !in w.rooms
    case EnterRequest(s, _) => s in w.at && w.at[s] !in w.rooms
    case LeaveRequest(s) => s in w.at && w.at[s] !in w.rooms
    case ReadyRequest(s) => s in w.at && w.at[s] !in w.rooms
    case MoveRequest(s, _) => s in w.at && w.at[s] !in w.rooms
    case _ => false
  }
}
