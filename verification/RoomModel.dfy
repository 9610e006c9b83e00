/** One game room as a value: what each job, and the end of each tick, does to it. Every job and
    every tick tail is one atomic step with one clock reading. */
module RoomModel {

  type SessionId = nat
  type Account = string

  const FINISHED_MS := 5000

  datatype Position = Position(x: real, y: real)

  datatype Phase = Waiting | InGame | Finished

  datatype Job =
    | Enter(session: SessionId)
    | Leave(session: SessionId)
    | Rejoin(session: SessionId)
    | Ready(account: Account)
    | Move(account: Account, position: Position)

  /** The history of a room: what it told its members and when. */
  datatype Entry =
    | Entered(session: SessionId)
    | Refused(session: SessionId)
    | Departed(session: SessionId, account: Account, midGame: bool, at: int)
    | Rejoined(session: SessionId, account: Account)
    | ReadyToggled(account: Account)
    | MoveAccepted(account: Account, position: Position)
    | MovesBroadcast(actors: map<Account, Position>)
    | GameStarted(at: int, players: set<Account>, ready: set<Account>)
    | GameResult(winner: Account, at: int)
    | BackToWaiting(at: int)

  datatype Room = Room(
    name: string,
    maxPlayers: int,
    phase: Phase,
    finishedAt: int,
    emptySince: int,                     // 0 while the room is in use
    ready: set<Account>,
    members: set<SessionId>,
    moves: map<Account, Position>,       // pending moves
    slots: map<Account, int>,            // reconnect slots, with the time they were stored
    jobs: seq<Job>,                      // the job queue
    batch: seq<Job>,                     // jobs swapped out by the running flush
    pushed: seq<Job>,                    // every job ever pushed, in order
    ran: seq<Job>,                       // every job ever run, in order
    log: seq<Entry>)

  function NewRoom(name: string, maxPlayers: int): Room {
    Room(name, maxPlayers, Waiting, 0, 0, {}, {}, map[], map[], [], [], [], [], [])
  }

  /** The account of each session; a session that has not logged in has the empty one. */
  type Accounts = map<SessionId, Account>

  function AccountOf(accounts: Accounts, s: SessionId): Account {
    if s in accounts then accounts[s] else ""
  }

  function AccountsOf(accounts: Accounts, members: set<SessionId>): set<Account> {
    set s | s in members :: AccountOf(accounts, s)
  }

  // ----- the handlers -----

  /** How many sessions may enter a room: none at all if the setting is negative. */
  function Capacity(maxPlayers: int): nat {
    if maxPlayers > 0 then maxPlayers else 0
  }

  predicate Admits(r: Room) {
    r.phase != InGame && |r.members| < r.maxPlayers
  }

  function HandleEnter(r: Room, s: SessionId): Room {
    if Admits(r) then r.(members := r.members + {s}, emptySince := 0, log := r.log + [Entered(s)])
    else r.(log := r.log + [Refused(s)])
  }

  /** `first` is the member the unordered set of members happens to yield first. */
  function HandleLeave(r: Room, s: SessionId, accounts: Accounts, now: int, first: SessionId): Room {
    if s !in r.members then r
    else
      var a := AccountOf(accounts, s);
      var q := r.(members := r.members - {s}, moves := r.moves - {a}, ready := r.ready - {a},
                  log := r.log + [Departed(s, a, r.phase == InGame, now)]);
      if q.phase == InGame && q.members != {} then
        EndGame(q.(slots := q.slots[a := now]), AccountOf(accounts, first), now)
      else
        q.(slots := if q.phase == InGame then q.slots[a := now] else q.slots,
           emptySince := if q.members == {} then now else q.emptySince)
  }

  function EndGame(r: Room, winner: Account, now: int): Room {
    r.(phase := Finished, finishedAt := now, log := r.log + [GameResult(winner, now)])
  }

  function HandleRejoin(r: Room, s: SessionId, accounts: Accounts): Room {
    var a := AccountOf(accounts, s);
    r.(slots := r.slots - {a}, members := r.members + {s}, emptySince := 0, log := r.log + [Rejoined(s, a)])
  }

  function HandleReady(r: Room, a: Account, accounts: Accounts, now: int): Room {
    if r.phase != Waiting then r
    else
      TryStart(r.(ready := if a in r.ready then r.ready - {a} else r.ready + {a}, log := r.log + [ReadyToggled(a)]),
               accounts, now)
  }

  predicate CanStart(r: Room) {
    2 <= |r.members| <= |r.ready|
  }

  function TryStart(r: Room, accounts: Accounts, now: int): Room {
    if CanStart(r) then
      r.(phase := InGame, ready := {},
         log := r.log + [GameStarted(now, AccountsOf(accounts, r.members), r.ready)])
    else r
  }

  function HandleMove(r: Room, a: Account, p: Position): Room {
    if r.phase != InGame then r
    else r.(moves := r.moves[a := p], log := r.log + [MoveAccepted(a, p)])
  }

  // ----- the job queue and the tick -----

  function Push(r: Room, job: Job): Room {
    r.(jobs := r.jobs + [job], pushed := r.pushed + [job])
  }

  /** Flush swaps the queue out under the lock; jobs pushed from then on wait for the next. */
  function BeginFlush(r: Room): Room
    requires r.batch == []
  {
    r.(batch := r.jobs, jobs := [])
  }

  function Execute(r: Room, job: Job, accounts: Accounts, now: int, first: SessionId): Room {
    match job
    case Enter(s) => HandleEnter(r, s)
    case Leave(s) => HandleLeave(r, s, accounts, now, first)
    case Rejoin(s) => HandleRejoin(r, s, accounts)
    case Ready(a) => HandleReady(r, a, accounts, now)
    case Move(a, p) => HandleMove(r, a, p)
  }

  /** Only a member can come first, and only when one has to be picked does it matter. */
  predicate CanComeFirst(r: Room, job: Job, first: SessionId) {
    job.Leave? && job.session in r.members && r.phase == InGame && r.members != {job.session} ==>
      first in r.members && first != job.session
  }

  function Dequeue(r: Room): Room
    requires r.batch != []
  {
    r.(batch := r.batch[1..], ran := r.ran + [r.batch[0]])
  }

  function RunNext(r: Room, accounts: Accounts, now: int, first: SessionId): Room
    requires r.batch != []
  {
    Execute(Dequeue(r), r.batch[0], accounts, now, first)
  }

  /** A job touches nothing of the queue but the batch it was taken from. */
  lemma RunNextQueues(r: Room, accounts: Accounts, now: int, first: SessionId)
    requires r.batch != []
    ensures var q := RunNext(r, accounts, now, first);
      q.batch == r.batch[1..] && q.ran == r.ran + [r.batch[0]] && q.jobs == r.jobs && q.pushed == r.pushed
  {
  }

  function ExpireSlots(r: Room, now: int, window: int): Room {
    r.(slots := map a | a in r.slots && now - r.slots[a] <= window :: r.slots[a])
  }

  function BroadcastMoves(r: Room): Room {
    if r.moves == map[] then r else r.(moves := map[], log := r.log + [MovesBroadcast(r.moves)])
  }

  /** What Tick does after the flush. */
  function TickTail(r: Room, now: int, window: int): Room {
    var q := ExpireSlots(r, now, window);
    if q.phase == Finished then
      if now - q.finishedAt > FINISHED_MS then q.(phase := Waiting, log := q.log + [BackToWaiting(now)]) else q
    else BroadcastMoves(q)
  }

  lemma TickTailQueues(r: Room, now: int, window: int)
    ensures var q := TickTail(r, now, window);
      q.batch == r.batch && q.ran == r.ran && q.jobs == r.jobs && q.pushed == r.pushed
  {
  }

  // ----- what a step does to the sessions' room pointers -----

  /** `at` maps the sessions that are in a room to that room; `id` is this room. */
  function Pointers<Id>(r: Room, job: Job, id: Id, at: map<SessionId, Id>): map<SessionId, Id> {
    match job
    case Enter(s) => if Admits(r) then at[s := id] else at
    case Leave(s) => if s in r.members then at - {s} else at
    case Rejoin(s) => at[s := id]
    case Ready(_) => at
    case Move(_, _) => at
  }

  /** What the idle-room collector looks at: nothing but the stamp. */
  predicate Collectable(r: Room, now: int, idleMs: int) {
    r.emptySince > 0 && now - r.emptySince > idleMs
  }
}
