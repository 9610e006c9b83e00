/** The room object, in place: its job queue, its handlers and its tick, each proved against the
    room functions of RoomModel. */
module GameRooms {
  import opened RoomModel

  /** What rooms read and write of the sessions: the account, and the room pointer (the number of
      the room; absent for null). */
  class SessionTable {
    var accounts: Accounts
    var at: map<SessionId, nat>

    constructor ()
      ensures accounts == map[] && at == map[]
    {
      accounts, at := map[], map[];
    }

    method SetRoom(s: SessionId, room: nat)
      modifies `at
      ensures at == old(at)[s := room]
    {
      at := at[s := room];
    }

    method ClearRoom(s: SessionId)
      modifies `at
      ensures at == old(at) - {s}
    {
      at := at - {s};
    }
  }

  class JobQueue {
    var jobs: seq<Job>

    constructor ()
      ensures jobs == []
    {
      jobs := [];
    }

    method Push(job: Job)
      modifies this
      ensures jobs == old(jobs) + [job]
    {
      jobs := jobs + [job];
    }

    /** The locked half of Flush. */
    method SwapOut() returns (batch: seq<Job>)
      modifies this
      ensures batch == old(jobs) && jobs == []
    {
      batch := jobs;
      jobs := [];
    }
  }

  // ----- a whole flush -----

  /** The room after the first |firsts| jobs of its batch, job k run at time clock(k). */
  function RunJobs(r: Room, accounts: Accounts, clock: nat -> int, firsts: seq<SessionId>): (q: Room)
    requires |firsts| <= |r.batch|
    ensures q.batch == r.batch[|firsts|..] && q.ran == r.ran + r.batch[..|firsts|]
    ensures q.jobs == r.jobs && q.pushed == r.pushed
  {
    if firsts == [] then r
    else
      var k := |firsts| - 1;
      var q := RunJobs(r, accounts, clock, firsts[..k]);
      RunNextQueues(q, accounts, clock(k), firsts[k]);
      assert r.batch[..k + 1] == r.batch[..k] + [r.batch[k]];
      RunNext(q, accounts, clock(k), firsts[k])
  }

  /** The sessions' room pointers after the same jobs. */
  function PointersAfter(r: Room, accounts: Accounts, clock: nat -> int, firsts: seq<SessionId>, id: nat,
                         at: map<SessionId, nat>): map<SessionId, nat>
    requires |firsts| <= |r.batch|
  {
    if firsts == [] then at
    else
      var k := |firsts| - 1;
      Pointers(RunJobs(r, accounts, clock, firsts[..k]), r.batch[k], id, PointersAfter(r, accounts, clock, firsts[..k], id, at))
  }

  /** Each time somebody had to come first, it was somebody still in the room. */
  ghost predicate FirstsAreMembers(r: Room, accounts: Accounts, clock: nat -> int, firsts: seq<SessionId>) {
    |firsts| <= |r.batch| &&
    (firsts == [] ||
     var k := |firsts| - 1;
     && FirstsAreMembers(r, accounts, clock, firsts[..k])
     && CanComeFirst(RunJobs(r, accounts, clock, firsts[..k]), r.batch[k], firsts[k]))
  }

  lemma OneMoreJob(r: Room, accounts: Accounts, clock: nat -> int, firsts: seq<SessionId>, first: SessionId, id: nat, at: map<SessionId, nat>)
    requires |firsts| < |r.batch|
    ensures var q := RunJobs(r, accounts, clock, firsts); var all := firsts + [first];
      && RunJobs(r, accounts, clock, all) == RunNext(q, accounts, clock(|firsts|), first)
      && PointersAfter(r, accounts, clock, all, id, at) ==
           Pointers(q, r.batch[|firsts|], id, PointersAfter(r, accounts, clock, firsts, id, at))
      && (FirstsAreMembers(r, accounts, clock, firsts) && CanComeFirst(q, r.batch[|firsts|], first) ==>
            FirstsAreMembers(r, accounts, clock, all))
  {
    assert (firsts + [first])[..|firsts|] == firsts;
  }

  class GameRoom {
    const id: nat
    const name: string
    const maxPlayers: int
    const sessions: SessionTable
    const queue: JobQueue
    var phase: Phase
    var finishedAt: int
    var emptySinceMs: int
    var ready: set<Account>
    var members: set<SessionId>
    var moves: map<Account, Position>
    var slots: map<Account, int>
    var batch: seq<Job>
    var log: seq<Entry>
    ghost var pushed: seq<Job>
    ghost var ran: seq<Job>

    ghost function View(): Room
      reads this, queue
    {
      Room(name, maxPlayers, phase, finishedAt, emptySinceMs, ready, members, moves, slots, queue.jobs, batch, pushed, ran, log)
    }

    constructor (id: nat, name: string, maxPlayers: int, sessions: SessionTable)
      ensures View() == NewRoom(name, maxPlayers) && this.id == id && this.sessions == sessions && fresh(queue)
    {
      this.id, this.name, this.maxPlayers, this.sessions := id, name, maxPlayers, sessions;
      queue := new JobQueue();
      phase, finishedAt, emptySinceMs, ready, members := Waiting, 0, 0, {}, {};
      moves, slots, batch, log, pushed, ran := map[], map[], [], [], [], [];
    }

    method PushJob(job: Job)
      modifies `pushed, queue
      ensures View() == Push(old(View()), job)
    {
      queue.Push(job);
      pushed := pushed + [job];
    }

    method HandleEnter(s: SessionId)
      modifies this, sessions`at
      ensures View() == RoomModel.HandleEnter(old(View()), s)
      ensures sessions.at == Pointers(old(View()), Enter(s), id, old(sessions.at))
    {
      if phase == InGame {
        log := log + [Refused(s)];
        return;
      }
      if |members| >= maxPlayers {
        log := log + [Refused(s)];
        return;
      }
      members := members + {s};
      emptySinceMs := 0;
      sessions.SetRoom(s, id);
      log := log + [Entered(s)];
    }

    /** The winner is whoever the set of members yields first; the method says who it was. */
    method HandleLeave(s: SessionId, now: int) returns (first: SessionId)
      modifies this, sessions`at
      ensures CanComeFirst(old(View()), Leave(s), first)
      ensures View() == RoomModel.HandleLeave(old(View()), s, sessions.accounts, now, first)
      ensures sessions.at == Pointers(old(View()), Leave(s), id, old(sessions.at))
    {
      first := s;
      if s !in members {
        return;
      }
      var account := AccountOf(sessions.accounts, s);
      members := members - {s};
      sessions.ClearRoom(s);
      moves := moves - {account};
      ready := ready - {account};
      log := log + [Departed(s, account, phase == InGame, now)];
      if phase == InGame {
        slots := slots[account := now];
        if members != {} {
          first :| first in members;
          HandleGameEnd(AccountOf(sessions.accounts, first), now);
          return;
        }
      }
      if members == {} {
        emptySinceMs := now;
      }
    }

    method HandleGameEnd(winner: Account, now: int)
      modifies this
      ensures View() == EndGame(old(View()), winner, now)
    {
      phase := Finished;
      finishedAt := now;
      log := log + [GameResult(winner, now)];
    }

    method HandleRejoin(s: SessionId)
      modifies this, sessions`at
      ensures View() == RoomModel.HandleRejoin(old(View()), s, sessions.accounts)
      ensures sessions.at == Pointers(old(View()), Rejoin(s), id, old(sessions.at))
    {
      var account := AccountOf(sessions.accounts, s);
      slots := slots - {account};
      members := members + {s};
      emptySinceMs := 0;
      sessions.SetRoom(s, id);
      log := log + [Rejoined(s, account)];
    }

    method HandleReady(account: Account, now: int)
      modifies this
      ensures View() == RoomModel.HandleReady(old(View()), account, sessions.accounts, now)
    {
      if phase != Waiting {
        return;
      }
      if account in ready {
        ready := ready - {account};
      } else {
        ready := ready + {account};
      }
      log := log + [ReadyToggled(account)];
      TryStartGame(now);
    }

    method TryStartGame(now: int)
      modifies this
      ensures View() == TryStart(old(View()), sessions.accounts, now)
    {
      if |members| < 2 {
        return;
      }
      if |ready| < |members| {
        return;
      }
      log := log + [GameStarted(now, AccountsOf(sessions.accounts, members), ready)];
      phase := InGame;
      ready := {};
    }

    method HandleMove(account: Account, position: Position)
      modifies this
      ensures View() == RoomModel.HandleMove(old(View()), account, position)
    {
      if phase != InGame {
        return;
      }
      moves := moves[account := position];
      log := log + [MoveAccepted(account, position)];
    }

    /** Takes the next job off the batch and runs it. */
    method RunNextJob(now: int) returns (first: SessionId)
      requires batch != []
      modifies this, sessions`at
      ensures CanComeFirst(old(View()), old(batch[0]), first)
      ensures View() == RunNext(old(View()), sessions.accounts, now, first)
      ensures sessions.at == Pointers(old(View()), old(batch[0]), id, old(sessions.at))
    {
      var job := batch[0];
      batch := batch[1..];
      ran := ran + [job];
      first := 0;
      match job
      case Enter(s) => HandleEnter(s);
      case Leave(s) => first := HandleLeave(s, now);
      case Rejoin(s) => HandleRejoin(s);
      case Ready(a) => HandleReady(a, now);
      case Move(a, p) => HandleMove(a, p);
    }

    /** Runs exactly the jobs that were in the queue, each once and in order. */
    method Flush(clock: nat -> int) returns (firsts: seq<SessionId>)
      requires batch == []
      modifies this, queue, sessions`at
      ensures batch == [] && queue.jobs == [] && ran == old(ran) + old(queue.jobs) && |firsts| == |old(queue.jobs)|
      ensures var r := BeginFlush(old(View()));
        && FirstsAreMembers(r, sessions.accounts, clock, firsts)
        && View() == RunJobs(r, sessions.accounts, clock, firsts)
        && sessions.at == PointersAfter(r, sessions.accounts, clock, firsts, id, old(sessions.at))
    {
      batch := queue.SwapOut();
      ghost var r := View();
      firsts := [];
      while batch != []
        invariant |firsts| + |batch| == |r.batch| && FirstsAreMembers(r, sessions.accounts, clock, firsts)
        invariant View() == RunJobs(r, sessions.accounts, clock, firsts)
        invariant sessions.at == PointersAfter(r, sessions.accounts, clock, firsts, id, old(sessions.at))
        decreases |batch|
      {
        var first := RunNextJob(clock(|firsts|));
        OneMoreJob(r, sessions.accounts, clock, firsts, first, id, old(sessions.at));
        firsts := firsts + [first];
      }
      assert r.batch[..|firsts|] == r.batch;
    }

    /** The iterator loop over the reconnect slots. */
    method EraseExpiredSlots(now: int, window: int)
      modifies this
      ensures View() == ExpireSlots(old(View()), now, window)
    {
      var todo := slots.Keys;
      while todo != {}
        invariant todo <= slots.Keys <= old(slots.Keys)
        invariant forall a :: a in slots ==> slots[a] == old(slots)[a]
        invariant forall a :: a in old(slots) && a !in todo ==> (a in slots <==> now - old(slots)[a] <= window)
        invariant View() == old(View()).(slots := slots)
        decreases |todo|
      {
        var a :| a in todo;
        if now - slots[a] > window {
          slots := slots - {a};
        }
        todo := todo - {a};
      }
      assert slots == ExpireSlots(old(View()), now, window).slots;
    }

    /** The pending moves, one actor per account, in whatever order the map yields them. */
    method BroadcastPendingMoves() returns (snapshot: seq<(Account, Position)>)
      modifies this
      ensures View() == BroadcastMoves(old(View()))
      ensures forall i, j :: 0 <= i < j < |snapshot| ==> snapshot[i].0 != snapshot[j].0
      ensures forall a, p :: (a, p) in snapshot <==> a in old(moves) && old(moves)[a] == p
    {
      snapshot := [];
      if moves == map[] {
        return;
      }
      var todo := moves.Keys;
      while todo != {}
        invariant View() == old(View()) && todo <= moves.Keys
        invariant forall i, j :: 0 <= i < j < |snapshot| ==> snapshot[i].0 != snapshot[j].0
        invariant forall a, p :: (a, p) in snapshot <==> a in moves && a !in todo && moves[a] == p
        decreases |todo|
      {
        var a :| a in todo;
        snapshot := snapshot + [(a, moves[a])];
        todo := todo - {a};
      }
      log := log + [MovesBroadcast(moves)];
      moves := map[];
    }

    /** One tick: the flush, then the tail. */
    method Tick(window: int, clock: nat -> int, now: int) returns (firsts: seq<SessionId>, snapshot: seq<(Account, Position)>)
      requires batch == []
      modifies this, queue, sessions`at
      ensures batch == [] && queue.jobs == [] && ran == old(ran) + old(queue.jobs) && |firsts| == |old(queue.jobs)|
      ensures var r := BeginFlush(old(View()));
        && FirstsAreMembers(r, sessions.accounts, clock, firsts)
        && View() == TickTail(RunJobs(r, sessions.accounts, clock, firsts), now, window)
        && sessions.at == PointersAfter(r, sessions.accounts, clock, firsts, id, old(sessions.at))
    {
      firsts := Flush(clock);
      snapshot := [];
      EraseExpiredSlots(now, window);
      if phase == Finished {
        if now - finishedAt > FINISHED_MS {
          phase := Waiting;
          log := log + [BackToWaiting(now)];
        }
        return;
      }
      snapshot := BroadcastPendingMoves();
    }
  }
}
