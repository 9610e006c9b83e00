/** The invariant of one room, kept by every job, every tick tail and the passing of time. */
module RoomSafety {
  import opened Collections
  import opened RoomModel
  import opened RoomHistory

  /** The stamp is set only while nobody is in the room, and no slot is younger than it. */
  ghost predicate Stamped(r: Room, now: int) {
    && (r.emptySince > 0 ==> r.members == {} && r.emptySince <= now && forall a :: a in r.slots ==> r.slots[a] <= r.emptySince)
    && (forall a :: a in r.slots ==> r.slots[a] <= now)
  }

  ghost predicate Live(r: Room) {
    && (r.phase == InGame ==> 2 <= |r.members|)
    && (r.phase != Waiting ==> r.ready == {})
  }

  /** Starts, results and resets take turns, and the phase says whose turn it is. */
  ghost predicate Lifecycle(r: Room) {
    && TakesTurns(r.log)
    && Starts(r.log) - Results(r.log) == (if r.phase == InGame then 1 else 0)
    && Results(r.log) - Resets(r.log) == (if r.phase == Finished then 1 else 0)
    && Results(r.log) == MidGameDepartures(r.log)
    && Shown(r.log) == (if r.phase == Finished then Some(r.finishedAt) else None)
  }

  /** The latest time at which a game can have been started so far. */
  ghost function StartLimit(r: Room, now: int): int {
    match r.phase
    case Waiting => now - FINISHED_MS - 1
    case InGame => now
    case Finished => r.finishedAt
  }

  ghost predicate Dated(log: seq<Entry>, now: int) {
    forall i :: 0 <= i < |log| && log[i].Departed? ==> 0 < log[i].at <= now
  }

  ghost predicate Paced(r: Room, now: int) {
    && StartsSpaced(r.log) && StartsBefore(r.log, StartLimit(r, now))
    && Dated(r.log, now) && ScreensLong(r.log) && ResultsBefore(r.log, if r.phase == Finished then r.finishedAt else now)
    && (r.phase == Finished ==> r.finishedAt <= now)
  }

  /** Whoever left mid-game no longer than a window ago and has not rejoined has a slot, and
      nobody has a slot who is not owed one. */
  ghost predicate SlotsHeld(r: Room, now: int, window: int) {
    && (forall a :: a in Owed(r.log) ==> Owed(r.log)[a] <= now)
    && (forall a :: a in Owed(r.log) && now - Owed(r.log)[a] <= window ==> a in r.slots)
    && (forall a :: a in r.slots ==> a in Owed(r.log) && r.slots[a] == Owed(r.log)[a])
  }

  /** Each pushed job runs once, in push order. */
  ghost predicate JobsInOrder(r: Room) {
    r.ran + r.batch + r.jobs == r.pushed
  }

  ghost predicate RoomInv(r: Room, now: int, window: int) {
    && Stamped(r, now)
    && Live(r)
    && Lifecycle(r)
    && Paced(r, now)
    && SlotsHeld(r, now, window)
    && r.moves == Unsent(r.log) && r.ready == Marked(r.log)
    && JobsInOrder(r)
  }

  lemma StartsSnoc(log: seq<Entry>, e: Entry, t: int)
    requires StartsSpaced(log) && StartsBefore(log, t)
    ensures !e.GameStarted? ==> StartsSpaced(log + [e]) && StartsBefore(log + [e], t)
    ensures e.GameStarted? && t + FINISHED_MS < e.at ==> StartsSpaced(log + [e]) && StartsBefore(log + [e], e.at)
  {
  }

  lemma ResultsSnoc(log: seq<Entry>, e: Entry, t: int)
    requires ScreensLong(log) && ResultsBefore(log, t)
    ensures !e.GameResult? && !e.BackToWaiting? ==> ScreensLong(log + [e]) && ResultsBefore(log + [e], t)
    ensures e.GameResult? && t <= e.at ==> ScreensLong(log + [e]) && ResultsBefore(log + [e], e.at)
    ensures e.BackToWaiting? && t + FINISHED_MS < e.at ==> ScreensLong(log + [e]) && ResultsBefore(log + [e], t)
  {
  }

  lemma DatedSnoc(log: seq<Entry>, e: Entry, now: int)
    requires Dated(log, now) && (e.Departed? ==> 0 < e.at <= now)
    ensures Dated(log + [e], now)
  {
  }

  /** An entry that is no start, result or reset concerns neither turns nor times. */
  lemma PlainEntry(r: Room, e: Entry, now: int)
    requires Lifecycle(r) && Paced(r, now)
    requires !e.GameStarted? && !SupersedesResult(e) && (e.Departed? ==> !e.midGame && 0 < e.at <= now)
    ensures Lifecycle(r.(log := r.log + [e])) && Paced(r.(log := r.log + [e]), now)
  {
    Snoc(r.log, e);
    TurnsSnoc(r.log, e);
    StartsSnoc(r.log, e, StartLimit(r, now));
    ResultsSnoc(r.log, e, if r.phase == Finished then r.finishedAt else now);
    DatedSnoc(r.log, e, now);
  }

  lemma NewRoomHolds(name: string, maxPlayers: int, now: int, window: int)
    ensures RoomInv(NewRoom(name, maxPlayers), now, window)
  {
    var r := NewRoom(name, maxPlayers);
    NothingHappened(r.log);
    assert r.phase == Waiting && r.emptySince == 0 && r.slots == map[] && r.moves == map[] && r.ready == {};
  }

  lemma TimePasses(r: Room, now: int, later: int, window: int)
    requires RoomInv(r, now, window) && now <= later
    ensures RoomInv(r, later, window)
  {
  }

  lemma PushKeeps(r: Room, job: Job, now: int, window: int)
    requires RoomInv(r, now, window)
    ensures RoomInv(Push(r, job), now, window)
  {
    assert r.ran + r.batch + (r.jobs + [job]) == (r.ran + r.batch + r.jobs) + [job];
  }

  lemma BeginFlushKeeps(r: Room, now: int, window: int)
    requires RoomInv(r, now, window) && r.batch == []
    ensures RoomInv(BeginFlush(r), now, window)
  {
    assert r.ran + r.jobs + [] == r.ran + [] + r.jobs;
  }

  lemma DequeueKeeps(r: Room, now: int, window: int)
    requires RoomInv(r, now, window) && r.batch != []
    ensures RoomInv(Dequeue(r), now, window)
  {
    assert (r.ran + [r.batch[0]]) + r.batch[1..] == r.ran + r.batch;
  }

  lemma EnterKeeps(r: Room, s: SessionId, now: int, window: int)
    requires RoomInv(r, now, window)
    ensures RoomInv(HandleEnter(r, s), now, window)
  {
    var e := if Admits(r) then Entered(s) else Refused(s);
    Snoc(r.log, e);
    PlainEntry(r, e, now);
  }

  lemma RejoinSlots(r: Room, s: SessionId, accounts: Accounts, now: int, window: int)
    requires SlotsHeld(r, now, window) && Stamped(r, now)
    ensures var q := HandleRejoin(r, s, accounts); SlotsHeld(q, now, window) && Stamped(q, now)
  {
    Snoc(r.log, Rejoined(s, AccountOf(accounts, s)));
  }

  lemma RejoinKeeps(r: Room, s: SessionId, accounts: Accounts, now: int, window: int)
    requires RoomInv(r, now, window)
    ensures RoomInv(HandleRejoin(r, s, accounts), now, window)
  {
    var e, q := Rejoined(s, AccountOf(accounts, s)), HandleRejoin(r, s, accounts);
    RejoinSlots(r, s, accounts, now, window);
    Snoc(r.log, e);
    PlainEntry(r, e, now);
    assert s in r.members ==> q.members == r.members;
    assert q.phase == r.phase && q.finishedAt == r.finishedAt && q.ready == r.ready && q.moves == r.moves;
    assert q.log == r.log + [e] && Lifecycle(q) && Paced(q, now);
  }

  lemma MoveKeeps(r: Room, a: Account, p: Position, now: int, window: int)
    requires RoomInv(r, now, window)
    ensures RoomInv(HandleMove(r, a, p), now, window)
  {
    Snoc(r.log, MoveAccepted(a, p));
    PlainEntry(r, MoveAccepted(a, p), now);
  }

  lemma TryStartKeeps(r: Room, accounts: Accounts, now: int, window: int)
    requires RoomInv(r, now, window) && r.phase == Waiting
    ensures RoomInv(TryStart(r, accounts, now), now, window)
  {
    if CanStart(r) {
      var e := GameStarted(now, AccountsOf(accounts, r.members), r.ready);
      Snoc(r.log, e);
      TurnsSnoc(r.log, e);
      StartsSnoc(r.log, e, StartLimit(r, now));
      ResultsSnoc(r.log, e, now);
      DatedSnoc(r.log, e, now);
    }
  }

  lemma ReadyKeeps(r: Room, a: Account, accounts: Accounts, now: int, window: int)
    requires RoomInv(r, now, window)
    ensures RoomInv(HandleReady(r, a, accounts, now), now, window)
  {
    if r.phase == Waiting {
      var e := ReadyToggled(a);
      Snoc(r.log, e);
      PlainEntry(r, e, now);
      TryStartKeeps(r.(ready := Toggled(r.ready, a), log := r.log + [e]), accounts, now, window);
    }
  }

  /** A member leaving a game in progress always leaves somebody behind: it ends the game with
      exactly one result, won by a session that is still there. */
  lemma DepartureEndsGame(r: Room, s: SessionId, accounts: Accounts, now: int, first: SessionId)
    requires Live(r) && r.phase == InGame && s in r.members && CanComeFirst(r, Leave(s), first)
    ensures var q := HandleLeave(r, s, accounts, now, first);
      && q.phase == Finished && q.finishedAt == now
      && first in q.members && q.members == r.members - {s}
      && q.log == r.log + [Departed(s, AccountOf(accounts, s), true, now)] + [GameResult(AccountOf(accounts, first), now)]
      && q.slots == r.slots[AccountOf(accounts, s) := now]
      && q.emptySince == r.emptySince
  {
    assert r.members != {s};
    assert first in r.members - {s};
  }

  lemma GameEndTurns(r: Room, e: Entry, f: Entry, now: int)
    requires Lifecycle(r) && r.phase == InGame && e.Departed? && e.midGame && f.GameResult? && f.at == now
    ensures Lifecycle(r.(phase := Finished, finishedAt := now, log := r.log + [e] + [f]))
  {
    Snoc(r.log, e);
    TurnsSnoc(r.log, e);
    Snoc(r.log + [e], f);
    TurnsSnoc(r.log + [e], f);
  }

  lemma GameEndTimes(r: Room, e: Entry, f: Entry, now: int)
    requires Paced(r, now) && r.phase == InGame && e.Departed? && f.GameResult? && 0 < e.at == f.at == now
    ensures Paced(r.(phase := Finished, finishedAt := now, log := r.log + [e] + [f]), now)
  {
    StartsSnoc(r.log, e, now);
    ResultsSnoc(r.log, e, now);
    DatedSnoc(r.log, e, now);
    StartsSnoc(r.log + [e], f, now);
    ResultsSnoc(r.log + [e], f, now);
    DatedSnoc(r.log + [e], f, now);
  }

  lemma MidGameLeaveSlots(r: Room, s: SessionId, accounts: Accounts, now: int, first: SessionId, window: int)
    requires SlotsHeld(r, now, window) && Stamped(r, now) && Live(r) && CanComeFirst(r, Leave(s), first)
    requires s in r.members && r.phase == InGame
    ensures var q := HandleLeave(r, s, accounts, now, first); SlotsHeld(q, now, window) && Stamped(q, now)
  {
    var e, f := Departed(s, AccountOf(accounts, s), true, now), GameResult(AccountOf(accounts, first), now);
    DepartureEndsGame(r, s, accounts, now, first);
    Snoc(r.log, e);
    Snoc(r.log + [e], f);
  }

  lemma MidGameLeaveMoves(r: Room, s: SessionId, accounts: Accounts, now: int, first: SessionId)
    requires Live(r) && CanComeFirst(r, Leave(s), first) && s in r.members && r.phase == InGame
    requires r.moves == Unsent(r.log) && r.ready == Marked(r.log)
    ensures var q := HandleLeave(r, s, accounts, now, first); q.moves == Unsent(q.log) && q.ready == Marked(q.log) && Live(q)
  {
    var e, f := Departed(s, AccountOf(accounts, s), true, now), GameResult(AccountOf(accounts, first), now);
    DepartureEndsGame(r, s, accounts, now, first);
    Snoc(r.log, e);
    Snoc(r.log + [e], f);
  }

  lemma MidGameLeaveKeeps(r: Room, s: SessionId, accounts: Accounts, now: int, first: SessionId, window: int)
    requires RoomInv(r, now, window) && 0 < now && CanComeFirst(r, Leave(s), first)
    requires s in r.members && r.phase == InGame
    ensures RoomInv(HandleLeave(r, s, accounts, now, first), now, window)
  {
    var e, f := Departed(s, AccountOf(accounts, s), true, now), GameResult(AccountOf(accounts, first), now);
    var q := HandleLeave(r, s, accounts, now, first);
    DepartureEndsGame(r, s, accounts, now, first);
    MidGameLeaveSlots(r, s, accounts, now, first, window);
    MidGameLeaveMoves(r, s, accounts, now, first);
    GameEndTurns(r, e, f, now);
    GameEndTimes(r, e, f, now);
    assert q.log == r.log + [e] + [f] && Lifecycle(q) && Paced(q, now);
  }

  lemma QuietLeaveKeeps(r: Room, s: SessionId, accounts: Accounts, now: int, first: SessionId, window: int)
    requires RoomInv(r, now, window) && 0 < now && s in r.members && r.phase != InGame
    ensures RoomInv(HandleLeave(r, s, accounts, now, first), now, window)
  {
    var e := Departed(s, AccountOf(accounts, s), false, now);
    var q := HandleLeave(r, s, accounts, now, first);
    Snoc(r.log, e);
    PlainEntry(r, e, now);
    assert q.log == r.log + [e] && q.phase == r.phase && q.finishedAt == r.finishedAt && q.slots == r.slots;
    assert Lifecycle(q) && Paced(q, now);
  }

  lemma LeaveKeeps(r: Room, s: SessionId, accounts: Accounts, now: int, first: SessionId, window: int)
    requires RoomInv(r, now, window) && 0 < now && CanComeFirst(r, Leave(s), first)
    ensures RoomInv(HandleLeave(r, s, accounts, now, first), now, window)
  {
    if s !in r.members {
      assert HandleLeave(r, s, accounts, now, first) == r;
    } else if r.phase == InGame {
      MidGameLeaveKeeps(r, s, accounts, now, first, window);
    } else {
      QuietLeaveKeeps(r, s, accounts, now, first, window);
    }
  }

  lemma RunNextKeeps(r: Room, accounts: Accounts, now: int, first: SessionId, window: int)
    requires RoomInv(r, now, window) && 0 < now && r.batch != [] && CanComeFirst(r, r.batch[0], first)
    ensures RoomInv(RunNext(r, accounts, now, first), now, window)
  {
    var q := Dequeue(r);
    var v := RunNext(r, accounts, now, first);
    DequeueKeeps(r, now, window);
    match r.batch[0]
    case Enter(s) =>
      assert v == HandleEnter(q, s);
      EnterKeeps(q, s, now, window);
    case Leave(s) =>
      assert v == HandleLeave(q, s, accounts, now, first);
      LeaveKeeps(q, s, accounts, now, first, window);
    case Rejoin(s) =>
      assert v == HandleRejoin(q, s, accounts);
      RejoinKeeps(q, s, accounts, now, window);
    case Ready(a) =>
      assert v == HandleReady(q, a, accounts, now);
      ReadyKeeps(q, a, accounts, now, window);
    case Move(a, p) =>
      assert v == HandleMove(q, a, p);
      MoveKeeps(q, a, p, now, window);
  }

  lemma ExpireKeeps(r: Room, now: int, window: int)
    requires RoomInv(r, now, window)
    ensures RoomInv(ExpireSlots(r, now, window), now, window)
  {
  }

  lemma ResetKeeps(r: Room, now: int, window: int)
    requires RoomInv(r, now, window) && r.phase == Finished && now - r.finishedAt > FINISHED_MS
    ensures RoomInv(r.(phase := Waiting, log := r.log + [BackToWaiting(now)]), now, window)
  {
    var e := BackToWaiting(now);
    Snoc(r.log, e);
    TurnsSnoc(r.log, e);
    StartsSnoc(r.log, e, r.finishedAt);
    ResultsSnoc(r.log, e, r.finishedAt);
    DatedSnoc(r.log, e, now);
  }

  lemma BroadcastKeeps(r: Room, now: int, window: int)
    requires RoomInv(r, now, window) && r.phase != Finished
    ensures RoomInv(BroadcastMoves(r), now, window)
  {
    var e := MovesBroadcast(r.moves);
    Snoc(r.log, e);
    PlainEntry(r, e, now);
  }

  lemma TickTailKeeps(r: Room, now: int, window: int)
    requires RoomInv(r, now, window)
    ensures RoomInv(TickTail(r, now, window), now, window)
  {
    var q := ExpireSlots(r, now, window);
    ExpireKeeps(r, now, window);
    if q.phase != Finished {
      BroadcastKeeps(q, now, window);
    } else if now - q.finishedAt > FINISHED_MS {
      ResetKeeps(q, now, window);
    }
  }

  /** What a tick broadcasts is exactly the moves its history says are unsent, and afterwards
      nothing is unsent; while the result of a game is being shown nothing is broadcast. */
  lemma TickBroadcastsUnsentMoves(r: Room, now: int, window: int)
    requires RoomInv(r, now, window)
    ensures var q := TickTail(r, now, window);
      if r.phase != Finished && Unsent(r.log) != map[] then
        q.log == r.log + [MovesBroadcast(Unsent(r.log))] && Unsent(q.log) == map[] && q.moves == map[]
      else
        Unsent(q.log) == Unsent(r.log) && forall m :: MovesBroadcast(m) in q.log ==> MovesBroadcast(m) in r.log
  {
    TickTailKeeps(r, now, window);
    Snoc(r.log, BackToWaiting(now));
    Snoc(r.log, MovesBroadcast(r.moves));
  }

  /** At the end of a tick the slots are exactly the debts that are no older than the window. */
  lemma TickLeavesLiveSlots(r: Room, now: int, window: int, a: Account)
    requires RoomInv(r, now, window)
    ensures var q := TickTail(r, now, window);
      && (a in q.slots <==> a in Owed(r.log) && now - Owed(r.log)[a] <= window)
      && (a in q.slots ==> q.slots[a] == Owed(r.log)[a])
  {
  }

  /** At the end of a tick a result is shown if and only if it is at most five seconds old. */
  lemma ScreenEnds(r: Room, now: int, window: int, i: nat)
    requires RoomInv(r, now, window) && i < |r.log| && r.log[i].GameResult?
    requires forall j :: i < j < |r.log| ==> !SupersedesResult(r.log[j])
    ensures var q := TickTail(r, now, window);
      && r.phase == Finished
      && (if now - r.log[i].at <= FINISHED_MS then q.phase == Finished && q.log == r.log
          else q.phase == Waiting && q.log == r.log + [BackToWaiting(now)])
  {
    ShownMeaning(r.log, r.log[i].at);
    assert ResultAt(r.log[i], r.log[i].at);
  }

  /** The collector is safe for reconnects: a room it may take owes nobody a slot any more. */
  lemma CollectableOwesNothing(r: Room, now: int, window: int, idleMs: int)
    requires RoomInv(r, now, window) && Collectable(r, now, idleMs) && window <= idleMs
    ensures r.members == {}
    ensures forall a :: a in Owed(r.log) ==> now - Owed(r.log)[a] > window
  {
  }
}
