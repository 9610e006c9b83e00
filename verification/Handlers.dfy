/** What one request or job undoes of another, and what a request for another room does to the
    room a session is in. */
module Handlers {
  import opened RoomModel
  import opened RoomHistory
  import opened RoomSafety
  import opened World
  import opened WorldSafety

  /** Between w and v exactly these jobs were queued, on that one room, which else is the same,
      and so are all other rooms. */
  ghost predicate Queued(w: State, v: State, room: RoomId, jobs: seq<Job>) {
    && room in w.rooms
    && v.rooms == w.rooms[room := w.rooms[room].(jobs := w.rooms[room].jobs + jobs, pushed := w.rooms[room].pushed + jobs)]
  }

  /** Entering the room one is in queues a leave and then an entry, on that room alone. */
  lemma ReenterQueuesLeaveThenEnter(w: State, s: SessionId, cfg: Config)
    requires PointersGood(w) && NamesGood(w) && AccountOf(w.accounts, s) != "" && s in w.at
    ensures var room := w.at[s]; var v := Step(w, EnterRequest(s, w.rooms[room].name), cfg);
      Queued(w, v, room, [Leave(s), Enter(s)]) && v.names == w.names
  {
    var r := w.rooms[w.at[s]];
    assert r.pushed + [Leave(s)] + [Enter(s)] == r.pushed + [Leave(s), Enter(s)];
    assert r.jobs + [Leave(s)] + [Enter(s)] == r.jobs + [Leave(s), Enter(s)];
  }

  /** Pointers play no part in creating rooms and pushing jobs. */
  lemma PointersAside(w: State, at: map<SessionId, RoomId>, name: string, job: Job, cfg: Config)
    ensures var (v, room) := GetOrCreate(w, name, cfg);
      && GetOrCreate(w.(at := at), name, cfg) == (v.(at := at), room)
      && PushTo(v.(at := at), room, job) == PushTo(v, room, job).(at := at)
  {
  }

  /** A session that enters a room while in one first queues its leave there; from then on
      it is as if it had no room. */
  lemma EnterQueuesLeaveFirst(w: State, s: SessionId, name: string, cfg: Config)
    requires PointersGood(w) && AccountOf(w.accounts, s) != "" && s in w.at
    ensures var left := PushTo(w, w.at[s], Leave(s));
      && Queued(w, left, w.at[s], [Leave(s)])
      && Step(w, EnterRequest(s, name), cfg) == Step(left.(at := left.at - {s}), EnterRequest(s, name), cfg).(at := w.at)
  {
    var left := PushTo(w, w.at[s], Leave(s));
    var (v, room) := GetOrCreate(left, name, cfg);
    PointersAside(left, left.at - {s}, name, Enter(s), cfg);
    assert PushToCurrent(w, s, Leave(s)) == left;
    assert PushTo(v, room, Enter(s)).at == w.at;
  }

  /** Entering and leaving again, outside a game, leaves the room as it was, except for the
      history, the stamp, and the leaver's own moves and ready mark. */
  lemma LeaveUndoesEnter(r: Room, s: SessionId, accounts: Accounts, now: int, first: SessionId, id: RoomId, at: map<SessionId, RoomId>)
    requires Admits(r) && s !in r.members
    ensures var a := AccountOf(accounts, s); var q := HandleLeave(HandleEnter(r, s), s, accounts, now, first);
      && q == r.(moves := r.moves - {a}, ready := r.ready - {a}, emptySince := if r.members == {} then now else 0,
                 log := r.log + [Entered(s)] + [Departed(s, a, false, now)])
      && Pointers(HandleEnter(r, s), Leave(s), id, Pointers(r, Enter(s), id, at)) == at - {s}
  {
    assert r.members + {s} - {s} == r.members;
  }

  /** A player thrown out of a game who comes back, on whatever session, has used up the slot and
      is in the room again; nobody is owed a slot for that account any more. */
  lemma RejoinUsesUpSlot(r: Room, s: SessionId, t: SessionId, accounts: Accounts, now: int, later: int, first: SessionId, window: int)
    requires RoomInv(r, now, window) && 0 < now <= later && r.phase == InGame && s in r.members
    requires CanComeFirst(r, Leave(s), first) && AccountOf(accounts, t) == AccountOf(accounts, s)
    ensures var a := AccountOf(accounts, s);
      var left := HandleLeave(r, s, accounts, now, first); var back := HandleRejoin(left, t, accounts);
      && a in left.slots && left.slots[a] == now && a in Owed(left.log)
      && a !in back.slots && a !in Owed(back.log) && back.slots == r.slots - {a}
      && back.members == r.members - {s} + {t}
      && RoomInv(back, later, window)
  {
    var a := AccountOf(accounts, s);
    var left := HandleLeave(r, s, accounts, now, first);
    DepartureEndsGame(r, s, accounts, now, first);
    Snoc(r.log, Departed(s, a, true, now));
    Snoc(r.log + [Departed(s, a, true, now)], GameResult(AccountOf(accounts, first), now));
    Snoc(left.log, Rejoined(t, a));
    LeaveKeeps(r, s, accounts, now, first, window);
    RejoinKeeps(left, t, accounts, now, window);
    TimePasses(HandleRejoin(left, t, accounts), now, later, window);
  }

  /** The ready request is a toggle: as long as it does not start a game, twice is as good as
      never. */
  lemma ReadyTwiceIsNever(r: Room, a: Account, accounts: Accounts, now: int, later: int)
    requires r.phase == Waiting
    requires !CanStart(r.(ready := r.ready + {a})) && !CanStart(r)
    ensures HandleReady(HandleReady(r, a, accounts, now), a, accounts, later) ==
      r.(log := r.log + [ReadyToggled(a)] + [ReadyToggled(a)])
  {
    if a in r.ready {
      assert r.ready + {a} == r.ready && r.ready - {a} + {a} == r.ready;
      assert |r.ready - {a}| == |r.ready| - 1;
    } else {
      assert r.ready + {a} - {a} == r.ready;
    }
  }
}
