/** The settings are read from a file and checked by nobody. The reconnect guarantee holds for
    exactly those that keep an empty room at least as long as the reconnect window, or under which
    there is nothing to guarantee. */
module ReconnectWindow {
  import opened RoomModel
  import opened RoomHistory
  import opened World
  import opened WorldSafety
  import opened WorldTheorems
  import opened SmallRooms
  import opened Stories

  /** On every run, whoever is owed a slot is found in that room until the window has passed. */
  ghost predicate GuaranteeHolds(cfg: Config) {
    forall start: int, events: seq<Event>, room: RoomId, a: Account ::
      0 < start && Owes(start, events, cfg, room, a) ==> CanFindReconnect(Run(start, events, cfg), a, room)
  }

  ghost predicate Owes(start: int, events: seq<Event>, cfg: Config, room: RoomId, a: Account) {
    var w := Run(start, events, cfg);
    Existed(w, room) && a in Owed(History(w, room)) && w.now - Owed(History(w, room))[a] <= cfg.window
  }

  // ----- the story of two players -----

  /** The first player leaves the game, the second leaves the result screen, at one and the same
      time: the room is empty from then on, and owes the first player a slot. */
  lemma TwoLeave(start: int, cfg: Config) returns (t: Story, r: Room)
    requires 0 < start && 2 <= cfg.maxPlayers
    ensures Told(t, start, cfg) && Solo(t.w, start, r, map[], TwoAccounts())
    ensures r.emptySince == start && r.members == {}
    ensures "a" in Owed(r.log) && Owed(r.log)["a"] == start
  {
    t, r := FirstLeaves(start, cfg);
    t, r := NextRequest(t, LeaveRequest(2), Leave(2), r, map[2 := 0], TwoAccounts(), start, cfg);
    t, r := NextFlush(t, r, map[2 := 0], TwoAccounts(), start, cfg);
    Snoc(r.log, Departed(2, "b", false, start));
    t, r := NextJob(t, 0, r, map[2 := 0], TwoAccounts(), start, cfg);
    assert map[2 := 0] - {2} == map[];
  }

  /** Then the collector comes before the window has passed. */
  lemma SlotLost(start: int, cfg: Config) returns (events: seq<Event>)
    requires 0 < start && 2 <= cfg.maxPlayers && 0 <= cfg.window && cfg.idleMs < cfg.window
    ensures Real(start, events, cfg)
    ensures Owes(start, events, cfg, 0, "a") && !HasReconnect(Run(start, events, cfg), "a")
  {
    var t, r := TwoLeave(start, cfg);
    var ms := if cfg.idleMs < 0 then 0 else cfg.idleMs + 1;
    t := Next(t, Tick(ms), start, cfg);
    assert Solo(t.w, start + ms, r, map[], TwoAccounts());
    var w := t.w;
    t := Next(t, CollectIdle, start, cfg);
    assert Idle(w, 0, cfg);
    assert t.w.rooms == map[] && 0 in t.w.collected && t.w.collected[0] == r;
    events := t.events;
  }

  lemma NothingIsOwed(start: int, events: seq<Event>, cfg: Config, room: RoomId, a: Account)
    requires 0 < start && (cfg.maxPlayers < 2 || cfg.window < 0)
    ensures !Owes(start, events, cfg, room, a)
  {
    var w := Run(start, events, cfg);
    if Existed(w, room) {
      if cfg.maxPlayers < 2 {
        RunSmall(start, events, cfg);
        NobodyOwed(History(w, room));
      } else {
        EveryRoomHolds(start, events, cfg, room);
      }
    }
  }

  lemma GuaranteeKept(start: int, events: seq<Event>, cfg: Config, room: RoomId, a: Account)
    requires 0 < start && cfg.window <= cfg.idleMs && Owes(start, events, cfg, room, a)
    ensures CanFindReconnect(Run(start, events, cfg), a, room)
  {
    RunKeeps(start, events, cfg);
  }

  /** The reconnect guarantee holds if and only if empty rooms are kept at least as long as the
      reconnect window, or the window is negative, or rooms are too small for a game. */
  lemma GuaranteeHoldsExactly(cfg: Config)
    ensures GuaranteeHolds(cfg) <==> cfg.window <= cfg.idleMs || cfg.window < 0 || cfg.maxPlayers < 2
  {
    if cfg.window <= cfg.idleMs || cfg.window < 0 || cfg.maxPlayers < 2 {
      forall start: int, events: seq<Event>, room: RoomId, a: Account | 0 < start && Owes(start, events, cfg, room, a)
        ensures CanFindReconnect(Run(start, events, cfg), a, room)
      {
        if cfg.window < 0 || cfg.maxPlayers < 2 {
          NothingIsOwed(start, events, cfg, room, a);
        } else {
          GuaranteeKept(start, events, cfg, room, a);
        }
      }
    } else {
      var events := SlotLost(1, cfg);
      assert !CanFindReconnect(Run(1, events, cfg), "a", 0);
    }
  }
}
