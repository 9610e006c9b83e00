/** Which rooms the idle-room collector removes, told from their histories alone. */
module IdleRooms {
  import opened RoomModel
  import opened World
  import opened WorldSafety
  import opened Occupancy

  predicate IsPlacing(e: Entry) {
    e.Entered? || e.Rejoined? || e.Departed?
  }

  /** Whoever ever came in has departed since. */
  ghost predicate NobodyInside(log: seq<Entry>) {
    forall i :: 0 <= i < |log| && (log[i].Entered? || log[i].Rejoined?) ==> DepartsAfter(log, i)
  }

  ghost predicate DepartsAfter(log: seq<Entry>, i: nat)
    requires i < |log| && IsPlacing(log[i])
  {
    exists j :: i < j < |log| && log[j].Departed? && log[j].session == log[i].session
  }

  /** The last time anybody came or went was a departure at that time. */
  ghost predicate LastWentAt(log: seq<Entry>, t: int) {
    exists i :: 0 <= i < |log| && log[i].Departed? && log[i].at == t && forall j :: i < j < |log| ==> !IsPlacing(log[j])
  }

  /** Somebody was in the room once, nobody is any more, and the last one went more than `idleMs`
      milliseconds ago. */
  ghost predicate LongDeserted(log: seq<Entry>, now: int, idleMs: int) {
    NobodyInside(log) && exists t :: LastWentAt(log, t) && now - t > idleMs
  }

  // ----- what the stamp means -----

  lemma {:induction false} OutMeansDeparted(log: seq<Entry>, i: nat)
    requires i < |log| && (log[i].Entered? || log[i].Rejoined?) && log[i].session !in Inside(log)
    ensures DepartsAfter(log, i)
  {
    var n, s := |log| - 1, log[i].session;
    var e := log[n];
    if e.Departed? && e.session == s {
      assert i < n;
    } else {
      OutMeansDeparted(log[..n], i);
      var j :| i < j < n && log[..n][j].Departed? && log[..n][j].session == s;
      assert log[j].Departed? && log[j].session == s;
    }
  }

  lemma InsideMeansNotDeparted(log: seq<Entry>, s: SessionId)
    requires NobodyInside(log)
    ensures s !in Inside(log)
  {
    forall i, way | 0 <= i < |log| && BringsIn(log[i], s, way) ensures exists j :: i < j < |log| && Places(log[j], s) {
      var j :| i < j < |log| && log[j].Departed? && log[j].session == log[i].session;
      assert Places(log[j], s);
    }
    InsideMeaning(log, s, ByEntry);
    InsideMeaning(log, s, ByRejoin);
  }

  lemma DesertedMeansEmpty(log: seq<Entry>)
    ensures NobodyInside(log) <==> Inside(log) == map[]
  {
    if Inside(log) == map[] {
      forall i | 0 <= i < |log| && (log[i].Entered? || log[i].Rejoined?) ensures DepartsAfter(log, i) {
        OutMeansDeparted(log, i);
      }
    } else if NobodyInside(log) {
      var s :| s in Inside(log);
      InsideMeansNotDeparted(log, s);
    }
  }

  lemma LastWentSnoc(log: seq<Entry>, e: Entry, t: int)
    ensures LastWentAt(log + [e], t) <==> if IsPlacing(e) then e.Departed? && e.at == t else LastWentAt(log, t)
  {
    var all := log + [e];
    if IsPlacing(e) {
      assert all[|log|] == e;
    } else {
      forall i | 0 <= i < |log| && log[i].Departed? && log[i].at == t && forall j :: i < j < |log| ==> !IsPlacing(log[j])
        ensures LastWentAt(all, t)
      {
        assert all[i] == log[i] && forall j :: i < j < |all| ==> !IsPlacing(all[j]);
      }
      if LastWentAt(all, t) {
        var i :| 0 <= i < |all| && all[i].Departed? && all[i].at == t && forall j :: i < j < |all| ==> !IsPlacing(all[j]);
        assert log[i] == all[i] && forall j :: i < j < |log| ==> log[j] == all[j];
      }
    }
  }

  lemma {:induction false} StampMeaning(log: seq<Entry>, t: int)
    requires 0 < t
    ensures Stamp(log) == t <==> Inside(log) == map[] && LastWentAt(log, t)
  {
    if log != [] {
      var n := |log| - 1;
      var e := log[n];
      assert log == log[..n] + [e];
      StampMeaning(log[..n], t);
      LastWentSnoc(log[..n], e, t);
      InsideSnoc(log[..n], e);
    }
  }

  // ----- the collector -----

  lemma CollectableMeaning(r: Room, now: int, idleMs: int)
    requires Fits(r) && 0 < now && forall i :: 0 <= i < |r.log| && r.log[i].Departed? ==> 0 < r.log[i].at
    ensures Collectable(r, now, idleMs) <==> LongDeserted(r.log, now, idleMs)
  {
    DesertedMeansEmpty(r.log);
    if r.emptySince > 0 {
      StampMeaning(r.log, r.emptySince);
    }
    forall t | LastWentAt(r.log, t) ensures 0 < t && (NobodyInside(r.log) ==> Stamp(r.log) == t) {
      StampMeaning(r.log, t);
    }
  }

  /** What the collector does, on every run: of the rooms registered it removes, with their names,
      exactly those that have been deserted for longer than the timeout, and keeps them for the
      record; every other room stays as it is under its name, and nothing else changes. */
  lemma CollectorRemoves(start: int, events: seq<Event>, cfg: Config, room: RoomId)
    requires 0 < start && room in Run(start, events, cfg).rooms
    ensures var w := Run(start, events, cfg); var v := Step(w, CollectIdle, cfg); var r := w.rooms[room];
      if LongDeserted(r.log, w.now, cfg.idleMs) then
        room !in v.rooms && r.name !in v.names && room in v.collected && v.collected[room] == r
      else
        room in v.rooms && v.rooms[room] == r && r.name in v.names && v.names[r.name] == room && room !in v.collected
  {
    var w := Run(start, events, cfg);
    RunRoom(start, events, cfg, room);
    RoomsWithinLimit(start, events, cfg);
    CollectableMeaning(w.rooms[room], w.now, cfg.idleMs);
    RunPointers(start, events, cfg);
    CollectIs(w, room, cfg);
  }

  lemma CollectIs(w: State, room: RoomId, cfg: Config)
    requires NamesGood(w) && room in w.rooms
    ensures var v := Step(w, CollectIdle, cfg); var r := w.rooms[room];
      if Collectable(r, w.now, cfg.idleMs) then
        room !in v.rooms && r.name !in v.names && room in v.collected && v.collected[room] == r
      else
        room in v.rooms && v.rooms[room] == r && r.name in v.names && v.names[r.name] == room && room !in v.collected
  {
  }

  lemma CollectorTouchesNothingElse(w: State, cfg: Config)
    ensures var v := Step(w, CollectIdle, cfg);
      && v == w.(names := v.names, rooms := v.rooms, collected := v.collected)
      && (forall n :: n in v.names ==> n in w.names && v.names[n] == w.names[n])
      && (forall r :: r in v.rooms ==> r in w.rooms)
      && (forall r :: r in w.collected ==> r in v.collected && v.collected[r] == w.collected[r])
      && (forall r :: r in v.collected ==> r in w.collected || r in w.rooms)
  {
  }
}
