/** What a room's history determines: who is owed a reconnect slot, which moves are pending, how
    many games were started, finished and reset; and the room invariant that ties the room's
    fields to it. */
module RoomHistory {
  import opened Collections
  import opened RoomModel

  // ----- replaying the history -----

  function OwedAfter(owed: map<Account, int>, e: Entry): map<Account, int> {
    if e.Departed? && e.midGame then owed[e.account := e.at]
    else if e.Rejoined? then owed - {e.account}
    else owed
  }

  /** Accounts whose latest mid-game departure has not been followed by a rejoin, with its time. */
  function Owed(log: seq<Entry>): map<Account, int> {
    if log == [] then map[] else OwedAfter(Owed(log[..|log| - 1]), log[|log| - 1])
  }

  function UnsentAfter(unsent: map<Account, Position>, e: Entry): map<Account, Position> {
    if e.MoveAccepted? then unsent[e.account := e.position]
    else if e.Departed? then unsent - {e.account}
    else if e.MovesBroadcast? then map[]
    else unsent
  }

  /** The last move accepted from each account since the last broadcast and its last departure. */
  function Unsent(log: seq<Entry>): map<Account, Position> {
    if log == [] then map[] else UnsentAfter(Unsent(log[..|log| - 1]), log[|log| - 1])
  }

  function Toggled(marked: set<Account>, a: Account): set<Account> {
    if a in marked then marked - {a} else marked + {a}
  }

  function MarkedAfter(marked: set<Account>, e: Entry): set<Account> {
    if e.ReadyToggled? then Toggled(marked, e.account)
    else if e.Departed? then marked - {e.account}
    else if e.GameStarted? then {}
    else marked
  }

  /** The accounts that are ready. */
  function Marked(log: seq<Entry>): set<Account> {
    if log == [] then {} else MarkedAfter(Marked(log[..|log| - 1]), log[|log| - 1])
  }

  /** How often the account has toggled since a game last started and it last departed. */
  function Toggles(log: seq<Entry>, a: Account): nat {
    if log == [] then 0
    else
      var e := log[|log| - 1];
      if e.GameStarted? || (e.Departed? && e.account == a) then 0
      else Toggles(log[..|log| - 1], a) + (if e == ReadyToggled(a) then 1 else 0)
  }

  function Starts(log: seq<Entry>): nat {
    if log == [] then 0 else Starts(log[..|log| - 1]) + (if log[|log| - 1].GameStarted? then 1 else 0)
  }

  function Results(log: seq<Entry>): nat {
    if log == [] then 0 else Results(log[..|log| - 1]) + (if log[|log| - 1].GameResult? then 1 else 0)
  }

  function Resets(log: seq<Entry>): nat {
    if log == [] then 0 else Resets(log[..|log| - 1]) + (if log[|log| - 1].BackToWaiting? then 1 else 0)
  }

  function MidGameDepartures(log: seq<Entry>): nat {
    if log == [] then 0
    else MidGameDepartures(log[..|log| - 1]) + (if log[|log| - 1].Departed? && log[|log| - 1].midGame then 1 else 0)
  }

  function ShownAfter(shown: Option<int>, e: Entry): Option<int> {
    if e.GameResult? then Some(e.at) else if e.BackToWaiting? then None else shown
  }

  /** The time of the last result, if the room has not gone back to waiting since. */
  function Shown(log: seq<Entry>): Option<int> {
    if log == [] then None else ShownAfter(Shown(log[..|log| - 1]), log[|log| - 1])
  }

  /** At every moment of the history no more results than starts, no more resets than results,
      and at most one start that has not been followed by its reset. */
  ghost predicate TakesTurns(log: seq<Entry>) {
    forall n :: 0 <= n <= |log| ==> InTurn(log[..n])
  }

  predicate InTurn(log: seq<Entry>) {
    Resets(log) <= Results(log) <= Starts(log) <= Resets(log) + 1
  }

  /** Every reset comes more than five seconds after every earlier result. */
  ghost predicate ScreensLong(log: seq<Entry>) {
    forall i, j :: 0 <= i < j < |log| && log[i].GameResult? && log[j].BackToWaiting? ==>
      log[j].at - log[i].at > FINISHED_MS
  }

  ghost predicate ResultsBefore(log: seq<Entry>, t: int) {
    forall i :: 0 <= i < |log| && log[i].GameResult? ==> log[i].at <= t
  }

  /** Any two starts lie more than five seconds apart. */
  ghost predicate StartsSpaced(log: seq<Entry>) {
    forall i, j :: 0 <= i < j < |log| && log[i].GameStarted? && log[j].GameStarted? ==>
      log[j].at - log[i].at > FINISHED_MS
  }

  ghost predicate StartsBefore(log: seq<Entry>, t: int) {
    forall i :: 0 <= i < |log| && log[i].GameStarted? ==> log[i].at <= t
  }

  lemma Snoc(log: seq<Entry>, e: Entry)
    ensures Owed(log + [e]) == OwedAfter(Owed(log), e)
    ensures Unsent(log + [e]) == UnsentAfter(Unsent(log), e)
    ensures Starts(log + [e]) == Starts(log) + (if e.GameStarted? then 1 else 0)
    ensures Results(log + [e]) == Results(log) + (if e.GameResult? then 1 else 0)
    ensures Resets(log + [e]) == Resets(log) + (if e.BackToWaiting? then 1 else 0)
    ensures MidGameDepartures(log + [e]) == MidGameDepartures(log) + (if e.Departed? && e.midGame then 1 else 0)
    ensures Shown(log + [e]) == ShownAfter(Shown(log), e)
    ensures Marked(log + [e]) == MarkedAfter(Marked(log), e)
  {
    assert (log + [e])[..|log|] == log;
  }

  lemma NothingHappened(log: seq<Entry>)
    requires log == []
    ensures Owed(log) == map[] && Unsent(log) == map[] && Marked(log) == {} && Shown(log) == None
    ensures Starts(log) == Results(log) == Resets(log) == MidGameDepartures(log) == 0 && TakesTurns(log)
  {
    assert forall n :: 0 <= n <= |log| ==> log[..n] == log;
  }

  lemma TurnsSnoc(log: seq<Entry>, e: Entry)
    requires TakesTurns(log) && InTurn(log + [e])
    ensures TakesTurns(log + [e])
  {
    forall n | 0 <= n <= |log + [e]| ensures InTurn((log + [e])[..n]) {
      if n <= |log| {
        assert (log + [e])[..n] == log[..n];
      } else {
        assert (log + [e])[..n] == log + [e];
      }
    }
  }

  /** Whoever has asked an odd number of times is ready. */
  lemma {:induction false} MarkedMeaning(log: seq<Entry>, a: Account)
    ensures a in Marked(log) <==> Toggles(log, a) % 2 == 1
  {
    if log != [] {
      MarkedMeaning(log[..|log| - 1], a);
    }
  }

  /** Shown, said without replaying. */
  lemma {:induction false} ShownMeaning(log: seq<Entry>, t: int)
    ensures Shown(log) == Some(t) <==>
      exists i :: 0 <= i < |log| && ResultAt(log[i], t) && forall j :: i < j < |log| ==> !SupersedesResult(log[j])
  {
    if log != [] {
      var n := |log| - 1;
      ShownMeaning(log[..n], t);
      if Shown(log) == Some(t) {
        if !ResultAt(log[n], t) {
          var i :| 0 <= i < n && ResultAt(log[..n][i], t) && forall j :: i < j < n ==> !SupersedesResult(log[..n][j]);
          assert ResultAt(log[i], t) && forall j :: i < j < |log| ==> !SupersedesResult(log[j]);
        }
      }
    }
  }

  predicate ResultAt(e: Entry, t: int) {
    e.GameResult? && e.at == t
  }

  predicate SupersedesResult(e: Entry) {
    e.GameResult? || e.BackToWaiting?
  }

  /** Unsent, said without replaying. */
  lemma {:induction false} UnsentMeaning(log: seq<Entry>, a: Account, p: Position)
    ensures a in Unsent(log) && Unsent(log)[a] == p <==>
      exists i :: 0 <= i < |log| && log[i] == MoveAccepted(a, p) && forall j :: i < j < |log| ==> !SupersedesMove(log[j], a)
  {
    if log != [] {
      var n := |log| - 1;
      UnsentMeaning(log[..n], a, p);
      if a in Unsent(log) && Unsent(log)[a] == p {
        if log[n] != MoveAccepted(a, p) {
          var i :| 0 <= i < n && log[..n][i] == MoveAccepted(a, p) && forall j :: i < j < n ==> !SupersedesMove(log[..n][j], a);
          assert log[i] == MoveAccepted(a, p) && forall j :: i < j < |log| ==> !SupersedesMove(log[j], a);
        }
      }
    }
  }

  /** `moves` holds, for each account, its last move in the history that has neither been
      broadcast nor been followed by the account's departure, and nothing else. */
  ghost predicate AreLastMoves(moves: map<Account, Position>, log: seq<Entry>) {
    forall a, p :: (a in moves && moves[a] == p) <==>
      exists i :: 0 <= i < |log| && log[i] == MoveAccepted(a, p) && forall j :: i < j < |log| ==> !SupersedesMove(log[j], a)
  }

  lemma UnsentAreLastMoves(log: seq<Entry>)
    ensures AreLastMoves(Unsent(log), log)
  {
    forall a, p
      ensures (a in Unsent(log) && Unsent(log)[a] == p) <==>
        exists i :: 0 <= i < |log| && log[i] == MoveAccepted(a, p) && forall j :: i < j < |log| ==> !SupersedesMove(log[j], a)
    {
      UnsentMeaning(log, a, p);
    }
  }

  predicate SupersedesMove(e: Entry, a: Account) {
    (e.MoveAccepted? && e.account == a) || (e.Departed? && e.account == a) || e.MovesBroadcast?
  }

  /** Owed, said without replaying. */
  lemma {:induction false} OwedMeaning(log: seq<Entry>, a: Account, t: int)
    ensures a in Owed(log) && Owed(log)[a] == t <==>
      exists i :: 0 <= i < |log| && MidGameDeparture(log[i], a, t) && forall j :: i < j < |log| ==> !SupersedesSlot(log[j], a)
  {
    if log != [] {
      var n := |log| - 1;
      OwedMeaning(log[..n], a, t);
      if a in Owed(log) && Owed(log)[a] == t {
        if !MidGameDeparture(log[n], a, t) {
          var i :| 0 <= i < n && MidGameDeparture(log[..n][i], a, t) && forall j :: i < j < n ==> !SupersedesSlot(log[..n][j], a);
          assert MidGameDeparture(log[i], a, t) && forall j :: i < j < |log| ==> !SupersedesSlot(log[j], a);
        }
      }
    }
  }

  predicate MidGameDeparture(e: Entry, a: Account, t: int) {
    e.Departed? && e.midGame && e.account == a && e.at == t
  }

  predicate SupersedesSlot(e: Entry, a: Account) {
    (e.Departed? && e.account == a && e.midGame) || (e.Rejoined? && e.account == a)
  }
}
