/** What the relation between pictures comes to for the events that matter most, one at a time. */
module Effects {
  import opened Lists
  import opened Mods
  import opened MatchTypes
  import opened Entities
  import opened MatchHandlers
  import opened Pictures
  import opened Outcomes
  import Scrim

  /** Different sessions online have different ids. */
  ghost predicate IdsDiffer(a: Picture) {
    NoDup(a.online) && forall p, q | p in a.online && q in a.online && p.id == q.id :: p == q
  }

  /** A session comes online exactly if it is admitted and nobody is, or whoever is under its id is stale; it is then the only one. */
  lemma LogInDoes(p: Player, stale: bool, admitted: bool, a: Picture, b: Picture)
    requires EventDone(LogIn(p, stale, admitted), a, b) && p !in a.online && IdsDiffer(a)
    ensures p in b.online <==> admitted && (stale || forall q <- a.online :: q.id != p.id)
    ensures p in b.online ==> forall q <- b.online :: q.id == p.id ==> q == p
    ensures forall q <- a.online | q.id != p.id :: q in b.online
  {
    hide HasLeft, OutOf, RequestDone, LateDone, ActsLate;
    if q :| q in a.online && q.id == p.id && stale {
      var rest := Drop(a.online, q);
      assert b.online == rest || b.online == rest + [p];
      assert q !in rest;
    }
  }

  /** Whoever is silenced is in no match, and everybody else where they were. */
  lemma SilenceDoes(target: Player, a: Picture, b: Picture)
    requires EventDone(Silence(target), a, b) && target in a.online && target in a.rooms
    ensures b.rooms == a.rooms[target := null] && b.online == a.online && b.watching == a.watching
  {
  }

  /** Settings that go on set the map, and the team type unless there is a scrim. */
  lemma ResumedDoes(p: Player, data: Settings, known: Option<int>, m: Match, a: Picture, b: Picture)
    requires EventDone(Resumed(p, data, known), a, b) && p in a.rooms && a.rooms[p] == m
    ensures m in b.tables && b.tables[m].state.mapId == match known { case Some(id) => id case None => data.mapId }
    ensures a.tables[m].state.books.on ==> b.tables[m].state.teamType == a.tables[m].state.teamType && b.slots == a.slots
    ensures !a.tables[m].state.books.on && known.Some? && data.teamType in {0, 1, 2, 3} ==> b.tables[m].state.teamType.Value() == data.teamType
    ensures b.tables == a.tables[m := b.tables[m]] && b.tables[m].state.books == a.tables[m].state.books
  {
    if a.tables[m].state.books.on { assert b.slots == a.slots; }
  }

  lemma PickedDoes(cell: nat, mapId: int, mods: Mods, m: Match, a: Picture, b: Picture)
    requires EventDone(Picked(cell, mapId, mods), a, b) && cell < |a.cells| && a.cells[cell] == m
    ensures m in b.tables && b.tables == a.tables[m := b.tables[m]]
    ensures b.tables[m] == a.tables[m].(state := a.tables[m].state.(mapId := mapId, mods := mods, freemods := false))
    ensures a.tables[m].state.freemods ==> forall s <- m.slots :: s in b.slots && b.slots[s].mods == NOMOD
  {
  }

  /** Timely scores settle the books, and they do nothing else. */
  lemma ScoredDoes(cell: nat, scores: Scrim.Scores, m: Match, a: Picture, b: Picture)
    requires EventDone(Scored(cell, scores), a, b) && cell < |a.cells| && a.cells[cell] == m
    ensures m in b.tables && b.tables == a.tables[m := b.tables[m]] && b.rooms == a.rooms && b.slots == a.slots
    ensures var x, y := a.tables[m].state, b.tables[m].state;
      x.books.on && (forall k: nat | Scrim.Leads(scores, k) :: Scrim.IsSide(x.teamType, scores[k].0)) ==>
        Scrim.Settled(scores, x.teamType, x.books, y.books)
  {
    hide RequestDone, LoginDone, Scrim.Settled, Fits, Scrim.Harmless, Scrim.Leads, Scrim.IsSide;
    var x := a.tables[m].state;
    if x.books.on && forall k: nat | k < |scores| && Scrim.Leads(scores, k) :: Scrim.IsSide(x.teamType, scores[k].0) { FairIsTimely(x.books, scores, x.teamType); }
    assert b.slots == a.slots;
  }

  lemma FairIsTimely(l: Scrim.Ledger, scores: Scrim.Scores, teamType: MatchTeamTypes)
    requires l.on && forall k: nat | k < |scores| && Scrim.Leads(scores, k) :: Scrim.IsSide(teamType, scores[k].0)
    ensures Scrim.Harmless(l, scores, Fits(teamType, scores))
  {
    hide Scrim.Leads, Scrim.IsSide, Fits, Scrim.Leader, Scrim.Tied, Scrim.PointsOf;
    if scores != [] && !Scrim.Tied(scores) {
      Scrim.LeaderLeads(scores);
      WhoFits(teamType, scores);
    }
  }

  // requests

  /** Whoever logs out is not online, in no match and nowhere else. */
  lemma QuitDoes(p: Player, a: Picture, b: Picture)
    requires EventDone(From(p, Request.Quit(false)), a, b) && NoDup(a.online) && forall c | c in a.members :: NoDup(a.members[c])
    ensures p !in b.online && p in b.rooms && b.rooms[p] == null && p in b.watching && b.watching[p] == null
    ensures forall c | c in b.members :: p !in b.members[c]
    ensures forall q <- a.online | q != p :: q in b.online
    ensures forall q | q in a.rooms && q != p :: q in b.rooms && b.rooms[q] == a.rooms[q]
  {
    hide Vacant, IsFirst, OnlySlots, OnlyTable, LoginDone, LateDone, ActsLate;
  }

  /** The password, a seat and a public place are all it takes to join; without them nothing happens. */
  lemma EnterDoes(p: Player, id: nat, passwd: string, m: Match, a: Picture, b: Picture)
    requires EventDone(From(p, EnterMatch(id, passwd, false)), a, b)
    requires id < |a.cells| && a.cells[id] == m && m in a.tables && forall s <- m.slots :: s in a.slots
    ensures p in a.rooms && p in b.rooms
    ensures p in a.online && a.rooms[p] == null && 0 in p.priv && a.tables[m].state.passwd == passwd && (exists s <- m.slots :: a.slots[s].status == Open)
      ==> b.rooms[p] == m && exists s <- m.slots :: s in b.slots && b.slots[s].player == p && b.slots[s].status == NotReady && a.slots[s].status == Open
    ensures a.tables[m].state.passwd != passwd && p.priv * {12, 13, 14} == {} ==> b == a
    ensures 0 !in p.priv || a.rooms[p] != null || p !in a.online ==> b == a
  {
    hide LoginDone, LateDone, ActsLate, OutOf, RoomDone, LoggedOut;
    assert forall i | i in {12, 13, 14} && i in p.priv :: i in p.priv * {12, 13, 14};
    assert ById(a.cells, id) == m;
  }

  /** Watching somebody who is online, and nobody else from then on. */
  lemma SpectateDoes(p: Player, h: Player, a: Picture, b: Picture)
    requires EventDone(From(p, Spectate(h.id)), a, b) && IdsDiffer(a) && p in a.online && h in a.online && h != p && 0 in p.priv
    ensures b == a.(watching := a.watching[p := h])
  {
    hide LoginDone, LateDone, ActsLate, RoomDone, LoggedOut;
  }

  /** Only the host starts the play, with everybody who has the map; whoever runs the match ends it, and nobody plays. */
  lemma PlayDoes(p: Player, m: Match, start: bool, a: Picture, b: Picture)
    requires EventDone(From(p, InRoom(Act(if start then Begin else Abort))), a, b)
    requires p in a.rooms && a.rooms[p] == m && 0 in p.priv && m in a.tables && forall s <- m.slots :: s in a.slots && s in b.slots
    ensures m in b.tables
    ensures start && p == a.tables[m].host ==> b.tables[m].state.inProgress && forall s <- m.slots ::
      b.slots[s].status == if a.slots[s].player != null && a.slots[s].status != NoMap then Playing else a.slots[s].status
    ensures !start && (p == a.tables[m].host || p in a.tables[m].referees || 10 in p.priv) && a.tables[m].state.inProgress ==>
      !b.tables[m].state.inProgress && forall s <- m.slots :: b.slots[s].status == if a.slots[s].status == Playing then NotReady else a.slots[s].status
    ensures if start then p != a.tables[m].host ==> b == a
            else p != a.tables[m].host && p !in a.tables[m].referees && 10 !in p.priv ==> b == a
  {
    hide LoginDone, LateDone, ActsLate, LoggedOut, MatchAfterMods, SlotAfterMods, MatchAfterScrim, SlotAfterScrim, SlotAfterMove;
    hide Parts, Moves, GivesHost, MakesHost, AddsReferee, RemovesReferee, Forces;
  }

  /** Whoever runs the match can switch freemods: the players get what is not for all, or all get what the host has. */
  lemma FreemodsDo(p: Player, m: Match, on: bool, a: Picture, b: Picture)
    requires EventDone(From(p, InRoom(Act(Freemods(on)))), a, b)
    requires p in a.rooms && a.rooms[p] == m && 0 in p.priv && m in a.tables && p == a.tables[m].host && forall s <- m.slots :: s in a.slots && s in b.slots
    ensures m in b.tables && b.tables[m].state.freemods == on
    ensures var x, y := a.tables[m].state, b.tables[m].state;
      // 6, 8 and 9 are double time, half time and nightcore
      if on then y.mods == x.mods * {6, 8, 9} && forall s <- m.slots :: b.slots[s].mods == if a.slots[s].player != null then x.mods - {6, 8, 9} else {}
      else (forall s <- m.slots :: b.slots[s].mods == {}) && exists s <- m.slots :: a.slots[s].player == p && y.mods == x.mods * {6, 8, 9} + a.slots[s].mods
  {
    hide LoginDone, LateDone, ActsLate, LoggedOut, MatchAfterPlay, SlotAfterPlay, MatchAfterScrim, SlotAfterScrim, SlotAfterMove;
    hide Parts, Moves, GivesHost, MakesHost, AddsReferee, RemovesReferee, Forces;
  }

  /** Open slots are locked, or locked ones opened; a command that would open one with a player in it is left aside. */
  lemma LocksDo(p: Player, m: Match, on: bool, a: Picture, b: Picture)
    requires EventDone(From(p, InRoom(Act(if on then LockAll else UnlockAll))), a, b)
    requires p in a.rooms && a.rooms[p] == m && 0 in p.priv && m in a.tables && p == a.tables[m].host && forall s <- m.slots :: s in a.slots && s in b.slots
    ensures on ==> forall s <- m.slots :: b.slots[s] == a.slots[s].(status := if a.slots[s].status == Open then Locked else a.slots[s].status)
    ensures !on && (forall s <- m.slots :: a.slots[s].status == Locked ==> a.slots[s].player == null) ==>
      forall s <- m.slots :: b.slots[s] == a.slots[s].(status := if a.slots[s].status == Locked then Open else a.slots[s].status)
    ensures b.tables == a.tables
  {
    hide LoginDone, LateDone, ActsLate, LoggedOut, MatchAfterPlay, SlotAfterPlay, MatchAfterScrim, SlotAfterScrim, MatchAfterMods, SlotAfterMods;
    hide Parts, Moves, GivesHost, MakesHost, AddsReferee, RemovesReferee, Forces;
  }

  /** A scrim begins with empty books or what a new team type left of them, and is over with empty ones. */
  lemma ScrimDoes(p: Player, m: Match, bestOf: nat, start: bool, a: Picture, b: Picture)
    requires EventDone(From(p, InRoom(Act(if start then StartScrim(bestOf) else StopScrim))), a, b)
    requires p in a.rooms && a.rooms[p] == m && 0 in p.priv && m in a.tables && p == a.tables[m].host && forall s <- m.slots :: s in a.slots && s in b.slots
    ensures m in b.tables && b.slots == a.slots
    ensures var x, y := a.tables[m].state.books, b.tables[m].state.books;
      if start then if !x.on && bestOf < 16 && bestOf % 2 == 1 then y == x.(on := true, target := bestOf / 2 + 1) else y == x
      else if x.on then !y.on && y.points == map[] && y.winners == [] && b.tables[m].state.bans == {} else b == a
  {
    hide LoginDone, LateDone, ActsLate, LoggedOut, MatchAfterPlay, SlotAfterPlay, SlotAfterMove, MatchAfterMods, SlotAfterMods;
    hide Parts, Moves, GivesHost, MakesHost, AddsReferee, RemovesReferee, Forces, CreateDone, EnterDone, SpectateDone, OpenDone, CloseDone;
    assert b.slots == a.slots;
  }
}
