/** The handlers of module Server once more, with everything that can be seen of what they do. */
module Views {
  import opened Lists
  import opened Mods
  import opened MatchTypes
  import opened Entities
  import opened MatchHandlers
  import opened Sessions
  import opened Pictures
  import opened Outcomes
  import opened Server
  import Scrim

  lemma MatchIsKnown(w: Sessions, m: Match)
    requires w.Valid() && m in w.allMatches
    ensures m.chat in w.allChannels && |m.slots| == 16 && forall i | 0 <= i < |m.slots| :: m.slots[i] in w.allSlots
    ensures w.Live(m) ==> m.hostPlayer != null && m.Layout()
  {
  }

  lemma MomentShows(w: Sessions, p: Player, m: Match, host: Player)
    requires m in w.allMatches && (forall s <- m.slots :: s in w.allSlots) && m.Seated(host)
    ensures IsMoment(Before(m, p, host), p, m, host, Pic(w))
    ensures forall s <- m.slots :: s in m.Contents() && s in Pic(w).slots && m.Contents()[s] == Pic(w).slots[s]
  {
    hide Match.State;
    assert host.seat in m.slots && Pic(w).slots[host.seat].player == host;
  }

  lemma ProperShows(w: Sessions, p: Player, m: Match, host: Player, c: Command)
    requires m in w.allMatches && m.Layout() && forall s <- m.slots :: s in w.allSlots
    ensures Proper(m, p, host, c) <==> !Improper(p, m, host, c, Pic(w).slots)
  {
    hide Match.State, Tables, Rooms, Watching, InLobby, Members;
  }

  lemma ActsShows(w: Sessions, p: Player, m: Match, host: Player, c: Command, now: Moment, slots: map<Slot, SlotState>, a: Picture)
    requires m in w.allMatches && m in a.tables && a.tables[m].host == host && (forall s <- m.slots :: s in w.allSlots)
    requires forall s <- m.slots :: s in slots && s in a.slots && slots[s] == a.slots[s]
    requires Acted(m, p, host, c, now, slots) && IsMoment(now, p, m, host, a) && OnlyInside(m, a, Pic(w)) && !Improper(p, m, host, c, a.slots)
    ensures Acts(p, m, c, a, Pic(w))
  {
    hide IsMoment, OnlyInside, Improper, MatchAfter, SlotAfter, Match.State, Slot.State, Rooms, Watching, InLobby, Members;
  }

  /** InMatch changes nothing that can be seen but what goes on in the match. */
  method InMatchSeen(w: Sessions, p: Player, m: Match, host: Player, c: Command)
    requires w.Valid() && p in w.players && p.room == m && m in w.allMatches && forall s <- m.slots :: s in w.allSlots
    requires host == m.hostPlayer && Proper(m, p, host, c)
    modifies m`inProgress, m`isScrimming, m`matchPoints, m`winners, m`bans, m`winningPts
    modifies m`freemods, m`mods, m`mapId, m`prevMapId, m`teamType
    modifies m.slots`status, m.slots`team, m.slots`mods, m.slots`loaded, m.slots`skipped
    ensures w.Valid()
    ensures Acted(m, p, host, c, old(Before(m, p, host)), old(m.Contents()))
    ensures OnlyInside(m, old(Pic(w)), Pic(w))
  {
    hide *;
    Components(w);
    Shows(w);
    TableShows(w, m);
    ghost var a := Pic(w);
    InMatch(w, p, m, host, c);
    OnlyInsideShows(w, m, a);
  }

  lemma OnlyInsideShows(w: Sessions, m: Match, a: Picture)
    requires m in w.allMatches && w.allMatches == a.tables.Keys && w.allSlots == a.slots.Keys && forall s <- m.slots :: s in w.allSlots
    requires w.players == a.online && w.matches == a.cells && Rooms(w) == a.rooms && Watching(w) == a.watching
    requires InLobby(w) == a.inLobby && Members(w) == a.members
    requires forall n | n in w.allMatches && n != m :: TableOf(n) == a.tables[n]
    requires forall s | s in w.allSlots && s !in m.slots :: s.State() == a.slots[s]
    requires m.hostPlayer == a.tables[m].host && m.referees == a.tables[m].referees
    ensures OnlyInside(m, a, Pic(w))
  {
    hide Match.State, Slot.State, Rooms, Watching, InLobby, Members;
  }

  lemma TableShows(w: Sessions, m: Match)
    requires m in w.allMatches
    ensures m in Pic(w).tables && Pic(w).tables[m].host == m.hostPlayer && Pic(w).tables[m].referees == m.referees
    ensures Pic(w).tables[m].state == m.State()
  {
  }

  lemma NoAct(w: Sessions, p: Player, m: Match, host: Player, c: Command)
    requires m in w.allMatches && m.hostPlayer == host && forall s <- m.slots :: s in w.allSlots
    requires Improper(p, m, host, c, Pic(w).slots)
    ensures Acts(p, m, c, Pic(w), Pic(w))
  {
    hide Improper;
  }

  /** m has another host or other referees, and that is all. */
  lemma OfficesShow(w: Sessions, m: Match, a: Picture)
    requires m in w.allMatches && w.allMatches == a.tables.Keys && TableOf(m).state == a.tables[m].state
    requires w.players == a.online && w.matches == a.cells && Rooms(w) == a.rooms && Watching(w) == a.watching
    requires InLobby(w) == a.inLobby && Members(w) == a.members && Slots(w) == a.slots
    requires forall n | n in w.allMatches && n != m :: TableOf(n) == a.tables[n]
    ensures Pic(w) == a.(tables := a.tables[m := Table(m.hostPlayer, m.referees, a.tables[m].state)])
    ensures m.referees == a.tables[m].referees ==> IsHosted(m, m.hostPlayer, a, Pic(w))
    ensures m.hostPlayer == a.tables[m].host ==> IsRefereed(m, m.referees, a, Pic(w))
    ensures m.hostPlayer == a.tables[m].host && m.referees == a.tables[m].referees ==> Pic(w) == a
  {
    hide Match.State, Rooms, Watching, InLobby, Members, Tables, Slots, Pic;
    OneTable(w, m, a.tables);
    Composed(w, a.(tables := a.tables[m := Table(m.hostPlayer, m.referees, a.tables[m].state)]));
    if m.hostPlayer == a.tables[m].host && m.referees == a.tables[m].referees { assert a.tables[m := a.tables[m]] == a.tables; }
  }

  /** Who sits where, as seen. */
  lemma SeatsShow(w: Sessions, m: Match)
    requires m in w.allMatches && forall s <- m.slots :: s in w.allSlots
    ensures m in Pic(w).tables && Pic(w).tables[m] == Table(m.hostPlayer, m.referees, m.State())
    ensures forall s <- m.slots :: s in Pic(w).slots && Pic(w).slots[s].player == s.player && Pic(w).slots[s].status == s.status
  {
    hide Match.State;
  }

  /** MatchTransferHost. */
  method TransferHostSeen(w: Sessions, p: Player, m: Match, slotId: int)
    requires w.Valid() && m in w.allMatches && w.Live(m)
    modifies m`hostId, m`hostPlayer
    ensures w.Valid()
    ensures GivesHost(p, m, slotId, old(Pic(w)), Pic(w))
  {
    hide Sessions.Valid, Sessions.Live, Match.State, TableOf, Rooms, Watching, InLobby, Members, Tables, Slots, Pic, IsHosted;
    SlotsAreKnown(w, m);
    Components(w);
    Shows(w);
    SeatsShow(w, m);
    ghost var a := Pic(w);
    TransferHost(w, p, m, slotId);
    TableStill(m);
    OfficesShow(w, m, a);
  }

  lemma TableStill(m: Match)
    ensures TableOf(m) == Table(m.hostPlayer, m.referees, m.State())
  {
  }

  /** mp_host. */
  method MpHostSeen(w: Sessions, m: Match, target: Player?)
    requires w.Valid() && m in w.allMatches && w.Live(m)
    modifies m`hostId, m`hostPlayer
    ensures w.Valid()
    ensures MakesHost(m, target, old(Pic(w)), Pic(w))
  {
    hide Sessions.Valid, Sessions.Live, Match.State, TableOf, Rooms, Watching, InLobby, Members, Tables, Slots, Pic, IsHosted;
    SlotsAreKnown(w, m);
    Components(w);
    Shows(w);
    SeatsShow(w, m);
    ghost var a := Pic(w);
    MpHost(w, m, target);
    TableStill(m);
    OfficesShow(w, m, a);
  }

  /** mp_addref. */
  method MpAddRefSeen(w: Sessions, m: Match, target: Player?)
    requires w.Valid() && m in w.allMatches && w.Live(m)
    modifies m`referees
    ensures w.Valid()
    ensures AddsReferee(m, target, old(Pic(w)), Pic(w))
  {
    hide Sessions.Valid, Sessions.Live, Match.State, TableOf, Rooms, Watching, InLobby, Members, Tables, Slots, Pic, IsRefereed;
    SlotsAreKnown(w, m);
    Components(w);
    Shows(w);
    SeatsShow(w, m);
    ghost var a := Pic(w);
    MpAddRef(w, m, target);
    TableStill(m);
    OfficesShow(w, m, a);
  }

  /** mp_rmref. */
  method MpRmRefSeen(w: Sessions, m: Match, target: Player?)
    requires w.Valid() && m in w.allMatches && w.Live(m)
    modifies m`referees
    ensures w.Valid()
    ensures RemovesReferee(m, target, old(Pic(w)), Pic(w))
  {
    hide Sessions.Valid, Sessions.Live, Match.State, TableOf, Rooms, Watching, InLobby, Members, Tables, Slots, Pic, IsRefereed;
    SlotsAreKnown(w, m);
    Components(w);
    Shows(w);
    SeatsShow(w, m);
    ghost var a := Pic(w);
    MpRmRef(w, m, target);
    TableStill(m);
    OfficesShow(w, m, a);
  }

  lemma MovesShow(w: Sessions, p: Player, m: Match, slotId: int, seat: Slot, a: Picture)
    requires m in w.allMatches && (forall s <- m.slots :: s in a.slots) && w.allSlots == a.slots.Keys
    requires w.players == a.online && w.matches == a.cells && Rooms(w) == a.rooms && Watching(w) == a.watching
    requires InLobby(w) == a.inLobby && Members(w) == a.members && Tables(w) == a.tables
    requires 0 <= slotId < 16 && slotId < |m.slots| && a.slots[m.slots[slotId]].status == Open
    requires seat in m.slots && a.slots[seat].player == p && seat != m.slots[slotId] && seat.State() == Vacant(Open)
    requires m.slots[slotId].State() == a.slots[seat].(loaded := a.slots[m.slots[slotId]].loaded, skipped := a.slots[m.slots[slotId]].skipped)
    requires forall s | s in w.allSlots && s != seat && s != m.slots[slotId] :: s.State() == a.slots[s]
    ensures Moves(p, m, slotId, a, Pic(w))
  {
    hide Match.State, Slot.State, Vacant, Rooms, Watching, InLobby, Members, Tables;
  }

  /** MatchChangeSlot. */
  method ChangeSlotSeen(w: Sessions, p: Player, m: Match, slotId: int)
    requires w.Valid() && p in w.players && p.room == m && m in w.allMatches
    modifies p`seat, m.slots
    ensures w.Valid()
    ensures Moves(p, m, slotId, old(Pic(w)), Pic(w))
  {
    hide *;
    SlotsAreKnown(w, m);
    Components(w);
    Shows(w);
    SeatsShow(w, m);
    RoomIsKnown(w, p);
    ghost var a, seat: Slot := Pic(w), p.seat;
    ghost var free := 0 <= slotId < 16 && slotId < |m.slots| && m.slots[slotId].status == Open;
    ChangeSlot(w, p, m, slotId);
    if free { MovesShow(w, p, m, slotId, seat, a); } else { StaysPut(w, p, m, slotId, a); }
  }

  lemma StaysPut(w: Sessions, p: Player, m: Match, slotId: int, a: Picture)
    requires (forall s <- m.slots :: s in a.slots) && !(0 <= slotId < 16 && slotId < |m.slots| && a.slots[m.slots[slotId]].status == Open)
    requires w.players == a.online && w.matches == a.cells && Rooms(w) == a.rooms && Watching(w) == a.watching
    requires InLobby(w) == a.inLobby && Members(w) == a.members && Tables(w) == a.tables
    requires w.allSlots == a.slots.Keys && forall s | s in w.allSlots :: s.State() == a.slots[s]
    ensures Moves(p, m, slotId, a, Pic(w))
  {
    hide Slot.State, Rooms, Watching, InLobby, Members, Tables;
    assert Slots(w) == a.slots;
    hide Slots;
    Composed(w, a);
  }

  lemma PublicChannels(w: Sessions)
    requires w.Valid()
    ensures forall c | c in w.allChannels && c.name.Named? :: c in w.channels
    ensures forall c <- w.channels :: c in w.allChannels
  {
  }

  /** Join, and who is where. */
  method JoinOnly(w: Sessions, p: Player, m: Match, passwd: string) returns (ok: bool)
    requires w.Valid() && p in w.everyone && m in w.allMatches && w.Live(m)
    modifies w`strays
    modifies w`channels, m.chat`players, w.Lobbies()`players, p`channels, p`room, p`seat, m.slots`team, m.slots`status, m.slots`player
    ensures w.Valid() <==> !ok || p in w.players
    ensures ok <==> old(w.MaySit(p, m, passwd)) && !p.Restricted()
    ensures TookSeat(m, p, ok, old(m.Contents()))
    ensures p.room == if ok then m else old(p.room)
    ensures Rooms(w) == if ok then old(Rooms(w))[p := m] else old(Rooms(w))
    ensures Members(w).Keys == old(Members(w)).Keys && forall c | c in Members(w) ::
      Members(w)[c] == if ok && c.name == Named("#lobby") then Drop(old(Members(w)[c]), p) else old(Members(w)[c])
  {
    hide Sessions.Valid, Sessions.MaySit, Sessions.Live, Player.Restricted, Sessions.Lobbies, Slot.State, Taken, Without, TookSeat, Match.Contents;
    PublicChannels(w);
    ChatIsPrivate(w, m);
    ok := Join(w, p, m, passwd);
  }

  /** What join_match checks, in terms of what can be seen. */
  lemma CanJoinShows(w: Sessions, p: Player, m: Match, passwd: string)
    requires w.Valid() && p in w.everyone && m in w.allMatches && w.Live(m)
    ensures p in w.players && w.MaySit(p, m, passwd) && !p.Restricted() <==> CanJoin(p, m, passwd, Pic(w))
  {
    HostIsKnown(w, m);
    SlotsAreKnown(w, m);
    hide Sessions.Valid, Match.State, Watching, InLobby, Members;
    assert !p.Restricted() <==> 0 in p.priv by { if 0 in p.priv { assert 0 in p.priv * UNRESTRICTED; } }
    assert p.Staff() <==> 12 in p.priv || 13 in p.priv || 14 in p.priv by {
      if b :| b in {12, 13, 14} && b in p.priv { assert b in p.priv * STAFF; }
    }
    hide Player.Restricted, Player.Staff;
    assert forall s <- m.slots :: Pic(w).slots[s].status == s.status;
    assert Pic(w).tables[m].state.passwd == m.passwd by { PasswdShows(m); }
  }

  lemma PasswdShows(m: Match)
    ensures m.State().passwd == m.passwd && m.State().teamType == m.teamType
  {
  }

  lemma SitsDownShows(w: Sessions, p: Player, m: Match, slots: map<Slot, SlotState>, a: Picture)
    requires m in w.allMatches && m in a.tables && w.allSlots == a.slots.Keys && a.tables[m].state.teamType == m.teamType
    requires forall s <- m.slots :: s in slots && s in a.slots && slots[s] == a.slots[s]
    requires TookSeat(m, p, true, slots) && forall s | s in w.allSlots && s !in m.slots :: s.State() == a.slots[s]
    requires w.players == a.online && w.matches == a.cells && Watching(w) == a.watching && InLobby(w) == a.inLobby && Tables(w) == a.tables
    requires Rooms(w) == a.rooms[p := m]
    requires Members(w).Keys == a.members.Keys && forall c | c in Members(w) ::
      Members(w)[c] == if c.name == Named("#lobby") then Drop(a.members[c], p) else a.members[c]
    ensures SitsDown(p, m, a, Pic(w))
  {
    hide Slot.State, Rooms, Watching, InLobby, Members, Tables, Drop;
  }

  lemma NobodySitsDown(w: Sessions, p: Player, m: Match, slots: map<Slot, SlotState>, a: Picture)
    requires w.allSlots == a.slots.Keys && forall s <- m.slots :: s in slots && s in a.slots && slots[s] == a.slots[s]
    requires TookSeat(m, p, false, slots) && forall s | s in w.allSlots && s !in m.slots :: s.State() == a.slots[s]
    requires w.players == a.online && w.matches == a.cells && Watching(w) == a.watching && InLobby(w) == a.inLobby && Tables(w) == a.tables
    requires Rooms(w) == a.rooms && Members(w).Keys == a.members.Keys && forall c | c in Members(w) :: Members(w)[c] == a.members[c]
    ensures Pic(w) == a
  {
    hide Slot.State, Rooms, Watching, InLobby, Members, Tables, Pic;
    assert Slots(w) == a.slots && Members(w) == a.members;
    hide Slots;
    Composed(w, a);
  }

  /** join_match, which leaves a state that is not valid if it lets somebody in who is not online. */
  method JoinSeen(w: Sessions, p: Player, m: Match, passwd: string)
    requires w.Valid() && p in w.everyone && m in w.allMatches && w.Live(m)
    modifies w`strays
    modifies w`channels, m.chat`players, w.Lobbies()`players, p`channels, p`room, p`seat, m.slots`team, m.slots`status, m.slots`player
    ensures w.Valid() <==> p in w.players || !old(w.MaySit(p, m, passwd)) || p.Restricted()
    ensures p.room == if old(w.MaySit(p, m, passwd)) && !p.Restricted() then m else old(p.room)
    ensures w.Valid() ==> if CanJoin(p, m, passwd, old(Pic(w))) then SitsDown(p, m, old(Pic(w)), Pic(w)) else Pic(w) == old(Pic(w))
  {
    hide *;
    SlotsAreKnown(w, m);
    Components(w);
    Shows(w);
    TableShows(w, m);
    PasswdShows(m);
    ContentsShow(m);
    CanJoinShows(w, p, m, passwd);
    ghost var a, slots := Pic(w), m.Contents();
    var ok := JoinOnly(w, p, m, passwd);
    if ok && p in w.players { SitsDownShows(w, p, m, slots, a); }
    if !ok { NobodySitsDown(w, p, m, slots, a); }
  }

  lemma OnlyPrivileged(p: Player)
    ensures forall m, passwd, a | CanJoin(p, m, passwd, a) :: 0 in p.priv
  {
  }

  lemma OnlyOnline(w: Sessions)
    ensures forall p, m, passwd | CanJoin(p, m, passwd, Pic(w)) :: p in w.players
  {
  }

  /** The chat of a match is no public channel. */
  lemma ChatIsPrivate(w: Sessions, m: Match)
    requires w.Valid() && m in w.allMatches
    ensures m.chat in w.allChannels && !m.chat.name.Named?
  {
  }

  /** Leave, and who is where. */
  method LeaveOnly(w: Sessions, p: Player, m: Match) returns (done: bool)
    requires w.Valid() && p in w.players && p in w.everyone && p.room == m && m in w.allMatches
    modifies w`channels, w`matches, p`channels, p`room, m.chat`players, m.slots, m`hostId, m`hostPlayer, m`referees
    ensures w.Valid() <==> done
    ensures done <==> old(m.LetsGo(p))
    ensures !done ==> p.room == m && forall s <- m.slots :: s.player != p
    ensures done ==> p.room == null && Rooms(w) == old(Rooms(w))[p := null]
    ensures Members(w) == old(Members(w))
    ensures p.seat == old(p.seat) && p.seat != null && p.seat in m.slots && old(p.seat.player) == p
    ensures p.seat.State() == Vacant(if old(p.seat.status) == Locked then Locked else Open)
    ensures forall s <- m.slots | s != p.seat :: s.State() == old(s.State())
    ensures if forall s <- m.slots :: s.player == null then 0 <= m.id < |old(w.matches)| && w.matches == old(w.matches)[m.id := null]
            else w.matches == old(w.matches) && m.referees == old(m.referees) - {p}
    ensures old(m.hostPlayer) != p ==> m.hostPlayer == old(m.hostPlayer)
    ensures old(m.hostPlayer) == p && w.matches == old(w.matches) ==>
      exists i | 0 <= i < |m.slots| :: m.slots[i].player == m.hostPlayer && forall j | 0 <= j < i :: m.slots[j].player == null
  {
    hide Sessions.Valid, Sessions.Stuck, Match.LetsGo, Without, Vacant;
    ChatIsPrivate(w, m);
    done := Leave(w, p, m);
  }

  lemma HasLeftShows(w: Sessions, p: Player, m: Match, seat: Slot, a: Picture)
    requires m in w.allMatches && m in a.tables && (forall s <- m.slots :: s in w.allSlots && s in a.slots) && seat in m.slots && a.slots[seat].player == p
    requires w.allMatches == a.tables.Keys && w.allSlots == a.slots.Keys && Rooms(w) == a.rooms[p := null]
    requires forall n | n in w.allMatches && n != m :: TableOf(n) == a.tables[n]
    requires forall s | s in w.allSlots && s != seat :: s.State() == a.slots[s]
    requires seat.State() == Vacant(if a.slots[seat].status == Locked then Locked else Open) && m.State() == a.tables[m].state
    requires if forall s <- m.slots :: s.player == null then 0 <= m.id < |a.cells| && w.matches == a.cells[m.id := null]
             else w.matches == a.cells && m.referees == a.tables[m].referees - {p} && m.hostPlayer != null
    requires a.tables[m].host != p ==> m.hostPlayer == a.tables[m].host
    requires a.tables[m].host == p && w.matches == a.cells ==>
      exists i | 0 <= i < |m.slots| :: m.slots[i].player == m.hostPlayer && forall j | 0 <= j < i :: m.slots[j].player == null
    ensures HasLeft(p, m, a, Pic(w))
  {
    hide Match.State, Vacant, Rooms, Watching, InLobby, Members;
  }

  method LeaveHas(w: Sessions, p: Player, m: Match) returns (done: bool)
    requires w.Valid() && p in w.players && p in w.everyone && p.room == m && m in w.allMatches && w.Live(m)
    modifies w`channels, w`matches, p`channels, p`room, m.chat`players, m.slots, m`hostId, m`hostPlayer, m`referees
    ensures w.Valid() <==> done
    ensures done <==> old(m.LetsGo(p))
    ensures !done ==> p.room == m && forall s <- m.slots :: s.player != p
    ensures done ==> p.room == null && Members(w) == old(Members(w)) && HasLeft(p, m, old(Pic(w)), Pic(w))
  {
    hide *;
    SlotsAreKnown(w, m);
    Components(w);
    Shows(w);
    States(m);
    ghost var a := Pic(w);
    done := LeaveOnly(w, p, m);
    if done {
      if exists s <- m.slots :: s.player != null { StillHosted(w, m); }
      HasLeftShows(w, p, m, p.seat, a);
    }
  }

  /** MatchPart, which comes to its end exactly if the match can be sent to those who stay. */
  method LeaveSeen(w: Sessions, p: Player, m: Match) returns (done: bool)
    requires w.Valid() && p in w.players && p in w.everyone && p.room == m && m in w.allMatches && w.Live(m)
    modifies w`channels, w`matches, p`channels, p`room, m.chat`players, m.slots, m`hostId, m`hostPlayer, m`referees
    ensures w.Valid() <==> done
    ensures done <==> old(m.LetsGo(p))
    ensures !done ==> p.room == m && forall s <- m.slots :: s.player != p
    ensures done ==> p.room == null && Outcomes.Parts(p, m, old(Pic(w)), Pic(w))
  {
    hide *;
    Components(w);
    ghost var a := Pic(w);
    done := LeaveHas(w, p, m);
    if done { PartsShows(w, p, m, a); }
  }

  lemma PartsShows(w: Sessions, p: Player, m: Match, a: Picture)
    requires HasLeft(p, m, a, Pic(w))
    requires w.players == a.online && Watching(w) == a.watching && InLobby(w) == a.inLobby && Members(w) == a.members
    ensures Outcomes.Parts(p, m, a, Pic(w))
  {
    hide Watching, InLobby, Members, Rooms, Tables, Slots, HasLeft;
  }

  lemma StillHosted(w: Sessions, m: Match)
    requires w.Valid() && m in w.allMatches && exists s <- m.slots :: s.player != null
    ensures m.hostPlayer != null
  {
    RegisteredWhenOccupied(w, m);
  }

  lemma States(m: Match)
    ensures TableOf(m) == Table(m.hostPlayer, m.referees, m.State())
    ensures forall s <- m.slots :: s.State().player == s.player && s.State().status == s.status
  {
  }

  lemma EverybodyInLobby(w: Sessions)
    ensures InLobby(w).Keys == w.everyone && forall q <- w.everyone :: InLobby(w)[q] == q.inLobby
  {
  }

  lemma LobbyShows(w: Sessions, p: Player, before: map<Player, bool>)
    requires before.Keys == w.everyone && forall q <- w.everyone | q != p :: q.inLobby == before[q]
    requires p in w.everyone
    ensures InLobby(w) == before[p := p.inLobby]
  {
  }

  /** StopSpectating. */
  method StopSeen(w: Sessions, p: Player)
    requires w.Valid() && p in w.everyone
    modifies w`exact, w`channels, w.allChannels`players
    modifies w.everyone`channels, w.everyone`spectators, w.everyone`spectating, w.everyone`booth
    ensures w.Valid() && p.spectating == null && w.exact == old(w.exact)
    ensures forall q <- old(w.everyone) | q != p :: q.spectating == old(q.spectating)
    ensures Pic(w) == old(Pic(w)).(watching := old(Watching(w))[p := null])
  {
    hide *;
    Components(w);
    ghost var a := Pic(w);
    StopOnly(w, p);
    Composed(w, a.(watching := a.watching[p := null]));
  }

  method StopOnly(w: Sessions, p: Player)
    requires w.Valid() && p in w.everyone
    modifies w`exact, w`channels, w.allChannels`players
    modifies w.everyone`channels, w.everyone`spectators, w.everyone`spectating, w.everyone`booth
    ensures w.Valid() && p.spectating == null && w.exact == old(w.exact)
    ensures forall q <- old(w.everyone) | q != p :: q.spectating == old(q.spectating)
    ensures Watching(w) == old(Watching(w))[p := null] && Members(w) == old(Members(w))
  {
    hide Sessions.Valid, Without;
    StopSpectating(w, p);
  }

  /** ChannelJoin. */
  method OpenSeen(w: Sessions, p: Player, name: string)
    requires w.Valid() && p in w.everyone
    modifies w`strays, p`channels, w.channels`players
    ensures w.Valid() <==> p in w.players || forall c <- w.channels | c.name == Named(name) :: !old(w.MayJoin(p, c))
    ensures w.Valid() ==> OpenDone(p, name, old(Pic(w)), Pic(w))
  {
    hide *;
    Components(w);
    PublicChannels(w);
    WatchingShows(w, p);
    MembersShow(w);
    ghost var a := Pic(w);
    MayJoinShows(w, p);
    ChannelJoin(w, p, name);
    MembersShow(w);
    if w.Valid() { OpenShows(w, p, name, a); }
  }

  lemma MayJoinShows(w: Sessions, p: Player)
    requires p in w.everyone
    ensures forall c | c in Public(w.allChannels) :: w.MayJoin(p, c) <==> MayOpen(p, c, Pic(w))
  {
    hide Rooms, Watching, Tables, Slots;
  }

  lemma OpenShows(w: Sessions, p: Player, name: string, a: Picture)
    requires p in a.inLobby && a.members.Keys == Public(w.allChannels)
    requires p in w.players || forall c | c in a.members && c.name == Named(name) :: !MayOpen(p, c, a)
    requires forall c | c in Public(w.allChannels) :: c.players == a.members[c] + if c.name == Named(name) && MayOpen(p, c, a) then [p] else []
    requires w.players == a.online && w.matches == a.cells && Rooms(w) == a.rooms && Watching(w) == a.watching && InLobby(w) == a.inLobby
    requires Tables(w) == a.tables && Slots(w) == a.slots
    ensures OpenDone(p, name, a, Pic(w))
  {
    hide MayOpen, Pic, Rooms, Watching, InLobby, Members, Tables, Slots;
    MembersShow(w);
    Composed(w, a.(members := Members(w)));
    Components(w);
  }

  /** ChannelPart. */
  method CloseSeen(w: Sessions, p: Player, name: string)
    requires w.Valid() && p in w.everyone
    modifies w`channels, p`channels, w.channels`players
    ensures w.Valid()
    ensures CloseDone(p, name, old(Pic(w)), Pic(w))
  {
    hide Sessions.Valid, Pic, Rooms, Watching, InLobby, Members, Tables, Slots, CloseDone, Without;
    Components(w);
    PublicChannels(w);
    MembersShow(w);
    ghost var a := Pic(w);
    ChannelPart(w, p, name);
    CloseShows(w, p, name, a);
  }

  lemma CloseShows(w: Sessions, p: Player, name: string, a: Picture)
    requires a.members.Keys == Public(w.allChannels)
    requires forall c | c in Public(w.allChannels) :: c.players == if c.name == Named(name) then Drop(a.members[c], p) else a.members[c]
    requires w.players == a.online && w.matches == a.cells && Rooms(w) == a.rooms && Watching(w) == a.watching && InLobby(w) == a.inLobby
    requires Tables(w) == a.tables && Slots(w) == a.slots
    ensures CloseDone(p, name, a, Pic(w))
  {
    hide Pic, Rooms, Watching, InLobby, Members, Tables, Slots, Drop;
    MembersShow(w);
    Composed(w, a.(members := Members(w)));
    Components(w);
  }

  ghost function Public(channels: set<Channel>): set<Channel> {
    set c | c in channels && c.name.Named?
  }

  lemma MembersShow(w: Sessions)
    ensures Members(w).Keys == Public(w.allChannels) && forall c | c in Public(w.allChannels) :: Members(w)[c] == c.players
    ensures forall c | c in Public(w.allChannels) :: c in w.allChannels && c.name.Named?
  {
  }

  /** The objects that join the books are new. */
  twostate predicate Grown(w: Sessions)
    reads w
  {
    fresh(w.allChannels - old(w.allChannels)) && fresh(w.allMatches - old(w.allMatches)) && fresh(w.allSlots - old(w.allSlots))
  }

  /** StartSpectating, and who watches whom. */
  method SpectateOnly(w: Sessions, p: Player, targetId: int)
    requires w.Valid() && p in w.everyone && !p.Restricted()
    modifies w`strays, w`exact, w`channels, w`allChannels, w`byName, w.allChannels`players
    modifies w.everyone`channels, w.everyone`spectators, w.everyone`spectating, w.everyone`booth
    ensures w.Valid() <==> p in w.players || forall h <- w.players :: h.id != targetId
    ensures Grown(w)
    ensures forall h | h in old(w.exact) && (h.id != targetId || (h != p && !h.Restricted())) :: h in w.exact
    ensures (forall h <- w.players :: h.id != targetId) ==> p.spectating == old(p.spectating)
    ensures forall h <- w.players | h.id == targetId :: p.spectating == h || (p.spectating == null && h == p)
    ensures Watching(w) == old(Watching(w))[p := p.spectating]
    ensures Members(w) == old(Members(w))
  {
    hide Sessions.Valid, Player.Restricted;
    StartSpectating(w, p, targetId);
  }

  lemma WatchingShows(w: Sessions, p: Player)
    requires p in w.everyone
    ensures p in Watching(w) && Watching(w)[p] == p.spectating && p in Rooms(w) && Rooms(w)[p] == p.room
    ensures p in InLobby(w) && InLobby(w)[p] == p.inLobby
  {
  }

  lemma SpectateShows(w: Sessions, p: Player, targetId: int, a: Picture)
    requires p in a.watching && Watching(w) == a.watching[p := p.spectating] && (p in w.players || forall h <- w.players :: h.id != targetId)
    requires (forall h <- w.players :: h.id != targetId) ==> p.spectating == a.watching[p]
    requires forall h <- w.players | h.id == targetId :: p.spectating == h || (p.spectating == null && h == p)
    requires w.players == a.online && w.matches == a.cells && Rooms(w) == a.rooms && InLobby(w) == a.inLobby && Members(w) == a.members
    requires Tables(w) == a.tables && Slots(w) == a.slots
    ensures SpectateDone(p, targetId, a, Pic(w))
  {
    hide Pic, Rooms, Watching, InLobby, Members, Tables, Slots;
    Composed(w, a.(watching := a.watching[p := p.spectating]));
    if forall h <- w.players :: h.id != targetId { assert a.watching[p := a.watching[p]] == a.watching; }
  }

  lemma PrivateMark(asked: string)
    ensures Unmarked(asked, WithoutSuffix(asked, PRIVATE))
  {
    var passwd := WithoutSuffix(asked, PRIVATE);
    if asked == passwd {
      forall s: string ensures asked != s + "//private" { assert (s + "//private")[|s|..] == "//private"; }
    }
  }

  /** m is new in the registry, on the terms, and p is alone in it. */
  ghost predicate NewIn(w: Sessions, p: Player, m: Match, terms: Terms, cells: seq<Match?>, matches: set<Match>, slots: set<Slot>)
    reads w`matches, w`allMatches, w`allSlots, m, m.slots
  {
    && 0 <= m.id < |cells| && cells[m.id] == null && (forall i | 0 <= i < m.id :: cells[i] != null)
    && w.matches == cells[m.id := m] && m.hostPlayer == p && m.referees == {} && m.seed == terms.seed
    && m.State() == Begun(terms.(passwd := WithoutSuffix(terms.passwd, PRIVATE)))
    && m !in matches && w.allMatches == matches + {m} && w.allSlots == slots + m.SlotSet()
    && |m.slots| == 16 && (forall s <- m.slots :: s !in slots)
    && forall s <- m.slots :: s.State() == if s == m.slots[0] then Occupied(p, terms.teamType) else Vacant(Open)
  }

  /** Create, and what is new. */
  method CreateOnly(w: Sessions, p: Player, data: NewMatch, silenced: bool) returns (m: Match?)
    requires w.Valid() && p in w.everyone
    modifies w`strays
    modifies w`channels, w`byName, w`allChannels, w`allMatches, w`allSlots, w`matches, w.Lobbies()`players, p`channels, p`room, p`seat
    ensures m == null <==>
      || data.terms.hostId != p.id || |data.name| > MAX_MATCH_NAME_LENGTH || p.Restricted() || silenced
      || (forall i | 0 <= i < |old(w.matches)| :: old(w.matches)[i] != null)
    ensures w.Valid() <==> m == null || (p in w.players && old(p.room) == null)
    ensures m == null ==> unchanged(w) && unchanged(p)
    ensures m == null ==> forall c | c in w.allChannels :: c.players == old(c.players)
    ensures m != null ==> m.seed == data.terms.seed && Grown(w) && w.allMatches == old(w.allMatches) + {m}
    ensures m != null && p in w.players && old(p.room) == null ==>
      && NewIn(w, p, m, data.terms, old(w.matches), old(w.allMatches), old(w.allSlots)) && p.room == m
      && w.allChannels == old(w.allChannels) + {m.chat}
      && forall c <- w.channels | c in old(w.channels) :: c.players == if c.name == LOBBY then Drop(old(c.players), p) else old(c.players)
  {
    hide Sessions.Valid, Player.Restricted, Sessions.Lobbies, WithoutSuffix, Match.State, Slot.State, Begun, Vacant, Occupied, Drop, Player.Staff, FreePart;
    m := Create(w, p, data, silenced);
  }

  lemma OpensShows(w: Sessions, p: Player, m: Match, terms: Terms, a: Picture)
    requires NewIn(w, p, m, terms, a.cells, a.tables.Keys, a.slots.Keys)
    requires w.players == a.online && Watching(w) == a.watching && InLobby(w) == a.inLobby && Rooms(w) == a.rooms[p := m]
    requires Members(w).Keys == a.members.Keys
    requires forall c | c in a.members :: Members(w)[c] == if c.name == Named("#lobby") then Drop(a.members[c], p) else a.members[c]
    requires forall n | n in a.tables :: TableOf(n) == a.tables[n]
    requires forall s | s in a.slots :: s.State() == a.slots[s]
    ensures m in Pic(w).tables && Opens(p, m, terms, a, Pic(w))
  {
    PrivateMark(terms.passwd);
    hide Match.State, Slot.State, Begun, Vacant, Occupied, Drop, WithoutSuffix, Unmarked, Rooms, Watching, InLobby, Members;
  }

  /** The creator has gone from the lobby, and the new chat is no public channel. */
  lemma MembersAfter(w: Sessions, p: Player, m: Match, before: map<Channel, seq<Player>>, all: set<Channel>, channels: seq<Channel>)
    requires w.allChannels == all + {m.chat} && !m.chat.name.Named? && before.Keys == Public(all)
    requires forall c | c in Public(all) :: c in channels && c in w.channels
    requires forall c <- w.channels | c in channels && c in Public(all) :: c.players == if c.name == LOBBY then Drop(before[c], p) else before[c]
    ensures Members(w).Keys == before.Keys
    ensures forall c | c in before :: Members(w)[c] == if c.name == Named("#lobby") then Drop(before[c], p) else before[c]
  {
    hide Drop;
  }

  /** The creator is in the new match and nobody has moved. */
  lemma RoomsAfter(w: Sessions, p: Player, m: Match?, before: map<Player, Match?>)
    requires p in w.everyone && before.Keys == w.everyone && p.room == m && forall q <- w.everyone | q != p :: q.room == before[q]
    ensures Rooms(w) == before[p := m]
  {
  }

  lemma RoomsShow(w: Sessions)
    ensures Rooms(w).Keys == w.everyone && forall q <- w.everyone :: Rooms(w)[q] == q.room
  {
  }

  /** MatchCreate, and what can be seen of it if it leaves a valid state. */
  method CreateSeen(w: Sessions, p: Player, data: NewMatch, silenced: bool) returns (m: Match?)
    requires w.Valid() && p in w.everyone
    modifies w`strays
    modifies w`channels, w`byName, w`allChannels, w`allMatches, w`allSlots, w`matches, w.Lobbies()`players, p`channels, p`room, p`seat
    ensures m == null <==>
      || data.terms.hostId != p.id || |data.name| > MAX_MATCH_NAME_LENGTH || p.Restricted() || silenced
      || (forall i | 0 <= i < |old(w.matches)| :: old(w.matches)[i] != null)
    ensures w.Valid() <==> m == null || (p in w.players && old(p.room) == null)
    ensures m == null ==> unchanged(w) && unchanged(p) && Pic(w) == old(Pic(w))
    ensures m != null ==> m.seed == data.terms.seed && Grown(w) && w.allMatches == old(w.allMatches) + {m}
    ensures m != null && w.Valid() ==> m in Pic(w).tables && Opens(p, m, data.terms, old(Pic(w)), Pic(w))
  {
    hide *;
    Components(w);
    Shows(w);
    MembersShow(w);
    RoomsShow(w);
    PublicChannels(w);
    ghost var a, all, channels := Pic(w), w.allChannels, w.channels;
    m := CreateOnly(w, p, data, silenced);
    if m == null { return; }
    if w.Valid() {
      ChatIsPrivate(w, m);
      PublicChannels(w);
      MembersAfter(w, p, m, a.members, all, channels);
      RoomsAfter(w, p, m, a.rooms);
      OpensShows(w, p, m, data.terms, a);
    }
  }

  lemma ActsLateShows(w: Sessions, m: Match, l: Late, slots: map<Slot, SlotState>, a: Picture)
    requires m in w.allMatches && m in a.tables && forall s <- m.slots :: s in w.allSlots
    requires forall s <- m.slots :: s in slots && s in a.slots && slots[s] == a.slots[s]
    requires ActedLate(m, l, a.tables[m].state, slots) && OnlyInside(m, a, Pic(w))
    ensures ActsLate(m, l, a, Pic(w))
  {
    hide OnlyInside, LateEffect, SlotAfterWait, Match.State, Slot.State, Rooms, Watching, InLobby, Members;
  }

  /** What follows a wait, and nothing else. */
  method AfterWaitSeen(w: Sessions, m: Match, l: Late)
    requires w.Valid() && m in w.allMatches && Timely(m, l)
    modifies m`isScrimming, m`matchPoints, m`winners, m`bans, m`freemods, m`mods, m`mapId, m`teamType, m.slots`team, m.slots`mods
    ensures w.Valid()
    ensures ActsLate(m, l, old(Pic(w)), Pic(w))
  {
    hide *;
    SlotsAreKnown(w, m);
    Components(w);
    Shows(w);
    TableShows(w, m);
    ContentsShow(m);
    ghost var a, slots := Pic(w), m.Contents();
    AfterWait(w, m, l);
    OnlyInsideShows(w, m, a);
    ActsLateShows(w, m, l, slots, a);
  }
}
