/**
 What clients ask for and what else happens, and what the server looks like afterwards, as a relation between pictures. That every
 run is like this is shown in Runs.
 */
module Outcomes {
  import opened Lists
  import opened Mods
  import opened MatchTypes
  import opened Entities
  import opened MatchHandlers
  import opened Pictures
  import Scrim

  /** What a player in a match may ask for. Targets are what the lookup of a name among those online has found. */
  datatype RoomRequest =
    | Part
    | ToSlot(slotId: int)
    | Act(command: Command)
    | GiveHost(slotId: int)
    | MakeHost(target: Player?)
    | AddReferee(target: Player?)
    | RemoveReferee(target: Player?)
    | Force(target: Player?)

  /** A logout within a second of the login is ignored. */
  datatype Request =
    | Quit(early: bool)
    | CreateMatch(data: NewMatch, silenced: bool)
    | EnterMatch(matchId: int, passwd: string, silenced: bool)
    | InRoom(ask: RoomRequest)
    | Spectate(targetId: int)
    | StopWatching
    | OpenChannel(name: string)
    | CloseChannel(name: string)
    | Lobby(inside: bool)

  /**
   What happens between two moments at which the server waits. Settings go on for the match that their sender is in by then; a pick
   and the scores of a play for a match that is still in its cell, as nobody can see any other.
   */
  datatype Event =
    | LogIn(session: Player, stale: bool, admitted: bool)
    | From(sender: Player, request: Request)
    | Silence(target: Player)
    | Resumed(sender: Player, data: Settings, known: Option<int>)
    | Picked(cell: nat, mapId: int, mods: Mods)
    | Scored(cell: nat, scores: Scrim.Scores)

  // what goes on in a match

  /** A command that would set another status than packets do, or put a player into an open slot, is left aside. */
  ghost predicate Improper(p: Player, m: Match, host: Player, c: Command, slots: map<Slot, SlotState>)
    requires forall s <- m.slots :: s in slots
  {
    match c
    case OwnStatus(status) => status !in {Ready, NotReady, NoMap}
    case LockSlot(slotId) => p == host && exists s <- m.slots :: s.index == slotId && slots[s].status == Locked && slots[s].player != null
    case UnlockAll => exists s <- m.slots :: slots[s].status == Locked && slots[s].player != null
    case _ => false
  }

  /** What matters in m when p asks for something. */
  ghost predicate IsMoment(now: Moment, p: Player, m: Match, host: Player, a: Picture) {
    && m in a.tables && now.a == a.tables[m].state && (forall s <- m.slots :: s in a.slots)
    && (now.allReady <==> forall s <- m.slots :: a.slots[s].status != NotReady)
    && (now.othersPlay <==> exists s <- m.slots :: a.slots[s].player != p && a.slots[s].status == Playing)
    && exists seat <- m.slots :: a.slots[seat].player == host && a.slots[seat].mods == now.hostMods
  }

  /** A command changes the match and its slots as described, and nothing else. */
  ghost predicate Acts(p: Player, m: Match, c: Command, a: Picture, b: Picture) {
    && m in a.tables && (forall s <- m.slots :: s in a.slots) && a.tables[m].host != null
    && var host: Player := a.tables[m].host;
       if Improper(p, m, host, c, a.slots) then b == a
       else OnlyInside(m, a, b) && exists now ::
         && IsMoment(now, p, m, host, a)
         && b.tables[m].state == MatchAfter(c, p, host, now)
         && forall s <- m.slots :: b.slots[s] == SlotAfter(c, p, host, now, s.index, a.slots[s])
  }

  /** So does what follows a wait. */
  ghost predicate ActsLate(m: Match, l: Late, a: Picture, b: Picture) {
    && OnlyInside(m, a, b)
    && LateEffect(l, a.tables[m].state, b.tables[m].state)
    && forall s <- m.slots :: b.slots[s] == SlotAfterWait(l, a.tables[m].state, a.slots[s])
  }

  /** p takes an open slot, and leaves their own one open. */
  ghost predicate Moves(p: Player, m: Match, slotId: int, a: Picture, b: Picture) {
    && (forall s <- m.slots :: s in a.slots)
    && if 0 <= slotId < 16 && slotId < |m.slots| && a.slots[m.slots[slotId]].status == Open then
         var target := m.slots[slotId];
         && NobodyMoves(a, b) && b.tables == a.tables && b.slots.Keys == a.slots.Keys
         && exists seat <- m.slots ::
              && a.slots[seat].player == p && seat != target
              && forall s | s in a.slots :: b.slots[s] ==
                   if s == target then a.slots[seat].(loaded := a.slots[target].loaded, skipped := a.slots[target].skipped)
                   else if s == seat then Vacant(Open)
                   else a.slots[s]
       else b == a
  }

  /** m has another host, and that is all. */
  ghost predicate IsHosted(m: Match, h: Player?, a: Picture, b: Picture) {
    m in a.tables && b == a.(tables := a.tables[m := a.tables[m].(host := h)])
  }

  ghost predicate IsRefereed(m: Match, referees: set<Player>, a: Picture, b: Picture) {
    m in a.tables && b == a.(tables := a.tables[m := a.tables[m].(referees := referees)])
  }

  ghost predicate Sits(p: Player, m: Match, a: Picture)
    requires forall s <- m.slots :: s in a.slots
  {
    exists s <- m.slots :: a.slots[s].player == p
  }

  // coming and going

  /** h is the player in the first slot with somebody in it. */
  ghost predicate IsFirst(h: Player?, m: Match, slots: map<Slot, SlotState>)
    requires forall s <- m.slots :: s in slots
  {
    exists i | 0 <= i < |m.slots| :: slots[m.slots[i]].player == h && h != null && forall j | 0 <= j < i :: slots[m.slots[j]].player == null
  }

  /**
   p leaves m: the slot is empty, and still locked if it was. An empty match leaves the registry; in another one p is no referee any more, and a
   host is followed by the first one in slot order.
   */
  ghost predicate HasLeft(p: Player, m: Match, a: Picture, b: Picture) {
    && OnlyTable(m, a, b) && OnlySlots(m, a, b)
    && b.rooms == a.rooms[p := null]
    && (exists seat <- m.slots ::
          && a.slots[seat].player == p
          && forall s | s in a.slots :: b.slots[s] ==
               if s == seat then Vacant(if a.slots[seat].status == Locked then Locked else Open) else a.slots[s])
    && b.tables[m].state == a.tables[m].state
    && if forall s <- m.slots :: b.slots[s].player == null then 0 <= m.id < |a.cells| && b.cells == a.cells[m.id := null]
       else
         && b.cells == a.cells && b.tables[m].referees == a.tables[m].referees - {p}
         && if a.tables[m].host == p then IsFirst(b.tables[m].host, m, b.slots) else b.tables[m].host == a.tables[m].host
  }

  /** Leaving a match changes nothing else. */
  ghost predicate Parts(p: Player, m: Match, a: Picture, b: Picture) {
    HasLeft(p, m, a, b) && b.online == a.online && b.watching == a.watching && b.inLobby == a.inLobby && b.members == a.members
  }

  /** p is in none of the channels of which that is said any more. */
  ghost predicate OutOf(p: Player, lobbyOnly: bool, a: Picture, b: Picture) {
    && b.members.Keys == a.members.Keys
    && forall c | c in a.members :: b.members[c] == if lobbyOnly && c.name != Named("#lobby") then a.members[c] else Drop(a.members[c], p)
  }

  /** p comes from the lobby into the first open slot of m. */
  ghost predicate SitsDown(p: Player, m: Match, a: Picture, b: Picture) {
    && m in a.tables && (forall s <- m.slots :: s in a.slots)
    && b.online == a.online && b.cells == a.cells && b.watching == a.watching && b.inLobby == a.inLobby && b.tables == a.tables
    && b.rooms == a.rooms[p := m] && OutOf(p, true, a, b) && b.slots.Keys == a.slots.Keys
    && exists i | 0 <= i < |m.slots| ::
         && a.slots[m.slots[i]].status == Open && (forall j | 0 <= j < i :: a.slots[m.slots[j]].status != Open)
         && forall s | s in a.slots :: b.slots[s] ==
              if s == m.slots[i] then
                a.slots[s].(player := p, status := NotReady, team := if a.tables[m].state.teamType in {TeamVs, TagTeamVs} then Red else a.slots[s].team)
              else a.slots[s]
  }

  /** Whether p can join m: one match at a time, and for those who are not restricted and know the password or belong to the staff. */
  ghost predicate CanJoin(p: Player, m: Match, passwd: string, a: Picture) {
    && p in a.online && p in a.rooms && a.rooms[p] == null && 0 in p.priv
    && m in a.tables && (forall s <- m.slots :: s in a.slots)
    && (passwd == a.tables[m].state.passwd || 12 in p.priv || 13 in p.priv || 14 in p.priv)
    && exists s <- m.slots :: a.slots[s].status == Open
  }

  /** m is a new match of p in the first free cell, and p is in its first slot. */
  ghost predicate Opens(p: Player, m: Match, terms: Terms, a: Picture, b: Picture) {
    && m !in a.tables && m.seed == terms.seed
    && 0 <= m.id < |a.cells| && a.cells[m.id] == null && (forall i | 0 <= i < m.id :: a.cells[i] != null)
    && b.online == a.online && b.watching == a.watching && b.inLobby == a.inLobby
    && b.cells == a.cells[m.id := m] && b.rooms == a.rooms[p := m] && OutOf(p, true, a, b)
    && b.tables.Keys == a.tables.Keys + {m} && (forall n | n in a.tables :: b.tables[n] == a.tables[n])
    && (exists passwd :: Unmarked(terms.passwd, passwd) && b.tables[m] == Table(p, {}, Begun(terms.(passwd := passwd))))
    && |m.slots| == 16 && (forall s <- m.slots :: s !in a.slots && s in b.slots) && (forall s | s in b.slots :: s in a.slots || s in m.slots)
    && (forall s | s in a.slots :: s in b.slots && b.slots[s] == a.slots[s])
    && forall s <- m.slots :: b.slots[s] == if s == m.slots[0] then Occupied(p, terms.teamType) else Vacant(Open)
  }

  /** The password without the mark of private matches. */
  ghost predicate Unmarked(asked: string, passwd: string) {
    asked == passwd + "//private" || (asked == passwd && forall s :: asked != s + "//private")
  }

  /** After a logout, p is nowhere any more. */
  ghost predicate LoggedOut(p: Player, a: Picture, b: Picture) {
    && p in a.rooms && b.online == Drop(a.online, p) && b.watching == a.watching[p := null] && b.inLobby == a.inLobby && OutOf(p, false, a, b)
    && var m := a.rooms[p];
       if m == null then b.rooms == a.rooms && b.cells == a.cells && b.tables == a.tables && b.slots == a.slots else HasLeft(p, m, a, b)
  }

  // requests and events

  /** Whether the request is one of the !mp commands, which are for the host, referees and tournament managers. */
  ghost predicate ByCommand(ask: RoomRequest) {
    match ask
    case MakeHost(_) | AddReferee(_) | RemoveReferee(_) | Force(_) => true
    case Act(LockAll) | Act(UnlockAll) | Act(BeginWith(_)) | Act(Abort) | Act(Freemods(_)) | Act(CommandMods(_)) | Act(Teams(_)) => true
    case Act(Ban(_, _)) | Act(StartScrim(_)) | Act(StopScrim) | Act(Again) => true
    case _ => false
  }

  /** The host passes the role to whoever sits in the slot. */
  ghost predicate GivesHost(p: Player, m: Match, slotId: int, a: Picture, b: Picture) {
    && m in a.tables && (forall s <- m.slots :: s in a.slots)
    && if p == a.tables[m].host && 0 <= slotId < 16 && slotId < |m.slots| && a.slots[m.slots[slotId]].player != null
       then IsHosted(m, a.slots[m.slots[slotId]].player, a, b) else b == a
  }

  /** Somebody who is in the match becomes host. */
  ghost predicate MakesHost(m: Match, target: Player?, a: Picture, b: Picture) {
    && (forall s <- m.slots :: s in a.slots)
    && if target != null && Sits(target, m, a) then IsHosted(m, target, a, b) else b == a
  }

  /** Somebody who is in the match becomes a referee, unless they are the host. */
  ghost predicate AddsReferee(m: Match, target: Player?, a: Picture, b: Picture) {
    && m in a.tables && (forall s <- m.slots :: s in a.slots)
    && if target != null && target != a.tables[m].host && Sits(target, m, a) then IsRefereed(m, a.tables[m].referees + {target}, a, b) else b == a
  }

  ghost predicate RemovesReferee(m: Match, target: Player?, a: Picture, b: Picture) {
    && m in a.tables
    && if target != null && target != a.tables[m].host then IsRefereed(m, a.tables[m].referees - {target}, a, b) else b == a
  }

  /** An administrator gets somebody into the match without a password. */
  ghost predicate Forces(p: Player, m: Match, target: Player?, a: Picture, b: Picture) {
    && m in a.tables
    && if target != null && 13 in p.priv && CanJoin(target, m, a.tables[m].state.passwd, a) then SitsDown(target, m, a, b) else b == a
  }

  /** What p, who is in m, gets with a request. */
  ghost predicate RoomDone(p: Player, m: Match, ask: RoomRequest, a: Picture, b: Picture) {
    && m in a.tables
    && if ByCommand(ask) && p != a.tables[m].host && p !in a.tables[m].referees && 10 !in p.priv then b == a
       else match ask
         case Part => Parts(p, m, a, b)
         case ToSlot(slotId) => Moves(p, m, slotId, a, b)
         case Act(command) => Acts(p, m, command, a, b)
         case GiveHost(slotId) => GivesHost(p, m, slotId, a, b)
         case MakeHost(target) => MakesHost(m, target, a, b)
         case AddReferee(target) => AddsReferee(m, target, a, b)
         case RemoveReferee(target) => RemovesReferee(m, target, a, b)
         case Force(target) => Forces(p, m, target, a, b)
  }

  /** The match with the id in the registry, from its end if the id is negative. */
  ghost function ById(cells: seq<Match?>, id: int): Match? {
    if 0 <= id < |cells| then cells[id] else if id < 0 && |cells| + id >= 0 then cells[|cells| + id] else null
  }

  /** A new match, for somebody online who is in none, in their own name, as long as there is a free cell and the match can be sent. */
  ghost predicate CreateDone(p: Player, data: NewMatch, silenced: bool, a: Picture, b: Picture) {
    && p in a.rooms
    && if && data.terms.hostId == p.id && |data.name| <= 50 && !silenced && data.terms.seed >= 0 && p in a.online && a.rooms[p] == null
          && exists i :: 0 <= i < |a.cells| && a.cells[i] == null
       then exists m :: m in b.tables && Opens(p, m, data.terms, a, b)
       else b == a
  }

  ghost predicate EnterDone(p: Player, id: int, passwd: string, silenced: bool, a: Picture, b: Picture) {
    var m := ById(a.cells, id);
    if m != null && !silenced && CanJoin(p, m, passwd, a) then SitsDown(p, m, a, b) else b == a
  }

  /** p watches the target instead of whomever they did; themselves perhaps not. */
  ghost predicate SpectateDone(p: Player, targetId: int, a: Picture, b: Picture) {
    if p !in a.online || forall h <- a.online :: h.id != targetId then b == a
    else exists h <- a.online ::
      h.id == targetId && (b == a.(watching := a.watching[p := h]) || (h == p && b == a.(watching := a.watching[p := null])))
  }

  /** p is not in the channel yet and may read it; the lobby's, only in the lobby. */
  ghost predicate MayOpen(p: Player, c: Channel, a: Picture)
    requires c in a.members && p in a.inLobby
  {
    p !in a.members[c] && (c.readPriv == {} || p.priv * c.readPriv != {}) && (c.name == Named("#lobby") ==> a.inLobby[p])
  }

  /** p is a further member of the public channel, if online. */
  ghost predicate OpenDone(p: Player, name: string, a: Picture, b: Picture) {
    && p in a.inLobby && b == a.(members := b.members) && b.members.Keys == a.members.Keys
    && forall c | c in a.members :: b.members[c] == a.members[c] +
         if p in a.online && c.name == Named(name) && MayOpen(p, c, a) then [p] else []
  }

  ghost predicate CloseDone(p: Player, name: string, a: Picture, b: Picture) {
    && b == a.(members := b.members) && b.members.Keys == a.members.Keys
    && forall c | c in a.members :: b.members[c] == if c.name == Named(name) then Drop(a.members[c], p) else a.members[c]
  }

  /** What p, online or not, gets with a request; without the first privilege, only three of them are heard. */
  ghost predicate RequestDone(p: Player, r: Request, a: Picture, b: Picture) {
    && p in a.rooms
    && if 0 !in p.priv && !r.Quit? && !r.OpenChannel? && !r.CloseChannel? then b == a
       else match r
         case Quit(early) => if early then b == a else LoggedOut(p, a, b)
         case CreateMatch(data, silenced) => CreateDone(p, data, silenced, a, b)
         case EnterMatch(id, passwd, silenced) => EnterDone(p, id, passwd, silenced, a, b)
         case InRoom(ask) => if a.rooms[p] == null then b == a else RoomDone(p, a.rooms[p], ask, a, b)
         case Spectate(targetId) => SpectateDone(p, targetId, a, b)
         case StopWatching => b == a.(watching := a.watching[p := null])
         case OpenChannel(name) => OpenDone(p, name, a, b)
         case CloseChannel(name) => CloseDone(p, name, a, b)
         case Lobby(inside) => b == a.(inLobby := a.inLobby[p := inside])
  }

  /** q logs out, and p comes online if admitted. */
  ghost predicate Replaces(q: Player, p: Player, admitted: bool, a: Picture, b: Picture) {
    if !admitted then LoggedOut(q, a, b)
    else b.online != [] && b.online[|b.online| - 1] == p && LoggedOut(q, a, b.(online := b.online[..|b.online| - 1]))
  }

  /** A login of a session that is not in use; somebody who is online under the id already goes first, or keeps it out. */
  ghost predicate LoginDone(p: Player, stale: bool, admitted: bool, a: Picture, b: Picture) {
    if p in a.online then b == a
    else if forall q <- a.online :: q.id != p.id then b == if admitted then a.(online := a.online + [p]) else a
    else if !stale then b == a
    else exists q <- a.online :: q.id == p.id && Replaces(q, p, admitted, a, b)
  }

  /** The whole effect of an event. */
  ghost predicate EventDone(e: Event, a: Picture, b: Picture) {
    match e
    case LogIn(session, stale, admitted) => LoginDone(session, stale, admitted, a, b)
    case From(sender, request) => RequestDone(sender, request, a, b)
    case Silence(target) =>
      if target !in a.online || (target in a.rooms && a.rooms[target] == null) then b == a
      else target in a.rooms && Parts(target, a.rooms[target], a, b)
    case Resumed(sender, data, known) =>
      sender in a.rooms && if a.rooms[sender] == null then b == a else ActsLate(a.rooms[sender], Late.Resume(data, known), a, b)
    case Picked(cell, mapId, mods) => LateDone(cell, Late.Pick(mapId, mods), a, b)
    case Scored(cell, scores) => LateDone(cell, Late.Award(scores), a, b)
  }

  /** Scores that would spoil the books are left aside. */
  ghost predicate LateDone(cell: nat, l: Late, a: Picture, b: Picture) {
    if cell >= |a.cells| || a.cells[cell] == null then b == a
    else
      var m: Match := a.cells[cell];
      && m in a.tables
      && var s := a.tables[m].state;
         if l.Award? && !Scrim.Harmless(s.books, l.scores, Fits(s.teamType, l.scores)) then b == a else ActsLate(m, l, a, b)
  }

  /** The pictures before and after every event of a run. */
  ghost predicate IsRun(events: seq<Event>, trace: seq<Picture>) {
    |trace| == |events| + 1 && forall i | 0 <= i < |events| :: EventDone(events[i], trace[i], trace[i + 1])
  }

  lemma OneMorePicture(events: seq<Event>, i: nat, trace: seq<Picture>, b: Picture)
    requires i < |events| && IsRun(events[..i], trace) && EventDone(events[i], trace[i], b)
    ensures IsRun(events[..i + 1], trace + [b])
  {
    hide EventDone;
  }

  lemma FirstPicture(a: Picture)
    ensures IsRun([], [a])
  {
  }

  // what follows for whole runs

  lemma RoomKeeps(p: Player, m: Match, ask: RoomRequest, a: Picture, b: Picture)
    requires RoomDone(p, m, ask, a, b)
    ensures b.online == a.online && b.tables.Keys == a.tables.Keys
  {
    hide Improper, IsMoment, MatchAfter, SlotAfter, Vacant, IsFirst, CanJoin, Sits, OutOf, OnlySlots;
  }

  /** m is the match that the request creates. */
  ghost predicate IsNew(p: Player, r: Request, m: Match, a: Picture, b: Picture) {
    r.CreateMatch? && p in a.online && p.id == r.data.terms.hostId && Opens(p, m, r.data.terms, a, b)
  }

  lemma LeavingBrings(p: Player, a: Picture, b: Picture)
    requires LoggedOut(p, a, b)
    ensures b.tables.Keys == a.tables.Keys && forall q <- b.online :: q in a.online
  {
    hide Vacant, IsFirst, OutOf, OnlySlots;
  }

  lemma RequestBrings(p: Player, r: Request, a: Picture, b: Picture)
    requires RequestDone(p, r, a, b)
    ensures forall q <- b.online :: q in a.online
    ensures forall m | m in b.tables && m !in a.tables :: IsNew(p, r, m, a, b)
  {
    hide Vacant, CanJoin, OutOf, MayOpen, RoomDone, Begun, Occupied, LoggedOut, Unmarked;
    if r.InRoom? && a.rooms[p] != null && 0 in p.priv { RoomKeeps(p, a.rooms[p], r.ask, a, b); }
    if r.Quit? && !r.early { LeavingBrings(p, a, b); }
    if r.CreateMatch? && b != a && 0 in p.priv {
      var n :| n in b.tables && Opens(p, n, r.data.terms, a, b);
      assert forall m | m in b.tables && m !in a.tables :: m == n;
    }
  }

  lemma LoginBrings(p: Player, stale: bool, admitted: bool, a: Picture, b: Picture)
    requires LoginDone(p, stale, admitted, a, b)
    ensures b.tables.Keys == a.tables.Keys && forall q <- b.online :: q in a.online || (q == p && admitted)
  {
    hide LoggedOut;
    if q :| q in a.online && q.id == p.id && Replaces(q, p, admitted, a, b) {
      LeavingBrings(q, a, if admitted then b.(online := b.online[..|b.online| - 1]) else b);
      if admitted { assert b.online == b.online[..|b.online| - 1] + [p]; }
    }
  }

  /** Nobody comes online but by a login, and no match comes up but by its creation. */
  lemma EventBrings(e: Event, a: Picture, b: Picture)
    requires EventDone(e, a, b)
    ensures forall p <- b.online :: p in a.online || (e.LogIn? && p == e.session && e.admitted)
    ensures forall m | m in b.tables && m !in a.tables :: e.From? && IsNew(e.sender, e.request, m, a, b)
  {
    hide LateEffect, SlotAfterWait, Vacant, IsFirst, OnlySlots, RequestDone, LoginDone, IsNew;
    match e
    case LogIn(session, stale, admitted) => LoginBrings(session, stale, admitted, a, b);
    case From(sender, request) => RequestBrings(sender, request, a, b);
    case _ =>
  }

  ghost predicate Arrives(events: seq<Event>, i: nat, p: Player) {
    i < |events| && events[i].LogIn? && events[i].session == p && events[i].admitted
  }

  ghost predicate Founds(events: seq<Event>, trace: seq<Picture>, i: nat, m: Match) {
    i < |events| && i + 1 < |trace| && events[i].From? && IsNew(events[i].sender, events[i].request, m, trace[i], trace[i + 1])
  }

  /** Whoever is online has been from the start or has been admitted, and every match has been there or has been created by somebody online. */
  lemma {:induction false} RunBrings(events: seq<Event>, trace: seq<Picture>, n: nat)
    requires IsRun(events, trace) && n <= |events|
    ensures forall p <- trace[n].online :: p in trace[0].online || exists i: nat :: i < n && Arrives(events, i, p)
    ensures forall m | m in trace[n].tables :: m in trace[0].tables || exists i: nat :: i < n && Founds(events, trace, i, m)
  {
    hide EventDone, IsNew;
    if n > 0 {
      RunBrings(events, trace, n - 1);
      EventBrings(events[n - 1], trace[n - 1], trace[n]);
      forall p | p in trace[n].online && p !in trace[0].online ensures exists i: nat :: i < n && Arrives(events, i, p) {
        if p !in trace[n - 1].online { assert Arrives(events, n - 1, p); }
      }
      forall m | m in trace[n].tables && m !in trace[0].tables ensures exists i: nat :: i < n && Founds(events, trace, i, m) {
        if m !in trace[n - 1].tables { assert Founds(events, trace, n - 1, m); }
      }
    }
  }
}
