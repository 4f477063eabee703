/**
 Whole runs: logins, requests of sessions that are online or not, and what follows a wait, in any order. Valid() survives all of
 them, but for what is known to break it and is left aside here: a command that is not Proper(), a request that Breaks(),
 a match whose seed cannot be sent, and scores that are not Harmless().
 */
module Runs {
  import opened Lists
  import opened Mods
  import opened MatchTypes
  import opened Entities
  import opened MatchHandlers
  import opened Sessions
  import opened Pictures
  import opened Outcomes
  import opened Server
  import opened Views
  import opened Arrivals
  import Scrim

  const TOURNEY_MANAGER: Privileges := {10}
  const ADMINISTRATOR: Privileges := {13}

  /** Whoever logs in or asks for something is one of the sessions. */
  ghost predicate ByOneOf(sessions: set<Player>, e: Event) {
    match e
    case LogIn(session, _, _) => session in sessions
    case From(sender, _) => sender in sessions
    case Resumed(sender, _, _) => sender in sessions
    case _ => true
  }

  /** What can end the exactness of h's booth while h is online: watching oneself, and being watched while restricted. */
  predicate RequestSpoils(sender: Player, request: Request, h: Player) {
    request.Spectate? && request.targetId == h.id && (sender == h || h.Restricted())
  }

  predicate Spoils(e: Event, h: Player) { e.From? && RequestSpoils(e.sender, e.request, h) }

  predicate IsLogin(e: Event, id: int) { e.LogIn? && e.session.id == id }

  /** How often somebody tries to log in under the id. */
  function Logins(events: seq<Event>, id: int): nat {
    if events == [] then 0 else Logins(events[..|events| - 1], id) + if IsLogin(events[|events| - 1], id) then 1 else 0
  }

  lemma LoginsSnoc(events: seq<Event>, i: nat, id: int)
    requires i < |events|
    ensures Logins(events[..i + 1], id) == Logins(events[..i], id) + if IsLogin(events[i], id) then 1 else 0
  {
    assert events[..i + 1][..i] == events[..i];
  }

  /** What restricted players may ask for; other packets of theirs are skipped. */
  predicate ForRestricted(r: Request) { r.Quit? || r.OpenChannel? || r.CloseChannel? }

  /** The requests that are !mp commands are for referees and tournament managers. */
  predicate IsCommand(ask: RoomRequest) {
    match ask
    case Part | ToSlot(_) | GiveHost(_) => false
    case Act(OwnStatus(_)) | Act(SwitchTeam) | Act(LockSlot(_)) | Act(Begin) | Act(Finish) | Act(PlayWith(_)) | Act(NewSettings(_)) => false
    case _ => true
  }

  /** matches[id], where Python counts negative indices from the end; nothing if there is no such index. */
  function At(matches: seq<Match?>, id: int): Match? {
    if 0 <= id < |matches| then matches[id] else if -|matches| <= id < 0 then matches[|matches| + id] else null
  }

  method Cell(w: Sessions, id: int) returns (m: Match?)
    requires w.Valid()
    ensures m != null ==> m in w.allMatches && w.Live(m)
    ensures m == At(w.matches, id)
  {
    hide Sessions.Valid, Sessions.Live;
    CellsAreLive(w);
    if 0 <= id < |w.matches| { return w.matches[id]; }
    if -|w.matches| <= id < 0 { return w.matches[|w.matches| + id]; }
    return null;
  }

  lemma CellsAreLive(w: Sessions)
    requires w.Valid()
    ensures forall i | 0 <= i < |w.matches| && w.matches[i] != null :: w.matches[i] in w.allMatches && w.Live(w.matches[i])
  {
  }

  /** Whether a MatchJoin succeeds. */
  ghost predicate Enters(w: Sessions, p: Player, id: int, passwd: string, silenced: bool)
    reads *
  {
    var m := At(w.matches, id);
    m != null && !p.Restricted() && !silenced && w.MaySit(p, m, passwd)
  }

  /** Whether ensure_match lets p use the !mp commands of m. */
  method MayCommand(w: Sessions, p: Player, m: Match) returns (r: bool)
    requires w.Valid() && m in w.allMatches && w.Live(m)
    ensures r <==> p == m.hostPlayer || p in m.referees || p.priv * TOURNEY_MANAGER != {}
  {
    hide *;
    HostIsKnown(w, m);
    var host := w.GetHost(m);
    return p == host || p in m.referees || p.priv * TOURNEY_MANAGER != {};
  }

  /** A command inside the match, unless it would open a locked slot with a player in it. */
  method ActInRoom(w: Sessions, p: Player, m: Match, c: Command)
    requires w.Valid() && p in w.players && p.room == m && m in w.allMatches && w.Live(m)
    modifies m`inProgress, m`isScrimming, m`matchPoints, m`winners, m`bans, m`winningPts
    modifies m`freemods, m`mods, m`mapId, m`prevMapId, m`teamType
    modifies m.slots`status, m.slots`team, m.slots`mods, m.slots`loaded, m.slots`skipped
    ensures w.Valid()
    ensures Acts(p, m, c, old(Pic(w)), Pic(w))
  {
    hide *;
    HostIsKnown(w, m);
    SlotsAreKnown(w, m);
    MatchIsKnown(w, m);
    TableShows(w, m);
    var host := w.GetHost(m);
    ProperShows(w, p, m, host, c);
    if !Proper(m, p, host, c) {
      NoAct(w, p, m, host, c);
      return;
    }
    MomentShows(w, p, m, host);
    ghost var a, now, slots := Pic(w), Before(m, p, host), m.Contents();
    InMatchSeen(w, p, m, host, c);
    ActsShows(w, p, m, host, c, now, slots, a);
  }

  /** MatchJoin. */
  method EnterById(w: Sessions, p: Player, id: int, passwd: string, silenced: bool)
    requires w.Valid() && p in w.everyone
    modifies w`strays, w`channels, w.allChannels`players, p`channels, p`room, p`seat, w.allSlots
    ensures w.Valid() <==> p in w.players || !old(Enters(w, p, id, passwd, silenced))
    ensures var m := At(w.matches, id);
      p.room == if m != null && !p.Restricted() && !silenced && old(w.MaySit(p, m, passwd)) then m else old(p.room)
    ensures w.Valid() ==> EnterDone(p, id, passwd, silenced, old(Pic(w)), Pic(w))
  {
    hide Sessions.Valid, Sessions.MaySit, Sessions.Live, Player.Restricted, Pic, CanJoin, SitsDown;
    Components(w);
    Bits(p);
    var m := Cell(w, id);
    OnlyPrivileged(p);
    if m == null || p.Restricted() || silenced { return; }
    MatchIsKnown(w, m);
    JoinSeen(w, p, m, passwd);
  }

  /** mp_force. */
  method ForceIntoRoom(w: Sessions, p: Player, m: Match, target: Player?)
    requires w.Valid() && p in w.players && m in w.allMatches && w.Live(m)
    modifies w`strays, w`channels, w.allChannels`players, w.everyone`channels, w.everyone`room, w.everyone`seat
    modifies m.slots`team, m.slots`status, m.slots`player
    ensures w.Valid()
    ensures Forces(p, m, target, old(Pic(w)), Pic(w))
  {
    hide Sessions.Valid, Sessions.Live, Sessions.MaySit, Player.Restricted, CanJoin, SitsDown, Pic, Match.State, TableOf;
    MatchIsKnown(w, m);
    OnlineAreKnown(w);
    TableShows(w, m);
    PasswdShows(m);
    Bits(p);
    OnlyOnline(w);
    if target == null || target !in w.players || p.priv * ADMINISTRATOR == {} { return; }
    JoinSeen(w, target, m, m.passwd);
  }

  lemma Bits(p: Player)
    ensures p.priv * ADMINISTRATOR != {} <==> 13 in p.priv
    ensures p.priv * TOURNEY_MANAGER != {} <==> 10 in p.priv
    ensures p.Restricted() <==> 0 !in p.priv
  {
    if 13 in p.priv { assert 13 in p.priv * ADMINISTRATOR; }
    if 10 in p.priv { assert 10 in p.priv * TOURNEY_MANAGER; }
    if 0 in p.priv { assert 0 in p.priv * UNRESTRICTED; }
  }

  lemma EverybodyMayGo(w: Sessions)
    requires w.Valid() && w.Sendable()
    ensures forall p <- w.players :: p in w.everyone
    ensures forall p | p in w.everyone :: p.MayGo() && (p.room != null ==> p.room.LetsGo(p))
  {
  }

  /** A request of p, who is in m: its whole effect. */
  method Room(w: Sessions, p: Player, m: Match, ask: RoomRequest)
    requires w.Valid() && w.Sendable() && p in w.players && p.room == m
    modifies w`strays, w`channels, w`matches, w.everyone`channels, w.everyone`room, w.everyone`seat, w.allChannels`players, w.allMatches, w.allSlots
    ensures w.Valid()
    ensures RoomDone(p, m, ask, old(Pic(w)), Pic(w))
  {
    hide Sessions.Valid, Sessions.Sendable, Sessions.Live, Match.LetsGo, Player.MayGo, Player.Restricted, Pic, Match.State, TableOf;
    hide Outcomes.Parts, Moves, Acts, GivesHost, MakesHost, AddsReferee, RemovesReferee, Forces;
    RoomIsKnown(w, p);
    MatchIsKnown(w, m);
    EverybodyMayGo(w);
    TableShows(w, m);
    Bits(p);
    if IsCommand(ask) {
      var allowed := MayCommand(w, p, m);
      if !allowed { return; }
    }
    match ask {
      case Part => var _ := LeaveSeen(w, p, m);
      case ToSlot(slotId) => ChangeSlotSeen(w, p, m, slotId);
      case Act(command) => ActInRoom(w, p, m, command);
      case GiveHost(slotId) => TransferHostSeen(w, p, m, slotId);
      case MakeHost(target) => MpHostSeen(w, m, target);
      case AddReferee(target) => MpAddRefSeen(w, m, target);
      case RemoveReferee(target) => MpRmRefSeen(w, m, target);
      case Force(target) => ForceIntoRoom(w, p, m, target);
    }
  }

  /** LobbyJoin and LobbyPart. */
  method SetLobby(w: Sessions, p: Player, inside: bool)
    requires w.Valid() && p in w.everyone
    modifies p`inLobby
    ensures w.Valid() && p.inLobby == inside
    ensures Pic(w) == old(Pic(w)).(inLobby := old(InLobby(w))[p := inside])
  {
    hide *;
    Components(w);
    EverybodyInLobby(w);
    ghost var a := Pic(w);
    p.inLobby := inside;
    LobbyShows(w, p, a.inLobby);
    Composed(w, a.(inLobby := a.inLobby[p := inside]));
  }

  /** Whether a MatchCreate registers a match. */
  ghost predicate Creates(w: Sessions, p: Player, data: NewMatch, silenced: bool)
    reads w`matches
  {
    && data.terms.hostId == p.id && |data.name| <= MAX_MATCH_NAME_LENGTH && !p.Restricted() && !silenced
    && exists i :: 0 <= i < |w.matches| && w.matches[i] == null
  }

  /** MatchCreate, whether the match can be sent, and if all is well, what can be seen of it. */
  method CreateAnyway(w: Sessions, p: Player, data: NewMatch, silenced: bool)
    requires w.Valid() && w.Sendable() && p in w.everyone
    modifies w`strays, w`channels, w`byName, w`allChannels, w`allMatches, w`allSlots, w`matches, w.allChannels`players, p`channels, p`room, p`seat
    ensures w.Valid() <==> !old(Breaks(w, p, CreateMatch(data, silenced)))
    ensures w.Sendable() <==> !(old(Creates(w, p, data, silenced)) && data.terms.seed < 0)
    ensures Grown(w)
    ensures w.Valid() && w.Sendable() ==> RequestDone(p, CreateMatch(data, silenced), old(Pic(w)), Pic(w))
  {
    hide Sessions.Valid, WithoutSuffix, Match.Asked, Player.Restricted, Pic, Opens, Rooms, Watching, InLobby, Members, Tables, Slots;
    Bits(p);
    Components(w);
    WatchingShows(w, p);
    var _ := CreateSeen(w, p, data, silenced);
  }

  /**
   The requests that leave the server in an invalid state: a match created by a player who is in another one; and whatever
   brings in somebody who is not online, which is a session that has logged out earlier in the same body.
   */
  ghost predicate Breaks(w: Sessions, p: Player, r: Request)
    reads *
  {
    match r
    case CreateMatch(data, silenced) => Creates(w, p, data, silenced) && (p !in w.players || p.room != null)
    case EnterMatch(id, passwd, silenced) => p !in w.players && Enters(w, p, id, passwd, silenced)
    case Spectate(targetId) => p !in w.players && !p.Restricted() && exists h <- w.players :: h.id == targetId
    case OpenChannel(name) => p !in w.players && exists c <- w.channels :: c.name == Named(name) && w.MayJoin(p, c)
    case _ => false
  }

  /** StartSpectating, which may open a booth. */
  method SpectateById(w: Sessions, p: Player, targetId: int)
    requires w.Valid() && p in w.everyone
    modifies w`strays, w`exact, w`channels, w`allChannels, w`byName, w.allChannels`players
    modifies w.everyone`channels, w.everyone`spectators, w.everyone`spectating, w.everyone`booth
    ensures w.Valid() <==> !old(Breaks(w, p, Spectate(targetId)))
    ensures Grown(w)
    ensures forall h | h in old(w.exact) && !RequestSpoils(p, Spectate(targetId), h) :: h in w.exact
    ensures w.Valid() ==> RequestDone(p, Spectate(targetId), old(Pic(w)), Pic(w))
  {
    hide Sessions.Valid, Player.Restricted, Pic, SpectateDone, Rooms, Watching, InLobby, Members, Tables, Slots;
    hide RoomDone, LoggedOut, CreateDone, EnterDone, OpenDone, CloseDone, Creates, Enters, Sessions.MayJoin;
    Components(w);
    Bits(p);
    WatchingShows(w, p);
    if p.Restricted() { return; }
    ghost var a := Pic(w);
    SpectateOnly(w, p, targetId);
    if p in w.players || forall h <- w.players :: h.id != targetId { SpectateShows(w, p, targetId, a); }
  }

  /** The requests that create no objects. */
  method HandleInPlace(w: Sessions, p: Player, r: Request)
    requires w.Valid() && w.Sendable() && p in w.everyone && !r.CreateMatch? && !r.Spectate?
    modifies w`strays, w`exact, w`channels, w`matches, w`players, w.everyone, w.allChannels`players, w.allMatches, w.allSlots
    ensures w.Valid() <==> !old(Breaks(w, p, r))
    ensures forall h <- w.players :: h in old(w.players)
    ensures forall h | h in old(w.exact) && h in w.players && !RequestSpoils(p, r, h) :: h in w.exact
    ensures p.Restricted() && !ForRestricted(r) ==> unchanged(w) && unchanged(p)
    ensures r.Quit? && !r.early ==> p !in w.players
    ensures w.Valid() ==> RequestDone(p, r, old(Pic(w)), Pic(w))
  {
    hide Sessions.Valid, Sessions.Sendable, Player.Restricted, Player.MayGo, Match.LetsGo, Sessions.MayJoin, Sessions.MaySit, Pic;
    hide Rooms, Watching, InLobby, Members, Tables, Slots, LoggedOut, EnterDone, RoomDone, OpenDone, CloseDone;
    OnlineAreKnown(w);
    EverybodyMayGo(w);
    Components(w);
    WatchingShows(w, p);
    Bits(p);
    if p.Restricted() && !ForRestricted(r) { return; }
    match r {
      case Quit(early) => if !early { var _ := Logout(w, p); }
      case EnterMatch(matchId, passwd, silenced) => EnterById(w, p, matchId, passwd, silenced);
      case InRoom(ask) => if p.room != null { BusyIsOnline(w, p); Room(w, p, p.room, ask); }
      case StopWatching => StopSeen(w, p);
      case OpenChannel(name) => OpenSeen(w, p, name);
      case CloseChannel(name) => CloseSeen(w, p, name);
      case Lobby(inside) => SetLobby(w, p, inside);
    }
  }

  /** Any request, and its whole effect if it leaves a valid state. */
  method Handle(w: Sessions, p: Player, r: Request)
    requires w.Valid() && w.Sendable() && p in w.everyone
    modifies w`strays, w`exact, w`channels, w`byName, w`matches, w`players, w`allChannels, w`allMatches, w`allSlots
    modifies w.everyone, w.allChannels`players, w.allMatches, w.allSlots
    ensures w.Valid() <==> !old(Breaks(w, p, r))
    ensures w.Sendable() <==> !(r.CreateMatch? && old(Creates(w, p, r.data, r.silenced)) && r.data.terms.seed < 0)
    ensures Grown(w)
    ensures !r.CreateMatch? ==> w.allMatches == old(w.allMatches) && w.allSlots == old(w.allSlots)
    ensures !r.CreateMatch? && !r.Spectate? ==> w.allChannels == old(w.allChannels)
    ensures forall h <- w.players :: h in old(w.players)
    ensures forall h | h in old(w.exact) && h in w.players && !RequestSpoils(p, r, h) :: h in w.exact
    ensures w.Valid() && w.Sendable() ==> RequestDone(p, r, old(Pic(w)), Pic(w))
  {
    hide Sessions.Valid, Sessions.Sendable, Sessions.MayJoin, Sessions.MaySit, Player.Restricted, Creates, Breaks, RequestDone, RequestSpoils, Pic;
    match r {
      case CreateMatch(data, silenced) =>
        CreateAnyway(w, p, data, silenced);
      case Spectate(targetId) => SpectateById(w, p, targetId);
      case _ => HandleInPlace(w, p, r);
    }
  }

  /** A login with a session that is not in use. */
  method Arrive(w: Sessions, p: Player, stale: bool, admitted: bool)
    requires w.Valid() && w.Sendable() && p in w.everyone
    modifies w`exact, w`ever, w`channels, w`matches, w`players, w`byId, w.everyone, w.allChannels`players, w.allMatches, w.allSlots
    ensures w.Valid()
    ensures forall h | h in old(w.exact) && h.id != p.id :: h in w.exact
    ensures forall h <- w.players :: h in old(w.players) || (h == p && admitted && (p.id !in old(w.ever) ==> p in w.exact))
    ensures w.ever <= old(w.ever) + {p.id}
    ensures EventDone(LogIn(p, stale, admitted), old(Pic(w)), Pic(w))
  {
    hide Sessions.Valid, Sessions.Sendable, Sessions.BoothIsExact, Player.MayGo, Match.LetsGo, Watches, Pic, LoggedOut;
    Components(w);
    EverybodyMayGo(w);
    OnlineBefore(w);
    if p.id !in w.ever { NewIdIsUnwatched(w, p.id); }
    if p in w.players { return; }
    var _, _ := Login(w, p, stale, admitted);
  }

  /** What silence() does to the target. */
  method Hush(w: Sessions, p: Player)
    requires w.Valid() && w.Sendable()
    modifies w`channels, w`matches, w.everyone`channels, w.everyone`room, w.allChannels`players
    modifies w.allMatches`hostId, w.allMatches`hostPlayer, w.allMatches`referees, w.allSlots
    ensures w.Valid() && (p in w.players ==> p.room == null)
    ensures EventDone(Silence(p), old(Pic(w)), Pic(w))
  {
    hide Sessions.Valid, Sessions.Sendable, Player.MayGo, Match.LetsGo, Pic, Outcomes.Parts, Rooms, Watching, InLobby, Members, Tables, Slots;
    OnlineAreKnown(w);
    EverybodyMayGo(w);
    Components(w);
    if p !in w.players { return; }
    WatchingShows(w, p);
    var _ := LeaveRoom(w, p);
  }

  /**
   The second half of MatchChangeSettings. A sender who is in another match by then changes the map of that one, whoever its host
   is; one who is in none gets an exception.
   */
  method GoOn(w: Sessions, p: Player, data: Settings, known: Option<int>)
    requires w.Valid() && p in w.everyone
    modifies w.allMatches, w.allSlots
    ensures w.Valid()
    ensures p.room != null ==> p.room.mapId == if known.Some? then known.value else data.mapId
    ensures forall m | m in w.allMatches && m != p.room :: unchanged(m)
    ensures EventDone(Resumed(p, data, known), old(Pic(w)), Pic(w))
  {
    hide Sessions.Valid, Timely, Pic, ActsLate, Rooms, Watching, InLobby, Members, Tables, Slots;
    RoomIsAMatch(w, p);
    Components(w);
    WatchingShows(w, p);
    if p.room == null { return; }
    NotScores(p.room, Late.Resume(data, known));
    ghost var a := Pic(w);
    AfterWaitSeen(w, p.room, Late.Resume(data, known));
    MapOf(w, p.room, data, known, a);
  }

  /** The map is the server's, or else the one asked for. */
  lemma MapOf(w: Sessions, m: Match, data: Settings, known: Option<int>, a: Picture)
    requires m in w.allMatches && ActsLate(m, Late.Resume(data, known), a, Pic(w))
    ensures m.mapId == if known.Some? then known.value else data.mapId
  {
    TableShows(w, m);
    hide Pic, OnlyInside;
  }

  lemma RoomIsAMatch(w: Sessions, p: Player)
    requires w.Valid() && p in w.everyone
    ensures p.room != null ==> p.room in w.allMatches && forall i | 0 <= i < |p.room.slots| :: p.room.slots[i] in w.allSlots
  {
  }

  lemma NotScores(m: Match, l: Late)
    requires !l.Award?
    ensures Timely(m, l)
  {
  }

  /** A pick or the scores of a play, for the match in the cell; scores that are not Timely() are left aside. */
  method Finally(w: Sessions, cell: nat, l: Late)
    requires w.Valid()
    modifies w.allMatches, w.allSlots
    ensures w.Valid()
    ensures LateDone(cell, l, old(Pic(w)), Pic(w))
  {
    hide Sessions.Valid, Sessions.Live, Timely, Pic, ActsLate, Scrim.Harmless, Fits, Match.State, TableOf, Rooms, Watching, InLobby, Members, Tables, Slots;
    Components(w);
    var m := Cell(w, cell);
    if m == null { return; }
    MatchIsKnown(w, m);
    TableShows(w, m);
    TimelyShows(m, l);
    if !Timely(m, l) { return; }
    AfterWaitSeen(w, m, l);
  }

  lemma TimelyShows(m: Match, l: Late)
    ensures Timely(m, l) <==> !l.Award? || Scrim.Harmless(m.State().books, l.scores, Fits(m.State().teamType, l.scores))
  {
  }

  /** Whether the request would leave an invalid state, or a match that cannot be sent. */
  method Check(w: Sessions, p: Player, r: Request) returns (harmful: bool)
    requires w.Valid() && p in w.everyone
    ensures harmful <==> Breaks(w, p, r) || (r.CreateMatch? && Creates(w, p, r.data, r.silenced) && r.data.terms.seed < 0)
  {
    hide Sessions.Valid, Player.Restricted, Player.Staff;
    OnlineAreKnown(w);
    var offline := p !in w.players;
    match r {
      case CreateMatch(data, silenced) =>
        var free := w.GetFreeCell();
        var ok := data.terms.hostId == p.id && |data.name| <= MAX_MATCH_NAME_LENGTH && !p.Restricted() && !silenced && free.Some?;
        return ok && (offline || p.room != null || data.terms.seed < 0);
      case EnterMatch(id, passwd, silenced) =>
        var m := Cell(w, id);
        if m == null || !offline { return false; }
        HostIsKnown(w, m);
        var free := m.GetFree();
        return !p.Restricted() && !silenced && p.room == null && (passwd == m.passwd || p.Staff()) && free.Some?;
      case Spectate(targetId) =>
        var h := w.GetById(targetId);
        return offline && !p.Restricted() && h != null;
      case OpenChannel(name) =>
        var c := w.GetByName(Named(name));
        if c != null { NameIsUnique(w, c); }
        return offline && c != null && p !in c.players && c.CanRead(p.priv) && (c.name == LOBBY ==> p.inLobby);
      case _ => return false;
    }
  }

  /** What is left aside is not done. */
  lemma HarmIsNotDone(w: Sessions, p: Player, r: Request)
    requires w.Valid() && p in w.everyone
    requires Breaks(w, p, r) || (r.CreateMatch? && Creates(w, p, r.data, r.silenced) && r.data.terms.seed < 0)
    ensures RequestDone(p, r, Pic(w), Pic(w))
  {
    hide Sessions.Valid, Sessions.MaySit, Player.Restricted, Pic, Rooms, Watching, InLobby, Members, Tables, Slots, Opens, SitsDown, CanJoin, MayOpen;
    Components(w);
    WatchingShows(w, p);
    MembersShow(w);
    PublicChannels(w);
    Bits(p);
    OnlyOnline(w);
  }

  /** A request of any session, online or not, unless it is harmful. */
  method Receive(w: Sessions, p: Player, r: Request)
    requires w.Valid() && w.Sendable() && p in w.everyone
    modifies w`strays, w`exact, w`channels, w`byName, w`matches, w`players, w`allChannels, w`allMatches, w`allSlots
    modifies w.everyone, w.allChannels`players, w.allMatches, w.allSlots
    ensures w.Valid() && w.Sendable() && Grown(w)
    ensures forall h <- w.players :: h in old(w.players)
    ensures forall h | h in old(w.exact) && h in w.players && !RequestSpoils(p, r, h) :: h in w.exact
    ensures RequestDone(p, r, old(Pic(w)), Pic(w))
  {
    hide Sessions.Valid, Sessions.Sendable, Breaks, Creates, RequestDone, Pic;
    var harmful := Check(w, p, r);
    if harmful {
      HarmIsNotDone(w, p, r);
      return;
    }
    Handle(w, p, r);
  }

  method Step(w: Sessions, e: Event)
    requires w.Valid() && w.Sendable() && ByOneOf(w.everyone, e)
    modifies w`strays, w`exact, w`ever, w`channels, w`byName, w`byId, w`matches, w`players, w`allChannels, w`allMatches, w`allSlots
    modifies w.everyone, w.allChannels`players, w.allMatches, w.allSlots
    ensures w.Valid() && w.Sendable() && Grown(w)
    ensures forall h | h in old(w.exact) && h in w.players && !Spoils(e, h) && !IsLogin(e, h.id) :: h in w.exact
    ensures forall h <- w.players :: h in old(w.players) || (IsLogin(e, h.id) && (h.id !in old(w.ever) ==> h in w.exact))
    ensures forall id | id in w.ever :: id in old(w.ever) || IsLogin(e, id)
    ensures EventDone(e, old(Pic(w)), Pic(w))
  {
    hide Sessions.Valid, Sessions.Sendable, Pic, RequestDone, LoginDone, LateDone, ActsLate, Outcomes.Parts;
    OnlineAreKnown(w);
    match e {
      case LogIn(session, stale, admitted) => Arrive(w, session, stale, admitted);
      case From(sender, request) => Receive(w, sender, request);
      case Silence(target) => Hush(w, target);
      case Resumed(sender, data, known) => GoOn(w, sender, data, known);
      case Picked(cell, mapId, mods) => Finally(w, cell, Late.Pick(mapId, mods));
      case Scored(cell, scores) => Finally(w, cell, Late.Award(scores));
    }
  }

  lemma OnlineBefore(w: Sessions)
    requires w.Valid()
    ensures forall p <- w.players :: p.id in w.ever
  {
    Attendants(w);
  }

  lemma NoLogins()
    ensures forall id :: Logins([], id) == 0
  {
  }

  lemma OneMoreEvent(events: seq<Event>, i: nat)
    requires i < |events|
    ensures events[..i + 1] == events[..i] + [events[i]]
    ensures forall id :: Logins(events[..i + 1], id) == Logins(events[..i], id) + if IsLogin(events[i], id) then 1 else 0
  {
    forall id { LoginsSnoc(events, i, id); }
  }

  /**
   No run leaves the valid states. Whoever is online under an id that was new and has logged in once has an exact booth, unless
   they have watched themselves or been watched while restricted; and the booths that were exact stay so in the same way.
   */
  method Serve(w: Sessions, events: seq<Event>) returns (ghost trace: seq<Picture>)
    requires w.Valid() && w.Sendable() && forall e <- events :: ByOneOf(w.everyone, e)
    modifies w, w.everyone, w.allChannels, w.allMatches, w.allSlots
    ensures w.Valid() && w.Sendable() && Grown(w)
    ensures forall h <- w.players | h.id !in old(w.ever) && Logins(events, h.id) <= 1 && (forall e <- events :: !Spoils(e, h)) :: w.BoothIsExact(h)
    ensures forall h <- w.players | h in old(w.exact) && Logins(events, h.id) == 0 && (forall e <- events :: !Spoils(e, h)) :: w.BoothIsExact(h)
    ensures IsRun(events, trace) && |trace| == |events| + 1 && trace[0] == old(Pic(w)) && trace[|events|] == Pic(w)
  {
    hide Sessions.Valid, Sessions.Sendable, Spoils, IsLogin, Sessions.BoothIsExact, Logins, Pic, EventDone, IsRun;
    trace := [Pic(w)];
    FirstPicture(Pic(w));
    assert events[..0] == [];
    NoLogins();
    OnlineBefore(w);
    for i := 0 to |events|
      invariant w.Valid() && w.Sendable() && Grown(w) && w.everyone == old(w.everyone)
      invariant forall id | id in w.ever :: id in old(w.ever) || Logins(events[..i], id) > 0
      invariant forall h <- w.players | h.id !in old(w.ever) && Logins(events[..i], h.id) <= 1 && (forall e <- events[..i] :: !Spoils(e, h)) :: h in w.exact
      invariant forall h <- w.players | h in old(w.exact) && Logins(events[..i], h.id) == 0 && (forall e <- events[..i] :: !Spoils(e, h)) :: h in w.exact
      invariant |trace| == i + 1 && IsRun(events[..i], trace) && trace[0] == old(Pic(w)) && trace[i] == Pic(w)
    {
      OneMoreEvent(events, i);
      OnlineBefore(w);
      Step(w, events[i]);
      OneMorePicture(events, i, trace, Pic(w));
      trace := trace + [Pic(w)];
    }
    assert events[..|events|] == events;
    ExactBooths(w);
  }

  /** The same from the start: then every id is new. */
  method ServeFromStart(ghost sessions: set<Player>, channels: seq<Channel>, events: seq<Event>) returns (w: Sessions, ghost trace: seq<Picture>)
    requires forall p <- sessions :: Sessions.Blank(p)
    requires forall c <- channels :: c.name.Named? && !c.instance && c.players == []
    requires NoDup(channels) && forall c, d | c in channels && d in channels && c.name == d.name :: c == d
    requires forall e <- events :: ByOneOf(sessions, e)
    modifies sessions, channels
    ensures fresh(w) && w.Valid() && w.Sendable()
    ensures forall h <- w.players | Logins(events, h.id) <= 1 && (forall e <- events :: !Spoils(e, h)) :: w.BoothIsExact(h)
    ensures IsRun(events, trace) && |trace| == |events| + 1 && trace[|events|] == Pic(w)
    ensures trace[0].online == [] && trace[0].cells == seq(64, _ => null) && trace[0].tables == map[] && trace[0].slots == map[]
  {
    hide Sessions.Valid, Sessions.Initial, Sessions.Blank, NoDup, Spoils, Sessions.BoothIsExact, Logins, IsRun;
    w := new Sessions(sessions, channels);
    trace := Serve(w, events);
  }
}
