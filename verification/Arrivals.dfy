/** Logging out and in: what is left behind, and who takes whose place. */
module Arrivals {
  import opened Lists
  import opened Mods
  import opened MatchTypes
  import opened Entities
  import opened MatchHandlers
  import opened Sessions
  import opened Pictures
  import opened Outcomes
  import opened Server
  import opened Views
  import Scrim

  /** One turn of the loop in logout. */
  method LeaveFirst(w: Sessions, p: Player)
    requires w.Valid() && p in w.players && p !in w.exact && p.room == null && p.spectating == null && p.channels != []
    modifies w`channels, p`channels, w.allChannels`players
    ensures w.Valid() && |p.channels| == |old(p.channels)| - 1
    ensures old(p.channels[0]) in old(w.allChannels) && p in old(p.channels[0].players) && p !in old(p.channels[0]).players
    ensures forall c | c in w.allChannels :: c.players == if c == old(p.channels[0]) then Drop(old(c.players), p) else old(c.players)
  {
    hide *;
    var channel := p.channels[0];
    FirstIsKnown(w, p, channel);
    Dropped(channel.players, p);
    w.Parts();
    w.LeaveUnseated(p, channel);
    w.Whole();
  }

  lemma Dropped(s: seq<Player>, p: Player)
    requires p in s
    ensures Drop(s, p) == Without(s, p)
  {
  }

  lemma FirstIsKnown(w: Sessions, p: Player, c: Channel)
    requires w.Valid() && p in w.players && p.spectating == null && c in p.channels
    ensures p in w.everyone && c in w.allChannels && p in c.players && p.booth == null
  {
    assert p in w.everyone;
    NoBooth(w, p);
  }

  /** The last step of logout. */
  method Remove(w: Sessions, p: Player)
    requires w.Valid() && p in w.players && p in w.everyone && p !in w.exact && p.room == null && p.channels == []
    modifies w`players
    ensures w.Valid() && w.players == Without(old(w.players), p) && p !in w.players
  {
    hide *;
    w.Parts();
    w.RemovePlayer(p);
    w.Whole();
  }

  /** A player without room, host and channels is in no slot, list of spectators or channel. */
  lemma Gone(w: Sessions, p: Player)
    requires w.Valid() && p in w.everyone && p.room == null && p.spectating == null && p.channels == []
    ensures forall s | s in w.allSlots :: s.player != p
    ensures forall h | h in w.everyone :: p !in h.spectators
    ensures forall c | c in w.allChannels :: p !in c.players
    ensures forall m | m in w.allMatches && w.Live(m) :: p != m.hostPlayer && p !in m.referees
  {
  }

  /** leave_match, if the player is in one. */
  method LeaveRoom(w: Sessions, p: Player) returns (done: bool)
    requires w.Valid() && p in w.everyone
    modifies w`channels, w`matches, p`channels, p`room, w.allChannels`players
    modifies w.allMatches`hostId, w.allMatches`hostPlayer, w.allMatches`referees, w.allSlots
    ensures w.Valid() <==> done
    ensures done <==> old(p.MayGo())
    ensures if done then p.room == null else p.room != null && p.room == old(p.room) && forall s <- p.room.slots :: s.player != p
    ensures done && old(p.room) == null ==> Pic(w) == old(Pic(w))
    ensures done && old(p.room) != null ==> Outcomes.Parts(p, old(p.room), old(Pic(w)), Pic(w))
  {
    hide Sessions.Valid, Pic, Outcomes.Parts;
    if p.room == null { return true; }
    BusyIsOnline(w, p);
    RoomIsKnown(w, p);
    ChatIsOpen(w, p.room);
    SlotsAreKnown(w, p.room);
    done := LeaveSeen(w, p, p.room);
  }

  /** while self.channels: self.leave_channel(self.channels[0]). */
  method LeaveChannels(w: Sessions, p: Player)
    requires w.Valid() && p in w.everyone && p !in w.exact && p.room == null && p.spectating == null
    modifies w`channels, p`channels, w.allChannels`players
    ensures w.Valid() && p.channels == []
    ensures forall c | c in w.allChannels :: c.players == Drop(old(c.players), p)
  {
    hide Sessions.Valid, Without;
    while p.channels != []
      invariant w.Valid()
      invariant forall c | c in w.allChannels :: c.players == old(c.players) || (c.players == Drop(old(c.players), p) && p !in c.players)
      decreases |p.channels|
    {
      BusyIsOnline(w, p);
      LeaveFirst(w, p);
    }
    InNone(w, p);
  }

  lemma InNone(w: Sessions, p: Player)
    requires w.Valid() && p in w.everyone && p.channels == []
    ensures forall c | c in w.allChannels :: p !in c.players
  {
  }

  method ClearToken(w: Sessions, p: Player)
    requires w.Valid()
    modifies p`token
    ensures w.Valid() && p.token == ""
  {
    hide *;
    p.token := "";
  }

  /** The booth of p does not count as exact any more. */
  ghost method Disown(w: Sessions, p: Player)
    requires w.Valid()
    modifies w`exact
    ensures w.Valid() && w.exact == old(w.exact) - {p}
  {
    hide Sessions.Online, Sessions.Chats, Sessions.Spectators, Sessions.Seats, Sessions.Ledgers, Sessions.Registry, Sessions.Hosts, Sessions.Chatrooms;
    w.exact := w.exact - {p};
  }

  /** Out of the match, the booth and the channels. */
  method LeaveAll(w: Sessions, p: Player) returns (done: bool)
    requires w.Valid() && p in w.everyone && p !in w.exact
    modifies w`exact, w`channels, w`matches, p`room, w.allChannels`players
    modifies w.everyone`channels, w.everyone`spectators, w.everyone`spectating, w.everyone`booth
    modifies w.allMatches`hostId, w.allMatches`hostPlayer, w.allMatches`referees, w.allSlots
    ensures w.Valid() <==> done
    ensures forall q <- old(w.everyone) | q != p :: q.spectating == old(q.spectating)
    ensures done <==> old(p.MayGo())
    ensures w.exact == old(w.exact)
    ensures done ==> p.room == null && p.spectating == null && p.channels == []
    ensures !done ==> p.room != null && p.room == old(p.room) && forall s <- p.room.slots :: s.player != p
    ensures done ==> LoggedOut(p, old(Pic(w)), Pic(w).(online := Drop(old(w.players), p)))
  {
    hide *;
    Components(w);
    WatchingShows(w, p);
    ghost var a := Pic(w);
    done := LeaveRoom(w, p);
    if !done { return; }
    ghost var left := Pic(w);
    Components(w);
    StopSeen(w, p);
    ghost var idle := Pic(w);
    LeaveChannelsSeen(w, p);
    AllSteps(p, a, left, idle, Pic(w));
  }

  /** logout up to the removal from the list of players; the exception of leave_match ends it. */
  method LeaveEverything(w: Sessions, p: Player) returns (done: bool)
    requires w.Valid() && p in w.everyone
    modifies w`exact, w`channels, w`matches, p`token, p`room, w.allChannels`players
    modifies w.everyone`channels, w.everyone`spectators, w.everyone`spectating, w.everyone`booth
    modifies w.allMatches`hostId, w.allMatches`hostPlayer, w.allMatches`referees, w.allSlots
    ensures w.Valid() <==> done
    ensures forall q <- old(w.everyone) | q != p :: q.spectating == old(q.spectating)
    ensures done <==> old(p.MayGo())
    ensures p.token == "" && w.exact == old(w.exact) - {p}
    ensures done ==> p.room == null && p.spectating == null && p.channels == []
    ensures !done ==> p.room != null && p.room == old(p.room) && forall s <- p.room.slots :: s.player != p
    ensures done ==> LoggedOut(p, old(Pic(w)), Pic(w).(online := Drop(old(w.players), p)))
  {
    hide *;
    Disown(w, p);
    ClearToken(w, p);
    done := LeaveAll(w, p);
  }

  /** The channels, as seen. */
  method LeaveChannelsSeen(w: Sessions, p: Player)
    requires w.Valid() && p in w.everyone && p !in w.exact && p.room == null && p.spectating == null
    modifies w`channels, p`channels, w.allChannels`players
    ensures w.Valid() && p.channels == []
    ensures Pic(w) == old(Pic(w)).(members := Members(w)) && OutOf(p, false, old(Pic(w)), Pic(w))
  {
    hide *;
    Components(w);
    MembersShow(w);
    ghost var a := Pic(w);
    LeaveChannels(w, p);
    MembersShow(w);
    Composed(w, a.(members := Members(w)));
    OutOfAll(w, p, a);
  }

  lemma OutOfAll(w: Sessions, p: Player, a: Picture)
    requires Members(w).Keys == a.members.Keys && forall c | c in Members(w) :: Members(w)[c] == Drop(a.members[c], p)
    ensures OutOf(p, false, a, Pic(w))
  {
    hide Drop, Members, Rooms, Watching, InLobby, Tables, Slots;
  }

  /** The steps of a logout make up the whole. */
  lemma AllSteps(p: Player, a: Picture, left: Picture, idle: Picture, b: Picture)
    requires p in a.rooms && if a.rooms[p] == null then left == a else Outcomes.Parts(p, a.rooms[p], a, left)
    requires idle == left.(watching := left.watching[p := null]) && b == idle.(members := b.members) && OutOf(p, false, idle, b)
    ensures LoggedOut(p, a, b.(online := Drop(a.online, p)))
  {
    hide Drop, OnlyTable, OnlySlots, OutOf, IsFirst;
    assert OutOf(p, false, a, b.(online := Drop(a.online, p))) by { SameMembers(p, idle, b, a, b.(online := Drop(a.online, p))); }
    if a.rooms[p] != null { SameLeft(p, a.rooms[p], a, left, b.(online := Drop(a.online, p))); }
  }

  lemma SameMembers(p: Player, a: Picture, b: Picture, c: Picture, d: Picture)
    requires OutOf(p, false, a, b) && c.members == a.members && d.members == b.members
    ensures OutOf(p, false, c, d)
  {
    hide Drop;
  }

  /** Leaving a match is about registry, rooms, tables and slots. */
  lemma SameLeft(p: Player, m: Match, a: Picture, b: Picture, c: Picture)
    requires HasLeft(p, m, a, b) && c.cells == b.cells && c.rooms == b.rooms && c.tables == b.tables && c.slots == b.slots
    ensures HasLeft(p, m, a, c)
  {
  }

  /**
   logout; nothing refers to the player afterwards but those who still watch them. If leave_match raises, the
   player stays online, in a match where get_slot does not find them any more.
   */
  method Logout(w: Sessions, p: Player) returns (done: bool)
    requires w.Valid() && p in w.everyone
    modifies w`exact, w`channels, w`matches, w`players, p`token, p`room, w.allChannels`players
    modifies w.everyone`channels, w.everyone`spectators, w.everyone`spectating, w.everyone`booth
    modifies w.allMatches`hostId, w.allMatches`hostPlayer, w.allMatches`referees, w.allSlots
    ensures w.Valid() <==> done
    ensures forall q <- old(w.everyone) | q != p :: q.spectating == old(q.spectating)
    ensures done <==> old(p.MayGo())
    ensures p.token == "" && w.exact == old(w.exact) - {p}
    ensures done ==>
      && p.room == null && p.spectating == null && p.channels == []
      && w.players == (if p in old(w.players) then Without(old(w.players), p) else old(w.players)) && p !in w.players
      && (forall s | s in w.allSlots :: s.player != p)
      && (forall h | h in w.everyone :: p !in h.spectators)
      && (forall c | c in w.allChannels :: p !in c.players)
      && forall m | m in w.allMatches && w.Live(m) :: p != m.hostPlayer && p !in m.referees
    ensures !done ==>
      && w.players == old(w.players)
      && p.room != null && p.room == old(p.room) && forall s <- p.room.slots :: s.player != p
    ensures done ==> LoggedOut(p, old(Pic(w)), Pic(w))
  {
    hide *;
    OnlineAreKnown(w);
    ghost var online := w.players;
    done := LeaveEverything(w, p);
    if !done { return; }
    ghost var b := Pic(w);
    Components(w);
    if p in w.players { Remove(w, p); }
    DropIs(online, p);
    Composed(w, b.(online := Drop(online, p)));
    Gone(w, p);
  }

  lemma DropIs(s: seq<Player>, p: Player)
    ensures Drop(s, p) == if p in s then Without(s, p) else s
  {
  }

  /** Whoever is in a registered channel or watches somebody is online, and whoever is watched has been. */
  lemma Attendants(w: Sessions)
    requires w.Valid()
    ensures forall c, p | c in w.channels && p in c.players :: p in w.players
    ensures forall h, p | h in w.everyone && p in h.spectators :: p in w.players && h.id in w.ever
    ensures forall p <- w.players :: p.id in w.ever
  {
    w.Parts();
    forall h, p | h in w.everyone && p in h.spectators ensures p in w.players && h.id in w.ever { w.BoothOf(h, p); }
  }

  /** Whoever watches a session under the id. */
  ghost predicate Watches(q: Player, id: int)
    reads q`spectating, q.spectating
  {
    q.spectating != null && q.spectating.id == id
  }

  lemma BoothOfWatcher(w: Sessions, q: Player)
    requires w.Valid() && q in w.everyone && q.spectating != null
    ensures q.booth != null && q.booth in w.channels && q in q.booth.players && q.booth.name == Spec(q.spectating.id)
    ensures q in w.players && q.spectating.id in w.ever
  {
    Attendants(w);
    w.BoothOf(q.spectating, q);
  }

  /** Somebody in a spectator channel whose user is not online watches a session of that user. */
  lemma WhoIsInBooth(w: Sessions, c: Channel)
    requires w.Valid() && c in w.channels && c.name.Spec? && forall q <- w.players :: q.id != c.name.hostId
    ensures exists q <- w.players :: Watches(q, c.name.hostId)
  {
    Attendants(w);
    assert c.players != [];
    var q := c.players[0];
    assert q in c.players && q.booth == c;
    assert q.spectating != null;
  }

  /** Before a login: the booth of the new session will be exact if and only if nobody watches an earlier session under the id. */
  lemma NewBooth(w: Sessions, p: Player)
    requires w.Valid() && p in w.everyone && p !in w.players && forall q <- w.players :: q.id != p.id
    ensures w.Tight(p) <==> forall q <- w.players :: !Watches(q, p.id)
  {
    if q :| q in w.players && Watches(q, p.id) {
      BoothOfWatcher(w, q);
      Attendants(w);
      assert p !in q.booth.players;
    } else {
      forall c | c in w.channels ensures c.name != Spec(p.id) {
        if c.name == Spec(p.id) { WhoIsInBooth(w, c); }
      }
    }
  }

  lemma NewIdIsUnwatched(w: Sessions, id: int)
    requires w.Valid() && id !in w.ever
    ensures forall q <- w.players :: q.id != id && !Watches(q, id)
  {
    OnlineAreKnown(w);
    Attendants(w);
    forall q | q in w.players ensures !Watches(q, id) {
      if q.spectating != null { BoothOfWatcher(w, q); }
    }
  }

  /** NewBooth, about the session once it is online. */
  lemma ExactWhenTight(w: Sessions, p: Player)
    requires w.Valid() && p in w.players
    ensures w.Tight(p) <==> w.BoothIsExact(p)
  {
    w.TightIsExact(p);
  }

  method AdmitOnServer(w: Sessions, p: Player)
    requires w.Valid() && p in w.everyone && p !in w.players && forall q <- w.players :: q.id != p.id
    modifies w`players, w`byId, w`exact, w`ever
    ensures w.Valid() && w.players == old(w.players) + [p]
    ensures w.exact == old(w.exact) + (if w.Tight(p) then {p} else {}) && w.ever == old(w.ever) + {p.id}
    ensures w.Tight(p) <==> old(w.Tight(p))
    ensures Pic(w) == old(Pic(w)).(online := old(w.players) + [p])
  {
    hide *;
    Components(w);
    ghost var a := Pic(w);
    w.Parts();
    w.Admit(p);
    w.Whole();
    Composed(w, a.(online := a.online + [p]));
  }

  /** A session that is online under the id already is refused or, if it is stale, logged out; the exception of that logout ends the login. */
  method MakeWay(w: Sessions, id: int, stale: bool) returns (ok: bool, done: bool)
    requires w.Valid()
    modifies w`exact, w`channels, w`matches, w`players, w.everyone`token, w.everyone`room, w.allChannels`players
    modifies w.everyone`channels, w.everyone`spectators, w.everyone`spectating, w.everyone`booth
    modifies w.allMatches`hostId, w.allMatches`hostPlayer, w.allMatches`referees, w.allSlots
    ensures w.Valid() <==> done
    ensures done <==> !stale || forall q <- old(w.players) | q.id == id :: old(q.MayGo())
    ensures forall q <- old(w.everyone) | q.id != id :: q.spectating == old(q.spectating)
    ensures ok <==> done && (stale || forall q <- old(w.players) :: q.id != id)
    ensures forall h | h in old(w.exact) && h.id != id :: h in w.exact
    ensures ok ==> forall q :: q in w.players <==> q in old(w.players) && q.id != id
    ensures !ok ==> w.players == old(w.players)
    ensures !stale ==> w.matches == old(w.matches)
    ensures !stale || (forall q <- old(w.players) :: q.id != id) ==> Pic(w) == old(Pic(w))
    ensures done && stale ==> forall q <- old(w.players) | q.id == id :: LoggedOut(q, old(Pic(w)), Pic(w))
  {
    hide *;
    OnlineAreKnown(w);
    var existing := w.GetById(id);
    if existing == null { return true, true; }
    if !stale { return false, true; }
    SameId(w, existing);
    done := Logout(w, existing);
    ok := done;
  }

  /**
   A login by the new session p. admitted is the outcome of everything that comes after an older session is logged out:
   the password, and who may be online from where.
   */
  method Login(w: Sessions, p: Player, stale: bool, admitted: bool) returns (ok: bool, done: bool)
    requires w.Valid() && p in w.everyone && p !in w.players
    modifies w`exact, w`ever, w`channels, w`matches, w`players, w`byId, w.everyone`token, w.everyone`room, w.allChannels`players
    modifies w.everyone`channels, w.everyone`spectators, w.everyone`spectating, w.everyone`booth
    modifies w.allMatches`hostId, w.allMatches`hostPlayer, w.allMatches`referees, w.allSlots
    ensures w.Valid() <==> done
    ensures done <==> !stale || forall q <- old(w.players) | q.id == p.id :: old(q.MayGo())
    ensures ok <==> done && admitted && (stale || forall q <- old(w.players) :: q.id != p.id)
    ensures forall h | h in old(w.exact) && h.id != p.id :: h in w.exact
    ensures ok ==>
      && (p in w.exact <==> w.BoothIsExact(p))
      && (w.BoothIsExact(p) <==> forall q <- old(w.players) | q.id != p.id :: !old(Watches(q, p.id)))
    ensures w.ever == old(w.ever) + if ok then {p.id} else {}
    ensures ok ==> forall q :: q in w.players <==> q == p || (q in old(w.players) && q.id != p.id)
    ensures !ok ==> forall q :: q in w.players <==> q in old(w.players) && !(stale && done && q.id == p.id)
    ensures !stale ==> w.matches == old(w.matches)
    ensures done ==> LoginDone(p, stale, admitted, old(Pic(w)), Pic(w))
  {
    hide Sessions.Valid, Sessions.Tight, Sessions.BoothIsExact, Player.MayGo, Pic, LoggedOut, LoginDone;
    hide Rooms, Watching, InLobby, Members, Tables, Slots;
    OnlineAreKnown(w);
    Components(w);
    ghost var a := Pic(w);
    ok, done := MakeWay(w, p.id, stale);
    ghost var b := Pic(w);
    Components(w);
    ok := ok && admitted;
    if ok {
      ExactBooths(w);
      NewBooth(w, p);
      AdmitOnServer(w, p);
      ExactWhenTight(w, p);
    }
    if done { Comes(p, stale, admitted, ok, a, b, Pic(w)); }
  }

  /** Who is online after a login. */
  lemma Comes(p: Player, stale: bool, admitted: bool, ok: bool, a: Picture, b: Picture, c: Picture)
    requires p !in a.online && (!stale || (forall q <- a.online :: q.id != p.id) ==> b == a)
    requires stale ==> forall q <- a.online | q.id == p.id :: LoggedOut(q, a, b)
    requires c == if ok then b.(online := b.online + [p]) else b
    requires ok <==> admitted && (stale || forall q <- a.online :: q.id != p.id)
    ensures LoginDone(p, stale, admitted, a, c)
  {
    hide LoggedOut;
    assert (b.online + [p])[..|b.online|] == b.online;
    if q :| q in a.online && q.id == p.id && stale {
      assert Replaces(q, p, admitted, a, c);
    }
  }
}
