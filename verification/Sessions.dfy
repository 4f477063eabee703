/**
 The server's global state: who is online, which channels are registered, which match occupies
 which of the 64 registry cells, and the operations that change several objects at once.
 Valid() is what holds between any two packets.
 */
module Sessions {
  import opened Lists
  import opened Mods
  import opened MatchTypes
  import opened Entities
  import Scrim

  const LOBBY := Named("#lobby")
  const MAX_MATCHES := 64

  class Sessions {
    var players: seq<Player>
    var channels: seq<Channel>
    var matches: seq<Match?>

    // all session objects of the run, logged in or not, and every other object created so far, registered or not
    ghost var everyone: set<Player>
    ghost var allChannels: set<Channel>
    ghost var allMatches: set<Match>
    ghost var allSlots: set<Slot>

    // those online whose spectator channel is registered exactly when they are watched, with them and their spectators inside
    ghost var exact: set<Player>

    // the ids under which somebody has been online
    ghost var ever: set<int>

    // whoever acts without being online, during an operation; nobody between two
    ghost var strays: set<Player>

    // whom a lookup by id among those online finds, and what a lookup by channel name finds
    ghost var byId: map<int, Player>
    ghost var byName: map<ChannelName, Channel>

    /** A session that is new: it refers to nothing. */
    static ghost predicate Blank(p: Player)
      reads p
    {
      p.channels == [] && p.spectators == [] && p.spectating == null && p.room == null && p.booth == null
    }

    /** Nobody is online, there are no matches, and the channels are those of the database. */
    ghost predicate Initial()
      reads this, everyone, allChannels
    {
      && players == [] && |matches| == MAX_MATCHES && (forall i | 0 <= i < |matches| :: matches[i] == null)
      && (forall p | p in everyone :: Blank(p))
      && allMatches == {} && allSlots == {} && exact == {} && ever == {} && strays == {} && (forall c <- channels :: c in allChannels) && (forall c | c in allChannels :: c in channels)
      && NoDup(channels) && (forall c <- channels :: c.name.Named? && !c.instance && c.players == [])
      && forall c <- channels :: c.name in byName && byName[c.name] == c
    }

    constructor (ghost sessions: set<Player>, channels: seq<Channel>)
      requires forall p <- sessions :: Blank(p)
      requires forall c <- channels :: c.name.Named? && !c.instance && c.players == []
      requires NoDup(channels) && forall c, d | c in channels && d in channels && c.name == d.name :: c == d
      ensures Initial() && Valid() && everyone == sessions && this.channels == channels && players == []
      ensures |matches| == MAX_MATCHES && forall i | 0 <= i < |matches| :: matches[i] == null
      ensures allChannels == (set c | c in channels) && allMatches == {} && allSlots == {} && exact == {} && ever == {}
    {
      hide Online, Chats, Spectators, Seats, Ledgers, Registry, Hosts, Rooms, NoDup, Blank;
      players, matches := [], seq(MAX_MATCHES, _ => null);
      this.channels := channels;
      everyone, allChannels, allMatches, allSlots := sessions, set c | c in channels, {}, {};
      byId, byName, exact, ever, strays := map[], map c | c in channels :: c.name := c, {}, {}, {};
      new;
      InitialPeople();
      InitialMatches();
    }

    lemma InitialPeople()
      requires Initial()
      ensures Online() && Chats() && Spectators()
    {
    }

    lemma InitialMatches()
      requires Initial()
      ensures Seats() && Ledgers() && Registry() && Hosts() && Rooms()
    {
      hide Slot.Shape, Scrim.Ledger.Valid, Match.Ledger;
    }

    /** Online, or acting all the same. */
    ghost predicate Around(p: Player)
      reads this`players, this`strays
    {
      p in players || p in strays
    }

    /** Nobody is listed twice, and ids are unique among those online. */
    ghost predicate Online()
      reads this`players, this`everyone, this`byId
    {
      && NoDup(players)
      && (forall p <- players :: p in everyone && p.id in byId && byId[p.id] == p)
    }

    /** Channels and players agree on who is in which channel, without duplicates on either side. */
    ghost predicate Membership()
      reads this`everyone, this`allChannels, everyone`channels, allChannels`players
    {
      && (forall p <- everyone :: NoDup(p.channels))
      && (forall c <- allChannels :: NoDup(c.players))
      && (forall p, c | p in everyone && c in p.channels :: c in allChannels && p in c.players)
      && (forall p, c | c in allChannels && p in c.players :: p in everyone && c in p.channels)
    }

    /** Registered names are unique, and every channel that is public or has members is registered. */
    ghost predicate Names(pending: Channel? := null)
      reads this`channels, this`allChannels, this`byName, allChannels`players
    {
      && NoDup(channels)
      && (forall c <- channels :: c in allChannels && c.name in byName && byName[c.name] == c)
      && (forall c <- channels :: if c.name.Named? then !c.instance else c.instance && c.readPriv == UNRESTRICTED)
      && (forall c <- allChannels | (c.players != [] && c != pending) || c.name.Named? :: c in channels)
    }

    /** No instance channel is registered without members. */
    ghost predicate NoEmptyInstance(pending: Channel? := null)
      reads this`channels, channels`players
    {
      forall c <- channels | c.instance && c != pending :: c.players != []
    }

    /**
     spectators lists and spectating pointers are inverse to each other, without duplicates, and a
     spectator's booth is a channel of the player they watch. The newcomer is a player who has
     entered a booth but does not point at its host yet.
     */
    ghost predicate Spectators(newcomer: Player? := null)
      reads this`everyone, this`strays, everyone`spectators, everyone`spectating, everyone`booth
    {
      && (forall h <- everyone :: NoDup(h.spectators))
      && (forall h, s | h in everyone && s in h.spectators :: s in everyone && s.spectating == h)
      && (forall s {:trigger s.spectating} | s in everyone && s.spectating != null ::
            s.spectating in everyone && s in s.spectating.spectators)
      && (forall s {:trigger s.booth} | s in everyone && s != newcomer :: s.spectating == null <==> s.booth == null)
      && (forall s {:trigger s.booth} | s in everyone && s.spectating != null && s.booth != null ::
            s.booth.name == Spec(s.spectating.id) && (s.spectating.id == s.id && s !in strays ==> s.spectating == s))
    }

    /**
     A spectator is a member of their booth, which is registered; and only spectators and the
     sessions of the watched user are members of a spectator channel. The leaver has left already.
     */
    ghost predicate Booths(leaver: Player? := null)
      reads this`channels, this`everyone, everyone`booth, channels`players
    {
      && (forall s {:trigger s.booth} | s in everyone && s != leaver && s.booth != null :: s.booth in channels && s in s.booth.players)
      && (forall c, p | c in channels && c.name.Spec? && p in c.players ::
            p in everyone && (p.id == c.name.hostId || p.booth == c))
    }

    /** What channels, their members and the registry of channels agree on. */
    ghost predicate Chats(pending: Channel? := null)
      reads this`everyone, this`allChannels, this`channels, this`byName,
            everyone`channels, everyone`booth, allChannels`players, channels`players
    {
      Membership() && Names() && NoEmptyInstance(pending) && Booths()
    }

    ghost predicate Live(m: Match)
      reads this`matches
    {
      0 <= m.id < |matches| && matches[m.id] == m
    }

    /** The slots of all matches are different objects, and each knows its match. */
    ghost predicate Layouts()
      reads this`allMatches, this`allSlots, allSlots`home
    {
      && (forall m, s | m in allMatches && s in m.slots :: s in allSlots && s.home == m)
      && (forall m | m in allMatches :: |m.slots| == 16)
      && (forall m, i | m in allMatches && 0 <= i < |m.slots| :: m.slots[i].index == i)
      && (forall s {:trigger s.home} | s in allSlots :: s.home in allMatches && s in s.home.slots)
    }

    /** A player's room is m exactly when one and only one slot of m holds the player. The leaver has no seat any more. */
    ghost predicate Seating(leaver: Player? := null)
      reads this`everyone, this`allMatches, this`allSlots, allSlots`home, allSlots`player, everyone`room, everyone`seat
    {
      && (forall s {:trigger s.player} | s in allSlots && s.player != null ::
            s.player in everyone && s.player != leaver && s.player.room == s.home && s.player.seat == s)
      && (forall p {:trigger p.room} | p in everyone && p != leaver && p.room != null ::
            p.room in allMatches && p.seat in allSlots && p.seat.home == p.room && p.seat.player == p)
    }

    ghost predicate Shapes()
      reads this`allMatches, this`allSlots, allSlots, allMatches`inProgress, allMatches`teamType
    {
      forall s {:trigger s.home} | s in allSlots :: s.home in allMatches && s.Shape(s.home.inProgress, s.home.teamType)
    }

    ghost predicate OpenSlotsAreEmpty()
      reads this`allSlots, allSlots`status, allSlots`player
    {
      forall s {:trigger s.status} | s in allSlots && s.status == Open :: s.player == null
    }

    /** The mods of a match that was created split are split between match and slots. */
    ghost predicate Splits()
      reads this`allMatches, this`allSlots, allSlots`home, allSlots`mods, allMatches`freemods, allMatches`mods
    {
      && (forall m {:trigger m.mods} | m in allMatches && m.bornSplit && m.freemods :: FreePart(m.mods) == NOMOD)
      && (forall s {:trigger s.mods} | s in allSlots && s.home in allMatches && s.home.bornSplit ::
            if s.home.freemods then SpeedPart(s.mods) == NOMOD else s.mods == NOMOD)
    }

    /** What slots, players and matches agree on. */
    ghost predicate Seats(leaver: Player? := null)
      reads this`everyone, this`allMatches, this`allSlots, allSlots, everyone`room, everyone`seat,
            allMatches`inProgress, allMatches`teamType, allMatches`freemods, allMatches`mods
    {
      Layouts() && Seating(leaver) && Shapes() && OpenSlotsAreEmpty() && Splits()
    }

    ghost predicate Ledgers()
      reads this`allMatches, allMatches`isScrimming, allMatches`matchPoints, allMatches`winners, allMatches`winningPts
    {
      forall m | m in allMatches :: m.Ledger().Valid()
    }

    /** The match in cell i has id i; whoever is in a match is online, and the match is in the registry. */
    ghost predicate Registry(leaver: Player? := null)
      reads this`players, this`strays, this`matches, this`allMatches, this`everyone, everyone`room
    {
      && |matches| == MAX_MATCHES
      && (forall i {:trigger matches[i]} | 0 <= i < |matches| && matches[i] != null :: matches[i] in allMatches && matches[i].id == i)
      && (forall p {:trigger p.room} | p in everyone && p != leaver && p.room != null :: Live(p.room))
      && (forall p {:trigger p.room} | p in everyone && p.room != null :: p in players || p in strays)
    }

    /** Host and referees of a registered match are in it. The newborn match waits for its creator to join, or has a host who is not online. */
    ghost predicate Hosts(newborn: Match? := null)
      reads this`players, this`matches, this`allMatches, this`everyone, everyone`room,
            allMatches`hostId, allMatches`hostPlayer, allMatches`referees
    {
      && (forall m {:trigger m.hostPlayer} | m in allMatches && Live(m) && (m != newborn || m.hostPlayer != null) ::
            && m.hostPlayer in players && m.hostPlayer in everyone
            && m.hostPlayer.id == m.hostId && (m != newborn ==> m.hostPlayer.room == m))
      && (forall m, r | m in allMatches && Live(m) && r in m.referees :: r in everyone && r.room == m)
    }

    /** h, who is none of them, is inside with exactly those who watch h. */
    static ghost predicate Inside(members: seq<Player>, spectators: seq<Player>, h: Player) {
      && h in members && h !in spectators
      && (forall p <- spectators :: p in members) && (forall p <- members :: p == h || p in spectators)
    }

    /** The spectator channel of h is registered exactly when h is watched, with h and the spectators as members. */
    ghost predicate BoothIsExact(h: Player)
      reads this`channels, channels`players, h`spectators
    {
      && (h.spectators != [] <==> exists c <- channels :: c.name == Spec(h.id))
      && forall c <- channels | c.name == Spec(h.id) :: Inside(c.players, h.spectators, h)
    }

    /** BoothIsExact without what holds of every booth. */
    ghost predicate Tight(h: Player)
      reads this`channels, channels`players, h`spectators
    {
      forall c <- channels | c.name == Spec(h.id) :: h.spectators != [] && Inside(c.players, h.spectators, h)
    }

    /** Whoever is in a registered channel is online; and whoever is online or has a spectator channel has been online. */
    ghost predicate Attendance()
      reads this`players, this`strays, this`channels, this`ever, channels`players
    {
      && (forall c, p | c in channels && p in c.players :: p in players || p in strays)
      && (forall p <- players :: p.id in ever)
      && (forall c <- channels | c.name.Spec? :: c.name.hostId in ever)
    }

    ghost predicate Exact()
      reads this`exact, this`players, this`strays, this`channels, this`ever, channels`players, exact`spectators
    {
      (forall h | h in exact :: h in players && Tight(h)) && Attendance()
    }

    lemma TightIsExact(h: Player)
      requires Chats() && Spectators() && h in everyone
      ensures Tight(h) <==> BoothIsExact(h)
    {
      if h.spectators != [] { BoothOf(h, h.spectators[0]); }
    }

    /**
     The chat of a registered match has its players as members. The mover is between the two:
     on the way into target, or out of their room.
     */
    ghost predicate Chatrooms(mover: Player? := null, target: Match? := null)
      reads this`matches, this`allMatches, this`everyone, this`channels, this`allChannels, everyone`room, allChannels`players
    {
      && (forall m {:trigger m.chat} | m in allMatches ::
            m.chat in allChannels && m.chat.instance && m.chat.name == Multi(m.id))
      && (forall m, p | m in allMatches && m.chat in allChannels && Live(m) && p in m.chat.players ::
            p in everyone && (p.room == m || (p == mover && m == target)))
      && (forall p {:trigger p.room} | p in everyone && p.room != null && p != mover ::
            p.room in allMatches && p.room.chat in allChannels && p in p.room.chat.players)
      && (forall c | c in channels && c.name.Multi? ::
            0 <= c.name.matchId < |matches| && matches[c.name.matchId] != null && matches[c.name.matchId].chat == c)
    }

    /** What holds of the members of the two kinds of instance channels. */
    ghost predicate Rooms(mover: Player? := null, target: Match? := null)
      reads this`matches, this`allMatches, this`everyone, this`channels, this`allChannels, everyone`room, allChannels`players,
            this`exact, this`players, this`strays, this`ever, channels`players, exact`spectators
    {
      Exact() && Chatrooms(mover, target)
    }

    /** Every match can be sent to clients. */
    ghost predicate Sendable()
      reads this`allMatches
    {
      forall m | m in allMatches :: m.seed >= 0
    }

    ghost predicate Valid()
      reads this, everyone`channels, everyone`spectators, everyone`spectating, everyone`booth, everyone`room, everyone`seat,
            allChannels`players, channels`players, exact`spectators, allMatches, allSlots
    {
      strays == {} && Online() && Chats() && Spectators() && Seats() && Ledgers() && Registry() && Hosts() && Rooms()
    }

    /** All of Valid() that does not depend on what goes on inside a match. */
    ghost predicate Elsewhere()
      reads this, everyone`channels, everyone`booth, everyone`spectators, everyone`spectating, everyone`room,
            allChannels`players, channels`players, exact`spectators, allMatches`hostId, allMatches`hostPlayer, allMatches`referees
    {
      strays == {} && Online() && Chats() && Spectators() && Registry() && Hosts() && Rooms()
    }

    /** All of Valid() but what it says about hosts and referees. */
    ghost predicate ApartFromHosts()
      reads this, everyone`channels, everyone`spectators, everyone`spectating, everyone`booth, everyone`room, everyone`seat,
            allChannels`players, channels`players, exact`spectators, allSlots, allMatches`inProgress, allMatches`teamType,
            allMatches`freemods, allMatches`mods, allMatches`isScrimming, allMatches`matchPoints, allMatches`winners, allMatches`winningPts
    {
      strays == {} && Online() && Chats() && Spectators() && Seats() && Ledgers() && Registry() && Rooms()
    }

    lemma Parts()
      requires Valid()
      ensures strays == {} && Online() && Chats() && Spectators() && Seats() && Ledgers() && Registry() && Hosts() && Rooms()
    {
    }

    lemma Whole()
      requires strays == {} && Online() && Chats() && Spectators() && Seats() && Ledgers() && Registry() && Hosts() && Rooms()
      ensures Valid()
    {
    }

    lemma SplitMatches()
      requires Valid()
      ensures Elsewhere() && Seats() && Ledgers()
    {
    }

    lemma JoinMatches()
      requires Elsewhere() && Seats() && Ledgers()
      ensures Valid()
    {
    }

    lemma SplitHosts()
      requires Valid()
      ensures strays == {} && ApartFromHosts() && Seats() && Registry() && Hosts()
    {
    }

    lemma JoinHosts()
      requires ApartFromHosts() && Hosts()
      ensures Valid()
    {
    }

    method GetByName(name: ChannelName) returns (r: Channel?)
      ensures r == null ==> forall c <- channels :: c.name != name
      ensures r != null ==> r in channels && r.name == name
    {
      for i := 0 to |channels|
        invariant forall j | 0 <= j < i :: channels[j].name != name
      {
        if channels[i].name == name { return channels[i]; }
      }
      return null;
    }

    method GetById(id: int) returns (r: Player?)
      ensures r == null ==> forall p <- players :: p.id != id
      ensures r != null ==> r in players && r.id == id
    {
      for i := 0 to |players|
        invariant forall j | 0 <= j < i :: players[j].id != id
      {
        if players[i].id == id { return players[i]; }
      }
      return null;
    }

    ghost predicate MayJoin(p: Player, c: Channel)
      reads p`inLobby, c`players
    {
      p !in c.players && c.CanRead(p.priv) && (c.name == LOBBY ==> p.inLobby)
    }

    method JoinChannel(p: Player, c: Channel) returns (ok: bool)
      requires p in everyone && c in allChannels && Membership()
      modifies p`channels, c`players
      ensures Membership()
      ensures ok == old(MayJoin(p, c))
      ensures c.players == if ok then old(c.players) + [p] else old(c.players)
      ensures p.channels == if ok then old(p.channels) + [c] else old(p.channels)
    {
      hide NoDup;
      hide Channel.CanRead;
      if p in c.players || !c.CanRead(p.priv) || (c.name == LOBBY && !p.inLobby) {
        return false;
      }
      AppendNoDup(c.players, p);
      AppendNoDup(p.channels, c);
      c.players := c.players + [p];
      p.channels := p.channels + [c];
      return true;
    }

    /** JoinChannel for a registered channel. */
    method JoinRegistered(p: Player, c: Channel) returns (ok: bool)
      requires p in everyone && c in channels && Membership() && Names() && NoEmptyInstance(c)
      modifies p`channels, c`players
      ensures Membership() && Names() && NoEmptyInstance(c)
      ensures c.players != [] ==> NoEmptyInstance()
      ensures ok == old(MayJoin(p, c))
      ensures c.players == if ok then old(c.players) + [p] else old(c.players)
      ensures p.channels == if ok then old(p.channels) + [c] else old(p.channels)
    {
      hide NoDup, Membership, Channel.CanRead;
      ok := JoinChannel(p, c);
    }

    method LeaveChannel(p: Player, c: Channel)
      requires p in everyone && c in allChannels && Membership() && Names() && NoEmptyInstance()
      modifies this`channels, p`channels, c`players
      ensures Membership() && Names() && NoEmptyInstance()
      ensures p !in c.players && c !in p.channels
      ensures p !in old(c.players) ==> c.players == old(c.players) && p.channels == old(p.channels) && channels == old(channels)
      ensures p in old(c.players) ==>
        && c in old(p.channels) && c in old(channels)
        && c.players == Without(old(c.players), p)
        && p.channels == Without(old(p.channels), c)
        && channels == if c.instance && c.players == [] then Without(old(channels), c) else old(channels)
    {
      hide NoDup, Without;
      if p !in c.players { return; }
      c.players := Without(c.players, p);
      if c.players == [] && c.instance {
        channels := Without(channels, c);
      }
      p.channels := Without(p.channels, c);
    }

    /** A channel object that is not registered yet. */
    method NewInstance(name: ChannelName) returns (c: Channel)
      requires !name.Named? && Membership() && Names() && NoEmptyInstance()
      modifies this`allChannels
      ensures fresh(c) && c.name == name && c.instance && c.readPriv == UNRESTRICTED && c.players == []
      ensures allChannels == old(allChannels) + {c}
      ensures Membership() && Names() && NoEmptyInstance()
    {
      c := new Channel(name, true);
      assert NoDup(c.players);
      hide NoDup;
      allChannels := allChannels + {c};
    }

    /** sessions.channels.append for a channel whose name is not taken. */
    method Register(c: Channel)
      requires Booths() && (c.name.Spec? ==> forall p <- c.players :: p in everyone && p.id == c.name.hostId)
      requires c in allChannels && c.instance && !c.name.Named? && c.readPriv == UNRESTRICTED
      requires forall d <- channels :: d.name != c.name
      requires Names(c) && NoEmptyInstance()
      modifies this`channels, this`byName
      ensures channels == old(channels) + [c]
      ensures Names() && NoEmptyInstance(c) && Booths()
    {
      hide NoDup;
      AppendNoDup(channels, c);
      channels := channels + [c];
      byName := byName[c.name := c];
    }

    /** The spectator channel of h, created with h as its first member if there is none. */
    method OpenBooth(h: Player) returns (c: Channel)
      requires h in everyone && Chats()
      modifies this`channels, this`allChannels, this`byName, h`channels
      ensures Chats(c)
      ensures c in channels && c.name == Spec(h.id) && c.instance && old(allChannels) <= allChannels <= old(allChannels) + {c}
      ensures c in old(allChannels) || fresh(c)
      ensures c in old(channels) ==> c in old(allChannels) && channels == old(channels) && h.channels == old(h.channels)
      ensures c !in old(channels) ==>
        && fresh(c) && channels == old(channels) + [c]
        && (forall d <- old(channels) :: d.name != Spec(h.id))
        && c.players == if !h.Restricted() then [h] else []
    {
      hide Channel.CanRead, Player.Restricted;
      hide NoDup, Membership, Booths;
      var name := Spec(h.id);
      var found := GetByName(name);
      if found != null { return found; }
      c := NewInstance(name);
      ReadsInstances(h, c);
      var _ := JoinChannel(h, c);
      Register(c);
    }
 
    lemma IdsAreUnique(p: Player, q: Player)
      requires Online() && p in players && q in players && p.id == q.id
      ensures p == q
    {
    }

    lemma OnlyTheHostIsInside(h: Player, p: Player, c: Channel)
      requires Online() && Chats(c) && h in players && p in players && p.booth == null
      requires c in channels && c.name == Spec(h.id) && p in c.players
      ensures p == h
    {
    }

    lemma InNone(p: Player, c: Channel)
      requires Chats(c) && p in everyone && c in channels && p.channels == []
      ensures p !in c.players
    {
    }

    lemma MayEnter(p: Player, c: Channel, pending: Channel?)
      requires Chats(pending) && c in channels && c.instance
      ensures MayJoin(p, c) <==> p !in c.players && !p.Restricted()
    {
      ReadsInstances(p, c);
    }

    /** Whoever watches nobody may get a booth first. */
    twostate lemma BoothComesFirst(p: Player)
      requires old(Spectators()) && everyone == old(everyone) && strays == old(strays) && p in everyone && old(p.booth == null)
      requires forall s <- everyone :: s.spectators == old(s.spectators) && s.spectating == old(s.spectating) && (s != p ==> s.booth == old(s.booth))
      ensures Spectators(p)
    {
      hide NoDup;
    }

    method EnterBooth(h: Player, p: Player, c: Channel) returns (ok: bool)
      requires p in everyone && p.booth == null
      requires c in channels && c.name == Spec(h.id)
      requires Membership() && Names() && NoEmptyInstance(c) && Booths() && Spectators()
      modifies p`channels, p`booth, c`players
      ensures Membership() && Names() && NoEmptyInstance(c) && Booths() && Spectators(p)
      ensures c.players != [] ==> NoEmptyInstance()
      ensures ok == old(MayJoin(p, c))
      ensures ok ==> c.players == old(c.players) + [p] && p.channels == old(p.channels) + [c] && p.booth == c
      ensures !ok ==> c.players == old(c.players) && p.channels == old(p.channels) && p.booth == null
    {
      hide NoDup, Membership, NoEmptyInstance, Channel.CanRead, Player.Restricted, MayJoin, Names, Spectators;
      ok := JoinRegistered(p, c);
      if ok { p.booth := c; }
      BoothComesFirst(p);
    }

    /** EnterBooth, put together. */
    method JoinBooth(h: Player, p: Player, c: Channel) returns (ok: bool)
      requires p in everyone && p.booth == null
      requires c in channels && c.name == Spec(h.id)
      requires Chats(c) && Spectators()
      modifies p`channels, p`booth, c`players
      ensures Chats(c) && Spectators(p)
      ensures c.players != [] ==> Chats()
      ensures ok == old(MayJoin(p, c))
      ensures ok ==> c.players == old(c.players) + [p] && p.channels == old(p.channels) + [c] && p.booth == c
      ensures !ok ==> c.players == old(c.players) && p.channels == old(p.channels) && p.booth == null
    {
      hide Membership, Names, NoEmptyInstance, Booths, Spectators, MayJoin;
      ok := EnterBooth(h, p, c);
    }

    /** The pointers that make p a spectator of h. */
    method Watch(h: Player, p: Player)
      requires h in everyone && p in everyone && p.spectating == null && (p.id == h.id && p !in strays ==> p == h)
      requires Spectators(p) && p.booth != null && p.booth.name == Spec(h.id)
      modifies h`spectators, p`spectating
      ensures h.spectators == old(h.spectators) + [p] && p.spectating == h
      ensures Spectators()
    {
      hide NoDup;
      AppendNoDup(h.spectators, p);
      h.spectators := h.spectators + [p];
      p.spectating := h;
    }

    method AddSpectator(h: Player, p: Player) returns (ok: bool, ghost c: Channel)
      requires h in players && (p in players || (p in strays && p.channels == [])) && p.spectating == null && !p.Restricted()
      requires h in everyone && p in everyone && p.booth == null
      requires Online() && Chats() && Spectators()
      modifies this`channels, this`allChannels, this`byName, h`channels, h`spectators, p`channels, p`spectating, p`booth, allChannels`players
      ensures Chats() && Spectators()
      ensures h.spectators == if ok then old(h.spectators) + [p] else old(h.spectators)
      ensures p.spectating == if ok then h else null
      ensures p != h ==> ok
      ensures c in channels && c.name == Spec(h.id) && old(allChannels) <= allChannels <= old(allChannels) + {c}
      ensures c in old(allChannels) || fresh(c)
      ensures forall d <- old(allChannels) | d != c :: d.players == old(d.players)
      ensures c in old(channels) ==> channels == old(channels) && c.players == old(c.players) + if ok then [p] else []
      ensures c !in old(channels) ==>
        && fresh(c) && channels == old(channels) + [c]
        && (forall d <- old(channels) :: d.name != Spec(h.id))
        && c.players == (if h.Restricted() then [] else [h]) + if ok then [p] else []
    {
      hide *;
      var specChan := OpenBooth(h);
      c := specChan;
      if p in players {
        if p in c.players { OnlyTheHostIsInside(h, p, c); }
        if p.id == h.id { IdsAreUnique(p, h); }
      } else {
        InNone(p, c);
      }
      MayEnter(p, c, c);
      ok := JoinBooth(h, p, specChan);
      if !ok { return; }
      Watch(h, p);
    }

    /** p leaves their booth c. */
    method QuitBooth(p: Player, c: Channel)
      requires p in everyone && c in allChannels && p.booth == c && p in c.players && c.instance
      requires Chats()
      modifies this`channels, p`channels, c`players
      ensures Membership() && Names() && NoEmptyInstance() && Booths(p)
      ensures c in old(channels) && c.players == Without(old(c.players), p) && p !in c.players
      ensures channels == if c.players == [] then Without(old(channels), c) else old(channels)
      ensures c in old(p.channels) && p.channels == Without(old(p.channels), c)
    {
      hide NoDup, Without, Membership, NoEmptyInstance;
      LeaveChannel(p, c);
    }

    /** p does not count as inside any more. */
    method ForgetBooth(p: Player)
      requires p in everyone && p.booth != null && p !in p.booth.players
      requires p.spectating == null && Spectators(p)
      requires Membership() && Names() && NoEmptyInstance() && Booths(p)
      modifies p`booth
      ensures p.booth == null && Spectators() && Chats()
    {
      hide NoDup, Membership, Names, NoEmptyInstance;
      p.booth := null;
    }

    /** Both. */
    method LeaveBooth(p: Player, c: Channel)
      requires p in everyone && c in allChannels && p.booth == c && p in c.players && c.instance
      requires p.spectating == null && Spectators(p)
      requires Chats()
      modifies this`channels, p`channels, p`booth, c`players
      ensures Chats()
      ensures p.booth == null && c in old(channels) && Spectators()
      ensures c.players == Without(old(c.players), p)
      ensures channels == if c.players == [] then Without(old(channels), c) else old(channels)
      ensures c in old(p.channels) && p.channels == Without(old(p.channels), c)
    {
      hide *;
      QuitBooth(p, c);
      ForgetBooth(p);
    }

    /** Leaving any channel that is not one's booth changes nothing for those who are in a booth. */
    method LeaveOther(p: Player, c: Channel)
      requires p in everyone && c in allChannels && p.booth != c
      requires Chats()
      modifies this`channels, p`channels, c`players
      ensures Chats()
      ensures p !in c.players && c !in p.channels
      ensures p !in old(c.players) ==> c.players == old(c.players) && p.channels == old(p.channels) && channels == old(channels)
      ensures p in old(c.players) ==>
        && c in old(p.channels) && c in old(channels)
        && c.players == Without(old(c.players), p)
        && p.channels == Without(old(p.channels), c)
        && channels == if c.instance && c.players == [] then Without(old(channels), c) else old(channels)
    {
      hide NoDup, Without, Membership, NoEmptyInstance, Names;
      LeaveChannel(p, c);
    }

    /** The pointers that end p's watching h; the booth is left afterwards. */
    method Unwatch(h: Player, p: Player)
      requires h in everyone && p in h.spectators && Spectators()
      modifies h`spectators, p`spectating
      ensures Spectators(p)
      ensures h.spectators == Without(old(h.spectators), p) && p.spectating == null
    {
      hide NoDup, Without;
      assert NoDup(h.spectators);
      h.spectators := Without(h.spectators, p);
      assert NoDup(h.spectators) && forall q :: q in h.spectators <==> q in old(h.spectators) && q != p;
      p.spectating := null;
      forall g, s | g in everyone && s in g.spectators ensures s in everyone && s.spectating == g {
        assert s in old(g.spectators) && (g == h ==> s != p);
      }
      forall s | s in everyone && s.spectating != null ensures s.spectating in everyone && s in s.spectating.spectators {
        assert s != p && s in old(s.spectating.spectators);
      }
    }

    /** What the booth of a spectator of h is, and what a lookup by name finds. */
    lemma BoothOf(h: Player, p: Player)
      requires Chats() && Spectators() && h in everyone && p in h.spectators
      ensures p in everyone && p.spectating == h
      ensures p.booth != null && p.booth in channels && p in p.booth.players && p.booth.name == Spec(h.id)
      ensures p.booth in allChannels && p.booth.instance
      ensures forall c <- channels | c.name == Spec(h.id) :: c == p.booth
    {
      assert p.spectating == h;
    }

    lemma OutsideOwnBooth(h: Player, c: Channel)
      requires strays == {}
      requires Spectators() && h in everyone && h.spectators == [] && c.name == Spec(h.id)
      ensures h.booth != c
    {
    }

    method RemoveSpectator(h: Player, p: Player)
      requires strays == {}
      requires h in everyone && p in h.spectators
      requires Chats() && Spectators()
      modifies this`channels, h`channels, h`spectators, p`channels, p`spectating, p`booth, p.booth`players
      ensures Chats() && Spectators()
      ensures h.spectators == Without(old(h.spectators), p) && p.spectating == null
      ensures old(p.booth) != null
      ensures var c: Channel := old(p.booth);
        && c in old(channels) && p in old(c.players) && c.name == Spec(h.id)
        && (var rest := Without(old(c.players), p);
            && c.players == (if h.spectators == [] && h in rest then Without(rest, h) else rest)
            && channels == (if c.players == [] then Without(old(channels), c) else old(channels)))
    {
      hide *;
      BoothOf(h, p);
      ghost var c: Channel := p.booth;
      Unwatch(h, p);
      var channel := GetByName(Spec(h.id));
      assert channel != null;
      assert channel == c;
      LeaveBooth(p, channel);
      if h.spectators == [] {
        OutsideOwnBooth(h, channel);
        LeaveOther(h, channel);
      }
    }

    /** Whom the lookup of an id finds. */
    ghost function Found(id: int): Player?
      reads this`players, this`byId
    {
      if id in byId && byId[id] in players && byId[id].id == id then byId[id] else null
    }

    /** m.hostPlayer is whom the lookup of the host's id finds. */
    ghost predicate FindsHost(m: Match)
      reads this`players, this`everyone, m`hostId, m`hostPlayer
    {
      if m.hostPlayer == null then forall q <- players :: q.id != m.hostId
      else m.hostPlayer in players && m.hostPlayer in everyone && m.hostPlayer.id == m.hostId
    }

    lemma HostIsFound(m: Match)
      requires Online() && m.hostPlayer == Found(m.hostId)
      ensures FindsHost(m)
      ensures forall q <- players | q.id == m.hostId :: m.hostPlayer == q
    {
    }

    lemma HostsAreFound(m: Match)
      requires Hosts() && m in allMatches && Live(m)
      ensures FindsHost(m) && m.hostPlayer != null
    {
    }

    /** The lookup behind a match's host property; null stands for the exception when it finds nobody. */
    method GetHost(m: Match) returns (r: Player?)
      requires Online() && FindsHost(m)
      ensures r == m.hostPlayer
    {
      r := GetById(m.hostId);
      if r != null && m.hostPlayer != null { IdsAreUnique(r, m.hostPlayer); }
    }

    /** matches.get_free: the first empty cell. */
    method GetFreeCell() returns (r: Option<nat>)
      ensures r.Some? ==> r.value < |matches| && matches[r.value] == null && forall i | 0 <= i < r.value :: matches[i] != null
      ensures r.None? ==> forall i | 0 <= i < |matches| :: matches[i] != null
    {
      for i := 0 to |matches|
        invariant forall j | 0 <= j < i :: matches[j] != null
      {
        if matches[i] == null { return Some(i); }
      }
      return None;
    }

    /** matches.remove: clears the first cell that holds m. */
    method RemoveMatch(m: Match)
      requires |matches| == MAX_MATCHES && Live(m)
      requires forall i | 0 <= i < |matches| && matches[i] == m :: i == m.id
      modifies this`matches
      ensures matches == old(matches)[m.id := null]
    {
      for i := 0 to |matches|
        invariant matches == old(matches)
        invariant i <= m.id
      {
        if matches[i] == m {
          matches := matches[i := null];
          return;
        }
      }
    }

    /** First part of leave_match: the slot that holds p is emptied, and stays locked if it was. */
    method VacateSeat(p: Player, m: Match) returns (ghost slot: Slot)
      requires p in everyone && m in allMatches && p.room == m
      requires Seats()
      modifies m.slots
      ensures slot in m.slots && slot == p.seat && old(slot.player) == p
      ensures slot.player == null && slot.State() == Vacant(if old(slot.status) == Locked then Locked else Open)
      ensures forall s <- m.slots | s != slot :: unchanged(s)
      ensures Seats(p)
    {
      hide SpeedPart, FreePart, Layouts;
      OwnSeat(p, m);
      NoModsAreSplit();
      var mine := m.GetSlot(p);
      assert mine != null;
      slot := mine;
      var newStatus := if mine.status == Locked then Locked else Open;
      mine.Reset(newStatus);
      assert Seating(p) by { hide Shapes, OpenSlotsAreEmpty, Splits; }
      assert Shapes() by { hide Seating, OpenSlotsAreEmpty, Splits; }
      assert OpenSlotsAreEmpty() by { hide Seating, Shapes, Splits; }
      assert Splits() by { hide Seating, Shapes, OpenSlotsAreEmpty; }
      hide Seating, Shapes, OpenSlotsAreEmpty, Splits;
    }

    lemma SlotIsKnown(m: Match, slot: Slot)
      requires Seats() && m in allMatches && slot in m.slots
      ensures slot in allSlots && slot.home == m
    {
    }

    /** The slot that p sits in. */
    lemma OwnSeat(p: Player, m: Match)
      requires Seats() && p in everyone && m in allMatches && p.room == m
      ensures p.seat in m.slots && p.seat in allSlots && p.seat.home == m && p.seat.player == p
      ensures forall s <- m.slots :: s in allSlots && (s.player == p ==> s == p.seat)
    {
      assert p.seat in p.seat.home.slots;
    }

    lemma NoModsAreSplit()
      ensures SpeedPart(NOMOD) == NOMOD
    {
    }

    /** A seat in a match for p, who is already in its chat. */
    method TakeSeat(p: Player, m: Match, slot: Slot)
      requires p in everyone && Around(p) && m in allMatches && p.room == null
      requires slot in m.slots && slot.player == null
      requires Seats()
      modifies slot`team, slot`status, slot`player, p`room, p`seat
      ensures p.room == m && p.seat == slot && slot.player == p && slot.status == NotReady
      ensures slot.team == if m.teamType.HasTeams() then Red else old(slot.team)
      ensures Seats()
    {
      hide Splits, Layouts;
      SlotIsKnown(m, slot);
      if m.teamType.HasTeams() {
        slot.team := Red;
      }
      slot.status := NotReady;
      slot.player := p;
      p.room := m;
      p.seat := slot;
    }

    lemma ChatOfMatch(m: Match)
      requires Chatrooms() && m in allMatches
      ensures m.chat in allChannels && m.chat.instance && m.chat.name == Multi(m.id) && m.chat.name != LOBBY
    {
    }

    lemma OutsideChat(p: Player, m: Match)
      requires Chatrooms() && m in allMatches && Live(m) && p.room == null
      ensures p !in m.chat.players
    {
    }

    /** JoinRegistered for a channel that is no spectator channel. */
    method JoinOther(p: Player, c: Channel) returns (ok: bool)
      requires p in everyone && c in channels && !c.name.Spec?
      requires Chats(c)
      modifies p`channels, c`players
      ensures Chats(c)
      ensures c.players != [] ==> Chats()
      ensures ok == old(MayJoin(p, c))
      ensures c.players == if ok then old(c.players) + [p] else old(c.players)
      ensures p.channels == if ok then old(p.channels) + [c] else old(p.channels)
    {
      hide NoDup, Membership, Names, NoEmptyInstance, MayJoin;
      ok := JoinRegistered(p, c);
    }

    /** join_channel for the chat of m. */
    method EnterChatroom(p: Player, m: Match) returns (ok: bool)
      requires p in everyone && m in allMatches && Live(m) && m.chat in channels && p !in m.chat.players
      requires Chats(m.chat) && Chatrooms()
      modifies p`channels, m.chat`players
      ensures Chats(m.chat) && Chatrooms(p, m)
      ensures ok == !p.Restricted()
      ensures m.chat.players == if ok then old(m.chat.players) + [p] else old(m.chat.players)
      ensures p.channels == if ok then old(p.channels) + [m.chat] else old(p.channels)
      ensures m.chat.players != [] ==> Chats()
    {
      hide NoDup, Membership, NoEmptyInstance, Names, MayJoin, Player.Restricted, Booths;
      ChatOfMatch(m);
      MayEnter(p, m.chat, m.chat);
      ok := JoinOther(p, m.chat);
    }

    /** EnterChatroom; no spectator channel changes. */
    method EnterChat(p: Player, m: Match) returns (ok: bool)
      requires p in everyone && Around(p) && m in allMatches && Live(m) && p.room == null && m.chat in channels
      requires Chats(m.chat) && Rooms()
      modifies p`channels, m.chat`players
      ensures Chats(m.chat) && Rooms(p, m)
      ensures ok == !p.Restricted()
      ensures m.chat.players == if ok then old(m.chat.players) + [p] else old(m.chat.players)
      ensures p.channels == if ok then old(p.channels) + [m.chat] else old(p.channels)
      ensures m.chat.players != [] ==> Chats()
    {
      hide Chats, Chatrooms, Live, Player.Restricted, Inside;
      OutsideChat(p, m);
      ChatOfMatch(m);
      ok := EnterChatroom(p, m);
    }

    /** EnterChat, and nothing else changes. */
    method EnterRoom(p: Player, m: Match) returns (ok: bool)
      requires p in everyone && Around(p) && m in allMatches && Live(m) && p.room == null && m.chat in channels
      requires Chats(m.chat) && Spectators() && Seats() && Registry() && Rooms()
      modifies p`channels, m.chat`players
      ensures Chats(m.chat) && Spectators() && Seats() && Registry() && Rooms(p, m)
      ensures ok == !p.Restricted()
      ensures m.chat.players == if ok then old(m.chat.players) + [p] else old(m.chat.players)
      ensures p.channels == if ok then old(p.channels) + [m.chat] else old(p.channels)
      ensures m.chat.players != [] ==> Chats()
    {
      hide *;
      ok := EnterChat(p, m);
    }

    lemma SameName(c: Channel, d: Channel)
      requires Chats() && c in channels && d in channels && c.name == d.name
      ensures c == d
    {
    }

    lemma MemberEitherWay(p: Player, c: Channel)
      requires Chats() && p in everyone && c in allChannels
      ensures c in p.channels <==> p in c.players
    {
    }

    lemma NamedChannel(p: Player, c: Channel)
      requires Chats() && Spectators() && p in everyone && c in channels && c.name.Named?
      ensures c in allChannels && !c.instance && p.booth != c
    {
      var _ := p.booth;
    }

    /** Leaving a channel that is neither a match's nor a spectated player's. */
    method LeaveNamed(p: Player, c: Channel, ghost mover: Player? := null, ghost target: Match? := null)
      requires p in everyone && c in allChannels && p.booth != c && c.name.Named? && !c.instance
      requires Chats() && Rooms(mover, target)
      modifies this`channels, p`channels, c`players
      ensures Chats() && Rooms(mover, target)
      ensures channels == old(channels) && p !in c.players
      ensures if p in old(c.players) then c in old(p.channels) && c.players == Without(old(c.players), p) && p.channels == Without(old(p.channels), c)
              else c.players == old(c.players) && p.channels == old(p.channels)
    {
      hide NoDup, Without, Membership, NoEmptyInstance, Names, Booths;
      LeaveOther(p, c);
    }

    /** The channels called #lobby. */
    ghost function Lobbies(): (r: set<Channel>)
      reads this`allChannels
      ensures r <= allChannels
    {
      set c | c in allChannels && c.name == LOBBY
    }

    /** What a lookup of the lobby's channel finds. */
    ghost predicate IsLobby(c: Channel?)
      reads this`channels
    {
      if c == null then forall d <- channels :: d.name != LOBBY
      else c in channels && c.name == LOBBY
    }

    lemma LobbyIsNamed(c: Channel?, m: Match)
      requires IsLobby(c) && Rooms() && m in allMatches
      ensures c != null ==> c in channels && c.name.Named? && c != m.chat
    {
    }

    lemma LobbyIsUnique(c: Channel?, pending: Channel)
      requires IsLobby(c) && Chats(pending)
      ensures forall d <- channels | d.name == LOBBY :: d == c
      ensures c != null ==> c in Lobbies()
    {
    }

    /** p comes from the lobby and leaves its channel. */
    method LeaveLobby(p: Player, lobby: Channel?, ghost m: Match)
      requires p in everyone && (lobby != null ==> lobby in channels && lobby.name.Named?)
      requires Chats() && Spectators() && Seats() && Registry() && Rooms(p, m)
      modifies this`channels, p`channels, (if lobby == null then {} else {lobby})`players
      ensures Chats() && Spectators() && Seats() && Registry() && Rooms(p, m)
      ensures channels == old(channels)
      ensures lobby != null ==> lobby.players == Drop(old(lobby.players), p)
    {
      hide Chats, Spectators, Seats, Registry, Rooms, Without;
      if lobby != null {
        NamedChannel(p, lobby);
        MemberEitherWay(p, lobby);
        if lobby in p.channels {
          LeaveNamed(p, lobby, p, m);
        }
      }
    }

    /** TakeSeat, with what it means for registry and chat. */
    method TakeSeatInRoom(p: Player, m: Match, slot: Slot)
      requires p in everyone && Around(p) && m in allMatches && Live(m) && p.room == null
      requires slot in m.slots && slot.player == null && p in m.chat.players
      requires Seats() && Registry() && Rooms(p, m)
      modifies slot`team, slot`status, slot`player, p`room, p`seat
      ensures p.room == m && p.seat == slot && slot.player == p && slot.status == NotReady
      ensures slot.team == if m.teamType.HasTeams() then Red else old(slot.team)
      ensures Seats() && Registry() && Rooms()
    {
      hide Layouts, Seating, Shapes, OpenSlotsAreEmpty;
      TakeSeat(p, m, slot);
    }

    /** The part of join_match after p has entered the chat: out of the lobby and into the slot. */
    method Settle(p: Player, m: Match, slot: Slot, lobby: Channel?)
      requires p in everyone && Around(p) && m in allMatches && Live(m) && p.room == null
      requires slot in m.slots && slot.player == null && p in m.chat.players
      requires lobby != null ==> lobby in channels && lobby.name.Named? && lobby != m.chat
      requires Chats() && Spectators() && Seats() && Registry() && Rooms(p, m)
      modifies this`channels, (if lobby == null then {} else {lobby})`players, p`channels, p`room, p`seat
      modifies slot`team, slot`status, slot`player
      ensures Chats() && Spectators() && Seats() && Registry() && Rooms()
      ensures channels == old(channels)
      ensures p.room == m && p.seat == slot && slot.player == p && slot.status == NotReady
      ensures slot.team == if m.teamType.HasTeams() then Red else old(slot.team)
      ensures lobby != null ==> lobby.players == Drop(old(lobby.players), p)
    {
      hide *;
      LeaveLobby(p, lobby, m);
      TakeSeatInRoom(p, m, slot);
    }

    /** What join_match checks before the chat: one match at a time, a host who is online, the password or staff rights, an open slot. */
    ghost predicate MaySit(p: Player, m: Match, passwd: string)
      reads p`room, m`hostPlayer, m`passwd, m.slots`status
    {
      && p.room == null && m.hostPlayer != null
      && (p != m.hostPlayer ==> (passwd == m.passwd || p.Staff()) && exists s <- m.slots :: s.status == Open)
    }

    /** The slot join_match puts p in: the first one for the host, who has just created m, the first open one for others. */
    method FindSeat(p: Player, m: Match, passwd: string) returns (slot: Slot?)
      requires Online() && Seats() && FindsHost(m) && m in allMatches && p in everyone
      requires p == m.hostPlayer && p.room == null ==> m.slots[0].player == null
      ensures slot != null <==> MaySit(p, m, passwd)
      ensures slot != null ==> p.room == null
      ensures slot != null && p == m.hostPlayer ==> slot == m.slots[0]
      ensures slot != null && p != m.hostPlayer ==>
        exists i | 0 <= i < 16 :: slot == m.slots[i] && slot.status == Open && forall j | 0 <= j < i :: m.slots[j].status != Open
      ensures slot != null ==> slot in m.slots && slot.player == null
    {
      hide NoDup, Online, Player.Staff;
      if p.room != null { return null; }
      var host := GetHost(m);
      if host == null { return null; }
      if p == host { return m.slots[0]; }
      if passwd != m.passwd && !p.Staff() { return null; }
      var free := m.GetFree();
      if free == None { return null; }
      return m.slots[free.value];
    }

    /** Settle, and if the mover is its host the newborn match does not wait any more. */
    method SettleAsHost(p: Player, m: Match, slot: Slot, lobby: Channel?, ghost newborn: Match?)
      requires p in everyone && Around(p) && m in allMatches && Live(m) && p.room == null
      requires slot in m.slots && slot.player == null && p in m.chat.players
      requires lobby != null ==> lobby in channels && lobby.name.Named? && lobby != m.chat
      requires Chats() && Spectators() && Seats() && Registry() && Rooms(p, m)
      requires Hosts(newborn) && (newborn == null || newborn == m)
      modifies this`channels, (if lobby == null then {} else {lobby})`players, p`channels, p`room, p`seat
      modifies slot`team, slot`status, slot`player
      ensures Chats() && Spectators() && Seats() && Registry() && Rooms() && Hosts(newborn)
      ensures newborn == null || m.hostPlayer == p ==> Hosts()
      ensures channels == old(channels)
      ensures p.room == m && p.seat == slot && slot.player == p && slot.status == NotReady
      ensures slot.team == if m.teamType.HasTeams() then Red else old(slot.team)
      ensures lobby != null ==> lobby.players == Drop(old(lobby.players), p)
    {
      hide Chats, Spectators, Seats, Registry, Rooms;
      Settle(p, m, slot, lobby);
    }

    /** What a successful join_match changes: an empty slot now holds p, and p has moved from the lobby to the match's chat. */
    twostate predicate Joined(p: Player, m: Match)
      reads this`channels, channels`players, p, m.chat`players, m`teamType, m`hostPlayer, m.slots
    {
      && p.room == m && p.seat != null && p.seat in m.slots
      && (var slot: Slot := p.seat;
          && old(slot.player) == null && slot.player == p && slot.status == NotReady
          && slot.team == (if m.teamType.HasTeams() then Red else old(slot.team))
          && if p == m.hostPlayer then slot == m.slots[0]
             else exists i | 0 <= i < |m.slots| ::
                    slot == m.slots[i] && old(slot.status) == Open && forall j | 0 <= j < i :: old(m.slots[j].status) != Open)
      && (forall s <- m.slots | s != p.seat :: unchanged(s))
      && m.chat.players == old(m.chat.players) + [p]
      && channels == old(channels)
      && (forall c <- channels | c.name == LOBBY :: c.players == Drop(old(c.players), p))
      && (forall c <- channels | c != m.chat && c.name != LOBBY :: c.players == old(c.players))
    }

    /** A join_match that is refused changes nothing. */
    twostate predicate Refused(p: Player, m: Match)
      reads this`channels, channels`players, p, m.chat, m.slots
    {
      && unchanged(p) && unchanged(m.chat) && (forall s <- m.slots :: unchanged(s))
      && channels == old(channels) && forall c <- channels :: c.players == old(c.players)
    }

    /** join_match once a slot is found. */
    method Enter(p: Player, m: Match, slot: Slot, ghost newborn: Match?) returns (ok: bool)
      requires Chats(m.chat) && Spectators() && Seats() && Registry() && Rooms() && Hosts(newborn)
      requires Around(p) && p in everyone && m in allMatches && Live(m) && m.chat in channels && p.room == null
      requires slot in m.slots && slot.player == null
      requires newborn == null || newborn == m
      modifies this`channels, m.chat`players, Lobbies()`players, p`channels, p`room, p`seat, slot`team, slot`status, slot`player
      ensures Spectators() && Seats() && Registry() && Rooms() && Hosts(newborn) && channels == old(channels)
      ensures ok <==> !p.Restricted()
      ensures ok ==> Chats() && (newborn == null || m.hostPlayer == p ==> Hosts())
      ensures ok ==> p.room == m && p.seat == slot && slot.player == p && slot.status == NotReady
      ensures ok ==> slot.team == if m.teamType.HasTeams() then Red else old(slot.team)
      ensures ok ==> m.chat.players == old(m.chat.players) + [p] && forall c <- channels | c.name == LOBBY :: c.players == Drop(old(c.players), p)
      ensures !ok ==> Chats(m.chat) && unchanged(p) && unchanged(slot)
      ensures forall c <- channels | !ok || (c != m.chat && c.name != LOBBY) :: c.players == old(c.players)
    {
      hide *;
      var lobby := GetByName(LOBBY);
      LobbyIsNamed(lobby, m);
      LobbyIsUnique(lobby, m.chat);
      ok := EnterRoom(p, m);
      if !ok { return; }
      SettleAsHost(p, m, slot, lobby, newborn);
    }

    method JoinMatch(p: Player, m: Match, passwd: string, ghost newborn: Match? := null) returns (ok: bool)
      requires Online() && Ledgers() && Chats(m.chat) && Spectators() && Seats() && Registry() && Rooms() && Hosts(newborn)
      requires Around(p) && p in everyone && m in allMatches && Live(m) && m.chat in channels
      requires p == m.hostPlayer && p.room == null ==> newborn == m && m.slots[0].player == null
      requires FindsHost(m) && (newborn == null || newborn == m)
      modifies this`channels, m.chat`players, Lobbies()`players, p`channels, p`room, p`seat, m.slots`team, m.slots`status, m.slots`player
      ensures Online() && Ledgers() && Spectators() && Seats() && Registry() && Rooms() && Hosts(newborn)
      ensures ok <==> old(MaySit(p, m, passwd)) && !p.Restricted()
      ensures ok ==> Chats() && (newborn == null || m.hostPlayer == p ==> Hosts()) && Joined(p, m)
      ensures !ok ==> Chats(m.chat) && Refused(p, m)
      ensures m.Asked() == old(m.Asked()) && m.hostPlayer == old(m.hostPlayer)
      ensures ok ==> p.room == m
      ensures !ok ==> unchanged(p)
      ensures m.chat.players == old(m.chat.players) + if ok then [p] else []
      ensures forall c <- channels | c != m.chat :: c.players == if ok && c.name == LOBBY then Drop(old(c.players), p) else old(c.players)
      ensures newborn != null && (p == m.hostPlayer || old(m.slots[0].status) == Open) ==> forall s <- m.slots ::
        && s.player == (if ok && s == m.slots[0] then p else old(s.player)) && (s != m.slots[0] ==> s.status == old(s.status))
        && (old(s.State()) == Vacant(Open) ==> s.State() == if ok && s == m.slots[0] then Occupied(p, m.teamType) else Vacant(Open))
      ensures channels == old(channels)
    {
      hide FindsHost, Online, Ledgers, Chats, Spectators, Seats, Registry, Rooms, Hosts, MaySit, Player.Restricted;
      var found := FindSeat(p, m, passwd);
      if found == null { return false; }
      ok := Enter(p, m, found, newborn);
    }

    lemma ChatIsRegistered(p: Player, m: Match)
      requires Chats() && Spectators() && Rooms() && Registry() && p in everyone && p.room == m
      ensures m in allMatches && Live(m) && 0 <= m.id < |matches|
      ensures m.chat in channels && p in m.chat.players && p.booth != m.chat
      ensures m.chat in allChannels
    {
    }

    /** leave_channel for the chat of p's match; without members it is no longer registered. */
    method LeaveChat(p: Player, m: Match)
      requires p in everyone && p.room == m && m in allMatches && Live(m)
      requires Chats() && Spectators() && Seats(p) && Registry() && Hosts() && Rooms()
      requires m.chat in allChannels && p in m.chat.players && p.booth != m.chat
      modifies this`channels, p`channels, m.chat`players
      ensures Chats() && Spectators() && Seats(p) && Registry() && Hosts() && Rooms(p)
      ensures p !in m.chat.players && m.chat.players == Without(old(m.chat.players), p)
      ensures m.chat in old(p.channels) && p.channels == Without(old(p.channels), m.chat)
    {
      hide NoDup, Without, Membership, NoEmptyInstance, Names, Booths, Spectators, Seats, Hosts, Registry;
      LeaveOther(p, m.chat);
    }

    /** p is neither host nor referee anywhere. */
    ghost predicate NoOffice(p: Player)
      reads this`matches, this`allMatches, allMatches`hostPlayer, allMatches`referees
    {
      && (forall m {:trigger m.hostPlayer} | m in allMatches && Live(m) :: m.hostPlayer != p)
      && (forall m | m in allMatches && Live(m) :: p !in m.referees)
    }

    /** The last step of leave_match. */
    method Depart(p: Player)
      requires p in everyone && NoOffice(p) && (p.room != null ==> p !in p.room.chat.players)
      requires Seats(p) && Registry(p) && Hosts() && Rooms(p)
      modifies p`room
      ensures p.room == null
      ensures Seats() && Registry() && Hosts() && Rooms()
    {
      hide Layouts, Shapes, OpenSlotsAreEmpty, Splits, Exact;
      p.room := null;
      assert Seating() by { hide Registry, Hosts, Chatrooms; }
      assert Registry() by { hide Seating, Hosts, Chatrooms; }
      assert Hosts() by { hide Seating, Registry, Chatrooms; }
      assert Chatrooms() by { hide Seating, Registry, Hosts; }
      hide Seating, Registry, Hosts, Chatrooms;
    }

    /** With all slots of p's match empty and p out of its chat, nobody refers to the match and its chat is gone. */
    lemma Abandoned(p: Player, m: Match)
      requires m in allMatches && Live(m) && p !in m.chat.players
      requires Chats() && Seats(p) && Registry() && Rooms(p)
      requires forall s <- m.slots :: s.player == null
      ensures forall q | q in everyone && q != p :: q.room != m
      ensures m.chat !in channels
    {
      if m.chat in channels {
        assert m.chat.players != [];
        var q := m.chat.players[0];
        assert q in m.chat.players;
        assert m.chat in allChannels;
        assert q.room == m;
      }
    }

    /** The registry cell of an abandoned match is freed. */
    method CloseMatch(p: Player, m: Match)
      requires p in everyone && p.room == m && m in allMatches && Live(m) && m.chat !in channels
      requires Registry() && Hosts() && Rooms(p)
      requires forall q | q in everyone && q != p :: q.room != m
      modifies this`matches
      ensures Registry(p) && Hosts() && Rooms(p) && NoOffice(p)
      ensures matches == old(matches)[m.id := null]
    {
      RemoveMatch(m);
    }

    /** Someone stays, and the first of them becomes host if p was. */
    method PassHost(p: Player, m: Match)
      requires strays == {}
      requires p in everyone && p.room == m && m in allMatches && Live(m)
      requires Online() && Seats(p) && Registry() && Hosts()
      requires exists s <- m.slots :: s.player != null
      modifies m`hostId, m`hostPlayer
      ensures Hosts() && m.hostPlayer != p
      ensures old(m.hostPlayer) != p ==> m.hostPlayer == old(m.hostPlayer) && m.hostId == old(m.hostId)
      ensures old(m.hostPlayer) == p ==>
        exists i | 0 <= i < |m.slots| :: m.slots[i].player == m.hostPlayer && forall j | 0 <= j < i :: m.slots[j].player == null
    {
      hide Shapes, OpenSlotsAreEmpty, Splits, Layouts, NoDup, FindsHost, Online;
      HostsAreFound(m);
      SlotsAreHome(m, p);
      var host := GetHost(m);
      if p == host {
        var next := m.FirstPlayer();
        hide Seating;
        m.hostId := next.id;
        m.hostPlayer := next;
      }
    }

    lemma SlotsAreHome(m: Match, leaver: Player)
      requires Seats(leaver) && Registry() && strays == {} && m in allMatches
      ensures forall s <- m.slots | s.player != null :: s.player != leaver && s.player in everyone && s.player in players && s.player.room == m
    {
    }

    /** PassHost, and p is no referee any more. */
    method HandOver(p: Player, m: Match)
      requires strays == {}
      requires p in everyone && p.room == m && m in allMatches && Live(m)
      requires Online() && Seats(p) && Registry() && Hosts()
      requires exists s <- m.slots :: s.player != null
      modifies m`hostId, m`hostPlayer, m`referees
      ensures Registry(p) && Hosts() && NoOffice(p)
      ensures m.referees == old(m.referees) - {p}
      ensures old(m.hostPlayer) != p ==> m.hostPlayer == old(m.hostPlayer) && m.hostId == old(m.hostId)
      ensures old(m.hostPlayer) == p ==>
        exists i | 0 <= i < |m.slots| :: m.slots[i].player == m.hostPlayer && forall j | 0 <= j < i :: m.slots[j].player == null
    {
      hide Online, Seats;
      PassHost(p, m);
      m.referees := m.referees - {p};
    }

    /** leave_match after the slot and the chat are left. If sending the state to those who stay raises, p still points at m. */
    method ReleaseMatch(p: Player, m: Match) returns (done: bool)
      requires strays == {}
      requires p in everyone && p.room == m && m in allMatches && Live(m) && p !in m.chat.players
      requires Online() && Ledgers() && Chats() && Spectators() && Seats(p) && Registry() && Hosts() && Rooms(p)
      modifies this`matches, p`room, m`hostId, m`hostPlayer, m`referees
      ensures done <==> m.seed >= 0 || forall s <- m.slots :: s.player == null
      ensures Online() && Ledgers() && Chats() && Spectators() && Hosts()
      ensures if done then Seats() && Registry() && Rooms() else Seats(p) && Registry(p) && Rooms(p)
      ensures p.room == if done then null else m
      ensures if forall s <- m.slots :: s.player == null then matches == old(matches)[m.id := null]
              else matches == old(matches) && m.referees == old(m.referees) - {p}
      ensures old(m.hostPlayer) != p ==> m.hostPlayer == old(m.hostPlayer) && m.hostId == old(m.hostId)
      ensures old(m.hostPlayer) == p && matches == old(matches) ==>
        exists i | 0 <= i < |m.slots| :: m.slots[i].player == m.hostPlayer && forall j | 0 <= j < i :: m.slots[j].player == null
    {
      hide *;
      var last := m.AllEmpty();
      if last {
        Abandoned(p, m);
        CloseMatch(p, m);
      } else {
        HandOver(p, m);
        if m.seed < 0 { return false; }
      }
      Depart(p);
      return true;
    }

    /** Valid() but for p, who has left a match without noticing it. */
    ghost predicate Stuck(p: Player)
      reads this, everyone`channels, everyone`spectators, everyone`spectating, everyone`booth, everyone`room, everyone`seat,
            allChannels`players, channels`players, exact`spectators, allMatches, allSlots
    {
      Online() && Chats() && Spectators() && Seats(p) && Ledgers() && Registry(p) && Hosts() && Rooms(p)
    }

    /**
     What leave_match does: p's seat is empty, and stays locked if it was, and p is out of the chat. An empty match leaves
     the registry; otherwise the first one in slot order inherits what p was. p points at m for ever if telling the others raises.
     */
    twostate predicate Left(p: Player, m: Match, done: bool)
      reads this`matches, p`channels, p`room, p`seat, m.chat`players, m.slots, m`hostId, m`hostPlayer, m`referees
    {
      && p.room == (if done then null else m)
      && p.seat == old(p.seat) && p.seat != null && p.seat in m.slots && old(p.seat.player) == p && p.seat.player == null
      && p.seat.State() == Vacant(if old(p.seat.status) == Locked then Locked else Open)
      && (forall s <- m.slots | s != p.seat :: unchanged(s))
      && p !in m.chat.players && p in old(m.chat.players) && m.chat.players == Without(old(m.chat.players), p)
      && m.chat in old(p.channels) && p.channels == Without(old(p.channels), m.chat)
      && (if forall s <- m.slots :: s.player == null then 0 <= m.id < |old(matches)| && matches == old(matches)[m.id := null]
          else matches == old(matches) && m.referees == old(m.referees) - {p})
      && (old(m.hostPlayer) != p ==> m.hostPlayer == old(m.hostPlayer) && m.hostId == old(m.hostId))
      && (old(m.hostPlayer) == p && matches == old(matches) ==>
          exists i | 0 <= i < |m.slots| :: m.slots[i].player == m.hostPlayer && forall j | 0 <= j < i :: m.slots[j].player == null)
    }

    /** leave_match up to the chat. */
    method StandUp(p: Player, m: Match)
      requires p in everyone && p.room == m && m in allMatches && Live(m)
      requires m.chat in allChannels && p in m.chat.players && p.booth != m.chat
      requires Online() && Ledgers() && Chats() && Spectators() && Seats() && Registry() && Hosts() && Rooms()
      modifies this`channels, p`channels, m.chat`players, m.slots
      ensures Online() && Ledgers() && Chats() && Spectators() && Seats(p) && Registry() && Hosts() && Rooms(p)
      ensures p.seat == old(p.seat) && p.seat != null && p.seat in m.slots && old(p.seat.player) == p && p.seat.player == null
      ensures p.seat.State() == Vacant(if old(p.seat.status) == Locked then Locked else Open)
      ensures forall s <- m.slots | s != p.seat :: unchanged(s)
      ensures p !in m.chat.players && m.chat.players == Without(old(m.chat.players), p)
      ensures m.chat in old(p.channels) && p.channels == Without(old(p.channels), m.chat)
    {
      hide *;
      ghost var _ := VacateSeat(p, m);
      LeaveChat(p, m);
    }

    /** leave_match in detail. */
    method LeaveSeat(p: Player, m: Match) returns (done: bool)
      requires strays == {}
      requires p in everyone && p.room == m
      requires Online() && Ledgers() && Chats() && Spectators() && Seats() && Registry() && Hosts() && Rooms()
      modifies this`channels, this`matches, p`channels, p`room, m.chat`players, m.slots, m`hostId, m`hostPlayer, m`referees
      ensures Online() && Ledgers() && Chats() && Spectators() && Hosts()
      ensures if done then Seats() && Registry() && Rooms() else Seats(p) && Registry(p) && Rooms(p)
      ensures done <==> m.seed >= 0 || forall s <- m.slots :: s.player == null
      ensures p.room == if done then null else m
      ensures p.seat == old(p.seat) && p.seat != null && p.seat in m.slots && old(p.seat.player) == p && p.seat.player == null
      ensures p.seat.State() == Vacant(if old(p.seat.status) == Locked then Locked else Open)
      ensures forall s <- m.slots | s != p.seat :: unchanged(s)
      ensures p in old(m.chat.players) && p !in m.chat.players && m.chat.players == Without(old(m.chat.players), p)
      ensures m.chat in old(p.channels) && p.channels == Without(old(p.channels), m.chat)
      ensures 0 <= m.id < |old(matches)|
      ensures if forall s <- m.slots :: s.player == null then matches == old(matches)[m.id := null]
              else matches == old(matches) && m.referees == old(m.referees) - {p}
      ensures old(m.hostPlayer) != p ==> m.hostPlayer == old(m.hostPlayer) && m.hostId == old(m.hostId)
      ensures old(m.hostPlayer) == p && matches == old(matches) ==>
        exists i | 0 <= i < |m.slots| :: m.slots[i].player == m.hostPlayer && forall j | 0 <= j < i :: m.slots[j].player == null
    {
      hide *;
      ChatIsRegistered(p, m);
      StandUp(p, m);
      done := ReleaseMatch(p, m);
    }

    /** leave_match for a player who is in a match. */
    method LeaveTheMatch(p: Player, m: Match) returns (done: bool)
      requires strays == {}
      requires p in everyone && p.room == m && m.Seated(p)
      requires Online() && Ledgers() && Chats() && Spectators() && Seats() && Registry() && Hosts() && Rooms()
      modifies this`channels, this`matches, p`channels, p`room, m.chat`players, m.slots, m`hostId, m`hostPlayer, m`referees
      ensures done <==> old(m.LetsGo(p))
      ensures done ==> Online() && Ledgers() && Chats() && Spectators() && Seats() && Registry() && Hosts() && Rooms()
      ensures !done ==> Stuck(p)
      ensures p.room == if done then null else m
      ensures Left(p, m, done)
    {
      hide Online, Ledgers, Chats, Spectators, Seats, Registry, Hosts, Rooms, Stuck, Without;
      done := LeaveSeat(p, m);
      if !done { NowStuck(p); }
    }

    lemma NowStuck(p: Player)
      requires Online() && Chats() && Spectators() && Seats(p) && Ledgers() && Registry(p) && Hosts() && Rooms(p)
      ensures Stuck(p)
    {
    }

    lemma CellIsFree(cell: nat)
      requires Rooms() && Registry() && cell < |matches| && matches[cell] == null
      ensures forall d <- channels :: d.name != Multi(cell)
    {
    }

    lemma NobodyIn(m: Match)
      requires Seats() && m !in allMatches
      ensures forall q {:trigger q.room} | q in everyone :: q.room != m
    {
    }

    lemma UntouchedIsSound(m: Match)
      requires m.Untouched()
      ensures m.Ledger().Valid() && forall s <- m.slots :: s.Shape(m.inProgress, m.teamType)
    {
    }

    /** A new match enters the books before it enters the registry. */
    method Adopt(m: Match, ghost host: Player?)
      requires m !in allMatches && m.Untouched() && (m.bornSplit ==> m.Split()) && (forall s <- m.slots :: s !in allSlots)
      requires Seats() && Ledgers()
      modifies this`allMatches, this`allSlots, m`hostPlayer
      ensures allMatches == old(allMatches) + {m} && allSlots == old(allSlots) + m.SlotSet()
      ensures m.hostPlayer == host
      ensures Seats() && Ledgers()
    {
      hide NoDup, SpeedPart, FreePart, Slot.Shape, Scrim.Ledger.Valid, Match.Ledger;
      UntouchedIsSound(m);
      allMatches, allSlots := allMatches + {m}, allSlots + m.SlotSet();
      m.hostPlayer := host;
      assert Layouts() by { hide Seating, Shapes, OpenSlotsAreEmpty, Splits, Ledgers; }
      assert Seating() by { hide Layouts, Shapes, OpenSlotsAreEmpty, Splits, Ledgers; }
      assert Shapes() by { hide Layouts, Seating, OpenSlotsAreEmpty, Splits, Ledgers; }
      assert OpenSlotsAreEmpty() by { hide Layouts, Seating, Shapes, Splits, Ledgers; }
      assert Splits() by { hide Layouts, Seating, Shapes, OpenSlotsAreEmpty, Ledgers; }
      assert Ledgers() by { hide Layouts, Seating, Shapes, OpenSlotsAreEmpty, Splits; }
      hide Layouts, Seating, Shapes, OpenSlotsAreEmpty, Splits, Ledgers;
    }

    /** Adopt, and what it means for registry and chats. */
    method AdoptOnServer(m: Match, ghost host: Player?)
      requires m !in allMatches && m.Untouched() && (m.bornSplit ==> m.Split()) && (forall s <- m.slots :: s !in allSlots) && !Live(m)
      requires m.chat in allChannels && m.chat.instance && m.chat.name == Multi(m.id)
      requires Seats() && Ledgers() && Registry() && Hosts() && Rooms()
      modifies this`allMatches, this`allSlots, m`hostPlayer
      ensures allMatches == old(allMatches) + {m} && allSlots == old(allSlots) + m.SlotSet()
      ensures m.hostPlayer == host
      ensures Seats() && Ledgers() && Registry() && Hosts() && Rooms()
      ensures forall q {:trigger q.room} | q in everyone :: q.room != m
    {
      hide Seats, Ledgers, Match.Untouched;
      NobodyIn(m);
      Adopt(m, host);
    }

    /** matches[id] = match; the match waits for its creator. */
    method Install(m: Match)
      requires m in allMatches && 0 <= m.id < |matches| && matches[m.id] == null
      requires FindsHost(m) && m.Untouched()
      requires m.chat.players == [] && forall q {:trigger q.room} | q in everyone :: q.room != m
      requires Online() && Spectators() && Ledgers() && Chats() && Seats() && Registry() && Hosts() && Rooms()
      modifies this`matches
      ensures matches == old(matches)[m.id := m] && Live(m)
      ensures Online() && Spectators() && Ledgers() && Chats() && Seats() && Registry() && Hosts(m) && Rooms()
    {
      hide Online, Spectators, Ledgers, Chats, Seats, Exact, NoDup;
      NoOneSits(m);
      hide Match.Untouched;
      matches := matches[m.id := m];
      assert Registry() by { hide Hosts, Chatrooms, FindsHost; }
      assert Hosts(m) by { hide Registry, Chatrooms; }
      assert Chatrooms() by { hide Registry, Hosts, FindsHost; }
      hide Registry, Hosts, Chatrooms, FindsHost;
    }

    lemma NoOneSits(m: Match)
      requires m.Untouched()
      ensures m.referees == {}
    {
    }

    /** channels.append for the chat of a match in the registry. */
    method RegisterChat(m: Match)
      requires m in allMatches && Live(m) && (forall d <- channels :: d.name != Multi(m.id)) && m.chat.players == []
      requires m.chat in allChannels && m.chat.instance && m.chat.name == Multi(m.id) && m.chat.readPriv == UNRESTRICTED
      requires Online() && Spectators() && Ledgers() && Chats() && Seats() && Registry() && Hosts(m) && Rooms()
      modifies this`channels, this`byName
      ensures channels == old(channels) + [m.chat]
      ensures Online() && Spectators() && Ledgers() && Chats(m.chat) && Seats() && Registry() && Hosts(m) && Rooms()
    {
      hide Membership, NoDup, NoEmptyInstance, Booths, Online, Spectators, Ledgers, Seats, Registry, Hosts;
      Register(m.chat);
    }

    /** NewInstance when all channels and chats agree. */
    method NewChat(name: ChannelName) returns (c: Channel)
      requires !name.Named? && Chats() && Rooms()
      modifies this`allChannels
      ensures fresh(c) && c.name == name && c.instance && c.readPriv == UNRESTRICTED && c.players == []
      ensures allChannels == old(allChannels) + {c} && (name != LOBBY ==> Lobbies() == old(Lobbies()))
      ensures Chats() && Rooms()
    {
      hide Membership, Names, NoEmptyInstance, Booths;
      c := NewInstance(name);
    }

    lemma NoPlayers(m: Match)
      requires m.Untouched()
      ensures |m.slots| == 16 && forall s <- m.slots :: s.player == null && s.status == Open && s.State() == Vacant(Open)
    {
    }

    lemma MultiIsNotLobby(id: int)
      ensures Multi(id) != LOBBY
    {
    }

    lemma HostAsked(m: Match, terms: Terms)
      requires m.Asked() == terms
      ensures m.hostId == terms.hostId
    {
    }

    /** A match with its chat, neither of them registered. */
    method MakeMatch(p: Player, cell: nat, terms: Terms) returns (m: Match)
      requires cell < |matches| && matches[cell] == null && terms.hostId == p.id
      requires Online() && Spectators() && Ledgers() && Chats() && Seats() && Registry() && Rooms() && Hosts()
      modifies this`allChannels, this`allMatches, this`allSlots
      ensures fresh(m) && fresh(m.chat) && (forall i | 0 <= i < |m.slots| :: fresh(m.slots[i])) && m.Untouched()
      ensures m.id == cell && m.hostPlayer == old(Found(p.id)) && m.hostId == p.id && m.Asked() == terms && m.State() == Begun(terms)
      ensures m.bornSplit == (terms.freemods ==> FreePart(terms.mods) == NOMOD)
      ensures m.chat.players == [] && m.chat.instance && m.chat.readPriv == UNRESTRICTED && m.chat.name == Multi(m.id)
      ensures allMatches == old(allMatches) + {m} && allSlots == old(allSlots) + m.SlotSet()
      ensures allChannels == old(allChannels) + {m.chat} && Lobbies() == old(Lobbies())
      ensures Online() && Spectators() && Ledgers() && Chats() && Seats() && Registry() && Rooms() && Hosts()
      ensures forall q {:trigger q.room} | q in everyone :: q.room != m
    {
      hide *;
      MultiIsNotLobby(cell);
      var chat := NewChat(Multi(cell));
      m := new Match(cell, chat, terms);
      assert m.hostId == p.id by { HostAsked(m, terms); }
      NotLive(m);
      AdoptOnServer(m, Found(p.id));
    }

    lemma NotLive(m: Match)
      requires 0 <= m.id < |matches| && matches[m.id] == null
      ensures !Live(m)
    {
    }

    /** The match enters the registry, and then its chat. */
    method PutUp(m: Match)
      requires m in allMatches && 0 <= m.id < |matches| && matches[m.id] == null
      requires FindsHost(m) && m.Untouched()
      requires m.chat in allChannels && m.chat.instance && m.chat.name == Multi(m.id) && m.chat.readPriv == UNRESTRICTED
      requires m.chat.players == [] && forall q {:trigger q.room} | q in everyone :: q.room != m
      requires Online() && Spectators() && Ledgers() && Chats() && Seats() && Registry() && Hosts() && Rooms()
      modifies this`matches, this`channels, this`byName
      ensures matches == old(matches)[m.id := m] && channels == old(channels) + [m.chat] && Live(m)
      ensures Online() && Spectators() && Ledgers() && Chats(m.chat) && Seats() && Registry() && Hosts(m) && Rooms()
    {
      hide *;
      CellIsFree(m.id);
      Install(m);
      RegisterChat(m);
    }

    /** The part of MatchCreate before the creator joins. */
    method OpenMatch(p: Player, cell: nat, terms: Terms) returns (m: Match)
      requires p in everyone && cell < |matches| && matches[cell] == null && terms.hostId == p.id
      requires Online() && Ledgers() && Chats() && Spectators() && Seats() && Registry() && Rooms() && Hosts()
      modifies this`channels, this`byName, this`allChannels, this`allMatches, this`allSlots, this`matches
      ensures fresh(m) && fresh(m.chat) && (forall i | 0 <= i < |m.slots| :: fresh(m.slots[i])) && m.Untouched()
      ensures m.id == cell && FindsHost(m) && (p in players ==> m.hostPlayer == p) && m.hostId == p.id && m.Asked() == terms
      ensures m.State() == Begun(terms) && m.referees == {} && forall s <- m.slots :: s.State() == Vacant(Open)
      ensures m.bornSplit == (terms.freemods ==> FreePart(terms.mods) == NOMOD)
      ensures m.chat.players == [] && channels == old(channels) + [m.chat] && m.chat in channels && Live(m)
      ensures |m.slots| == 16 && forall s <- m.slots :: s.player == null && s.status == Open
      ensures matches == old(matches)[cell := m] && m in allMatches
      ensures allMatches == old(allMatches) + {m} && allSlots == old(allSlots) + m.SlotSet()
      ensures allChannels == old(allChannels) + {m.chat}
      ensures Lobbies() == old(Lobbies())
      ensures Online() && Ledgers() && Chats(m.chat) && Spectators() && Seats() && Registry() && Rooms() && Hosts(m)
    {
      hide *;
      m := MakeMatch(p, cell, terms);
      NoPlayers(m);
      NoOneSits(m);
      HostIsFound(m);
      PutUp(m);
    }

    lemma OthersHaveOtherIds(h: Player)
      requires Online() && h in players
      ensures forall g <- players | g != h :: g.id != h.id
    {
    }

    /** A watched player shares no user with another player whose booth is exact. */
    lemma OtherExact(h: Player, p: Player, g: Player)
      requires strays == {}
      requires Chats() && Spectators() && Exact() && h in everyone && p in h.spectators && g in exact && g != h
      ensures g.id != h.id
    {
      BoothOf(h, p);
      assert Tight(g);
    }

    lemma OtherExacts(h: Player, p: Player)
      requires strays == {}
      requires Chats() && Spectators() && Exact() && h in everyone && p in h.spectators
      ensures forall g | g in exact && g != h :: g.id != h.id
    {
      forall g | g in exact && g != h ensures g.id != h.id { OtherExact(h, p, g); }
    }

    /** All booths that count as exact are, but for h's perhaps. */
    ghost predicate ExactBut(h: Player)
      reads this`exact, this`players, this`strays, this`channels, this`ever, channels`players, exact`spectators
    {
      (forall g | g in exact :: g in players && (g != h ==> Tight(g))) && Attendance()
    }

    /** What add_spectator does: p goes to the booth c of h, which may have to be opened first, and watches h if let in. */
    twostate predicate Watched(h: Player, p: Player, ok: bool, new c: Channel)
      reads this`channels, this`allChannels, h`spectators, p`spectating, c`players, allChannels`players
    {
      && old(allChannels) <= allChannels && (forall d | d in allChannels && d != c :: d in old(allChannels) && d.players == old(d.players))
      && h.spectators == (if ok then old(h.spectators) + [p] else old(h.spectators))
      && p.spectating == (if ok then h else null)
      && (p != h ==> ok)
      && c in channels && c.name == Spec(h.id)
      && (forall d | d in allChannels :: d in old(allChannels) || fresh(d))
      && (!fresh(c) ==> c in old(channels) && c.players == old(c.players) + if ok then [p] else [])
      && (fresh(c) ==>
          && (forall d <- old(channels) :: d.name != Spec(h.id))
          && c.players == (if h.Restricted() then [] else [h]) + if ok then [p] else [])
    }

    /** add_spectator changes no other channel, let alone that of a match. */
    method AddSpectatorInChats(h: Player, p: Player) returns (ok: bool, ghost c: Channel)
      requires h in players && (p in players || (p in strays && p.channels == [])) && p.spectating == null && !p.Restricted()
      requires h in everyone && p in everyone && p.booth == null
      requires Online() && Chats() && Spectators() && Chatrooms()
      modifies this`channels, this`allChannels, this`byName, h`channels, h`spectators, p`channels, p`spectating, p`booth, allChannels`players
      ensures Chats() && Spectators() && Chatrooms()
      ensures Watched(h, p, ok, c)
      ensures forall d <- channels | d != c :: d in old(channels) && d.players == old(d.players)
    {
      hide Online, Chats, Spectators, Player.Restricted;
      ok, c := AddSpectator(h, p);
    }

    /** The other booths stay exact. */
    method AddSpectatorBesides(h: Player, p: Player) returns (ok: bool, ghost c: Channel)
      requires h in players && (p in players || (p in strays && p.channels == [])) && p.spectating == null && !p.Restricted()
      requires h in everyone && p in everyone && p.booth == null
      requires Online() && Chats() && Spectators() && Rooms()
      modifies this`channels, this`allChannels, this`byName, h`channels, h`spectators, p`channels, p`spectating, p`booth, allChannels`players
      ensures Chats() && Spectators() && Chatrooms() && ExactBut(h)
      ensures Watched(h, p, ok, c)
    {
      hide Online, Chats, Spectators, Chatrooms, Player.Restricted, Inside;
      OthersHaveOtherIds(h);
      ok, c := AddSpectatorInChats(h, p);
    }

    /** That of h counts as exact as long as it is. */
    ghost method Recount(h: Player)
      requires Chatrooms() && ExactBut(h)
      modifies this`exact
      ensures Rooms() && exact == if Tight(h) then old(exact) else old(exact) - {h}
    {
      hide Chatrooms, Tight;
      if !Tight(h) { exact := exact - {h}; }
    }

    /** Exactness in terms of the one channel with the right name. */
    lemma TightWith(h: Player, c: Channel)
      requires Chats() && c in channels && c.name == Spec(h.id)
      ensures Tight(h) <==> h.spectators != [] && Inside(c.players, h.spectators, h)
      ensures NoDup(c.players)
    {
      assert Membership() && Names();
      forall d | d in channels && d.name == Spec(h.id) ensures d == c { SameName(d, c); }
    }

    lemma WatchedInBooth(h: Player)
      requires Chats() && Spectators() && h in everyone && h.spectators != []
      ensures exists c <- channels :: c.name == Spec(h.id)
    {
      BoothOf(h, h.spectators[0]);
    }

    /** Somebody who enters an exact booth is not h. */
    static lemma OneMore(members: seq<Player>, spectators: seq<Player>, h: Player, p: Player)
      requires NoDup(members + [p]) && Inside(members, spectators, h)
      ensures Inside(members + [p], spectators + [p], h)
    {
      assert (members + [p])[|members|] == p;
    }

    /** The first spectator of h makes the booth exact, unless h is missing or the spectator. */
    static lemma FirstOne(h: Player, p: Player, missing: bool, ok: bool)
      requires p != h ==> ok
      ensures var added := if ok then [p] else [];
        added != [] && Inside((if missing then [] else [h]) + added, added, h) <==> p != h && !missing
    {
    }

    /** A booth that was exact stays so, unless this opens it for h, who cannot be in it or is p. */
    method AddSpectatorTightly(h: Player, p: Player) returns (ok: bool, ghost c: Channel)
      requires h in players && (p in players || (p in strays && p.channels == [])) && p.spectating == null && !p.Restricted()
      requires h in everyone && p in everyone && p.booth == null
      requires Online() && Chats() && Spectators() && Rooms()
      modifies this`channels, this`allChannels, this`byName, h`channels, h`spectators, p`channels, p`spectating, p`booth, allChannels`players
      ensures Chats() && Spectators() && Chatrooms() && ExactBut(h)
      ensures Watched(h, p, ok, c)
      ensures old(Tight(h)) ==> (Tight(h) <==> old(h.spectators) != [] || (p != h && !h.Restricted()))
    {
      if h.spectators != [] { WatchedInBooth(h); }
      hide Online, Chats, Spectators, Rooms, Chatrooms, ExactBut, Player.Restricted, Inside, NoDup;
      ok, c := AddSpectatorBesides(h, p);
      TightWith(h, c);
      FirstOne(h, p, h.Restricted(), ok);
      if old(h.spectators) != [] && old(Tight(h)) && ok {
        OneMore(old(c.players), old(h.spectators), h, p);
      }
    }

    /** AddSpectatorTightly, and whether the booth is still exact. */
    method AddSpectatorExactly(h: Player, p: Player) returns (ok: bool, ghost c: Channel)
      requires h in players && (p in players || (p in strays && p.channels == [])) && p.spectating == null && !p.Restricted()
      requires h in everyone && p in everyone && p.booth == null
      requires Online() && Chats() && Spectators() && Rooms()
      modifies this`exact, this`channels, this`allChannels, this`byName
      modifies h`channels, h`spectators, p`channels, p`spectating, p`booth, allChannels`players
      ensures Chats() && Spectators() && Rooms()
      ensures exact == if Tight(h) then old(exact) else old(exact) - {h}
      ensures old(Tight(h)) ==> (Tight(h) <==> old(h.spectators) != [] || (p != h && !h.Restricted()))
      ensures Watched(h, p, ok, c)
    {
      hide *;
      ok, c := AddSpectatorTightly(h, p);
      Recount(h);
    }

    /** AddSpectatorExactly, and nothing else changes. */
    method AddSpectatorOnServer(h: Player, p: Player) returns (ok: bool, ghost c: Channel)
      requires h in players && (p in players || (p in strays && p.channels == [])) && p.spectating == null && !p.Restricted()
      requires h in everyone && p in everyone && p.booth == null
      requires Online() && Chats() && Spectators() && Seats() && Ledgers() && Registry() && Hosts() && Rooms()
      modifies this`exact, this`channels, this`allChannels, this`byName
      modifies h`channels, h`spectators, p`channels, p`spectating, p`booth, allChannels`players
      ensures Online() && Chats() && Spectators() && Seats() && Ledgers() && Registry() && Hosts() && Rooms()
      ensures exact == if Tight(h) then old(exact) else old(exact) - {h}
      ensures old(Tight(h)) ==> (Tight(h) <==> old(h.spectators) != [] || (p != h && !h.Restricted()))
      ensures Watched(h, p, ok, c)
    {
      hide *;
      ok, c := AddSpectatorExactly(h, p);
    }

    /** What remove_spectator does: p leaves the booth, and so does h when nobody watches any more; an empty booth is taken down. */
    twostate predicate Unwatched(h: Player, p: Player, c: Channel)
      reads this`channels, h`spectators, p`spectating, c`players
    {
      && p in old(h.spectators) && h.spectators == Without(old(h.spectators), p) && p.spectating == null
      && c == old(p.booth) && c in old(channels) && p in old(c.players) && c.name == Spec(h.id)
      && (var rest := Without(old(c.players), p);
          && c.players == (if h.spectators == [] && h in rest then Without(rest, h) else rest)
          && channels == (if c.players == [] then Without(old(channels), c) else old(channels)))
    }

    /** remove_spectator changes no channel that is a match's. */
    method RemoveSpectatorInChats(h: Player, p: Player, ghost c: Channel)
      requires strays == {}
      requires h in everyone && p in h.spectators && p.booth == c
      requires Chats() && Spectators() && Chatrooms()
      modifies this`channels, h`channels, h`spectators, p`channels, p`spectating, p`booth, p.booth`players
      ensures Chats() && Spectators() && Chatrooms()
      ensures Unwatched(h, p, c)
    {
      hide Chats, Spectators, NoDup, Without;
      RemoveSpectator(h, p);
    }

    /** The other booths stay exact. */
    method RemoveSpectatorBesides(h: Player, p: Player, ghost c: Channel)
      requires strays == {}
      requires h in everyone && p in h.spectators && p.booth == c
      requires Chats() && Spectators() && Rooms()
      modifies this`channels, h`channels, h`spectators, p`channels, p`spectating, p`booth, p.booth`players
      ensures Chats() && Spectators() && Chatrooms() && ExactBut(h)
      ensures Unwatched(h, p, c)
    {
      hide Chats, Spectators, Chatrooms, NoDup, Inside;
      OtherExacts(h, p);
      RemoveSpectatorInChats(h, p, c);
    }

    /** RemoveSpectatorBesides, and whether the booth is still exact. */
    method RemoveSpectatorExactly(h: Player, p: Player, ghost c: Channel)
      requires strays == {}
      requires h in everyone && p in h.spectators && p.booth == c
      requires Chats() && Spectators() && Rooms()
      modifies this`exact, this`channels, h`channels, h`spectators, p`channels, p`spectating, p`booth, p.booth`players
      ensures Chats() && Spectators() && Rooms()
      ensures exact == if Tight(h) then old(exact) else old(exact) - {h}
      ensures Unwatched(h, p, c)
    {
      hide *;
      RemoveSpectatorBesides(h, p, c);
      Recount(h);
    }

    /** RemoveSpectatorExactly, and nothing else changes. */
    method RemoveSpectatorOnServer(h: Player, p: Player, ghost c: Channel)
      requires strays == {}
      requires h in everyone && p in h.spectators && p.booth == c
      requires Online() && Chats() && Spectators() && Seats() && Ledgers() && Registry() && Hosts() && Rooms()
      modifies this`exact, this`channels, h`channels, h`spectators, p`channels, p`spectating, p`booth, p.booth`players
      ensures Online() && Chats() && Spectators() && Seats() && Ledgers() && Registry() && Hosts() && Rooms()
      ensures exact == if Tight(h) then old(exact) else old(exact) - {h}
      ensures Unwatched(h, p, c)
    {
      hide *;
      RemoveSpectatorExactly(h, p, c);
    }

    lemma PendingNamed(c: Channel)
      requires !c.instance
      ensures Chats(c) <==> Chats()
    {
    }

    /** join_channel for a channel that is neither a match's nor a spectated player's. */
    method JoinNamed(p: Player, c: Channel) returns (ok: bool)
      requires p in everyone && Around(p) && c in channels && c.name.Named? && !c.instance
      requires Online() && Chats() && Spectators() && Seats() && Ledgers() && Registry() && Hosts() && Rooms()
      modifies p`channels, c`players
      ensures Online() && Chats() && Spectators() && Seats() && Ledgers() && Registry() && Hosts() && Rooms()
      ensures ok == old(MayJoin(p, c))
      ensures c.players == if ok then old(c.players) + [p] else old(c.players)
      ensures p.channels == if ok then old(p.channels) + [c] else old(p.channels)
    {
      hide Online, Chats, Spectators, Seats, Ledgers, Registry, Hosts, MayJoin;
      PendingNamed(c);
      ok := JoinOther(p, c);
      PendingNamed(c);
    }

    /** leave_channel by a player who is in no match and watches nobody. */
    method LeaveInChats(p: Player, c: Channel)
      requires p in everyone && c in allChannels && p.room == null && p.booth != c
      requires Chats() && Chatrooms()
      modifies this`channels, p`channels, c`players
      ensures Chats() && Chatrooms()
      ensures p !in c.players
      ensures p !in old(c.players) ==> c.players == old(c.players) && p.channels == old(p.channels) && channels == old(channels)
      ensures p in old(c.players) ==>
        && c in old(p.channels) && c in old(channels)
        && c.players == Without(old(c.players), p)
        && p.channels == Without(old(p.channels), c)
        && channels == if c.instance && c.players == [] then Without(old(channels), c) else old(channels)
    {
      hide Chats, NoDup, Without;
      LeaveOther(p, c);
    }

    lemma OwnBooth(p: Player, c: Channel)
      requires Chats() && c in allChannels && p.booth != c
      ensures p in c.players && c.name.Spec? ==> c.name == Spec(p.id)
    {
    }

    /** The player's own booth may be among the channels, so it must not count as exact any more. */
    method LeaveExactly(p: Player, c: Channel)
      requires p in everyone && p in players && p !in exact && c in allChannels && p.room == null && p.booth != c
      requires Online() && Chats() && Rooms()
      modifies this`channels, p`channels, c`players
      ensures Chats() && Rooms()
      ensures p !in c.players
      ensures p in old(c.players) ==> c in old(p.channels) && c.players == Without(old(c.players), p) && p.channels == Without(old(p.channels), c)
      ensures p !in old(c.players) ==> c.players == old(c.players) && p.channels == old(p.channels)
    {
      hide Online, Chats, Chatrooms, NoDup, Without, Inside;
      OthersHaveOtherIds(p);
      OwnBooth(p, c);
      LeaveInChats(p, c);
    }

    /** LeaveExactly, and nothing else changes. */
    method LeaveUnseated(p: Player, c: Channel)
      requires p in everyone && p in players && p !in exact && c in allChannels && p.room == null && p.booth != c
      requires Online() && Chats() && Spectators() && Seats() && Ledgers() && Registry() && Hosts() && Rooms()
      modifies this`channels, p`channels, c`players
      ensures Online() && Chats() && Spectators() && Seats() && Ledgers() && Registry() && Hosts() && Rooms()
      ensures p !in c.players
      ensures p in old(c.players) ==> c in old(p.channels) && c.players == Without(old(c.players), p) && p.channels == Without(old(p.channels), c)
      ensures p !in old(c.players) ==> c.players == old(c.players) && p.channels == old(p.channels)
    {
      hide *;
      LeaveExactly(p, c);
    }

    /** players.remove for a player who has left everything else. */
    method RemovePlayer(p: Player)
      requires p in players && p !in strays && p in everyone && p.room == null && p.channels == [] && p !in exact
      requires Online() && Chats() && Spectators() && Seats() && Ledgers() && Registry() && Hosts() && Rooms()
      modifies this`players
      ensures Online() && Chats() && Spectators() && Seats() && Ledgers() && Registry() && Hosts() && Rooms()
      ensures players == Without(old(players), p) && p !in players
    {
      hide NoDup, Without, Chats, Spectators, Seats, Ledgers, Tight;
      InNoChannel(p);
      players := Without(players, p);
    }

    lemma InNoChannel(p: Player)
      requires Chats() && p in everyone && p.channels == []
      ensures forall c | c in channels :: p !in c.players
    {
    }

    /** LeaveNamed, and nothing else changes. */
    method PartNamed(p: Player, c: Channel)
      requires p in everyone && c in allChannels && p.booth != c && c.name.Named? && !c.instance
      requires Online() && Chats() && Spectators() && Seats() && Ledgers() && Registry() && Hosts() && Rooms()
      modifies this`channels, p`channels, c`players
      ensures Online() && Chats() && Spectators() && Seats() && Ledgers() && Registry() && Hosts() && Rooms()
      ensures channels == old(channels) && p !in c.players
      ensures p in old(c.players) ==> c.players == Without(old(c.players), p)
    {
      hide *;
      LeaveNamed(p, c);
    }

    /** players.append for a player whose id is not online. */
    method AppendPlayer(p: Player)
      requires p in everyone && p !in players && forall q <- players :: q.id != p.id
      requires Online() && Registry() && Hosts()
      modifies this`players, this`byId
      ensures players == old(players) + [p]
      ensures Online() && Registry() && Hosts()
    {
      hide NoDup, Live;
      AppendNoDup(players, p);
      players := players + [p];
      byId := byId[p.id := p];
    }

    /** AppendPlayer; whose booth is exact now counts as such. */
    method AppendExactly(p: Player)
      requires p in everyone && p !in players && forall q <- players :: q.id != p.id
      requires Online() && Registry() && Hosts() && Rooms()
      modifies this`players, this`byId, this`exact, this`ever
      ensures ever == old(ever) + {p.id}
      ensures players == old(players) + [p] && exact == old(exact) + if Tight(p) then {p} else {}
      ensures Online() && Registry() && Hosts() && Rooms()
    {
      hide Online, Registry, Hosts, Tight;
      AppendPlayer(p);
      ever := ever + {p.id};
      if Tight(p) { exact := exact + {p}; }
      assert Attendance() by { hide Exact, Chatrooms; }
      assert Exact() by { hide Attendance, Chatrooms; }
      assert Chatrooms() by { hide Attendance, Exact; }
      hide Attendance, Exact, Chatrooms;
    }

    /** AppendExactly, and nothing else changes. */
    method Admit(p: Player)
      requires p in everyone && p !in players && forall q <- players :: q.id != p.id
      requires Online() && Chats() && Spectators() && Seats() && Ledgers() && Registry() && Hosts() && Rooms()
      modifies this`players, this`byId, this`exact, this`ever
      ensures ever == old(ever) + {p.id}
      ensures players == old(players) + [p] && exact == old(exact) + if Tight(p) then {p} else {}
      ensures Online() && Chats() && Spectators() && Seats() && Ledgers() && Registry() && Hosts() && Rooms()
    {
      hide *;
      AppendExactly(p);
    }

    /** Somebody who is not online is in no match and no channel and watches nobody. */
    ghost predicate Idle(p: Player)
      reads p
    {
      p.room == null && p.channels == [] && p.spectating == null && p.booth == null
    }

    lemma FirstChannel(p: Player)
      requires Chats() && p in everyone && p.channels != []
      ensures p.channels[0] in channels && p in p.channels[0].players
    {
      assert p.channels[0] in p.channels;
    }

    lemma OfflineIsIdle(p: Player)
      requires strays == {} && Chats() && Spectators() && Registry() && Rooms() && p in everyone && p !in players
      ensures Idle(p)
    {
      if p.channels != [] { FirstChannel(p); }
      if p.spectating != null { BoothOf(p.spectating, p); }
    }

    /** p acts, whether or not they are online. */
    ghost method Enroll(p: Player)
      requires strays == {}
      requires Online() && Chats() && Spectators() && Seats() && Ledgers() && Registry() && Hosts() && Rooms()
      modifies this`strays
      ensures strays == (if p in players then {} else {p}) && Around(p)
      ensures Online() && Chats() && Spectators() && Seats() && Ledgers() && Registry() && Hosts() && Rooms()
    {
      hide Online, Chats, Seats, Ledgers, Hosts, Chatrooms, Tight;
      strays := if p in players then {} else {p};
    }

    lemma InNoChannelWhenIdle(p: Player)
      requires Chats() && p in everyone && p.channels == []
      ensures forall c <- channels :: p !in c.players
    {
    }

    ghost method Forget()
      modifies this`strays
      ensures strays == {}
    {
      strays := {};
    }

    /** p, if not online, has got nowhere. */
    ghost method Dismiss(p: Player)
      requires strays == (if p in players then {} else {p}) && p in everyone && (p !in players ==> Idle(p))
      requires Online() && Chats() && Spectators() && Seats() && Ledgers() && Registry() && Hosts() && Rooms()
      modifies this`strays
      ensures strays == {}
      ensures Online() && Chats() && Spectators() && Seats() && Ledgers() && Registry() && Hosts() && Rooms()
    {
      hide Online, Chats, Seats, Ledgers, Hosts, Chatrooms, Tight;
      if p !in players { InNoChannelWhenIdle(p); }
      strays := {};
    }
  }
}
