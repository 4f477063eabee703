/**
 The server's live objects: players, chat channels, match slots and matches, with the operations
 that stay inside one of them. Objects point at each other in both directions; what that means
 for all of them together is stated in module Sessions.
 */
module Entities {
  import opened Lists
  import opened Mods
  import opened MatchTypes
  import Scrim

  datatype ChannelName = Named(text: string) | Multi(matchId: int) | Spec(hostId: int)

  /** As with mods, a value of the IntFlag Privileges is the set of its bit positions. */
  type Privileges = set<nat>
  const UNRESTRICTED: Privileges := {0}
  const STAFF: Privileges := {12, 13, 14}

  class Channel {
    const name: ChannelName
    const readPriv: Privileges
    const instance: bool
    var players: seq<Player>

    constructor (name: ChannelName, instance: bool, readPriv: Privileges := UNRESTRICTED)
      ensures this.name == name && this.instance == instance && this.readPriv == readPriv
      ensures players == []
    {
      this.name, this.instance, this.readPriv, players := name, instance, readPriv, [];
    }

    predicate CanRead(priv: Privileges) { readPriv == {} || priv * readPriv != {} }
  }

  class Player {
    const id: int
    const priv: Privileges
    var token: string
    var inLobby: bool
    var channels: seq<Channel>
    var spectators: seq<Player>
    var spectating: Player?
    var room: Match?  // the source calls this field `match`

    ghost var seat: Slot?     // the slot of room that holds this player
    ghost var booth: Channel? // the spectator channel of whoever this player spectates

    constructor (id: int, priv: Privileges, token: string)
      ensures this.id == id && this.priv == priv && this.token == token
      ensures !inLobby && channels == [] && spectators == [] && spectating == null && room == null && booth == null
    {
      this.id, this.priv, this.token := id, priv, token;
      inLobby, channels, spectators, spectating, room := false, [], [], null, null;
      seat, booth := null, null;
    }

    /** Whether leave_match, if there is a match to leave, comes to its end. */
    predicate MayGo()
      reads this`room, (if room == null then [] else room.slots)`player
    {
      room == null || room.LetsGo(this)
    }

    predicate Restricted() { priv * UNRESTRICTED == {} }

    predicate Staff() { priv * STAFF != {} }
  }

  /** Instance channels are open to everybody who is not restricted. */
  lemma ReadsInstances(p: Player, c: Channel)
    requires c.readPriv == UNRESTRICTED
    ensures c.CanRead(p.priv) <==> !p.Restricted()
  {
  }

  class Slot {
    var player: Player?
    var status: SlotStatus
    var team: MatchTeams
    var mods: Mods
    var loaded: bool
    var skipped: bool

    ghost const index: nat
    ghost var home: Match?

    constructor (ghost index: nat)
      ensures this.index == index
      ensures player == null && status == Open && team == Neutral && mods == NOMOD && !loaded && !skipped
    {
      player, status, team, mods, loaded, skipped := null, Open, Neutral, NOMOD, false, false;
      this.index, home := index, null;
    }

    /** What a slot of a match keeps, whoever sits in it. */
    ghost predicate Shape(inProgress: bool, teamType: MatchTeamTypes)
      reads this
    {
      && (status.HasPlayer() ==> player != null)
      && (player == null ==> team == Neutral && mods == NOMOD)
      && (status == Playing ==> inProgress)
      && (player != null && teamType.HasTeams() ==> team != Neutral)
    }

    ghost function State(): SlotState
      reads this`player, this`status, this`team, this`mods, this`loaded, this`skipped
    {
      SlotState(player, status, team, mods, loaded, skipped)
    }

    method CopyFrom(other: Slot)
      modifies this`player, this`status, this`team, this`mods
      ensures player == old(other.player) && status == old(other.status)
      ensures team == old(other.team) && mods == old(other.mods)
    {
      player, status, team, mods := other.player, other.status, other.team, other.mods;
    }

    method Reset(newStatus: SlotStatus := Open)
      modifies this`player, this`status, this`team, this`mods, this`loaded, this`skipped
      ensures player == null && status == newStatus && team == Neutral && mods == NOMOD && !loaded && !skipped
    {
      player, status, team, mods, loaded, skipped := null, newStatus, Neutral, NOMOD, false, false;
    }
  }

  /** A slot as a value. */
  datatype SlotState = SlotState(player: Player?, status: SlotStatus, team: MatchTeams, mods: Mods, loaded: bool, skipped: bool)

  /** Nobody is in the slot. */
  ghost function Vacant(status: SlotStatus): SlotState { SlotState(null, status, Neutral, NOMOD, false, false) }

  /** Somebody has just sat down there. */
  ghost function Occupied(p: Player, teamType: MatchTeamTypes): SlotState {
    SlotState(p, NotReady, if teamType in {TeamVs, TagTeamVs} then Red else Neutral, NOMOD, false, false)
  }

  /** The same slot with somebody else in it. */
  ghost function Taken(x: SlotState, p: Player, teamType: MatchTeamTypes): SlotState {
    x.(player := p, status := NotReady, team := if teamType in {TeamVs, TagTeamVs} then Red else x.team)
  }

  /** A match as a value, but for its slots, host and referees. */
  datatype MatchState = MatchState(passwd: string, mapId: int, prevMapId: int, teamType: MatchTeamTypes, freemods: bool, mods: Mods,
                                   inProgress: bool, books: Scrim.Ledger, bans: set<(Mods, nat)>)

  /** What the creator of a match chooses. */
  datatype Terms = Terms(passwd: string, hostId: int, mapId: int, teamType: MatchTeamTypes, freemods: bool, mods: Mods, seed: I32)

  /** What a client asks for when it creates a match. */
  datatype NewMatch = NewMatch(name: string, terms: Terms)

  /** A new match. */
  ghost function Begun(terms: Terms): MatchState {
    MatchState(terms.passwd, terms.mapId, 0, terms.teamType, terms.freemods, terms.mods, false, Scrim.Ledger(false, map[], [], 0), {})
  }

  class Match {
    const id: int
    const seed: I32
    const chat: Channel
    const slots: seq<Slot>
    var passwd: string
    var hostId: int
    var referees: set<Player>
    var mapId: int
    var prevMapId: int
    var teamType: MatchTeamTypes
    var freemods: bool
    var mods: Mods
    var inProgress: bool
    var isScrimming: bool
    var matchPoints: map<Side, int>
    var winners: seq<Option<Side>>
    var winningPts: nat
    var bans: set<(Mods, nat)> // picks by mods and slot

    ghost const bornSplit: bool   // whether the creator's mods were split as freemods wants them
    ghost var hostPlayer: Player? // whom the lookup of hostId among the online players finds

    constructor (id: int, chat: Channel, terms: Terms)
      ensures this.id == id && this.chat == chat && Asked() == terms && State() == Begun(terms)
      ensures Untouched() && (bornSplit <==> Split())
      ensures bornSplit == (terms.freemods ==> FreePart(terms.mods) == NOMOD)
      ensures forall i | 0 <= i < |slots| :: fresh(slots[i])
    {
      this.id, this.chat, seed := id, chat, terms.seed;
      passwd, hostId, mapId := terms.passwd, terms.hostId, terms.mapId;
      teamType, freemods, mods := terms.teamType, terms.freemods, terms.mods;
      bornSplit := terms.freemods ==> FreePart(terms.mods) == NOMOD;
      prevMapId, referees, inProgress, hostPlayer := 0, {}, false, null;
      isScrimming, matchPoints, winners, winningPts, bans := false, map[], [], 0, {};
      var row: seq<Slot> := [];
      for i := 0 to 16
        invariant |row| == i
        invariant forall j | 0 <= j < i :: fresh(row[j]) && row[j].index == j
        invariant forall j | 0 <= j < i :: row[j].player == null && row[j].status == Open && row[j].team == Neutral
        invariant forall j | 0 <= j < i :: row[j].mods == NOMOD && !row[j].loaded && !row[j].skipped
      {
        var s := new Slot(i);
        row := row + [s];
      }
      slots := row;
      new;
      for i := 0 to 16
        invariant forall j | 0 <= j < i :: slots[j].home == this
      {
        slots[i].home := this;
      }
    }

    /** The slots as a set of objects. */
    ghost function SlotSet(): (r: set<Slot>)
      ensures (forall s <- slots :: s in r) && forall s <- r :: s in slots
    {
      set s | s in slots
    }

    ghost function Asked(): Terms
      reads this`passwd, this`hostId, this`mapId, this`teamType, this`freemods, this`mods
    {
      Terms(passwd, hostId, mapId, teamType, freemods, mods, seed)
    }

    /** Sixteen different slots, all of this match. */
    ghost predicate Layout()
      reads slots`home
    {
      && |slots| == 16
      && forall i | 0 <= i < 16 :: slots[i].home == this && slots[i].index == i
    }

    /** A new match that nobody refers to. */
    ghost predicate Untouched()
      reads this`isScrimming, this`matchPoints, this`winners, this`winningPts, this`referees, slots
    {
      && Layout() && Ledger() == Scrim.FRESH && referees == {}
      && (forall s <- slots :: s.player == null && s.status == Open && s.team == Neutral && s.mods == NOMOD)
      && (forall s <- slots :: !s.loaded && !s.skipped)
    }

    ghost predicate Shape()
      reads this`inProgress, this`teamType, slots
    {
      forall s <- slots :: s.Shape(inProgress, teamType)
    }

    ghost predicate OpenSlotsAreEmpty()
      reads slots`status, slots`player
    {
      forall s <- slots :: s.status == Open ==> s.player == null
    }

    /** With freemods the match has the speed-changing mods and the slots the others; without, the match has all. */
    ghost predicate Split()
      reads this`freemods, this`mods, slots`mods
    {
      if freemods then FreePart(mods) == NOMOD && forall s <- slots :: SpeedPart(s.mods) == NOMOD
      else forall s <- slots :: s.mods == NOMOD
    }

    /**
     Whether leave_match by p comes to its end. While others stay it sends them the state of the match, and
     the seed is written as an unsigned number.
     */
    predicate LetsGo(p: Player)
      reads slots`player
    {
      seed >= 0 || forall s <- slots :: s.player == null || s.player == p
    }

    /** p sits in one slot of this match, and p.seat is that slot. */
    ghost predicate Seated(p: Player)
      reads p`seat, slots`player
    {
      && p.seat != null && p.seat in slots && p.seat.player == p
      && forall s <- slots :: s.player == p ==> s == p.seat
    }

    function Ledger(): Scrim.Ledger
      reads this`isScrimming, this`matchPoints, this`winners, this`winningPts
    {
      Scrim.Ledger(isScrimming, matchPoints, winners, winningPts)
    }

    ghost function State(): MatchState
      reads this`passwd, this`mapId, this`prevMapId, this`teamType, this`freemods, this`mods, this`inProgress,
            this`isScrimming, this`matchPoints, this`winners, this`winningPts, this`bans
    {
      MatchState(passwd, mapId, prevMapId, teamType, freemods, mods, inProgress, Ledger(), bans)
    }

    /** What is in the slots. */
    ghost function Contents(): map<Slot, SlotState>
      reads slots
    {
      map s | s in slots :: s.State()
    }

    method GetSlot(player: Player) returns (r: Slot?)
      ensures r != null ==> r in slots && r.player == player
      ensures r == null ==> forall s <- slots :: s.player != player
    {
      for i := 0 to |slots|
        invariant forall j | 0 <= j < i :: slots[j].player != player
      {
        if slots[i].player == player { return slots[i]; }
      }
      return null;
    }

    /** The index of the first open slot. */
    method GetFree() returns (r: Option<nat>)
      ensures r.Some? ==> r.value < |slots| && slots[r.value].status == Open
                          && forall j | 0 <= j < r.value :: slots[j].status != Open
      ensures r.None? ==> forall s <- slots :: s.status != Open
    {
      for i := 0 to |slots|
        invariant forall j | 0 <= j < i :: slots[j].status != Open
      {
        if slots[i].status == Open { return Some(i); }
      }
      return None;
    }

    /** Whether all slots are empty. */
    method AllEmpty() returns (r: bool)
      ensures r <==> forall s <- slots :: s.player == null
    {
      for i := 0 to |slots|
        invariant forall j | 0 <= j < i :: slots[j].player == null
      {
        if slots[i].player != null { return false; }
      }
      return true;
    }

    /** The first player in slot order, if there is one. */
    method FirstPlayer() returns (r: Player?)
      ensures r == null <==> forall s <- slots :: s.player == null
      ensures r != null ==> exists i :: 0 <= i < |slots| && slots[i].player == r && forall j | 0 <= j < i :: slots[j].player == null
    {
      for i := 0 to |slots|
        invariant forall j | 0 <= j < i :: slots[j].player == null
      {
        if slots[i].player != null { return slots[i].player; }
      }
      return null;
    }

    method UnreadyPlayers(expected: SlotStatus := Ready)
      requires Layout()
      modifies slots`status
      ensures forall s <- slots :: s.status == if old(s.status) == expected then NotReady else old(s.status)
    {
      for i := 0 to 16
        invariant forall j | 0 <= j < i :: slots[j].status == if old(slots[j].status) == expected then NotReady else old(slots[j].status)
        invariant forall j | i <= j < 16 :: slots[j].status == old(slots[j].status)
      {
        if slots[i].status == expected {
          slots[i].status := NotReady;
        }
      }
    }

    method ResetPlayersLoadedStatus()
      requires Layout()
      modifies slots`loaded, slots`skipped
      ensures forall s <- slots :: !s.loaded && !s.skipped
    {
      for i := 0 to 16
        invariant forall j | 0 <= j < i :: !slots[j].loaded && !slots[j].skipped
      {
        slots[i].loaded, slots[i].skipped := false, false;
      }
    }

    method ResetScrim()
      modifies this`matchPoints, this`winners, this`bans
      ensures matchPoints == map[] && winners == [] && bans == {}
    {
      matchPoints, winners, bans := map[], [], {};
    }
  }
}
