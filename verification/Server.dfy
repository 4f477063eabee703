/**
 What the packet handlers and commands do to the whole server. They keep Valid(), or say exactly when they do;
 Runs puts them together to whole runs.
 */
module Server {
  import opened Lists
  import opened Mods
  import opened MatchTypes
  import opened Entities
  import opened MatchHandlers
  import opened Sessions
  import Scrim

  /** A match keeps its slots' shape, whoever refers to it. */
  ghost predicate Sound(m: Match)
    reads m, m.slots
  {
    m.Layout() && m.Shape() && m.OpenSlotsAreEmpty() && m.Ledger().Valid()
  }

  lemma SplitMatch(w: Sessions, m: Match)
    requires w.Seats() && m in w.allMatches && m.bornSplit
    ensures m.Split()
  {
  }

  lemma SoundMatch(w: Sessions, m: Match)
    requires w.Seats() && w.Ledgers() && m in w.allMatches
    ensures Sound(m)
  {
  }

  /** The assertion that every handler in a match makes: get_slot finds the player's slot. */
  lemma SeatIsFound(w: Sessions, p: Player)
    requires w.Seats() && p in w.everyone && p.room != null
    ensures p.room in w.allMatches && p.room.Seated(p)
  {
  }

  lemma HostIsSeated(w: Sessions, m: Match)
    requires w.Seats() && w.Hosts() && m in w.allMatches && w.Live(m)
    ensures m.hostPlayer != null && m.hostPlayer.room == m && m.Seated(m.hostPlayer)
  {
  }

  /** A player's match is m exactly when a slot of m holds the player, and no other slot anywhere holds the same player. */
  lemma OneSeat(w: Sessions, p: Player, m: Match)
    requires w.Valid() && p in w.everyone && m in w.allMatches
    ensures p.room == m <==> exists s <- m.slots :: s.player == p
    ensures forall s, t | s in w.allSlots && t in w.allSlots && s.player == p && t.player == p :: s == t
  {
    if p.room == m { assert p.seat in m.slots; }
  }

  /** The registry holds m in cell m.id exactly when somebody sits in m; and host and referees do. */
  lemma RegisteredWhenOccupied(w: Sessions, m: Match)
    requires w.Valid() && m in w.allMatches
    ensures w.Live(m) <==> exists s <- m.slots :: s.player != null
    ensures forall i | 0 <= i < |w.matches| && w.matches[i] == m :: i == m.id
    ensures w.Live(m) ==> m.hostPlayer != null && m.hostPlayer.id == m.hostId && exists s <- m.slots :: s.player == m.hostPlayer
    ensures w.Live(m) ==> forall r <- m.referees :: exists s <- m.slots :: s.player == r
  {
    if w.Live(m) {
      assert m.hostPlayer.seat in m.slots;
      forall r | r in m.referees ensures exists s <- m.slots :: s.player == r { OneSeat(w, r, m); }
    }
    if s :| s in m.slots && s.player != null { assert s.player.room == s.home; }
  }

  /** What a command changes in one match leaves slots, players and matches in agreement. */
  method RunInSlots(w: Sessions, m: Match, p: Player, host: Player, c: Command)
    requires w.Seats() && m in w.allMatches && Sound(m) && (m.bornSplit ==> m.Split())
    requires m.Seated(p) && m.Seated(host) && Proper(m, p, host, c)
    modifies m`inProgress, m`isScrimming, m`matchPoints, m`winners, m`bans, m`winningPts
    modifies m`freemods, m`mods, m`mapId, m`prevMapId, m`teamType
    modifies m.slots`status, m.slots`team, m.slots`mods, m.slots`loaded, m.slots`skipped
    ensures w.Seats() && m.Ledger().Valid()
    ensures Acted(m, p, host, c, old(Before(m, p, host)), old(m.Contents()))
    ensures old(m.Split()) ==> m.Split()
  {
    hide Unseats, Fits, Match.Ledger, Scrim.Ledger.Valid, SpeedPart, FreePart, Acted, Before, Match.Contents, Match.Seated;
    Run(m, p, host, c);
  }

  /** RunInSlots, and the scrim ledgers stay valid. */
  method RunInMatch(w: Sessions, m: Match, p: Player, host: Player, c: Command)
    requires w.Seats() && w.Ledgers() && m in w.allMatches
    requires m.Seated(p) && m.Seated(host) && Proper(m, p, host, c)
    modifies m`inProgress, m`isScrimming, m`matchPoints, m`winners, m`bans, m`winningPts
    modifies m`freemods, m`mods, m`mapId, m`prevMapId, m`teamType
    modifies m.slots`status, m.slots`team, m.slots`mods, m.slots`loaded, m.slots`skipped
    ensures w.Seats() && w.Ledgers()
    ensures Acted(m, p, host, c, old(Before(m, p, host)), old(m.Contents()))
    ensures old(m.Split()) ==> m.Split()
  {
    hide Sessions.Seats, Sound, Proper, Match.Split, Match.Seated, Scrim.Ledger.Valid, Acted, Before, Match.Contents;
    SoundMatch(w, m);
    if m.bornSplit { SplitMatch(w, m); }
    RunInSlots(w, m, p, host, c);
  }

  /** RunInMatch touches nothing that the rest of the server relies on. */
  method RunOnServer(w: Sessions, m: Match, p: Player, host: Player, c: Command)
    requires w.Seats() && w.Ledgers() && w.Elsewhere() && m in w.allMatches
    requires m.Seated(p) && m.Seated(host) && Proper(m, p, host, c)
    modifies m`inProgress, m`isScrimming, m`matchPoints, m`winners, m`bans, m`winningPts
    modifies m`freemods, m`mods, m`mapId, m`prevMapId, m`teamType
    modifies m.slots`status, m.slots`team, m.slots`mods, m.slots`loaded, m.slots`skipped
    ensures w.Seats() && w.Ledgers() && w.Elsewhere()
    ensures Acted(m, p, host, c, old(Before(m, p, host)), old(m.Contents()))
    ensures old(m.Split()) ==> m.Split()
  {
    hide *;
    RunInMatch(w, m, p, host, c);
  }

  /** A command of p, who is in m. */
  method InMatch(w: Sessions, p: Player, m: Match, host: Player, c: Command)
    requires w.Valid() && p in w.players && p.room == m
    requires host == m.hostPlayer && Proper(m, p, host, c)
    modifies m`inProgress, m`isScrimming, m`matchPoints, m`winners, m`bans, m`winningPts
    modifies m`freemods, m`mods, m`mapId, m`prevMapId, m`teamType
    modifies m.slots`status, m.slots`team, m.slots`mods, m.slots`loaded, m.slots`skipped
    ensures w.Valid()
    ensures Acted(m, p, host, c, old(Before(m, p, host)), old(m.Contents()))
    ensures old(m.Split()) ==> m.Split()
  {
    hide *;
    RoomIsKnown(w, p);
    HostIsKnown(w, m);
    w.SplitMatches();
    RunOnServer(w, m, p, host, c);
    w.JoinMatches();
  }

  /** RunLate leaves slots, players and matches in agreement. */
  method LateInSlots(w: Sessions, m: Match, l: Late)
    requires w.Seats() && m in w.allMatches && Sound(m) && (m.bornSplit ==> m.Split()) && Timely(m, l)
    modifies m`isScrimming, m`matchPoints, m`winners, m`bans, m`freemods, m`mods, m`mapId, m`teamType, m.slots`team, m.slots`mods
    ensures w.Seats() && m.Ledger().Valid()
    ensures ActedLate(m, l, old(m.State()), old(m.Contents()))
  {
    hide Timely, Fits, Match.Ledger, Scrim.Ledger.Valid, SpeedPart, FreePart, ActedLate, Match.State, Match.Contents;
    RunLate(m, l);
  }

  method LateInMatch(w: Sessions, m: Match, l: Late)
    requires w.Seats() && w.Ledgers() && m in w.allMatches && Timely(m, l)
    modifies m`isScrimming, m`matchPoints, m`winners, m`bans, m`freemods, m`mods, m`mapId, m`teamType, m.slots`team, m.slots`mods
    ensures w.Seats() && w.Ledgers()
    ensures ActedLate(m, l, old(m.State()), old(m.Contents()))
  {
    hide Sessions.Seats, Sound, Timely, Match.Split, Scrim.Ledger.Valid, ActedLate, Match.State, Match.Contents;
    SoundMatch(w, m);
    if m.bornSplit { SplitMatch(w, m); }
    LateInSlots(w, m, l);
  }

  method LateOnServer(w: Sessions, m: Match, l: Late)
    requires w.Seats() && w.Ledgers() && w.Elsewhere() && m in w.allMatches && Timely(m, l)
    modifies m`isScrimming, m`matchPoints, m`winners, m`bans, m`freemods, m`mods, m`mapId, m`teamType, m.slots`team, m.slots`mods
    ensures w.Seats() && w.Ledgers() && w.Elsewhere()
    ensures ActedLate(m, l, old(m.State()), old(m.Contents()))
  {
    hide *;
    LateInMatch(w, m, l);
  }

  /** What happens to a match after a wait, whoever is in it by then. */
  method AfterWait(w: Sessions, m: Match, l: Late)
    requires w.Valid() && m in w.allMatches && Timely(m, l)
    modifies m`isScrimming, m`matchPoints, m`winners, m`bans, m`freemods, m`mods, m`mapId, m`teamType, m.slots`team, m.slots`mods
    ensures w.Valid()
    ensures ActedLate(m, l, old(m.State()), old(m.Contents()))
  {
    hide *;
    w.SplitMatches();
    LateOnServer(w, m, l);
    w.JoinMatches();
  }

  lemma OpenIsElsewhere(w: Sessions, slot: Slot, target: Slot)
    requires w.Seats() && slot.player != null && target in w.allSlots && target.status == Open
    ensures target != slot && target.player == null
  {
  }

  /** copy_from and reset. */
  method MoveSlot(w: Sessions, slot: Slot, target: Slot)
    requires w.Layouts() && w.Shapes() && w.OpenSlotsAreEmpty() && w.Splits()
    requires slot in w.allSlots && target in w.allSlots && target.home == slot.home && target != slot
    modifies slot, target
    ensures slot.home == old(slot.home) && target.home == old(target.home)
    ensures w.Layouts() && w.Shapes() && w.OpenSlotsAreEmpty() && w.Splits()
    ensures target.State() == old(slot.State()).(loaded := old(target.State()).loaded, skipped := old(target.State()).skipped) && slot.State() == Vacant(Open)
  {
    hide SpeedPart, FreePart, Sessions.Layouts;
    w.NoModsAreSplit();
    target.CopyFrom(slot);
    slot.Reset();
    assert w.Shapes() by { hide Sessions.OpenSlotsAreEmpty, Sessions.Splits; }
    assert w.OpenSlotsAreEmpty() by { hide Sessions.Shapes, Sessions.Splits; }
    assert w.Splits() by { hide Sessions.OpenSlotsAreEmpty, Sessions.Shapes; }
    hide Sessions.Shapes, Sessions.OpenSlotsAreEmpty, Sessions.Splits;
  }

  /** MoveSlot: the player moves to an open slot, and the old one is left open. */
  method MoveSeat(w: Sessions, p: Player, m: Match, slot: Slot, target: Slot)
    requires w.Seats() && p in w.everyone && p.seat == slot && slot.player == p && slot in w.allSlots
    requires target in w.allSlots && target.home == slot.home && target.status == Open
    modifies p`seat, slot, target
    ensures w.Seats()
    ensures p.seat == target && target != slot
    ensures target.player == p && target.State() == old(slot.State()).(loaded := old(target.State()).loaded, skipped := old(target.State()).skipped)
    ensures slot.State() == Vacant(Open)
  {
    hide Sessions.Layouts, Sessions.Shapes, Sessions.OpenSlotsAreEmpty, Sessions.Splits;
    OpenIsElsewhere(w, slot, target);
    MoveSlot(w, slot, target);
    p.seat := target;
  }

  /** Any player of the match may become host. */
  method SetHost(w: Sessions, m: Match, target: Player)
    requires w.strays == {}
    requires w.Seats() && w.Registry() && w.Hosts() && m in w.allMatches && w.Live(m)
    requires exists s <- m.slots :: s.player == target
    modifies m`hostId, m`hostPlayer
    ensures w.Hosts() && m.hostId == target.id && m.hostPlayer == target
  {
    m.hostId := target.id;
    m.hostPlayer := target;
  }

  method SetHostOnServer(w: Sessions, m: Match, target: Player)
    requires w.strays == {}
    requires w.ApartFromHosts() && w.Seats() && w.Registry() && w.Hosts() && m in w.allMatches && w.Live(m)
    requires exists s <- m.slots :: s.player == target
    modifies m`hostId, m`hostPlayer
    ensures w.ApartFromHosts() && w.Hosts() && m.hostId == target.id && m.hostPlayer == target
  {
    hide *;
    SetHost(w, m, target);
  }

  method Promote(w: Sessions, m: Match, target: Player)
    requires w.Valid() && m in w.allMatches && w.Live(m)
    requires exists s <- m.slots :: s.player == target
    modifies m`hostId, m`hostPlayer
    ensures w.Valid() && m.hostId == target.id && m.hostPlayer == target
  {
    hide *;
    w.SplitHosts();
    SetHostOnServer(w, m, target);
    w.JoinHosts();
  }

  lemma SlotsAreKnown(w: Sessions, m: Match)
    requires w.Valid() && m in w.allMatches
    ensures |m.slots| == 16 && forall s <- m.slots :: s in w.allSlots && s.home == m
  {
  }

  lemma HostIsKnown(w: Sessions, m: Match)
    requires w.Valid() && m in w.allMatches && w.Live(m)
    ensures w.Online() && m.hostPlayer != null && m.hostPlayer in w.players && m.hostPlayer.id == m.hostId
    ensures m.Seated(m.hostPlayer) && m.hostPlayer.room == m && exists s <- m.slots :: s.player == m.hostPlayer
  {
    SeatIsFound(w, m.hostPlayer);
  }

  lemma RoomIsKnown(w: Sessions, p: Player)
    requires w.Valid() && p in w.players && p.room != null
    ensures p in w.everyone && p.room in w.allMatches && w.Live(p.room)
    ensures p.seat != null && p.seat in w.allSlots && p.seat in p.room.slots && p.room.Seated(p)
  {
    SeatIsFound(w, p);
  }

  /** MoveSeat, and the rest of the server stays as it is. */
  method MoveOnServer(w: Sessions, p: Player, m: Match, slot: Slot, target: Slot)
    requires w.Elsewhere() && w.Seats() && w.Ledgers()
    requires p in w.everyone && p.seat == slot && slot.player == p && slot in w.allSlots
    requires target in w.allSlots && target.home == slot.home && target.status == Open
    modifies p`seat, slot, target
    ensures w.Elsewhere() && w.Seats() && w.Ledgers()
    ensures p.seat == target && target != slot
    ensures target.player == p && target.State() == old(slot.State()).(loaded := old(target.State()).loaded, skipped := old(target.State()).skipped)
    ensures slot.State() == Vacant(Open)
  {
    hide *;
    MoveSeat(w, p, m, slot, target);
  }

  /** MatchChangeSlot. */
  method ChangeSlot(w: Sessions, p: Player, m: Match, slotId: int)
    requires w.Valid() && p in w.players && p.room == m
    modifies p`seat, m.slots
    ensures w.Valid()
    ensures old(p.seat) != null
    ensures if 0 <= slotId < 16 && slotId < |m.slots| && old(m.slots[slotId].status) == Open
            then p.seat == m.slots[slotId] && p.seat != old(p.seat) && old(p.seat).State() == Vacant(Open)
                 && p.seat.State() == old(p.seat.State()).(loaded := old(m.slots[slotId].State()).loaded, skipped := old(m.slots[slotId].State()).skipped)
            else p.seat == old(p.seat) && p.seat.State() == old(p.seat.State())
    ensures old(p.seat.player) == p && old(p.seat) in m.slots
    ensures forall s <- m.slots | s != p.seat && s != old(p.seat) :: s.State() == old(s.State())
  {
    hide *;
    RoomIsKnown(w, p);
    SlotsAreKnown(w, m);
    w.SplitMatches();
    if !(0 <= slotId < 16) { return; }
    if m.slots[slotId].status != Open { return; }
    var slot := m.GetSlot(p);
    assert slot != null;
    assert slot == p.seat;
    MoveOnServer(w, p, m, slot, m.slots[slotId]);
    w.JoinMatches();
  }

  /** MatchTransferHost. */
  method TransferHost(w: Sessions, p: Player, m: Match, slotId: int)
    requires w.Valid() && m in w.allMatches && w.Live(m)
    modifies m`hostId, m`hostPlayer
    ensures w.Valid()
    ensures m.hostPlayer == if p == old(m.hostPlayer) && 0 <= slotId < |m.slots| && m.slots[slotId].player != null
                            then m.slots[slotId].player else old(m.hostPlayer)
  {
    hide *;
    SlotsAreKnown(w, m);
    HostIsKnown(w, m);
    var host := w.GetHost(m);
    if p != host { return; }
    if !(0 <= slotId < 16) { return; }
    var target := m.slots[slotId].player;
    if target == null { return; }
    Promote(w, m, target);
  }

  /** mp_host, with the result of the lookup by name. */
  method MpHost(w: Sessions, m: Match, target: Player?)
    requires w.Valid() && m in w.allMatches && w.Live(m)
    modifies m`hostId, m`hostPlayer
    ensures w.Valid()
    ensures m.hostPlayer == if target != null && exists s <- m.slots :: s.player == target then target else old(m.hostPlayer)
  {
    hide *;
    HostIsKnown(w, m);
    if target == null { return; }
    var host := w.GetHost(m);
    if target == host { return; }
    var slot := m.GetSlot(target);
    if slot == null { return; }
    Promote(w, m, target);
  }

  /** Whoever becomes a referee is in the match. */
  method SetReferees(w: Sessions, m: Match, refs: set<Player>)
    requires w.Seats() && w.Hosts() && m in w.allMatches
    requires forall r <- refs :: r in m.referees || exists s <- m.slots :: s.player == r
    modifies m`referees
    ensures w.Hosts() && m.referees == refs
  {
    m.referees := refs;
  }

  method SetRefereesOnServer(w: Sessions, m: Match, refs: set<Player>)
    requires w.ApartFromHosts() && w.Seats() && w.Hosts() && m in w.allMatches
    requires forall r <- refs :: r in m.referees || exists s <- m.slots :: s.player == r
    modifies m`referees
    ensures w.ApartFromHosts() && w.Hosts() && m.referees == refs
  {
    hide *;
    SetReferees(w, m, refs);
  }

  method Appoint(w: Sessions, m: Match, refs: set<Player>)
    requires w.Valid() && m in w.allMatches
    requires forall r <- refs :: r in m.referees || exists s <- m.slots :: s.player == r
    modifies m`referees
    ensures w.Valid() && m.referees == refs
  {
    hide *;
    w.SplitHosts();
    SetRefereesOnServer(w, m, refs);
    w.JoinHosts();
  }

  /** mp_addref, with the result of the lookup by name. */
  method MpAddRef(w: Sessions, m: Match, target: Player?)
    requires w.Valid() && m in w.allMatches && w.Live(m)
    modifies m`referees
    ensures w.Valid()
    ensures m.referees == old(m.referees) +
              if target != null && target != m.hostPlayer && exists s <- m.slots :: s.player == target then {target} else {}
  {
    hide *;
    HostIsKnown(w, m);
    if target == null { return; }
    var slot := m.GetSlot(target);
    if slot == null { return; }
    var host := w.GetHost(m);
    if target in m.referees || target == host { return; }
    Appoint(w, m, m.referees + {target});
  }

  /** mp_rmref, with the result of the lookup by name. */
  method MpRmRef(w: Sessions, m: Match, target: Player?)
    requires w.Valid() && m in w.allMatches && w.Live(m)
    modifies m`referees
    ensures w.Valid()
    ensures m.referees == old(m.referees) - if target != null && target != m.hostPlayer then {target} else {}
  {
    hide *;
    HostIsKnown(w, m);
    if target == null { return; }
    var host := w.GetHost(m);
    if target !in m.referees && target != host { return; }
    if target == host { return; }
    Appoint(w, m, m.referees - {target});
  }

  /** A player who points at a match without a seat in it. */
  lemma SeatlessIsInvalid(w: Sessions, p: Player)
    requires p in w.everyone && p.room != null && forall s <- p.room.slots :: s.player != p
    ensures !w.Valid()
  {
    if w.Valid() { SeatIsFound(w, p); }
  }

  lemma StuckParts(w: Sessions, p: Player)
    requires w.Stuck(p) && p.room in w.allMatches
    ensures forall s <- p.room.slots :: s.player != p
  {
  }

  /**
   MatchPart, and what silencing does to a player who is in a match. When the others cannot be told, which
   is the case for a match with a negative seed, p keeps pointing at the match but has no seat in it.
   */
  method Leave(w: Sessions, p: Player, m: Match) returns (done: bool)
    requires w.Valid() && p in w.players && p.room == m
    modifies w`channels, w`matches, p`channels, p`room, m.chat`players, m.slots, m`hostId, m`hostPlayer, m`referees
    ensures w.Valid() <==> done
    ensures done <==> old(m.LetsGo(p))
    ensures p.room == if done then null else m
    ensures w.Left(p, m, done)
    ensures !done ==> w.Stuck(p) && forall s <- m.slots :: s.player != p
  {
    hide *;
    RoomIsKnown(w, p);
    w.Parts();
    done := w.LeaveTheMatch(p, m);
    if done {
      w.Whole();
    } else {
      StuckParts(w, p);
      SeatlessIsInvalid(w, p);
    }
  }

  lemma ChatIsOpen(w: Sessions, m: Match)
    requires w.Valid() && m in w.allMatches && w.Live(m)
    ensures m.chat in w.channels && m.chat.players != [] && w.Chats(m.chat)
  {
    w.ChatIsRegistered(m.hostPlayer, m);
  }

  lemma ChatsAgain(w: Sessions, m: Match)
    requires w.Chats(m.chat) && m.chat.players != []
    ensures w.Chats()
  {
  }

  /** Whoever is in a match, watches somebody or is in a channel is online. */
  lemma StrayIsInvalid(w: Sessions, p: Player)
    requires p in w.everyone && p !in w.players
    requires p.room != null || p.spectating != null || exists c <- w.channels :: p in c.players
    ensures !w.Valid()
  {
    if w.Valid() {
      w.Parts();
      w.OfflineIsIdle(p);
      w.InNoChannelWhenIdle(p);
    }
  }

  /** After what p did, online or not: that they are in a match or channel or watch somebody is right only if they are online. */
  ghost method Conclude(w: Sessions, p: Player)
    requires w.strays == (if p in w.players then {} else {p}) && p in w.everyone
    requires w.Online() && w.Chats() && w.Spectators() && w.Seats() && w.Ledgers() && w.Registry() && w.Hosts() && w.Rooms()
    modifies w`strays
    ensures w.Valid() <==> p in w.players || w.Idle(p)
    ensures w.strays == {}
  {
    hide *;
    if p in w.players || w.Idle(p) {
      w.Dismiss(p);
      w.Whole();
    } else {
      w.Forget();
      if w.Valid() { BusyIsOnline(w, p); }
    }
  }

  /** p sits in the first slot that was open, if ok; all else in the slots is as before. */
  ghost predicate TookSeat(m: Match, p: Player, ok: bool, before: map<Slot, SlotState>)
    reads m`teamType, m.slots
  {
    && (forall s <- m.slots :: s in before)
    && if !ok then forall s <- m.slots :: s.State() == before[s]
       else exists i | 0 <= i < |m.slots| ::
         && before[m.slots[i]].status == Open && (forall j | 0 <= j < i :: before[m.slots[j]].status != Open)
         && m.slots[i].State() == Taken(before[m.slots[i]], p, m.teamType)
         && forall s <- m.slots | s != m.slots[i] :: s.State() == before[s]
  }

  lemma ContentsBefore(m: Match)
    ensures forall s <- m.slots ::
      s in m.Contents() && m.Contents()[s] == SlotState(s.player, s.status, s.team, s.mods, s.loaded, s.skipped)
  {
  }

  lemma OneAtATime(w: Sessions, p: Player, m: Match, passwd: string)
    ensures w.MaySit(p, m, passwd) ==> p.room == null
  {
  }

  /** join_match for a match that is not new. */
  method JoinSeated(w: Sessions, p: Player, m: Match, passwd: string) returns (ok: bool)
    requires w.Online() && w.Chats(m.chat) && w.Spectators() && w.Seats() && w.Ledgers() && w.Registry() && w.Hosts() && w.Rooms()
    requires w.Around(p) && p in w.everyone && m in w.allMatches && w.Live(m) && m.chat in w.channels && w.FindsHost(m)
    requires p == m.hostPlayer ==> p.room != null
    modifies w`channels, m.chat`players, w.Lobbies()`players, p`channels, p`room, p`seat, m.slots`team, m.slots`status, m.slots`player
    ensures w.Online() && w.Spectators() && w.Seats() && w.Ledgers() && w.Registry() && w.Hosts() && w.Rooms()
    ensures if ok then w.Chats() else w.Chats(m.chat) && unchanged(p)
    ensures ok <==> old(w.MaySit(p, m, passwd)) && !p.Restricted()
    ensures TookSeat(m, p, ok, old(m.Contents()))
    ensures p.room == if ok then m else old(p.room)
    ensures ok ==> p.seat != null && p.seat in m.slots && p.seat.player == p
    ensures w.channels == old(w.channels) && m.chat.players == old(m.chat.players) + if ok then [p] else []
    ensures forall c <- w.channels | c != m.chat :: c.players == if ok && c.name == LOBBY then Drop(old(c.players), p) else old(c.players)
  {
    hide Sessions.Valid, Sessions.Online, Sessions.Chats, Sessions.Spectators, Sessions.Seats, Sessions.Ledgers, Sessions.Registry, Drop;
    hide Sessions.Hosts, Sessions.Rooms, Sessions.Live, Sessions.Lobbies, Sessions.MaySit, Sessions.FindsHost, Sessions.Around, Player.Restricted, Match.Contents;
    ContentsBefore(m);
    OneAtATime(w, p, m, passwd);
    ok := w.JoinMatch(p, m, passwd);
  }

  /** join_match, by p who is online or not. */
  method JoinAsWhoever(w: Sessions, p: Player, m: Match, passwd: string) returns (ok: bool)
    requires w.strays == {} && w.Online() && w.Chats() && w.Chats(m.chat) && w.Spectators() && w.Seats() && w.Ledgers() && w.Registry() && w.Hosts() && w.Rooms()
    requires p in w.everyone && m in w.allMatches && w.Live(m) && m.chat in w.channels && m.chat.players != []
    requires p == m.hostPlayer ==> p.room != null
    modifies w`strays
    modifies w`channels, m.chat`players, w.Lobbies()`players, p`channels, p`room, p`seat, m.slots`team, m.slots`status, m.slots`player
    ensures w.strays == if p in w.players then {} else {p}
    ensures w.Online() && w.Chats() && w.Spectators() && w.Seats() && w.Ledgers() && w.Registry() && w.Hosts() && w.Rooms()
    ensures ok <==> old(w.MaySit(p, m, passwd)) && !p.Restricted()
    ensures TookSeat(m, p, ok, old(m.Contents()))
    ensures p.room == if ok then m else old(p.room)
    ensures ok ==> p.seat != null && p.seat in m.slots && p.seat.player == p
    ensures w.channels == old(w.channels) && m.chat.players == old(m.chat.players) + if ok then [p] else []
    ensures forall c <- w.channels | c != m.chat :: c.players == if ok && c.name == LOBBY then Drop(old(c.players), p) else old(c.players)
    ensures !w.Idle(p) || !ok
    ensures !ok ==> (w.Idle(p) <==> old(w.Idle(p)))
  {
    hide Sessions.Valid, Sessions.Online, Sessions.Chats, Sessions.Spectators, Sessions.Seats, Sessions.Ledgers, Sessions.Registry, Drop, TookSeat, Match.Contents;
    hide Sessions.Hosts, Sessions.Rooms, Sessions.Live, Sessions.Lobbies, Sessions.MaySit, Sessions.FindsHost, Sessions.Around, Player.Restricted;
    w.HostsAreFound(m);
    w.Enroll(p);
    ok := JoinSeated(w, p, m, passwd);
    if !ok { ChatsAgain(w, m); }
  }

  /**
   join_match for a match that others have created: MatchJoin and mp_force. Nothing asks whether p is online; if not, and p gets
   in, then the state is not valid any more.
   */
  method Join(w: Sessions, p: Player, m: Match, passwd: string) returns (ok: bool)
    requires w.Valid() && p in w.everyone && m in w.allMatches && w.Live(m)
    modifies w`strays
    modifies w`channels, m.chat`players, w.Lobbies()`players, p`channels, p`room, p`seat, m.slots`team, m.slots`status, m.slots`player
    ensures w.Valid() <==> !ok || p in w.players
    ensures ok <==> old(w.MaySit(p, m, passwd)) && !p.Restricted()
    ensures TookSeat(m, p, ok, old(m.Contents()))
    ensures p.room == if ok then m else old(p.room)
    ensures ok ==> p.seat != null && p.seat in m.slots && p.seat.player == p
    ensures w.channels == old(w.channels) && m.chat.players == old(m.chat.players) + if ok then [p] else []
    ensures forall c <- w.channels | c != m.chat :: c.players == if ok && c.name == LOBBY then Drop(old(c.players), p) else old(c.players)
  {
    hide *;
    w.Parts();
    if p !in w.players { w.OfflineIsIdle(p); }
    ChatIsOpen(w, m);
    HostIsKnown(w, m);
    ok := JoinAsWhoever(w, p, m, passwd);
    Conclude(w, p);
  }

  const MAX_MATCH_NAME_LENGTH := 50
  const PRIVATE := "//private"

  function WithoutSuffix(s: string, suffix: string): (r: string)
    ensures r == s || r + suffix == s
    ensures |r| == |s| ==> suffix == "" || |s| < |suffix| || s[|s| - |suffix|..] != suffix
  {
    if |suffix| <= |s| && s[|s| - |suffix|..] == suffix then s[..|s| - |suffix|] else s
  }

  lemma CreatorMaySit(w: Sessions, p: Player, m: Match, passwd: string)
    requires w.FindsHost(m) && m.hostId == p.id && (p in w.players ==> m.hostPlayer == p)
    requires |m.slots| == 16 && forall s <- m.slots :: s.status == Open
    ensures w.MaySit(p, m, passwd) <==> GetsIn(w, p, m.passwd, passwd)
  {
    assert m.slots[0] in m.slots;
  }

  /**
   Whether the creator of a match gets into it: not from another match; and not without being online, unless another session under
   the id is, and the password is as good as if it was somebody else's match.
   */
  ghost predicate GetsIn(w: Sessions, p: Player, passwd: string, asked: string)
    reads w`players, p`room
  {
    && p.room == null
    && (p in w.players || ((exists q <- w.players :: q.id == p.id) && (asked == passwd || p.Staff())))
  }

  lemma EmptyIsInvalid(w: Sessions, m: Match)
    requires m in w.allMatches && w.Live(m) && forall s <- m.slots :: s.player == null
    ensures !w.Valid()
  {
    if w.Valid() { RegisteredWhenOccupied(w, m); }
  }

  /** join_match by the creator of m, who gets the first slot if any. */
  method JoinOwn(w: Sessions, p: Player, m: Match, passwd: string) returns (joined: bool)
    requires w.Online() && w.Ledgers() && w.Chats(m.chat) && w.Spectators() && w.Seats() && w.Registry() && w.Rooms() && w.Hosts(m)
    requires w.Around(p) && p in w.everyone && m in w.allMatches && w.Live(m) && m.chat in w.channels
    requires w.FindsHost(m) && m.hostId == p.id && (p in w.players ==> m.hostPlayer == p)
    requires !p.Restricted() && |m.slots| == 16 && m.chat.players == []
    requires forall s <- m.slots :: s.player == null && s.status == Open && s.State() == Vacant(Open)
    modifies w`channels, m.chat`players, w.Lobbies()`players, p`channels, p`room, p`seat, m.slots`team, m.slots`status, m.slots`player
    ensures w.Online() && w.Ledgers() && w.Spectators() && w.Seats() && w.Registry() && w.Rooms()
    ensures joined <==> old(GetsIn(w, p, m.passwd, passwd))
    ensures joined && p in w.players ==> w.Chats() && w.Hosts()
    ensures if joined then p.room == m else unchanged(p)
    ensures w.channels == old(w.channels) && m.chat.players == if joined then [p] else []
    ensures forall s <- m.slots :: s.player == (if joined && s == m.slots[0] then p else null) && (s != m.slots[0] ==> s.status == Open)
    ensures forall s <- m.slots :: s.State() == if joined && s == m.slots[0] then Occupied(p, m.teamType) else Vacant(Open)
    ensures forall c <- w.channels | c != m.chat :: c.players == if joined && c.name == LOBBY then Drop(old(c.players), p) else old(c.players)
    ensures m.hostPlayer == old(m.hostPlayer) && m.Asked() == old(m.Asked())
  {
    hide *;
    CreatorMaySit(w, p, m, passwd);
    joined := w.JoinMatch(p, m, passwd, m);
  }

  /**
   m is a new match in the first free cell, on the creator's terms. The creator sits in its first slot if they got in; otherwise
   nobody sits anywhere.
   */
  twostate predicate Created(w: Sessions, p: Player, new m: Match, terms: Terms)
    reads w`players, w`matches, w`channels, w`allChannels, w`allMatches, w`allSlots, p, m, m.chat, m.slots
  {
    var joined := old(GetsIn(w, p, WithoutSuffix(terms.passwd, PRIVATE), terms.passwd));
    && 0 <= m.id < |old(w.matches)| && old(w.matches)[m.id] == null && (forall i | 0 <= i < m.id :: old(w.matches)[i] != null)
    && w.matches == old(w.matches)[m.id := m] && w.channels == old(w.channels) + [m.chat]
    && (p in w.players ==> m.hostPlayer == p) && m.Asked() == terms.(passwd := WithoutSuffix(terms.passwd, PRIVATE))
    && m.bornSplit == (terms.freemods ==> FreePart(terms.mods) == NOMOD)
    && (if joined then p.room == m && m.chat.players == [p] else unchanged(p) && m.chat.players == [])
    && |m.slots| == 16 && (forall s <- m.slots :: s.player == if joined && s == m.slots[0] then p else null)
    && (forall s <- m.slots | s != m.slots[0] :: s.status == Open)
    && fresh(m) && fresh(m.chat) && (forall i | 0 <= i < |m.slots| :: fresh(m.slots[i]))
    && w.allChannels == old(w.allChannels) + {m.chat} && w.allMatches == old(w.allMatches) + {m}
    && w.allSlots == old(w.allSlots) + m.SlotSet()
  }

  /** All else about m is as it is in the beginning, but for the seat of its creator. */
  ghost predicate Furnished(p: Player, m: Match, terms: Terms, joined: bool)
    reads m, m.slots
  {
    && m.State() == Begun(terms.(passwd := WithoutSuffix(terms.passwd, PRIVATE))) && m.referees == {} && |m.slots| > 0
    && forall s <- m.slots :: s.State() == if joined && s == m.slots[0] then Occupied(p, terms.teamType) else Vacant(Open)
  }

  /** The part of MatchCreate after the checks. */
  method CreateIn(w: Sessions, p: Player, terms: Terms, cell: nat) returns (m: Match)
    requires w.Online() && w.Ledgers() && w.Chats() && w.Spectators() && w.Seats() && w.Registry() && w.Rooms() && w.Hosts()
    requires w.Around(p) && p in w.everyone && !p.Restricted() && terms.hostId == p.id
    requires cell < |w.matches| && w.matches[cell] == null && forall i | 0 <= i < cell :: w.matches[i] != null
    modifies w`channels, w`byName, w`allChannels, w`allMatches, w`allSlots, w`matches, w.Lobbies()`players, p`channels, p`room, p`seat
    ensures w.Online() && w.Ledgers() && w.Spectators() && w.Seats() && w.Registry() && w.Rooms()
    ensures p in w.players && old(p.room) == null ==> w.Chats() && w.Hosts()
    ensures m in w.allMatches && w.Live(m)
    ensures (p.room == m && (p in w.players ==> old(p.room) == null)) || forall s <- m.slots :: s.player == null
    ensures Created(w, p, m, terms)
    ensures Furnished(p, m, terms, old(GetsIn(w, p, WithoutSuffix(terms.passwd, PRIVATE), terms.passwd)))
    ensures forall c <- w.channels | c in old(w.channels) ::
      c.players == if old(GetsIn(w, p, WithoutSuffix(terms.passwd, PRIVATE), terms.passwd)) && c.name == LOBBY then Drop(old(c.players), p) else old(c.players)
  {
    hide Sessions.Valid, Sessions.Online, Sessions.Chats, Sessions.Spectators, Sessions.Seats, Sessions.Ledgers, Sessions.Registry, Sessions.Around;
    hide Sessions.Hosts, Sessions.Rooms, Sessions.Live, Sessions.Lobbies, Sessions.FindsHost, WithoutSuffix, Player.Restricted, Player.Staff;
    hide Match.Untouched, Match.SlotSet, FreePart, Match.State, Slot.State, Begun, Vacant, Occupied, Drop;
    m := w.OpenMatch(p, cell, terms.(passwd := WithoutSuffix(terms.passwd, PRIVATE)));
    var _ := JoinOwn(w, p, m, terms.passwd);
  }

  /**
   MatchCreate looks neither whether the creator is in a match already nor whether they are online; if not so, then the server is
   left in an invalid state.
   */
  method Create(w: Sessions, p: Player, data: NewMatch, silenced: bool) returns (m: Match?)
    requires w.Valid() && p in w.everyone
    modifies w`strays
    modifies w`channels, w`byName, w`allChannels, w`allMatches, w`allSlots, w`matches, w.Lobbies()`players, p`channels, p`room, p`seat
    ensures m == null <==>
      || data.terms.hostId != p.id || |data.name| > MAX_MATCH_NAME_LENGTH || p.Restricted() || silenced
      || (forall i | 0 <= i < |old(w.matches)| :: old(w.matches)[i] != null)
    ensures w.Valid() <==> m == null || (p in w.players && old(p.room) == null)
    ensures if m != null then Created(w, p, m, data.terms) else unchanged(w) && unchanged(p)
    ensures m != null ==> Furnished(p, m, data.terms, old(GetsIn(w, p, WithoutSuffix(data.terms.passwd, PRIVATE), data.terms.passwd)))
    ensures m != null ==> forall c <- w.channels | c in old(w.channels) ::
      c.players == if old(GetsIn(w, p, WithoutSuffix(data.terms.passwd, PRIVATE), data.terms.passwd)) && c.name == LOBBY then Drop(old(c.players), p) else old(c.players)
    ensures m == null ==> forall c | c in w.allChannels :: c.players == old(c.players)
  {
    hide Sessions.Valid, Player.Restricted, Match.State, Slot.State, Begun, Vacant, Occupied, Drop, GetsIn, WithoutSuffix;
    if data.terms.hostId != p.id || |data.name| > MAX_MATCH_NAME_LENGTH || p.Restricted() || silenced { return null; }
    var free := w.GetFreeCell();
    if free == None { return null; }
    m := CreateAt(w, p, data.terms, free.value);
  }

  /** CreateIn, by p who is online or not. */
  method CreateAsWhoever(w: Sessions, p: Player, terms: Terms, cell: nat) returns (m: Match)
    requires w.strays == {}
    requires w.Online() && w.Ledgers() && w.Chats() && w.Spectators() && w.Seats() && w.Registry() && w.Rooms() && w.Hosts()
    requires p in w.everyone && !p.Restricted() && terms.hostId == p.id
    requires cell < |w.matches| && w.matches[cell] == null && forall i | 0 <= i < cell :: w.matches[i] != null
    modifies w`strays
    modifies w`channels, w`byName, w`allChannels, w`allMatches, w`allSlots, w`matches, w.Lobbies()`players, p`channels, p`room, p`seat
    ensures w.Online() && w.Ledgers() && w.Spectators() && w.Seats() && w.Registry() && w.Rooms()
    ensures p in w.players && old(p.room) == null ==> w.strays == {} && w.Chats() && w.Hosts()
    ensures m in w.allMatches && w.Live(m)
    ensures (p.room == m && (p in w.players ==> old(p.room) == null)) || forall s <- m.slots :: s.player == null
    ensures Created(w, p, m, terms)
    ensures Furnished(p, m, terms, old(GetsIn(w, p, WithoutSuffix(terms.passwd, PRIVATE), terms.passwd)))
    ensures forall c <- w.channels | c in old(w.channels) ::
      c.players == if old(GetsIn(w, p, WithoutSuffix(terms.passwd, PRIVATE), terms.passwd)) && c.name == LOBBY then Drop(old(c.players), p) else old(c.players)
  {
    hide Sessions.Valid, Sessions.Online, Sessions.Chats, Sessions.Spectators, Sessions.Seats, Sessions.Ledgers, Sessions.Registry, Sessions.Around;
    hide Sessions.Hosts, Sessions.Rooms, Sessions.Live, Sessions.Lobbies, WithoutSuffix, Player.Restricted, Player.Staff, Match.Asked, Match.SlotSet, FreePart;
    hide Furnished, Drop;
    w.Enroll(p);
    m := CreateIn(w, p, terms, cell);
  }

  /** CreateIn, and when it leaves a valid state. */
  method CreateAt(w: Sessions, p: Player, terms: Terms, cell: nat) returns (m: Match)
    requires w.Valid() && p in w.everyone && !p.Restricted() && terms.hostId == p.id
    requires cell < |w.matches| && w.matches[cell] == null && forall i | 0 <= i < cell :: w.matches[i] != null
    modifies w`strays
    modifies w`channels, w`byName, w`allChannels, w`allMatches, w`allSlots, w`matches, w.Lobbies()`players, p`channels, p`room, p`seat
    ensures w.Valid() <==> p in w.players && old(p.room) == null
    ensures Created(w, p, m, terms)
    ensures Furnished(p, m, terms, old(GetsIn(w, p, WithoutSuffix(terms.passwd, PRIVATE), terms.passwd)))
    ensures forall c <- w.channels | c in old(w.channels) ::
      c.players == if old(GetsIn(w, p, WithoutSuffix(terms.passwd, PRIVATE), terms.passwd)) && c.name == LOBBY then Drop(old(c.players), p) else old(c.players)
  {
    hide Sessions.Valid, Sessions.Online, Sessions.Chats, Sessions.Spectators, Sessions.Seats, Sessions.Ledgers, Sessions.Registry;
    hide Sessions.Hosts, Sessions.Rooms, Sessions.Live, Sessions.Lobbies, WithoutSuffix, Player.Restricted, Player.Staff, GetsIn, Match.Asked, Match.SlotSet, FreePart;
    hide Furnished, Drop;
    w.Parts();
    ghost var free := p.room == null;
    m := CreateAsWhoever(w, p, terms, cell);
    if p in w.players && free { w.Whole(); } else { Orphan(w, p, m); }
  }

  /** Nobody sits in m, or only somebody who is not online. */
  ghost method Orphan(w: Sessions, p: Player, m: Match)
    requires m in w.allMatches && w.Live(m) && p in w.everyone
    requires (p.room == m && p !in w.players) || forall s <- m.slots :: s.player == null
    modifies w`strays
    ensures !w.Valid() && w.strays == {}
  {
    hide *;
    w.Forget();
    if p.room == m && p !in w.players { StrayIsInvalid(w, p); } else { EmptyIsInvalid(w, m); }
  }

  lemma TightWithout(w: Sessions, h: Player)
    requires forall c <- w.channels :: c.name != Spec(h.id)
    ensures w.Tight(h)
  {
  }

  lemma NoBooth(w: Sessions, p: Player)
    requires w.Spectators() && p in w.everyone && p.spectating == null
    ensures p.booth == null
  {
  }

  /** AddToBooth without what it means for the server. */
  method AddExactly(w: Sessions, h: Player, p: Player) returns (ok: bool)
    requires h in w.players && (p in w.players || (p in w.strays && p.channels == []))
    requires h in w.everyone && p in w.everyone && p.spectating == null && !p.Restricted()
    requires w.Online() && w.Chats() && w.Spectators() && w.Seats() && w.Ledgers() && w.Registry() && w.Hosts() && w.Rooms()
    modifies w`exact, w`channels, w`allChannels, w`byName
    modifies h`channels, h`spectators, p`channels, p`spectating, p`booth, w.allChannels`players
    ensures w.Online() && w.Chats() && w.Spectators() && w.Seats() && w.Ledgers() && w.Registry() && w.Hosts() && w.Rooms()
    ensures h.spectators == if ok then old(h.spectators) + [p] else old(h.spectators)
    ensures p.spectating == if ok then h else null
    ensures p != h ==> ok
    ensures forall c | c in w.allChannels :: c in old(w.allChannels) || fresh(c)
    ensures old(w.allChannels) <= w.allChannels && forall c | c in w.allChannels && c.name.Named? :: c in old(w.allChannels) && c.players == old(c.players)
    ensures w.exact == if w.Tight(h) then old(w.exact) else old(w.exact) - {h}
    ensures old(w.Tight(h)) ==> (w.Tight(h) <==> old(h.spectators) != [] || (p != h && !h.Restricted()))
  {
    hide Sessions.Online, Sessions.Chats, Sessions.Spectators, Sessions.Seats, Sessions.Ledgers, Sessions.Registry, Sessions.Hosts, Sessions.Rooms;
    hide Player.Restricted, Sessions.Tight;
    NoBooth(w, p);
    ghost var c;
    ok, c := w.AddSpectatorOnServer(h, p);
  }

  /**
   add_spectator keeps a booth exact, unless it opens one for a player who cannot be in it or who
   watches themselves; the other booths that count as exact stay so. A spectator who is not online is let in all the same.
   */
  method AddToBooth(w: Sessions, h: Player, p: Player) returns (ok: bool)
    requires w.Valid() && h in w.players && p in w.everyone && p.spectating == null && !p.Restricted()
    modifies w`strays
    modifies w`exact, w`channels, w`allChannels, w`byName
    modifies h`channels, h`spectators, p`channels, p`spectating, p`booth, w.allChannels`players
    ensures w.Valid() <==> p in w.players
    ensures h.spectators == if ok then old(h.spectators) + [p] else old(h.spectators)
    ensures p.spectating == if ok then h else null
    ensures p != h ==> ok
    ensures forall c | c in w.allChannels :: c in old(w.allChannels) || fresh(c)
    ensures old(w.allChannels) <= w.allChannels && forall c | c in w.allChannels && c.name.Named? :: c in old(w.allChannels) && c.players == old(c.players)
    ensures old(w.Tight(h)) ==> (w.Tight(h) <==> old(h.spectators) != [] || (p != h && !h.Restricted()))
    ensures w.exact == if w.Tight(h) then old(w.exact) else old(w.exact) - {h}
    ensures forall g | g in old(w.exact) && (g != h || (p != h && !h.Restricted())) :: g in w.exact
  {
    hide Sessions.Valid, Sessions.Online, Sessions.Chats, Sessions.Spectators, Sessions.Seats, Sessions.Ledgers, Sessions.Registry;
    hide Sessions.Hosts, Sessions.Rooms, Sessions.Tight, Sessions.Around, Player.Restricted;
    w.Parts();
    CountedAreTight(w, h);
    OnlineAreKnown(w);
    if p !in w.players { w.OfflineIsIdle(p); }
    w.Enroll(p);
    ok := AddExactly(w, h, p);
    Conclude(w, p);
  }

  /** Who is left inside after p stops watching h, who leaves as well when nobody watches any more. */
  function Remaining(members: seq<Player>, spectators: seq<Player>, h: Player, p: Player): seq<Player>
    requires p in members && p in spectators
  {
    var rest := Without(members, p);
    if Without(spectators, p) == [] && h in rest then Without(rest, h) else rest
  }

  lemma WhoRemains(members: seq<Player>, spectators: seq<Player>, h: Player, p: Player)
    requires NoDup(members) && NoDup(spectators) && p in members && p in spectators && Sessions.Inside(members, spectators, h)
    ensures Remaining(members, spectators, h, p) == [] <==> Without(spectators, p) == []
    ensures Without(spectators, p) != [] ==> Sessions.Inside(Remaining(members, spectators, h, p), Without(spectators, p), h)
  {
    var rest, left := Without(members, p), Without(spectators, p);
    if left == [] {
      assert forall q <- rest :: q == h;
      var end := if h in rest then Without(rest, h) else rest;
      assert forall q <- end :: q == h;
      SomeMember(end);
    }
  }

  /** RemoveFromBooth without what it means for the server. */
  method RemoveExactly(w: Sessions, h: Player, p: Player)
    requires w.strays == {}
    requires h in w.everyone && p in h.spectators
    requires w.Online() && w.Chats() && w.Spectators() && w.Seats() && w.Ledgers() && w.Registry() && w.Hosts() && w.Rooms()
    modifies w`exact, w`channels, h`channels, h`spectators, p`channels, p`spectating, p`booth, p.booth`players
    ensures w.Online() && w.Chats() && w.Spectators() && w.Seats() && w.Ledgers() && w.Registry() && w.Hosts() && w.Rooms()
    ensures h.spectators == Without(old(h.spectators), p) && p.spectating == null
    ensures w.exact == if w.Tight(h) then old(w.exact) else old(w.exact) - {h}
    ensures old(w.Tight(h)) ==> w.Tight(h)
  {
    hide NoDup, Sessions.Tight, Sessions.Inside, Without;
    w.BoothOf(h, p);
    ghost var c: Channel := p.booth;
    w.TightWith(h, c);
    if w.Tight(h) {
      assert NoDup(h.spectators) && NoDup(w.channels);
      WhoRemains(c.players, h.spectators, h, p);
    }
    hide Sessions.Online, Sessions.Chats, Sessions.Spectators, Sessions.Seats, Sessions.Ledgers, Sessions.Registry, Sessions.Hosts, Sessions.Rooms;
    w.RemoveSpectatorOnServer(h, p, c);
    if c in w.channels { w.TightWith(h, c); } else { TightWithout(w, h); }
  }

  /** remove_spectator keeps every booth exact that counts as such. */
  method RemoveFromBooth(w: Sessions, h: Player, p: Player)
    requires w.Valid() && h in w.everyone && p in h.spectators
    modifies w`exact, w`channels, h`channels, h`spectators, p`channels, p`spectating, p`booth, p.booth`players
    ensures w.Valid() && w.exact == old(w.exact)
    ensures h.spectators == Without(old(h.spectators), p) && p.spectating == null
    ensures old(w.Tight(h)) ==> w.Tight(h)
  {
    hide *;
    w.Parts();
    CountedAreTight(w, h);
    RemoveExactly(w, h, p);
    w.Whole();
  }

  lemma CountedAreTight(w: Sessions, h: Player)
    requires w.Rooms()
    ensures h in w.exact ==> w.Tight(h)
  {
  }

  /** What it means that a booth counts as exact. */
  lemma ExactBooths(w: Sessions)
    requires w.Valid()
    ensures forall h | h in w.exact :: h in w.players && h in w.everyone && w.BoothIsExact(h)
  {
    w.Parts();
    forall h | h in w.exact ensures h in w.players && h in w.everyone && w.BoothIsExact(h) { w.TightIsExact(h); }
  }

  lemma WatchersAreKnown(w: Sessions, p: Player)
    requires w.Valid() && p in w.everyone
    ensures p.spectating != null ==>
      && p.spectating in w.everyone && p in p.spectating.spectators
      && p.booth != null && p.booth in w.allChannels && p.booth.name.Spec?
  {
    if p.spectating != null { w.BoothOf(p.spectating, p); }
  }

  /** Whoever is in a match or channel or watches somebody is online. */
  lemma BusyIsOnline(w: Sessions, p: Player)
    requires w.Valid() && p in w.everyone && !w.Idle(p)
    ensures p in w.players
  {
    w.Parts();
    if p !in w.players { w.OfflineIsIdle(p); }
  }

  lemma OnlineAreKnown(w: Sessions)
    requires w.Valid()
    ensures forall q <- w.players :: q in w.everyone
    ensures forall c <- w.channels :: c in w.allChannels
  {
  }

  lemma SameId(w: Sessions, p: Player)
    requires w.Valid() && p in w.players
    ensures forall q <- w.players | q.id == p.id :: q == p
  {
  }

  method StopSpectating(w: Sessions, p: Player)
    requires w.Valid() && p in w.everyone
    modifies w`exact, w`channels, w.allChannels`players
    modifies w.everyone`channels, w.everyone`spectators, w.everyone`spectating, w.everyone`booth
    ensures w.Valid() && p.spectating == null && w.exact == old(w.exact)
    ensures forall q <- old(w.everyone) | q != p :: q.spectating == old(q.spectating)
    ensures forall c | c in w.allChannels && c.name.Named? :: c.players == old(c.players)
    ensures forall h <- w.everyone :: h.spectators == if h == old(p.spectating) && p in old(h.spectators) then Without(old(h.spectators), p) else old(h.spectators)
  {
    hide *;
    WatchersAreKnown(w, p);
    var host := p.spectating;
    if host == null { return; }
    RemoveFromBooth(w, host, p);
  }

  /** From the current host, if any, to another one. */
  method SwitchHost(w: Sessions, p: Player, newHost: Player)
    requires w.Valid() && p in w.everyone && newHost in w.players && !p.Restricted()
    modifies w`strays, w`exact, w`channels, w`allChannels, w`byName, w.allChannels`players
    modifies w.everyone`channels, w.everyone`spectators, w.everyone`spectating, w.everyone`booth
    ensures w.Valid() <==> p in w.players
    ensures forall c | c in w.allChannels :: c in old(w.allChannels) || fresh(c)
    ensures old(w.allChannels) <= w.allChannels && forall c | c in w.allChannels && c.name.Named? :: c in old(w.allChannels) && c.players == old(c.players)
    ensures forall h | h in old(w.exact) && (h != newHost || (h != p && !h.Restricted())) :: h in w.exact
    ensures p.spectating == newHost || (p.spectating == null && newHost == p)
    ensures forall q <- old(w.everyone) | q != p :: q.spectating == old(q.spectating)
  {
    hide Sessions.Valid, Sessions.Tight, Player.Restricted;
    OnlineAreKnown(w);
    if p.spectating != null { BusyIsOnline(w, p); }
    var currentHost := p.spectating;
    if currentHost == newHost { return; }
    StopSpectating(w, p);
    var _ := AddToBooth(w, newHost, p);
  }

  /** StartSpectating, which only unrestricted players can ask for. */
  method StartSpectating(w: Sessions, p: Player, targetId: int)
    requires w.Valid() && p in w.everyone && !p.Restricted()
    modifies w`strays, w`exact, w`channels, w`allChannels, w`byName, w.allChannels`players
    modifies w.everyone`channels, w.everyone`spectators, w.everyone`spectating, w.everyone`booth
    ensures w.Valid() <==> p in w.players || forall h <- w.players :: h.id != targetId
    ensures forall c | c in w.allChannels :: c in old(w.allChannels) || fresh(c)
    ensures old(w.allChannels) <= w.allChannels && forall c | c in w.allChannels && c.name.Named? :: c in old(w.allChannels) && c.players == old(c.players)
    ensures forall h | h in old(w.exact) && (h.id != targetId || (h != p && !h.Restricted())) :: h in w.exact
    ensures (forall h <- w.players :: h.id != targetId) ==> p.spectating == old(p.spectating)
    ensures forall h <- w.players | h.id == targetId :: p.spectating == h || (p.spectating == null && h == p)
    ensures forall q <- old(w.everyone) | q != p :: q.spectating == old(q.spectating)
  {
    hide *;
    var newHost := w.GetById(targetId);
    if newHost == null { return; }
    SameId(w, newHost);
    SwitchHost(w, p, newHost);
  }

  lemma WhichChannel(w: Sessions, p: Player, c: Channel)
    requires w.Valid() && p in w.everyone && c in w.channels
    ensures c in w.allChannels && (c.name.Named? ==> !c.instance && p.booth != c)
    ensures p in c.players <==> c in p.channels
  {
    w.MemberEitherWay(p, c);
  }

  lemma NameIsUnique(w: Sessions, c: Channel)
    requires w.Valid() && c in w.channels
    ensures forall d <- w.channels | d.name == c.name :: d == c
  {
  }

  /** join_channel for a channel that is no instance. */
  method JoinPublic(w: Sessions, p: Player, c: Channel)
    requires w.Valid() && p in w.everyone && c in w.channels && c.name.Named?
    modifies w`strays
    modifies p`channels, c`players
    ensures w.Valid() <==> p in w.players || !old(w.MayJoin(p, c))
    ensures c.players == old(c.players) + if old(w.MayJoin(p, c)) then [p] else []
  {
    hide Sessions.Valid, Sessions.Online, Sessions.Chats, Sessions.Spectators, Sessions.Seats, Sessions.Ledgers, Sessions.Registry;
    hide Sessions.Hosts, Sessions.Rooms, Sessions.Around, Sessions.MayJoin;
    WhichChannel(w, p, c);
    w.Parts();
    if p !in w.players { w.OfflineIsIdle(p); }
    w.Enroll(p);
    var _ := w.JoinNamed(p, c);
    Conclude(w, p);
  }

  /** leave_channel for a channel that is no instance. */
  method PartPublic(w: Sessions, p: Player, c: Channel)
    requires w.Valid() && p in w.everyone && c in w.channels && c.name.Named? && p in c.players
    modifies w`channels, p`channels, c`players
    ensures w.Valid() && w.channels == old(w.channels) && c.players == Without(old(c.players), p)
  {
    hide *;
    WhichChannel(w, p, c);
    w.Parts();
    w.PartNamed(p, c);
    w.Whole();
  }

  /** ChannelJoin by the name of a channel that is no instance. */
  method ChannelJoin(w: Sessions, p: Player, name: string)
    requires w.Valid() && p in w.everyone
    modifies w`strays
    modifies p`channels, w.channels`players
    ensures w.Valid() <==> p in w.players || forall c <- w.channels | c.name == Named(name) :: !old(w.MayJoin(p, c))
    ensures forall c <- w.channels :: c.players == old(c.players) + if c.name == Named(name) && old(w.MayJoin(p, c)) then [p] else []
  {
    hide *;
    var channel := w.GetByName(Named(name));
    if channel == null { return; }
    NameIsUnique(w, channel);
    JoinPublic(w, p, channel);
  }

  /** ChannelPart by the name of a channel that is no instance. */
  method ChannelPart(w: Sessions, p: Player, name: string)
    requires w.Valid() && p in w.everyone
    modifies w`channels, p`channels, w.channels`players
    ensures w.Valid() && w.channels == old(w.channels)
    ensures forall c <- w.channels ::
      if c.name == Named(name) && p in old(c.players) then c.players == Without(old(c.players), p) else c.players == old(c.players)
  {
    hide *;
    var channel := w.GetByName(Named(name));
    if channel == null { return; }
    NameIsUnique(w, channel);
    if p !in channel.players { return; }
    PartPublic(w, p, channel);
  }
}
