/** Which states of a match can be sent: what the record writer relies on is what every run keeps, the seed apart. */
module Broadcast {
  import opened Lists
  import opened MatchTypes
  import opened Entities
  import opened Sessions
  import Mods
  import Server
  import Wire
  import M = MatchRecord

  lemma StatusOnWire(s: SlotStatus)
    ensures M.HasPlayer(s.Value()) <==> s.HasPlayer()
  {
  }

  /** What write_match reads of a slot. */
  ghost function OnWire(s: Slot): M.Slot
    reads s
  {
    M.Slot(s.status.Value(), s.team.Value(), if s.player == null then None else Some(s.player.id), Mods.Number(s.mods))
  }

  /** What write_match reads of a match; names, mode and win condition are those of shell. */
  ghost function Snapshot(m: Match, shell: M.Record): M.Record
    reads m, m.slots
  {
    shell.(id := m.id, inProgress := m.inProgress, mods := Mods.Number(m.mods), mapId := m.mapId,
           slots := seq(|m.slots|, i requires 0 <= i < |m.slots| reads m.slots => OnWire(m.slots[i])),
           hostId := m.hostId, teamType := m.teamType.Value(), freemods := m.freemods, seed := m.seed)
  }

  /** A byte is eight bits. */
  lemma {:induction false} BytesOfBits(k: nat)
    ensures Mods.TwoTo(8 * k) == Wire.Pow(k)
  {
    if k > 0 {
      BytesOfBits(k - 1);
      var n := 8 * k - 8;
      assert Mods.TwoTo(n + 2) == 4 * Mods.TwoTo(n);
      assert Mods.TwoTo(n + 4) == 4 * Mods.TwoTo(n + 2);
      assert Mods.TwoTo(n + 6) == 4 * Mods.TwoTo(n + 4);
      assert Mods.TwoTo(n + 8) == 4 * Mods.TwoTo(n + 6);
    }
  }

  lemma ThirtyTwoBits()
    ensures Mods.TwoTo(32) == Wire.Pow(4) == 0x1_0000_0000
  {
    BytesOfBits(4);
  }

  /** In every state that a run can reach, the writer's assertion about players holds for every slot, even while someone leaves. */
  lemma SlotsCanBeSent(w: Sessions, m: Match, leaver: Player?)
    requires w.Seats(leaver) && m in w.allMatches
    requires forall p | p in w.everyone :: M.IsU32(p.id)
    ensures |m.slots| == 16 && forall s <- m.slots :: M.SlotIsWritable(OnWire(s)) && M.IsU32(OnWire(s).mods)
  {
    ThirtyTwoBits();
    forall s | s in m.slots ensures M.SlotIsWritable(OnWire(s)) && M.IsU32(OnWire(s).mods) {
      StatusOnWire(s.status);
      assert s in w.allSlots && s.Shape(m.inProgress, m.teamType);
    }
  }

  /**
   A registered match can be sent exactly if its seed is not negative, in a valid state and while someone leaves:
   this is why leave_match comes to its end if Match.LetsGo() says so.
   */
  lemma CanBeSent(w: Sessions, m: Match, shell: M.Record, leaver: Player?)
    requires w.Seats(leaver) && w.Registry(leaver) && w.Hosts() && m in w.allMatches && w.Live(m)
    requires forall p | p in w.everyone :: M.IsU32(p.id)
    requires Wire.FitsSigned(m.mapId, 4) && M.IsByte(shell.mode) && M.IsByte(shell.winCondition)
    ensures M.Writable(Snapshot(m, shell)) <==> m.seed >= 0
  {
    SlotsCanBeSent(w, m, leaver);
    ThirtyTwoBits();
    assert Wire.Pow(2) == 0x1_0000;
    assert m.hostPlayer in w.everyone;
  }

  /** What arrives of a number of n that has been sent without a sign. */
  predicate Arrives(seen: int, n: int) { seen == n || (n >= 0x8000_0000 && seen == n - 0x1_0000_0000) }

  ghost predicate ArrivesIn(ids: seq<int>, n: int) { exists id <- ids :: Arrives(id, n) }

  lemma FieldsArrive(x: M.Record, sendPw: bool)
    requires M.Writable(x)
    ensures var r := M.Seen(x, sendPw);
      && (x.id < 0x8000 ==> r.id == x.id) && r.inProgress == x.inProgress && r.mapId == x.mapId && r.freemods == x.freemods
      && (x.teamType < 128 ==> r.teamType == x.teamType) && (x.seed < 0x8000_0000 ==> r.seed == x.seed)
      && Arrives(r.hostId, x.hostId) && Arrives(r.mods, x.mods) && |r.slotStatuses| == |r.slotTeams| == |x.slots| == 16
      && (forall i | 0 <= i < 16 :: x.slots[i].team < 128 ==> r.slotTeams[i] == x.slots[i].team)
      && (forall i | 0 <= i < 16 :: (r.slotStatuses[i] + 256) % 256 == x.slots[i].status)
      && (if x.freemods then |r.slotMods| == 16 && forall i | 0 <= i < 16 :: Arrives(r.slotMods[i], x.slots[i].mods) else r.slotMods == [])
      && (forall id | id in r.slotIds :: exists s <- x.slots :: M.HasPlayer(s.status) && s.playerId.Some? && Arrives(id, s.playerId.value))
      && forall s <- x.slots | M.HasPlayer(s.status) :: s.playerId.Some? && ArrivesIn(r.slotIds, s.playerId.value)
  {
    hide M.SeenIds, M.HasPlayer;
    ThirtyTwoBits();
    assert Wire.Pow(2) == 0x1_0000 && Wire.Pow(1) == 256;
    forall i | 0 <= i < 16 ensures M.SlotIsWritable(x.slots[i]) { assert x.slots[i] in x.slots; }
    if x.freemods { forall i | 0 <= i < 16 ensures M.IsU32(x.slots[i].mods) { assert x.slots[i] in x.slots; } }
    forall id | id in M.SeenIds(x.slots) ensures exists s <- x.slots :: M.HasPlayer(s.status) && s.playerId.Some? && Arrives(id, s.playerId.value) {
      M.WhoIsSeen(x.slots, id);
    }
    forall s <- x.slots | M.HasPlayer(s.status) ensures s.playerId.Some? && ArrivesIn(M.SeenIds(x.slots), s.playerId.value) {
      assert M.SlotIsWritable(s);
      M.WhoIsSeen(x.slots, M.AsI32(s.playerId.value));
    }
  }

  /**
   What a client makes of a registered match, whatever comes after it: how it stands, who its host is, how each slot stands, and who is in
   those that have a player.
   */
  lemma ClientsSee(w: Sessions, m: Match, shell: M.Record, sendPw: bool, rest: seq<Wire.byte>)
    requires w.Valid() && m in w.allMatches && w.Live(m) && m.seed >= 0
    requires forall p | p in w.everyone :: M.IsU32(p.id)
    requires Wire.FitsSigned(m.mapId, 4) && M.IsByte(shell.mode) && M.IsByte(shell.winCondition)
    ensures M.Writable(Snapshot(m, shell))
    ensures var read := M.ParseMatch(M.Bytes(Snapshot(m, shell), sendPw) + rest);
      && read.Got? && read.value.1 == rest
      && var r := read.value.0;
         && r.id == m.id && r.inProgress == m.inProgress && r.mapId == m.mapId && r.freemods == m.freemods && r.teamType == m.teamType.Value()
         && r.seed == m.seed && m.hostPlayer != null && Arrives(r.hostId, m.hostPlayer.id) && Arrives(r.mods, Mods.Number(m.mods))
         && |m.slots| == |r.slotStatuses| == |r.slotTeams| == 16
         && (forall i | 0 <= i < 16 :: r.slotTeams[i] == m.slots[i].team.Value())
         && (forall i | 0 <= i < 16 :: (r.slotStatuses[i] + 256) % 256 == m.slots[i].status.Value())
         && (if m.freemods then |r.slotMods| == 16 && forall i | 0 <= i < 16 :: Arrives(r.slotMods[i], Mods.Number(m.slots[i].mods)) else r.slotMods == [])
         && (forall id | id in r.slotIds :: exists s <- m.slots :: s.player != null && s.status.HasPlayer() && Arrives(id, s.player.id))
         && forall s <- m.slots | s.status.HasPlayer() :: s.player != null && ArrivesIn(r.slotIds, s.player.id)
  {
    hide M.Bytes, M.ParseMatch, M.Seen, M.Writable, Arrives, M.HasPlayer, Mods.Number, Wire.FitsSigned, ArrivesIn;
    hide SlotStatus.Value, MatchTeams.Value, SlotStatus.HasPlayer;
    var x := Snapshot(m, shell);
    CanBeSent(w, m, shell, null);
    M.RoundTrip(x, sendPw, rest);
    FieldsArrive(x, sendPw);
    SmallValues(m);
    RegisteredIds(w, m);
    PlayersArrive(m, x, M.Seen(x, sendPw).slotIds);
  }

  /** The ids of slots are those of their players. */
  lemma PlayersArrive(m: Match, x: M.Record, ids: seq<int>)
    requires |x.slots| == |m.slots| && forall i | 0 <= i < |m.slots| :: x.slots[i] == OnWire(m.slots[i])
    requires forall id | id in ids :: exists s <- x.slots :: M.HasPlayer(s.status) && s.playerId.Some? && Arrives(id, s.playerId.value)
    requires forall s <- x.slots | M.HasPlayer(s.status) :: s.playerId.Some? && ArrivesIn(ids, s.playerId.value)
    ensures forall id | id in ids :: exists s <- m.slots :: s.player != null && s.status.HasPlayer() && Arrives(id, s.player.id)
    ensures forall s <- m.slots | s.status.HasPlayer() :: s.player != null && ArrivesIn(ids, s.player.id)
  {
    hide Arrives, ArrivesIn, M.HasPlayer, Mods.Number, SlotStatus.Value, MatchTeams.Value, SlotStatus.HasPlayer;
    forall id | id in ids ensures exists s <- m.slots :: s.player != null && s.status.HasPlayer() && Arrives(id, s.player.id) {
      var t :| t in x.slots && M.HasPlayer(t.status) && t.playerId.Some? && Arrives(id, t.playerId.value);
      var i :| 0 <= i < |x.slots| && x.slots[i] == t;
      StatusOnWire(m.slots[i].status);
      assert m.slots[i] in m.slots;
    }
    forall s <- m.slots | s.status.HasPlayer() ensures s.player != null && ArrivesIn(ids, s.player.id) {
      var i :| 0 <= i < |m.slots| && m.slots[i] == s;
      StatusOnWire(s.status);
      assert x.slots[i] in x.slots;
    }
  }

  lemma SmallValues(m: Match)
    ensures m.teamType.Value() < 128 && forall t: MatchTeams :: t.Value() < 128
  {
  }

  lemma RegisteredIds(w: Sessions, m: Match)
    requires w.Valid() && m in w.allMatches && w.Live(m)
    ensures 0 <= m.id < 0x8000 && m.hostPlayer != null && m.hostPlayer.id == m.hostId
  {
  }

  /** No id is sent twice. */
  lemma IdsOnWire(w: Sessions, m: Match, s: Slot, t: Slot)
    requires w.Valid() && m in w.allMatches && s in m.slots && t in m.slots && s != t
    requires s.status.HasPlayer() && t.status.HasPlayer()
    ensures OnWire(s).playerId.Some? && OnWire(t).playerId.Some? && OnWire(s).playerId != OnWire(t).playerId
  {
    Server.SoundMatch(w, m);
    Server.OneSeat(w, s.player, m);
    Server.SameId(w, s.player);
  }
}
