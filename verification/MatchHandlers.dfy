/**
 The packet handlers and !mp commands that change one match only: slot statuses, teams, mods
 and the scrim ledger. `host` is always the player that the lookup of the match's host id finds.
 */
module MatchHandlers {
  import opened Lists
  import opened Mods
  import opened MatchTypes
  import opened Entities
  import Scrim

  /** MatchReady, MatchNotReady, MatchNoBeatmap and MatchHasBeatmap set the sender's own status. */
  method SetOwnStatus(m: Match, p: Player, status: SlotStatus)
    requires m.Layout() && m.Shape() && m.OpenSlotsAreEmpty() && m.Seated(p)
    requires status in {Ready, NotReady, NoMap}
    modifies m.slots`status
    ensures m.Shape() && m.OpenSlotsAreEmpty()
    ensures forall s <- m.slots :: s.State() == var x := old(s.State()); if x.player == p then x.(status := status) else x
  {
    var slot := m.GetSlot(p);
    assert slot != null;
    slot.status := status;
  }

  method ChangeTeam(m: Match, p: Player)
    requires m.Layout() && m.Shape() && m.Seated(p)
    modifies m.slots`team
    ensures m.Shape()
    ensures forall s <- m.slots :: s.State() == var x := old(s.State()); if x.player == p then x.(team := if x.team == Blue then Red else Blue) else x
  {
    var slot := m.GetSlot(p);
    assert slot != null;
    slot.team := if slot.team == Blue then Red else Blue;
  }

  /** The one way in which the host's lock button puts a player into an open slot. */
  predicate Reopens(m: Match, p: Player, host: Player, slotId: int)
    requires m.Layout()
    reads m.slots
  {
    p == host && 0 <= slotId < 16 && m.slots[slotId].status == Locked && m.slots[slotId].player != null
  }

  method Lock(m: Match, p: Player, host: Player, slotId: int)
    requires m.Layout() && m.Shape() && m.OpenSlotsAreEmpty()
    modifies m.slots`status
    ensures m.Shape()
    ensures m.OpenSlotsAreEmpty() <==> !old(Reopens(m, p, host, slotId))
    ensures forall s <- m.slots :: s.State() == var x := old(s.State());
              if p != host || s.index != slotId then x
              else if x.status == Locked then x.(status := Open)
              else if x.player == host then x
              else x.(status := Locked)
  {
    if p != host { return; }
    if !(0 <= slotId < 16) { return; }
    var slot := m.slots[slotId];
    if slot.status == Locked {
      slot.status := Open;
    } else {
      if slot.player == host { return; }
      slot.status := Locked;
    }
  }

  method MpLock(m: Match)
    requires m.Layout() && m.Shape() && m.OpenSlotsAreEmpty()
    modifies m.slots`status
    ensures m.Shape() && m.OpenSlotsAreEmpty()
    ensures forall s <- m.slots :: s.State() == var x := old(s.State()); if x.status == Open then x.(status := Locked) else x
  {
    for i := 0 to 16
      invariant forall j | 0 <= j < i :: m.slots[j].status == if old(m.slots[j].status) == Open then Locked else old(m.slots[j].status)
      invariant forall j | i <= j < 16 :: m.slots[j].status == old(m.slots[j].status)
    {
      if m.slots[i].status == Open {
        m.slots[i].status := Locked;
      }
    }
  }

  /** Some player sits in a locked slot. */
  predicate LockedIn(m: Match)
    reads m.slots`status, m.slots`player
  {
    exists s <- m.slots :: s.status == Locked && s.player != null
  }

  method MpUnlock(m: Match)
    requires m.Layout() && m.Shape() && m.OpenSlotsAreEmpty()
    modifies m.slots`status
    ensures m.Shape()
    ensures m.OpenSlotsAreEmpty() <==> !old(LockedIn(m))
    ensures forall s <- m.slots :: s.State() == var x := old(s.State()); if x.status == Locked then x.(status := Open) else x
  {
    for i := 0 to 16
      invariant forall j | 0 <= j < i :: m.slots[j].status == if old(m.slots[j].status) == Locked then Open else old(m.slots[j].status)
      invariant forall j | i <= j < 16 :: m.slots[j].status == old(m.slots[j].status)
    {
      if m.slots[i].status == Locked {
        m.slots[i].status := Open;
      }
    }
  }

  /** Every player who has the map plays. */
  method Start(m: Match)
    requires m.Layout() && m.Shape() && m.OpenSlotsAreEmpty()
    modifies m`inProgress, m.slots`status
    ensures m.Shape() && m.OpenSlotsAreEmpty()
    ensures m.State() == old(m.State()).(inProgress := true)
    ensures forall s <- m.slots :: s.State() == var x := old(s.State()); if x.player != null && x.status != NoMap then x.(status := Playing) else x
  {
    for i := 0 to 16
      invariant forall j | 0 <= j < i :: m.slots[j].status == if m.slots[j].player != null && old(m.slots[j].status) != NoMap then Playing else old(m.slots[j].status)
      invariant forall j | i <= j < 16 :: m.slots[j].status == old(m.slots[j].status)
    {
      if m.slots[i].player != null {
        if m.slots[i].status != NoMap {
          m.slots[i].status := Playing;
        }
      }
    }
    m.inProgress := true;
  }

  /** Everybody in the expected state is back in the room, and the play is over. */
  method EndPlay(m: Match, expected: SlotStatus)
    requires m.Layout() && m.Shape() && m.OpenSlotsAreEmpty()
    requires expected.HasPlayer()
    requires forall s <- m.slots :: s.status == Playing ==> expected == Playing
    modifies m`inProgress, m.slots`status, m.slots`loaded, m.slots`skipped
    ensures m.Shape() && m.OpenSlotsAreEmpty()
    ensures m.State() == old(m.State()).(inProgress := false)
    ensures forall s <- m.slots :: s.State() == var x := old(s.State());
              x.(status := if x.status == expected then NotReady else x.status, loaded := false, skipped := false)
  {
    m.UnreadyPlayers(expected);
    m.ResetPlayersLoadedStatus();
    m.inProgress := false;
  }

  method MpAbort(m: Match)
    requires m.Layout() && m.Shape() && m.OpenSlotsAreEmpty()
    modifies m`inProgress, m.slots`status, m.slots`loaded, m.slots`skipped
    ensures m.Shape() && m.OpenSlotsAreEmpty()
    ensures m.State() == old(m.State()).(inProgress := false)
    ensures forall s <- m.slots :: s.State() == var x := old(s.State());
              if !old(m.inProgress) then x else x.(status := if x.status == Playing then NotReady else x.status, loaded := false, skipped := false)
    ensures forall s <- m.slots :: s.status != Playing
  {
    if !m.inProgress { return; }
    EndPlay(m, Playing);
  }

  /** Whether the winner of a play, if there is one, is a side in the team type; nobody is on the neutral side in team modes. */
  predicate Fits(teamType: MatchTeamTypes, scores: Scrim.Scores) {
    scores == [] || Scrim.Tied(scores) ||
    match Scrim.Leader(scores)
    case Someone(_) => !teamType.HasTeams()
    case Team(team) => teamType.HasTeams() && team != Neutral
  }

  /** Where the point goes, and where it all ends. */
  lemma PointCounted(l: Scrim.Ledger, w: Side)
    ensures Scrim.OnePointMore(w, l.points, Scrim.AwardMisfit(l, w).points)
    ensures var after := Scrim.Award(l, w);
      if l.target != 0 && (if w in l.points then l.points[w] else 0) + 1 == l.target then after == Scrim.Ledger(false, map[], [], l.target)
      else after == l.(points := after.points, winners := l.winners + [Some(w)]) && Scrim.OnePointMore(w, l.points, after.points)
           && (w == Team(Red) || w == Team(Blue) ==> Team(Red) in after.points && Team(Blue) in after.points)
  {
  }

  lemma WhoFits(teamType: MatchTeamTypes, scores: Scrim.Scores)
    requires scores != [] && !Scrim.Tied(scores)
    ensures Fits(teamType, scores) <==> Scrim.IsSide(teamType, Scrim.Leader(scores))
  {
  }

  /** The point goes to the first side with the highest score, whatever the name by which it is found. */
  lemma SettledAsPlayed(l: Scrim.Ledger, scores: Scrim.Scores, teamType: MatchTeamTypes)
    ensures Scrim.Settled(scores, teamType, l, Scrim.Settle(l, scores, Fits(teamType, scores)))
  {
    hide Scrim.Leader, Scrim.Leads, Scrim.Award, Scrim.OnePointMore, Scrim.PointsOf, Scrim.IsSide, Fits;
    if scores != [] && !Scrim.Tied(scores) {
      Scrim.LeaderLeads(scores);
      WhoFits(teamType, scores);
      PointCounted(l, Scrim.Leader(scores));
      var k: nat :| k < |scores| && Scrim.Leads(scores, k) && Scrim.Leader(scores) == scores[k].0;
    }
  }

  /** Only the play that ends a scrim leaves no winners. */
  lemma LeavesNoWinners(l: Scrim.Ledger, scores: Scrim.Scores, teamType: MatchTeamTypes)
    requires scores != []
    ensures Scrim.Settle(l, scores, Fits(teamType, scores)).winners == [] <==>
      !Scrim.Tied(scores) && Fits(teamType, scores) && l.target != 0 && Scrim.PointsOf(l.points, Scrim.Leader(scores)) + 1 == l.target
  {
    hide Scrim.PointsOf, Scrim.Tied, Scrim.Leader, Fits;
    if !Scrim.Tied(scores) { Scrim.PointsAfterAward(l, Scrim.Leader(scores)); }
  }

  /**
   update_matchpoints from when its scores have arrived. Nothing looks whether the scrim has ended meanwhile; and if the team type has
   changed so that the winner is no side any more, an exception comes after the point is counted.
   */
  method UpdateMatchpoints(m: Match, scores: Scrim.Scores)
    modifies m`isScrimming, m`matchPoints, m`winners, m`bans
    ensures m.Ledger() == Scrim.Settle(old(m.Ledger()), scores, Fits(m.teamType, scores))
    ensures Scrim.Settled(scores, m.teamType, old(m.Ledger()), m.Ledger())
    ensures old(m.Ledger().Valid()) ==> (m.Ledger().Valid() <==> Scrim.Harmless(old(m.Ledger()), scores, Fits(m.teamType, scores)))
    ensures m.State() == old(m.State()).(books := m.Ledger(), bans := if scores != [] && m.winners == [] then {} else old(m.bans))
  {
    hide Scrim.Ledger.Valid, Scrim.Harmless, Scrim.Settle, Scrim.Settled, Scrim.Tied, Scrim.Leader, Scrim.PointsOf, Fits;
    SettledAsPlayed(m.Ledger(), scores, m.teamType);
    if scores != [] { LeavesNoWinners(m.Ledger(), scores, m.teamType); }
    if m.Ledger().Valid() { Scrim.SettledInTime(m.Ledger(), scores, Fits(m.teamType, scores)); }
    Award(m, scores);
  }

  /** The same, whatever the ledger is worth. */
  method Award(m: Match, scores: Scrim.Scores)
    modifies m`isScrimming, m`matchPoints, m`winners, m`bans
    ensures m.Ledger() == Scrim.Settle(old(m.Ledger()), scores, Fits(m.teamType, scores))
    ensures var closes := scores != [] && !Scrim.Tied(scores) && Fits(m.teamType, scores) && m.winningPts != 0
                          && Scrim.PointsOf(old(m.matchPoints), Scrim.Leader(scores)) + 1 == m.winningPts;
            m.bans == if closes then {} else old(m.bans)
  {
    hide Scrim.AllEqual;
    if scores == [] { return; }
    if |scores| != 1 && Scrim.AllEqual(scores) {
      m.winners := m.winners + [None];
      return;
    }
    var winner := Scrim.Leader(scores);
    m.winners := m.winners + [Some(winner)];
    m.matchPoints := m.matchPoints[winner := Scrim.PointsOf(m.matchPoints, winner) + 1];
    if m.teamType.HasTeams() {
      if !winner.Team? || winner.team == Neutral { return; }
      var loser := if winner == Team(Blue) then Team(Red) else Team(Blue);
      m.matchPoints := Scrim.Touch(m.matchPoints, loser);
    } else {
      if !winner.Someone? { return; }
    }
    if m.winningPts != 0 && m.matchPoints[winner] == m.winningPts {
      m.isScrimming := false;
      m.ResetScrim();
    }
  }

  /** The slots with players that are complete, in slot order. */
  method CompleteSlots(m: Match) returns (r: seq<Slot>)
    requires m.Layout()
    ensures forall s :: s in r <==> s in m.slots && s.player != null && s.status == SlotStatus.Complete
    ensures forall i, j | 0 <= i < j < |r| :: r[i].index < r[j].index
  {
    r := [];
    for i := 0 to 16
      invariant forall s :: s in r <==> exists j | 0 <= j < i :: m.slots[j] == s && s.player != null && s.status == SlotStatus.Complete
      invariant forall j | 0 <= j < |r| :: r[j].index < i
      invariant forall j, k | 0 <= j < k < |r| :: r[j].index < r[k].index
    {
      if m.slots[i].player != null && m.slots[i].status == SlotStatus.Complete {
        r := r + [m.slots[i]];
      }
    }
  }

  /** Whether anybody is playing. */
  method AnyPlaying(m: Match) returns (r: bool)
    requires m.Layout()
    ensures r <==> exists s <- m.slots :: s.status == Playing
  {
    for i := 0 to 16
      invariant forall j | 0 <= j < i :: m.slots[j].status != Playing
    {
      if m.slots[i].status == Playing { return true; }
    }
    return false;
  }

  method MarkComplete(m: Match, p: Player) returns (slot: Slot)
    requires m.Layout() && m.Shape() && m.OpenSlotsAreEmpty() && m.Seated(p)
    modifies m.slots`status
    ensures m.Shape() && m.OpenSlotsAreEmpty()
    ensures slot in m.slots && slot.player == p
    ensures forall s <- m.slots :: s.status == if s.player == p then SlotStatus.Complete else old(s.status)
  {
    var found := m.GetSlot(p);
    assert found != null;
    slot := found;
    slot.status := SlotStatus.Complete;
  }

  ghost predicate OthersPlay(m: Match, p: Player)
    reads m.slots`status, m.slots`player
  {
    exists s <- m.slots :: s.player != p && s.status == Playing
  }

  /** MatchComplete: the sender has finished playing; the last one to finish ends the play for everybody. */
  method Complete(m: Match, p: Player) returns (wasPlaying: seq<Slot>)
    requires m.Layout() && m.Shape() && m.OpenSlotsAreEmpty() && m.Seated(p)
    modifies m`inProgress, m.slots`status, m.slots`loaded, m.slots`skipped
    ensures m.Shape() && m.OpenSlotsAreEmpty()
    ensures var others := old(OthersPlay(m, p));
            && m.State() == (if others then old(m.State()) else old(m.State()).(inProgress := false))
            && (forall s <- m.slots :: s.State() == var x := old(s.State());
                  if others then if x.player == p then x.(status := SlotStatus.Complete) else x
                  else x.(status := if x.player == p || x.status == SlotStatus.Complete then NotReady else x.status, loaded := false, skipped := false))
            && (others <==> wasPlaying == [])
            && (!others ==> forall s <- m.slots :: s in wasPlaying <==>
                  s.player != null && (s.player == p || old(s.status) == SlotStatus.Complete))
    ensures (forall s <- wasPlaying :: s in m.slots) && forall i, j | 0 <= i < j < |wasPlaying| :: wasPlaying[i].index < wasPlaying[j].index
  {
    hide Match.Layout, Match.Shape, Match.OpenSlotsAreEmpty, Match.State, Match.Ledger, Match.Seated;
    var slot := MarkComplete(m, p);
    var playing := AnyPlaying(m);
    if playing { return []; }
    wasPlaying := CompleteSlots(m);
    assert slot in wasPlaying;
    EndPlay(m, SlotStatus.Complete);
  }

  /** Match mods to slot mods: an occupied slot takes what a player may choose alone. */
  method SlotsTakeMatchMods(m: Match)
    requires m.Layout()
    modifies m.slots`mods
    ensures forall s <- m.slots :: s.mods == if s.player != null then FreePart(m.mods) else old(s.mods)
  {
    for i := 0 to 16
      invariant forall j | 0 <= j < i :: m.slots[j].mods == if m.slots[j].player != null then FreePart(m.mods) else old(m.slots[j].mods)
      invariant forall j | i <= j < 16 :: m.slots[j].mods == old(m.slots[j].mods)
    {
      if m.slots[i].player != null {
        m.slots[i].mods := FreePart(m.mods);
      }
    }
  }

  method ClearSlotMods(m: Match)
    requires m.Layout()
    modifies m.slots`mods
    ensures forall s <- m.slots :: s.mods == if s.player != null then NOMOD else old(s.mods)
  {
    for i := 0 to 16
      invariant forall j | 0 <= j < i :: m.slots[j].mods == if m.slots[j].player != null then NOMOD else old(m.slots[j].mods)
      invariant forall j | i <= j < 16 :: m.slots[j].mods == old(m.slots[j].mods)
    {
      if m.slots[i].player != null {
        m.slots[i].mods := NOMOD;
      }
    }
  }

  method SetTeams(m: Match, team: MatchTeams)
    requires m.Layout()
    modifies m.slots`team
    ensures forall s <- m.slots :: s.team == if s.player != null then team else old(s.team)
  {
    for i := 0 to 16
      invariant forall j | 0 <= j < i :: m.slots[j].team == if m.slots[j].player != null then team else old(m.slots[j].team)
      invariant forall j | i <= j < 16 :: m.slots[j].team == old(m.slots[j].team)
    {
      if m.slots[i].player != null {
        m.slots[i].team := team;
      }
    }
  }

  /** What the player in s plays with. */
  function Plays(m: Match, s: Slot): Mods
    reads m`mods, s`mods
  {
    Combined(m.mods, s.mods)
  }

  /**
   Switching freemods on keeps what a player plays with exactly if their slot had nothing beyond the match's mods;
   that is so if freemods was off.
   */
  method FreemodsOn(m: Match)
    requires m.Layout() && m.Shape()
    modifies m`freemods, m`mods, m.slots`mods
    ensures m.Shape() && m.freemods
    ensures m.mods == SpeedPart(old(m.mods))
    ensures forall s <- m.slots :: s.mods == if s.player != null then FreePart(old(m.mods)) else NOMOD
    ensures m.Split()
    ensures forall s <- m.slots | s.player != null :: Plays(m, s) == old(Plays(m, s)) <==> old(s.mods) <= old(m.mods)
    ensures old(m.Split() && !m.freemods) ==> forall s <- m.slots | s.player != null :: Plays(m, s) == old(Plays(m, s))
    ensures old(m.Split() && m.freemods) ==>
      forall s <- m.slots | s.player != null :: Plays(m, s) == old(Plays(m, s)) <==> old(s.mods) == NOMOD
  {
    ghost var matchMods := m.mods;
    forall s | s in m.slots ensures SwitchedOn(matchMods, s.mods) {
      SwitchingOn(matchMods, s.mods);
      if FreePart(matchMods) == NOMOD && SpeedPart(s.mods) == NOMOD { BeyondSplit(matchMods, s.mods); }
    }
    m.freemods := true;
    SlotsTakeMatchMods(m);
    Shares(m.mods);
    m.mods := SpeedPart(m.mods);
  }

  ghost predicate SwitchedOn(matchMods: Mods, slotMods: Mods) {
    && Combined(SpeedPart(matchMods), FreePart(matchMods)) == matchMods
    && (matchMods == Combined(matchMods, slotMods) <==> slotMods <= matchMods)
    && (FreePart(matchMods) == NOMOD && SpeedPart(slotMods) == NOMOD ==> (slotMods <= matchMods <==> slotMods == NOMOD))
  }

  /**
   Switching freemods off: the host's choice becomes everybody's. It is what the host has played with exactly if the
   match's mods were speed-changing only or the host's, and so it is if they were split.
   */
  method FreemodsOff(m: Match, host: Player)
    requires m.Layout() && m.Shape() && m.Seated(host)
    modifies m`freemods, m`mods, m.slots`mods
    ensures m.Shape() && !m.freemods
    ensures m.mods == Combined(SpeedPart(old(m.mods)), old(host.seat.mods))
    ensures forall s <- m.slots :: s.mods == NOMOD
    ensures m.Split()
    ensures Plays(m, host.seat) == old(Plays(m, host.seat)) <==> FreePart(old(m.mods)) <= old(host.seat.mods)
    ensures old(m.Split() && m.freemods) ==> Plays(m, host.seat) == old(Plays(m, host.seat))
    ensures forall s <- m.slots | s.player != null :: Plays(m, s) == Plays(m, host.seat)
  {
    SwitchingOff(m.mods, host.seat.mods);
    m.freemods := false;
    var hostSlot := m.GetSlot(host);
    assert hostSlot != null;
    m.mods := Combined(SpeedPart(m.mods), hostSlot.mods);
    ClearSlotMods(m);
  }

  /** The command switches without looking at the current state. */
  method MpFreemods(m: Match, host: Player, on: bool)
    requires m.Layout() && m.Shape() && m.Seated(host)
    modifies m`freemods, m`mods, m.slots`mods
    ensures m.Shape() && m.Split()
    ensures m.State() == Switched(old(m.State()), on, old(host.seat.mods))
    ensures forall s <- m.slots :: s.State() == old(s.State()).(mods := if on && s.player != null then FreePart(old(m.mods)) else NOMOD)
    ensures on ==> forall s <- m.slots | s.player != null :: Plays(m, s) == old(Plays(m, s)) <==> old(s.mods) <= old(m.mods)
    ensures !on ==> (Plays(m, host.seat) == old(Plays(m, host.seat)) <==> FreePart(old(m.mods)) <= old(host.seat.mods))
  {
    if on {
      FreemodsOn(m);
    } else {
      FreemodsOff(m, host);
    }
  }

  /** On and then off again restores the match's mods, whatever they were, as the host's slot has taken over what the match gave up. */
  method OnThenOff(m: Match, host: Player)
    requires m.Layout() && m.Shape() && m.Seated(host)
    modifies m`freemods, m`mods, m.slots`mods
    ensures m.Shape() && !m.freemods && m.mods == old(m.mods)
    ensures forall s <- m.slots :: s.mods == NOMOD
    ensures forall s <- m.slots | s.player != null :: Plays(m, s) == old(Plays(m, s)) <==> old(s.mods) <= old(m.mods)
  {
    ghost var matchMods := m.mods;
    forall s | s in m.slots ensures Combined(matchMods, s.mods) == matchMods <==> s.mods <= matchMods { SwitchingOn(matchMods, s.mods); }
    Shares(m.mods);
    SwitchingOn(matchMods, NOMOD);
    MpFreemods(m, host, true);
    MpFreemods(m, host, false);
  }

  method ChangeMods(m: Match, p: Player, host: Player, mods: Mods)
    requires m.Layout() && m.Shape() && m.Seated(p)
    modifies m`mods, m.slots`mods
    ensures m.Shape()
    ensures m.State() == old(m.State()).(mods := if p != host then old(m.mods) else if m.freemods then SpeedPart(mods) else mods)
    ensures forall s <- m.slots :: s.State() == var x := old(s.State()); if m.freemods && x.player == p then x.(mods := FreePart(mods)) else x
    ensures old(m.Split()) ==> m.Split()
  {
    Shares(mods);
    hide SpeedPart, FreePart;
    if m.freemods {
      if p == host {
        m.mods := SpeedPart(mods);
      }
      var slot := m.GetSlot(p);
      assert slot != null;
      slot.mods := FreePart(mods);
    } else {
      if p != host { return; }
      m.mods := mods;
    }
  }

  /** Like ChangeMods, but without freemods any referee sets the match mods. */
  method MpMods(m: Match, p: Player, host: Player, mods: Mods)
    requires m.Layout() && m.Shape() && m.Seated(p)
    modifies m`mods, m.slots`mods
    ensures m.Shape()
    ensures m.State() == old(m.State()).(mods := if !m.freemods then mods else if p == host then SpeedPart(mods) else old(m.mods))
    ensures forall s <- m.slots :: s.State() == var x := old(s.State()); if m.freemods && x.player == p then x.(mods := FreePart(mods)) else x
    ensures old(m.Split()) ==> m.Split()
  {
    Shares(mods);
    hide SpeedPart, FreePart;
    if m.freemods {
      if p == host {
        m.mods := SpeedPart(mods);
      }
      var slot := m.GetSlot(p);
      assert slot != null;
      slot.mods := FreePart(mods);
    } else {
      m.mods := mods;
    }
  }

  /** Picking a map from the pool ends freemods and sets the pick's mods. */
  method MpPick(m: Match, mapId: int, mods: Mods)
    requires m.Layout() && m.Shape()
    modifies m`mapId, m`freemods, m`mods, m.slots`mods
    ensures m.Shape()
    ensures m.State() == old(m.State()).(mapId := mapId, freemods := false, mods := mods)
    ensures forall s <- m.slots :: s.State() == var x := old(s.State()); if old(m.freemods) then x.(mods := NOMOD) else x
    ensures old(m.Split()) ==> m.Split()
  {
    m.mapId := mapId;
    if m.freemods {
      m.freemods := false;
      ClearSlotMods(m);
    }
    m.mods := mods;
  }

  method MpTeams(m: Match, teamType: MatchTeamTypes)
    requires m.Layout() && m.Shape() && m.Ledger().Valid()
    modifies m`teamType, m`matchPoints, m`winners, m`bans, m.slots`team
    ensures m.Shape()
    ensures m.Ledger() == Scrim.Apply(old(m.Ledger()), Scrim.ResetByTeams) && m.Ledger().Valid()
    ensures m.State() == var a := old(m.State());
      if a.books.on then a.(teamType := teamType, books := Scrim.Ledger(true, map[], [], a.books.target), bans := {}) else a.(teamType := teamType)
    ensures forall s <- m.slots :: s.State() == old(s.State()).(team := if s.player != null && teamType in {TeamVs, TagTeamVs} then Red else Neutral)
  {
    Scrim.ApplyKeepsValid(m.Ledger(), Scrim.ResetByTeams);
    m.teamType := teamType;
    SetTeams(m, teamType.DefaultTeam());
    if m.isScrimming {
      m.ResetScrim();
    }
  }

  /** What a settings packet asks for; -1 as map id means that the host is choosing a map. Mode and team type are whatever numbers the client sends. */
  datatype Settings = Settings(freemods: bool, mapId: int, mode: int, teamType: int)

  /**
   MatchChangeSettings up to where it looks for the server's own map with the md5 in the packet, if it does;
   otherwise, all of it. awaits says that ResumeSettings() is to come.
   */
  method ChangeSettings(m: Match, p: Player, host: Player, data: Settings) returns (awaits: bool)
    requires m.Layout() && m.Shape() && m.OpenSlotsAreEmpty() && m.Seated(host) && m.Ledger().Valid()
    modifies m`freemods, m`mods, m`mapId, m`prevMapId, m`teamType, m.slots`mods, m.slots`status, m.slots`team
    ensures m.Shape() && m.OpenSlotsAreEmpty()
    ensures old(m.Split()) ==> m.Split()
    ensures p != host ==> unchanged(m) && forall s <- m.slots :: unchanged(s)
    ensures awaits <==> p == host && data.mapId != -1 && old(m.mapId) == -1
    ensures p == host ==>
      && m.State() == (
           var a := old(m.State());
           var b := if data.freemods == a.freemods then a else Switched(a, data.freemods, old(host.seat.mods));
           var c := if data.mapId == -1 then b.(prevMapId := a.mapId, mapId := -1) else b;
           if Retypes(a.books.on, a.teamType, data.teamType) && !awaits then c.(teamType := TypeOf(data.teamType, a.teamType)) else c)
      && forall s <- m.slots :: s.State() == (
           var a, x := old(m.State()), old(s.State());
           var y := if data.freemods == a.freemods then x else x.(mods := if data.freemods && x.player != null then FreePart(a.mods) else NOMOD);
           var z := if data.mapId == -1 && y.status == Ready then y.(status := NotReady) else y;
           if Retypes(a.books.on, a.teamType, data.teamType) && !awaits && x.player != null then z.(team := if data.teamType in {0, 1} then Neutral else Red) else z)
  {
    hide Match.Split, SpeedPart, FreePart, Combined, Match.Ledger, Match.Seated, Plays, Retypes, TypeOf;
    if p != host { return false; }
    if data.freemods != m.freemods {
      MpFreemods(m, host, data.freemods);
    }
    awaits := ChangeMapAndTeams(m, data);
  }

  /** The part of MatchChangeSettings about map and teams, before the wait. */
  method ChangeMapAndTeams(m: Match, data: Settings) returns (awaits: bool)
    requires m.Layout() && m.Shape() && m.OpenSlotsAreEmpty()
    modifies m`mapId, m`prevMapId, m`teamType, m.slots`status, m.slots`team
    ensures m.Shape() && m.OpenSlotsAreEmpty()
    ensures awaits <==> data.mapId != -1 && old(m.mapId) == -1
    ensures m.State() == var a := old(m.State());
      var c := if data.mapId == -1 then a.(prevMapId := a.mapId, mapId := -1) else a;
      if Retypes(a.books.on, a.teamType, data.teamType) && !awaits then c.(teamType := TypeOf(data.teamType, a.teamType)) else c
    ensures forall s <- m.slots :: s.State() == var a, x := old(m.State()), old(s.State());
      var z := if data.mapId == -1 && x.status == Ready then x.(status := NotReady) else x;
      if Retypes(a.books.on, a.teamType, data.teamType) && !awaits && x.player != null then z.(team := if data.teamType in {0, 1} then Neutral else Red) else z
  {
    hide Match.Layout, Match.Shape, Match.OpenSlotsAreEmpty, Slot.State, Retypes, TypeOf, TeamTypeOf;
    if data.mapId == -1 {
      ForgetMap(m);
    } else if m.mapId == -1 {
      return true;
    }
    ChangeTeamType(m, data.teamType);
    return false;
  }

  /** The host is choosing a map. */
  method ForgetMap(m: Match)
    requires m.Layout() && m.Shape() && m.OpenSlotsAreEmpty()
    modifies m`mapId, m`prevMapId, m.slots`status
    ensures m.Shape() && m.OpenSlotsAreEmpty()
    ensures m.State() == old(m.State()).(prevMapId := old(m.mapId), mapId := -1)
    ensures forall s <- m.slots :: s.State() == var x := old(s.State()); if x.status == Ready then x.(status := NotReady) else x
  {
    m.UnreadyPlayers(Ready);
    m.prevMapId := m.mapId;
    m.mapId := -1;
  }

  /** What players get for a number that may be a team type. */
  function NewTeam(teamType: int): MatchTeams { if teamType == 0 || teamType == 1 then Neutral else Red }

  /** The team type of a settings packet. A number that is none makes everybody red before the exception. */
  method ChangeTeamType(m: Match, teamType: int)
    requires m.Layout() && m.Shape()
    modifies m`teamType, m.slots`team
    ensures m.Shape()
    ensures m.State() == var a := old(m.State()); if Retypes(a.books.on, a.teamType, teamType) then a.(teamType := TypeOf(teamType, a.teamType)) else a
    ensures forall s <- m.slots :: s.State() == var x := old(s.State());
      if old(Retypes(m.isScrimming, m.teamType, teamType)) && x.player != null then x.(team := if teamType in {0, 1} then Neutral else Red) else x
  {
    if m.teamType.Value() == teamType || m.isScrimming { return; }
    SetTeams(m, NewTeam(teamType));
    var t := TeamTypeOf(teamType);
    if t == None { return; }
    m.teamType := t.value;
  }

  /** GameMode(value) raises for other numbers. */
  predicate IsGameMode(value: int) { 0 <= value < 12 }

  /**
   The rest of MatchChangeSettings, for the match that the sender is in by then; nobody asks again who its host is, or whether
   a map is still wanted. known is the id of the server's map, if it has one; if not, the mode is the client's, and if that is none an
   exception comes before the team type.
   */
  method ResumeSettings(m: Match, data: Settings, known: Option<int>)
    requires m.Layout() && m.Shape()
    modifies m`mapId, m`teamType, m.slots`team
    ensures m.Shape()
    ensures var a := old(m.State()).(mapId := if known.Some? then known.value else data.mapId);
      var change := Retypes(a.books.on, a.teamType, data.teamType) && (known.Some? || IsGameMode(data.mode));
      && m.State() == (if change then a.(teamType := TypeOf(data.teamType, a.teamType)) else a)
      && (forall s <- m.slots :: s.State() == var x := old(s.State());
            if change && x.player != null then x.(team := if data.teamType in {0, 1} then Neutral else Red) else x)
      && (unchanged(m) && (forall s <- m.slots :: unchanged(s)) <==>
          && old(m.mapId) == a.mapId
          && (change ==> TeamTypeOf(data.teamType) == None && forall s <- m.slots | s.player != null :: old(s.team) == Red))
  {
    m.mapId := if known.Some? then known.value else data.mapId;
    if known == None && !IsGameMode(data.mode) { return; }
    ChangeTeamType(m, data.teamType);
  }

  method MpScrim(m: Match, bestOf: nat)
    requires m.Ledger().Valid()
    modifies m`isScrimming, m`winningPts
    ensures m.Ledger() == Scrim.Apply(old(m.Ledger()), Scrim.Start(bestOf)) && m.Ledger().Valid()
    ensures m.State() == var a := old(m.State());
      if !a.books.on && bestOf in {1, 3, 5, 7, 9, 11, 13, 15} then a.(books := a.books.(on := true, target := (bestOf + 1) / 2)) else a
  {
    if bestOf >= 16 { return; }
    var winningPts := bestOf / 2 + 1;  // never 0, so the command's branch that cancels a scrim is dead
    if m.isScrimming { return; }
    if bestOf % 2 == 0 { return; }
    m.isScrimming := true;
    m.winningPts := winningPts;
  }

  /** mp_ban and mp_unban, for a pick that is in the pool. */
  method MpBan(m: Match, pick: (Mods, nat), banned: bool)
    modifies m`bans
    ensures m.State() == old(m.State()).(bans := if banned then old(m.bans) + {pick} else old(m.bans) - {pick})
  {
    if (pick in m.bans) == banned { return; }
    if banned {
      m.bans := m.bans + {pick};
    } else {
      m.bans := m.bans - {pick};
    }
  }

  method MpEndScrim(m: Match)
    requires m.Ledger().Valid()
    modifies m`isScrimming, m`matchPoints, m`winners, m`bans
    ensures m.Ledger() == Scrim.Apply(old(m.Ledger()), Scrim.End) && m.Ledger().Valid()
    ensures m.State() == var a := old(m.State()); if a.books.on then a.(books := Scrim.Ledger(false, map[], [], a.books.target), bans := {}) else a
  {
    if !m.isScrimming { return; }
    m.isScrimming := false;
    m.ResetScrim();
  }

  method MpRematch(m: Match, p: Player, host: Player)
    requires m.Ledger().Valid()
    modifies m`isScrimming, m`matchPoints, m`winners
    ensures m.Ledger() == if p == host then Scrim.Apply(old(m.Ledger()), Scrim.Rematch) else old(m.Ledger())
    ensures m.State() == var a := old(m.State()); if p == host then a.(books := RolledBack(a.books)) else a
    ensures m.Ledger().Valid()
  {
    if p != host { return; }
    Scrim.ApplyKeepsValid(m.Ledger(), Scrim.Rematch);
    if !m.isScrimming {
      if m.winningPts != 0 {
        m.isScrimming := true;
      }
    } else {
      if m.winners == [] { return; }
      var recentWinner := m.winners[|m.winners| - 1];
      if recentWinner == None { return; }
      m.matchPoints := m.matchPoints[recentWinner.value := Scrim.PointsOf(m.matchPoints, recentWinner.value) - 1];
      m.winners := m.winners[..|m.winners| - 1];
    }
  }

  ghost predicate EverybodyReady(m: Match)
    reads m.slots`status
  {
    forall s <- m.slots :: s.status != NotReady
  }

  /** mp_start: unless forced, everybody has to be ready. */
  method MpStart(m: Match, force: bool)
    requires m.Layout() && m.Shape() && m.OpenSlotsAreEmpty()
    modifies m`inProgress, m.slots`status
    ensures m.Shape() && m.OpenSlotsAreEmpty()
    ensures var begin := force || old(EverybodyReady(m));
            && m.State() == (if begin then old(m.State()).(inProgress := true) else old(m.State()))
            && forall s <- m.slots :: s.State() == var x := old(s.State());
                 if begin && x.player != null && x.status != NoMap then x.(status := Playing) else x
  {
    if !force {
      for i := 0 to 16
        invariant forall j | 0 <= j < i :: m.slots[j].status != NotReady
      {
        if m.slots[i].status == NotReady { return; }
      }
    }
    Start(m);
  }

  /** Everything a player in a match can ask for that stays inside the match. */
  datatype Command =
    | OwnStatus(status: SlotStatus)
    | SwitchTeam
    | LockSlot(slotId: int)
    | LockAll
    | UnlockAll
    | Begin
    | BeginWith(force: bool)
    | Abort
    | Finish
    | Freemods(on: bool)
    | PlayWith(mods: Mods)
    | CommandMods(mods: Mods)
    | Teams(teamType: MatchTeamTypes)
    | NewSettings(data: Settings)
    | Ban(pick: (Mods, nat), banned: bool)
    | StartScrim(bestOf: nat)
    | StopScrim
    | Again

  /** The command opens a locked slot that a player still sits in. */
  predicate Unseats(m: Match, p: Player, host: Player, c: Command)
    requires m.Layout()
    reads m.slots
  {
    match c
    case LockSlot(slotId) => Reopens(m, p, host, slotId)
    case UnlockAll => LockedIn(m)
    case _ => false
  }

  /** Statuses are those that packets set, and no locked slot with a player is reopened. */
  predicate Proper(m: Match, p: Player, host: Player, c: Command)
    requires m.Layout()
    reads m.slots
  {
    && !Unseats(m, p, host, c)
    && (c.OwnStatus? ==> c.status in {Ready, NotReady, NoMap})
  }

  /** The team type that a client means by a number; the one before, if it means none. */
  ghost function TypeOf(number: int, before: MatchTeamTypes): MatchTeamTypes {
    if number == 0 then HeadToHead else if number == 1 then TagCoop else if number == 2 then TeamVs else if number == 3 then TagTeamVs else before
  }

  /** A settings packet does not change the team type during a scrim. */
  ghost predicate Retypes(on: bool, teamType: MatchTeamTypes, number: int) {
    !on && !(0 <= number < 4 && TypeOf(number, teamType) == teamType)
  }

  /** Whether a settings packet is waiting for the server's map. */
  ghost predicate Waits(a: MatchState, data: Settings) { data.mapId != -1 && a.mapId == -1 }

  /** What matters in a match when p asks for something: the match, whether all are ready, whether others play, and the host's own mods. */
  datatype Moment = Moment(a: MatchState, allReady: bool, othersPlay: bool, hostMods: Mods)

  ghost function Before(m: Match, p: Player, host: Player): Moment
    reads m, m.slots, host`seat
  {
    Moment(m.State(), EverybodyReady(m), OthersPlay(m, p), if host.seat != null && host.seat in m.slots then host.seat.mods else NOMOD)
  }

  /** Freemods go on, and the match keeps what is for everybody; or off, and the host's mods are for everybody as well. */
  ghost function Switched(a: MatchState, on: bool, hostMods: Mods): MatchState {
    a.(freemods := on, mods := if on then SpeedPart(a.mods) else Combined(SpeedPart(a.mods), hostMods))
  }

  /** Without a scrim, another one of the same length; otherwise the last play is taken back, if somebody has won it. */
  ghost function RolledBack(books: Scrim.Ledger): Scrim.Ledger {
    if !books.on then books.(on := books.target != 0)
    else if books.winners == [] || books.winners[|books.winners| - 1] == None then books
    else
      var w := books.winners[|books.winners| - 1].value;
      books.(points := books.points[w := (if w in books.points then books.points[w] else 0) - 1], winners := books.winners[..|books.winners| - 1])
  }

  predicate OfSlots(c: Command) { c.OwnStatus? || c.SwitchTeam? || c.LockSlot? || c.LockAll? || c.UnlockAll? }

  predicate OfPlay(c: Command) { c.Begin? || c.BeginWith? || c.Abort? || c.Finish? }

  predicate OfMods(c: Command) { c.Freemods? || c.PlayWith? || c.CommandMods? || c.NewSettings? }

  predicate OfScrim(c: Command) { c.Teams? || c.Ban? || c.StartScrim? || c.StopScrim? || c.Again? }

  /** What a command of p about slots makes of the slot with the index, which is x before; of the match itself, nothing. */
  ghost function SlotAfterMove(c: Command, p: Player, host: Player, index: nat, x: SlotState): SlotState
    requires OfSlots(c)
  {
    match c
    case OwnStatus(status) => if x.player == p then x.(status := status) else x
    case SwitchTeam => if x.player == p then x.(team := if x.team == Blue then Red else Blue) else x
    case LockSlot(slotId) =>
      if p != host || index != slotId then x
      else if x.status == Locked then x.(status := Open)
      else if x.player == host then x
      else x.(status := Locked)
    case LockAll => if x.status == Open then x.(status := Locked) else x
    case UnlockAll => if x.status == Locked then x.(status := Open) else x
  }

  /** What a command about the play makes of the match. */
  ghost function MatchAfterPlay(c: Command, p: Player, host: Player, now: Moment): MatchState
    requires OfPlay(c)
  {
    match c
    case Begin => if p == host then now.a.(inProgress := true) else now.a
    case BeginWith(force) => if force || now.allReady then now.a.(inProgress := true) else now.a
    case Abort => now.a.(inProgress := false)
    case Finish => if now.othersPlay then now.a else now.a.(inProgress := false)
  }

  ghost function SlotAfterPlay(c: Command, p: Player, host: Player, now: Moment, x: SlotState): SlotState
    requires OfPlay(c)
  {
    match c
    case Begin => if p == host && x.player != null && x.status != NoMap then x.(status := Playing) else x
    case BeginWith(force) => if (force || now.allReady) && x.player != null && x.status != NoMap then x.(status := Playing) else x
    case Abort =>
      if !now.a.inProgress then x else x.(status := if x.status == Playing then NotReady else x.status, loaded := false, skipped := false)
    case Finish =>
      if now.othersPlay then if x.player == p then x.(status := SlotStatus.Complete) else x
      else x.(status := if x.player == p || x.status == SlotStatus.Complete then NotReady else x.status, loaded := false, skipped := false)
  }

  /** What a command about mods or settings makes of the match. */
  ghost function MatchAfterMods(c: Command, p: Player, host: Player, now: Moment): MatchState
    requires OfMods(c)
  {
    var a := now.a;
    match c
    case Freemods(on) => Switched(a, on, now.hostMods)
    case PlayWith(mods) => a.(mods := if p != host then a.mods else if a.freemods then SpeedPart(mods) else mods)
    case CommandMods(mods) => a.(mods := if !a.freemods then mods else if p == host then SpeedPart(mods) else a.mods)
    case NewSettings(data) =>
      if p != host then a
      else
        var b := if data.freemods == a.freemods then a else Switched(a, data.freemods, now.hostMods);
        var c := if data.mapId == -1 then b.(prevMapId := a.mapId, mapId := -1) else b;
        if Retypes(a.books.on, a.teamType, data.teamType) && !Waits(a, data) then c.(teamType := TypeOf(data.teamType, a.teamType)) else c
  }

  ghost function SlotAfterMods(c: Command, p: Player, host: Player, now: Moment, x: SlotState): SlotState
    requires OfMods(c)
  {
    var a := now.a;
    match c
    case Freemods(on) => x.(mods := if on && x.player != null then FreePart(a.mods) else NOMOD)
    case PlayWith(mods) => if a.freemods && x.player == p then x.(mods := FreePart(mods)) else x
    case CommandMods(mods) => if a.freemods && x.player == p then x.(mods := FreePart(mods)) else x
    case NewSettings(data) =>
      if p != host then x
      else
        var y := if data.freemods == a.freemods then x else x.(mods := if data.freemods && x.player != null then FreePart(a.mods) else NOMOD);
        var z := if data.mapId == -1 && y.status == Ready then y.(status := NotReady) else y;
        if Retypes(a.books.on, a.teamType, data.teamType) && !Waits(a, data) && x.player != null
        then z.(team := if data.teamType in {0, 1} then Neutral else Red)
        else z
  }

  /** What a command about scrims makes of the match. */
  ghost function MatchAfterScrim(c: Command, p: Player, host: Player, a: MatchState): MatchState
    requires OfScrim(c)
  {
    match c
    case Teams(teamType) =>
      if a.books.on then a.(teamType := teamType, books := Scrim.Ledger(true, map[], [], a.books.target), bans := {})
      else a.(teamType := teamType)
    case Ban(pick, banned) => a.(bans := if banned then a.bans + {pick} else a.bans - {pick})
    case StartScrim(bestOf) =>
      if !a.books.on && bestOf in {1, 3, 5, 7, 9, 11, 13, 15} then a.(books := a.books.(on := true, target := (bestOf + 1) / 2)) else a
    case StopScrim => if a.books.on then a.(books := Scrim.Ledger(false, map[], [], a.books.target), bans := {}) else a
    case Again => if p == host then a.(books := RolledBack(a.books)) else a
  }

  ghost function SlotAfterScrim(c: Command, x: SlotState): SlotState
    requires OfScrim(c)
  {
    match c
    case Teams(teamType) => x.(team := if x.player != null && teamType in {TeamVs, TagTeamVs} then Red else Neutral)
    case Ban(_, _) | StartScrim(_) | StopScrim | Again => x
  }

  /** What any command of p makes of the match. */
  ghost function MatchAfter(c: Command, p: Player, host: Player, now: Moment): MatchState {
    if OfSlots(c) then now.a
    else if OfPlay(c) then MatchAfterPlay(c, p, host, now)
    else if OfMods(c) then MatchAfterMods(c, p, host, now)
    else MatchAfterScrim(c, p, host, now.a)
  }

  /** And of the slot with the index, which is x before. */
  ghost function SlotAfter(c: Command, p: Player, host: Player, now: Moment, index: nat, x: SlotState): SlotState {
    if OfSlots(c) then SlotAfterMove(c, p, host, index, x)
    else if OfPlay(c) then SlotAfterPlay(c, p, host, now, x)
    else if OfMods(c) then SlotAfterMods(c, p, host, now, x)
    else SlotAfterScrim(c, x)
  }

  /** The same in terms of the operations on ledgers. */
  lemma OnBooks(books: Scrim.Ledger, bestOf: nat)
    ensures Scrim.Apply(books, Scrim.ResetByTeams) == if books.on then Scrim.Ledger(true, map[], [], books.target) else books
    ensures Scrim.Apply(books, Scrim.End) == if books.on then Scrim.Ledger(false, map[], [], books.target) else books
    ensures Scrim.Apply(books, Scrim.Start(bestOf)) ==
            if !books.on && bestOf in {1, 3, 5, 7, 9, 11, 13, 15} then books.(on := true, target := (bestOf + 1) / 2) else books
    ensures Scrim.Apply(books, Scrim.Rematch) == RolledBack(books)
  {
  }

  method RunSlots(m: Match, p: Player, host: Player, c: Command)
    requires m.Layout() && m.Shape() && m.OpenSlotsAreEmpty() && m.Ledger().Valid() && OfSlots(c)
    requires m.Seated(p) && m.Seated(host) && Proper(m, p, host, c)
    modifies m.slots`status, m.slots`team
    ensures m.Shape() && m.OpenSlotsAreEmpty() && m.Ledger().Valid()
    ensures old(m.Split()) ==> m.Split()
    ensures forall s <- m.slots :: s.State() == SlotAfterMove(c, p, host, s.index, old(s.State()))
  {
    hide Match.Layout, Match.Shape, Match.Seated, Match.OpenSlotsAreEmpty, Match.Split, Match.Ledger, Scrim.Ledger.Valid, LockedIn, Reopens, Slot.State;
    SeatIsSlot(m, p);
    match c {
      case OwnStatus(status) => SetOwnStatus(m, p, status);
      case SwitchTeam => ChangeTeam(m, p);
      case LockSlot(slotId) => Lock(m, p, host, slotId);
      case LockAll => MpLock(m);
      case UnlockAll => MpUnlock(m);
    }
  }

  method RunPlay(m: Match, p: Player, host: Player, c: Command)
    requires m.Layout() && m.Shape() && m.OpenSlotsAreEmpty() && m.Ledger().Valid() && OfPlay(c) && m.Seated(p) && m.Seated(host)
    modifies m`inProgress, m.slots`status, m.slots`loaded, m.slots`skipped
    ensures m.Shape() && m.OpenSlotsAreEmpty() && m.Ledger().Valid()
    ensures old(m.Split()) ==> m.Split()
    ensures m.State() == MatchAfterPlay(c, p, host, old(Before(m, p, host)))
    ensures forall s <- m.slots :: s.State() == SlotAfterPlay(c, p, host, old(Before(m, p, host)), old(s.State()))
  {
    hide Match.Layout, Match.Shape, Match.Seated, Match.OpenSlotsAreEmpty, Match.Split, Match.Ledger, Scrim.Ledger.Valid, Before, Match.State, Slot.State, EverybodyReady, OthersPlay;
    SeatIsSlot(m, host);
    BeforeShows(m, p, host);
    match c {
      case Begin => if p == host { Start(m); }
      case BeginWith(force) => MpStart(m, force);
      case Abort => MpAbort(m);
      case Finish => var _ := Complete(m, p);
    }
  }

  method RunMods(m: Match, p: Player, host: Player, c: Command)
    requires m.Layout() && m.Shape() && m.OpenSlotsAreEmpty() && m.Ledger().Valid() && OfMods(c) && m.Seated(p) && m.Seated(host)
    modifies m`freemods, m`mods, m`mapId, m`prevMapId, m`teamType, m.slots`mods, m.slots`status, m.slots`team
    ensures m.Shape() && m.OpenSlotsAreEmpty() && m.Ledger().Valid()
    ensures old(m.Split()) ==> m.Split()
    ensures m.State() == MatchAfterMods(c, p, host, old(Before(m, p, host)))
    ensures forall s <- m.slots :: s.State() == SlotAfterMods(c, p, host, old(Before(m, p, host)), old(s.State()))
  {
    hide Match.Layout, Match.Shape, Match.Seated, Match.OpenSlotsAreEmpty, Match.Split, Match.Ledger, SpeedPart, FreePart, Combined;
    hide Scrim.Ledger.Valid, Before, Match.State, Slot.State, Switched, Retypes, TypeOf;
    SeatIsSlot(m, host);
    BeforeShows(m, p, host);
    match c {
      case Freemods(on) => MpFreemods(m, host, on);
      case PlayWith(mods) => ChangeMods(m, p, host, mods);
      case CommandMods(mods) => MpMods(m, p, host, mods);
      case NewSettings(data) => var _ := ChangeSettings(m, p, host, data);
    }
  }

  method RunScrim(m: Match, p: Player, host: Player, c: Command)
    requires m.Layout() && m.Shape() && m.OpenSlotsAreEmpty() && m.Ledger().Valid() && OfScrim(c)
    modifies m`isScrimming, m`matchPoints, m`winners, m`bans, m`winningPts, m`teamType, m.slots`team
    ensures m.Shape() && m.OpenSlotsAreEmpty() && m.Ledger().Valid()
    ensures old(m.Split()) ==> m.Split()
    ensures m.State() == MatchAfterScrim(c, p, host, old(m.State()))
    ensures forall s <- m.slots :: s.State() == SlotAfterScrim(c, old(s.State()))
  {
    hide Match.Layout, Match.Shape, Match.OpenSlotsAreEmpty, Match.Split, Match.Ledger, Scrim.Apply, Scrim.Ledger.Valid, Match.State, Slot.State, RolledBack;
    StateShows(m);
    match c {
      case Teams(teamType) => MpTeams(m, teamType);
      case Ban(pick, banned) => MpBan(m, pick, banned);
      case StartScrim(bestOf) => MpScrim(m, bestOf);
      case StopScrim => MpEndScrim(m);
      case Again => MpRematch(m, p, host);
    }
  }

  /** The whole effect of a command of p on the match and its slots. */
  ghost predicate Acted(m: Match, p: Player, host: Player, c: Command, now: Moment, slots: map<Slot, SlotState>)
    reads m, m.slots
  {
    && m.State() == MatchAfter(c, p, host, now)
    && forall s <- m.slots :: s in slots && s.State() == SlotAfter(c, p, host, now, s.index, slots[s])
  }

  lemma ContentsShow(m: Match)
    ensures forall s <- m.slots :: s in m.Contents() && m.Contents()[s] == s.State()
  {
  }

  /** A command of p, who is in m. */
  method Run(m: Match, p: Player, host: Player, c: Command)
    requires m.Layout() && m.Shape() && m.OpenSlotsAreEmpty() && m.Ledger().Valid()
    requires m.Seated(p) && m.Seated(host) && Proper(m, p, host, c)
    modifies m`inProgress, m`isScrimming, m`matchPoints, m`winners, m`bans, m`winningPts
    modifies m`freemods, m`mods, m`mapId, m`prevMapId, m`teamType
    modifies m.slots`status, m.slots`team, m.slots`mods, m.slots`loaded, m.slots`skipped
    ensures m.Shape() && m.OpenSlotsAreEmpty() && m.Ledger().Valid()
    ensures old(m.Split()) ==> m.Split()
    ensures Acted(m, p, host, c, old(Before(m, p, host)), old(m.Contents()))
  {
    hide Match.Layout, Match.Shape, Match.Seated, Match.OpenSlotsAreEmpty, Match.Split, Match.Ledger, Scrim.Ledger.Valid, Proper, Before, Match.State, Slot.State, Match.Contents;
    hide OfSlots, OfPlay, OfMods, OfScrim;
    hide SlotAfterMove, MatchAfterPlay, SlotAfterPlay, MatchAfterMods, SlotAfterMods, MatchAfterScrim, SlotAfterScrim;
    SeatIsSlot(m, host);
    BeforeShows(m, p, host);
    ContentsShow(m);
    if OfSlots(c) {
      RunSlots(m, p, host, c);
    } else if OfPlay(c) {
      RunPlay(m, p, host, c);
    } else if OfMods(c) {
      RunMods(m, p, host, c);
    } else {
      AllOthers(c);
      RunScrim(m, p, host, c);
    }
  }

  lemma AllOthers(c: Command)
    requires !OfSlots(c) && !OfPlay(c) && !OfMods(c)
    ensures OfScrim(c)
  {
  }

  lemma StateShows(m: Match)
    ensures m.State().bans == m.bans && m.State().books.on == m.isScrimming
    ensures forall s <- m.slots :: s.State().player == s.player
  {
  }

  lemma BeforeShows(m: Match, p: Player, host: Player)
    requires host.seat != null && host.seat in m.slots
    ensures var now := Before(m, p, host);
      && now.a == m.State() && now.hostMods == host.seat.mods
      && now.a.freemods == m.freemods && now.a.mods == m.mods && now.a.inProgress == m.inProgress && now.a.mapId == m.mapId && now.a.bans == m.bans
      && now.allReady == EverybodyReady(m) && now.othersPlay == OthersPlay(m, p)
      && forall s <- m.slots :: s.State().player == s.player
  {
  }

  lemma SeatIsSlot(m: Match, p: Player)
    requires m.Seated(p)
    ensures p.seat != null && p.seat in m.slots
  {
  }

  /** What coroutines do to a match after they have waited: for the server's map, the pool's map, or the scores of a play. */
  datatype Late =
    | Resume(data: Settings, known: Option<int>)
    | Pick(mapId: int, mods: Mods)
    | Award(scores: Scrim.Scores)

  /** Scores have to be Harmless(). */
  predicate Timely(m: Match, l: Late)
    reads m`teamType, m`isScrimming, m`matchPoints, m`winners, m`bans, m`winningPts
  {
    l.Award? ==> Scrim.Harmless(m.Ledger(), l.scores, Fits(m.teamType, l.scores))
  }

  /** What it makes of the match, from a to b. */
  ghost predicate LateEffect(l: Late, a: MatchState, b: MatchState) {
    match l
    case Resume(data, known) =>
      var c := a.(mapId := if known.Some? then known.value else data.mapId);
      b == if RetypesLate(l, a) then c.(teamType := TypeOf(data.teamType, a.teamType)) else c
    case Pick(mapId, mods) => b == a.(mapId := mapId, freemods := false, mods := mods)
    case Award(scores) =>
      Scrim.Settled(scores, a.teamType, a.books, b.books)
      // only the play that ends a scrim leaves no winners
      && b == a.(books := b.books, bans := if scores != [] && b.books.winners == [] then {} else a.bans)
  }

  /** Without a map of the server, the client's mode has to be one. */
  ghost predicate RetypesLate(l: Late, a: MatchState) {
    l.Resume? && (l.known.Some? || 0 <= l.data.mode < 12) && Retypes(a.books.on, a.teamType, l.data.teamType)
  }

  /** And of a slot, which is x before. */
  ghost function SlotAfterWait(l: Late, a: MatchState, x: SlotState): SlotState {
    match l
    case Resume(data, _) => if RetypesLate(l, a) && x.player != null then x.(team := if data.teamType in {0, 1} then Neutral else Red) else x
    case Pick(_, _) => if a.freemods then x.(mods := NOMOD) else x
    case Award(_) => x
  }

  ghost predicate ActedLate(m: Match, l: Late, a: MatchState, slots: map<Slot, SlotState>)
    reads m, m.slots
  {
    LateEffect(l, a, m.State()) && forall s <- m.slots :: s in slots && s.State() == SlotAfterWait(l, a, slots[s])
  }

  method RunLate(m: Match, l: Late)
    requires m.Layout() && m.Shape() && m.OpenSlotsAreEmpty() && m.Ledger().Valid() && Timely(m, l)
    modifies m`isScrimming, m`matchPoints, m`winners, m`bans, m`freemods, m`mods, m`mapId, m`teamType, m.slots`team, m.slots`mods
    ensures m.Shape() && m.OpenSlotsAreEmpty() && m.Ledger().Valid()
    ensures old(m.Split()) ==> m.Split()
    ensures ActedLate(m, l, old(m.State()), old(m.Contents()))
  {
    hide Match.Layout, Match.Shape, Match.OpenSlotsAreEmpty, Match.Split, Fits, Scrim.Settled, Scrim.Tied, Scrim.Leader, Scrim.Settle, Scrim.PointsOf, Scrim.Ledger.Valid;
    hide Retypes, TypeOf, Slot.State, Match.Contents;
    ContentsShow(m);
    match l {
      case Resume(data, known) => ResumeSettings(m, data, known);
      case Pick(mapId, mods) => MpPick(m, mapId, mods);
      case Award(scores) =>
        UpdateMatchpoints(m, scores);
    }
  }
}
