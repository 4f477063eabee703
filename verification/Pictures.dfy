/** The server's state as a value, so that states at different times can be compared. */
module Pictures {
  import opened Lists
  import opened Mods
  import opened MatchTypes
  import opened Entities
  import opened Sessions

  /** Who runs a match, and how it stands. */
  datatype Table = Table(host: Player?, referees: set<Player>, state: MatchState)

  /** Who is online, who plays where, who watches whom, who is in the lobby, who is in the public channels, and what goes on in matches and slots. */
  datatype Picture = Picture(online: seq<Player>, cells: seq<Match?>, rooms: map<Player, Match?>, watching: map<Player, Player?>,
                             inLobby: map<Player, bool>, members: map<Channel, seq<Player>>, tables: map<Match, Table>, slots: map<Slot, SlotState>)

  ghost function Rooms(w: Sessions): map<Player, Match?>
    reads w`everyone, w.everyone`room
  {
    map p | p in w.everyone :: p.room
  }

  ghost function Watching(w: Sessions): map<Player, Player?>
    reads w`everyone, w.everyone`spectating
  {
    map p | p in w.everyone :: p.spectating
  }

  ghost function InLobby(w: Sessions): map<Player, bool>
    reads w`everyone, w.everyone`inLobby
  {
    map p | p in w.everyone :: p.inLobby
  }

  ghost function Members(w: Sessions): map<Channel, seq<Player>>
    reads w`allChannels, w.allChannels`players
  {
    map c | c in w.allChannels && c.name.Named? :: c.players
  }

  ghost function TableOf(m: Match): Table
    reads m`hostPlayer, m`referees, m`passwd, m`mapId, m`prevMapId, m`teamType, m`freemods, m`mods, m`inProgress,
          m`isScrimming, m`matchPoints, m`winners, m`winningPts, m`bans
  {
    Table(m.hostPlayer, m.referees, m.State())
  }

  ghost function Tables(w: Sessions): map<Match, Table>
    reads w`allMatches, w.allMatches`hostPlayer, w.allMatches`referees, w.allMatches`passwd, w.allMatches`mapId, w.allMatches`prevMapId,
          w.allMatches`teamType, w.allMatches`freemods, w.allMatches`mods, w.allMatches`inProgress, w.allMatches`isScrimming,
          w.allMatches`matchPoints, w.allMatches`winners, w.allMatches`winningPts, w.allMatches`bans
  {
    map m | m in w.allMatches :: TableOf(m)
  }

  ghost function Slots(w: Sessions): map<Slot, SlotState>
    reads w`allSlots, w.allSlots`player, w.allSlots`status, w.allSlots`team, w.allSlots`mods, w.allSlots`loaded, w.allSlots`skipped
  {
    map s | s in w.allSlots :: s.State()
  }

  ghost function Pic(w: Sessions): Picture
    reads w`players, w`matches, w`everyone, w.everyone`room, w.everyone`spectating, w.everyone`inLobby, w`allChannels, w.allChannels`players,
          w`allSlots, w.allSlots`player, w.allSlots`status, w.allSlots`team, w.allSlots`mods, w.allSlots`loaded, w.allSlots`skipped,
          w`allMatches, w.allMatches`hostPlayer, w.allMatches`referees, w.allMatches`passwd, w.allMatches`mapId, w.allMatches`prevMapId,
          w.allMatches`teamType, w.allMatches`freemods, w.allMatches`mods, w.allMatches`inProgress, w.allMatches`isScrimming,
          w.allMatches`matchPoints, w.allMatches`winners, w.allMatches`winningPts, w.allMatches`bans
  {
    Picture(w.players, w.matches, Rooms(w), Watching(w), InLobby(w), Members(w), Tables(w), Slots(w))
  }

  lemma Components(w: Sessions)
    ensures var a := Pic(w);
      && a.online == w.players && a.cells == w.matches && a.rooms == Rooms(w) && a.watching == Watching(w)
      && a.inLobby == InLobby(w) && a.members == Members(w) && a.tables == Tables(w) && a.slots == Slots(w)
  {
  }

  lemma Composed(w: Sessions, b: Picture)
    requires w.players == b.online && w.matches == b.cells && Rooms(w) == b.rooms && Watching(w) == b.watching
    requires InLobby(w) == b.inLobby && Members(w) == b.members && Tables(w) == b.tables && Slots(w) == b.slots
    ensures Pic(w) == b
  {
  }

  lemma Shows(w: Sessions)
    ensures Tables(w).Keys == w.allMatches && forall m | m in w.allMatches :: Tables(w)[m] == TableOf(m)
    ensures Slots(w).Keys == w.allSlots && forall s | s in w.allSlots :: Slots(w)[s] == s.State()
  {
  }

  /** Nobody has come, gone or moved from a to b. */
  ghost predicate NobodyMoves(a: Picture, b: Picture) {
    && b.online == a.online && b.cells == a.cells && b.rooms == a.rooms
    && b.watching == a.watching && b.inLobby == a.inLobby && b.members == a.members
  }

  /** Of the matches, m at most has changed. */
  ghost predicate OnlyTable(m: Match, a: Picture, b: Picture) {
    m in a.tables && b.tables.Keys == a.tables.Keys && forall n | n in a.tables && n != m :: b.tables[n] == a.tables[n]
  }

  /** Of the slots, those of m at most have changed. */
  ghost predicate OnlySlots(m: Match, a: Picture, b: Picture) {
    && (forall s <- m.slots :: s in a.slots) && b.slots.Keys == a.slots.Keys
    && forall s | s in a.slots && s !in m.slots :: b.slots[s] == a.slots[s]
  }

  /** At most what goes on inside m has changed. */
  ghost predicate OnlyInside(m: Match, a: Picture, b: Picture) {
    && NobodyMoves(a, b) && OnlyTable(m, a, b) && OnlySlots(m, a, b)
    && b.tables[m].host == a.tables[m].host && b.tables[m].referees == a.tables[m].referees
  }

  /** The table of m is another one, and that is all. */
  lemma OneTable(w: Sessions, m: Match, before: map<Match, Table>)
    requires m in w.allMatches && before.Keys == w.allMatches && forall n | n in w.allMatches && n != m :: TableOf(n) == before[n]
    ensures Tables(w) == before[m := TableOf(m)]
  {
    hide TableOf;
  }
}
