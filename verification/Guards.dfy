/** Runs that show why the guards of Runs are needed. */
module Guards {
  import opened Lists
  import opened Mods
  import opened MatchTypes
  import opened Entities
  import opened Sessions
  import opened Server
  import opened Arrivals
  import Outcomes
  import Pictures

  /** With an empty registry nobody is in a match. */
  lemma NobodyPlays(w: Sessions, p: Player)
    requires w.Valid() && p in w.everyone && forall i | 0 <= i < |w.matches| :: w.matches[i] == null
    ensures p.room == null
  {
  }

  lemma RoomsAreRegistered(w: Sessions, p: Player)
    requires w.Valid() && p in w.everyone
    ensures p.room != null ==> exists i :: 0 <= i < |w.matches| && w.matches[i] == p.room
  {
    if p.room != null { assert w.Live(p.room); }
  }

  /** With one registered match, whoever has no slot in it is in no match. */
  lemma NotInTheOnlyMatch(w: Sessions, p: Player, m: Match)
    requires w.Valid() && p in w.everyone && m in w.allMatches
    requires forall i | 0 <= i < |w.matches| :: w.matches[i] == null || w.matches[i] == m
    requires forall s <- m.slots :: s.player != p
    ensures p.room == null
  {
    RoomsAreRegistered(w, p);
    OneSeat(w, p, m);
  }

  ghost predicate Empty(w: Sessions)
    reads w`matches
  {
    |w.matches| == MAX_MATCHES && forall i | 0 <= i < |w.matches| :: w.matches[i] == null
  }

  /** A server for two players. */
  method TwoSessions() returns (w: Sessions, p: Player, q: Player)
    ensures w.Valid() && w.players == [] && w.everyone == {p, q} && p.id == 1 && q.id == 2 && !p.Restricted() && !q.Restricted()
    ensures fresh(w) && fresh(p) && fresh(q) && w.allChannels == {} && w.allMatches == {} && w.allSlots == {} && Empty(w)
  {
    assert NoDup<Channel>([]);
    hide Sessions.Valid, Sessions.Initial, NoDup;
    p := new Player(1, UNRESTRICTED, "p");
    q := new Player(2, UNRESTRICTED, "q");
    assert 0 in p.priv * UNRESTRICTED && 0 in q.priv * UNRESTRICTED;
    w := new Sessions({p, q}, []);
  }

  /** Both come online. */
  method TwoPlayers() returns (w: Sessions, p: Player, q: Player)
    ensures w.Valid() && p in w.players && q in w.players && w.everyone == {p, q} && p.id == 1 && q.id == 2 && !p.Restricted() && !q.Restricted()
    ensures fresh(w) && fresh(p) && fresh(q) && w.allChannels == {} && w.allMatches == {} && w.allSlots == {} && Empty(w)
  {
    hide *;
    w, p, q := TwoSessions();
    var _, _ := Login(w, p, false, true);
    var _, _ := Login(w, q, false, true);
  }

  /** p creates a match with the seed -1. */
  method CreateUnsendable(w: Sessions, p: Player, q: Player) returns (m: Match)
    requires w.Valid() && Empty(w) && p in w.players && q in w.everyone && p != q && p.id == 1 && !p.Restricted()
    modifies w`strays, w`channels, w`byName, w`allChannels, w`allMatches, w`allSlots, w`matches, w.Lobbies()`players, p`channels, p`room, p`seat
    ensures w.Valid() && m in w.allMatches && w.Live(m) && m.seed == -1 && m.passwd == "" && p.room == m && q.room == null
    ensures m.hostPlayer == p && |m.slots| == 16 && m.slots[1].status == Open
    ensures fresh(m) && fresh(m.chat) && (forall i | 0 <= i < |m.slots| :: fresh(m.slots[i]))
    ensures fresh(w.allChannels - old(w.allChannels))
  {
    hide Sessions.Valid, Match.SlotSet, Player.Restricted, Sessions.Lobbies, FreePart, Furnished, Drop;
    OnlineAreKnown(w);
    NobodyPlays(w, p);
    assert w.matches[0] == null;
    var made := Create(w, p, NewMatch("", Terms("", 1, 0, HeadToHead, false, NOMOD, -1)), false);
    assert made != null;
    m := made;
    NotInTheOnlyMatch(w, q, m);
    DifferentSlots(w, m);
  }

  lemma DifferentSlots(w: Sessions, m: Match)
    requires w.Valid() && m in w.allMatches
    ensures |m.slots| == 16 && m.slots[0] != m.slots[1]
  {
    assert m.slots[0].index == 0 && m.slots[1].index == 1;
  }

  /** p creates a match with the seed -1, and q joins it. */
  method BothInUnsendable() returns (w: Sessions, p: Player, m: Match)
    ensures w.Valid() && p in w.players && p.room == m && m.seed == -1 && exists s <- m.slots :: s.player != null && s.player != p
    ensures fresh(w) && fresh(p) && fresh(m) && fresh(m.chat) && forall i | 0 <= i < |m.slots| :: fresh(m.slots[i])
  {
    hide Sessions.Valid, Match.SlotSet, Player.MayGo, Player.Restricted, Sessions.Lobbies, Sessions.Live, Empty, TookSeat, Match.Contents, Drop;
    var q;
    w, p, q := TwoPlayers();
    m := CreateUnsendable(w, p, q);
    var _ := Join(w, q, m, "");
    assert q.seat in m.slots && q.seat.player == q;
  }

  /** One of the two leaves: the player is in the match and in none of its slots. */
  method NegativeSeed() returns (w: Sessions, p: Player)
    ensures !w.Valid() && p in w.players
    ensures p.room != null && forall s <- p.room.slots :: s.player != p
  {
    hide Sessions.Valid, Sessions.Stuck, Sessions.Left;
    var m;
    w, p, m := BothInUnsendable();
    var _ := Leave(w, p, m);
  }

  /**
   p logs in, and one body of packets logs p out and creates a match: it is registered, nobody is in it, and its host is not
   online, so nobody can join it, and nobody who could leave it would ever close it.
   */
  method LogoutThenCreate() returns (w: Sessions, m: Match?)
    ensures !w.Valid() && m != null && w.Live(m)
    ensures (forall s <- m.slots :: s.player == null) && forall q <- w.players :: q.id != m.hostId
  {
    hide Sessions.Valid, Match.SlotSet, Player.MayGo, Player.Restricted, Sessions.Lobbies, FreePart, Furnished, Drop, Pictures.Pic, Outcomes.LoggedOut;
    var p, q;
    w, p, q := TwoPlayers();
    OnlineAreKnown(w);
    SameId(w, p);
    NobodyPlays(w, p);
    var _ := Logout(w, p);
    OnlineAreKnown(w);
    NoMatches(w);
    m := Create(w, p, NewMatch("", Terms("", 1, 0, HeadToHead, false, NOMOD, 0)), false);
  }

  /** Only the matches that were created are registered. */
  lemma NoMatches(w: Sessions)
    requires w.Valid() && w.allMatches == {}
    ensures |w.matches| > 0 && w.matches[0] == null
  {
  }
}
