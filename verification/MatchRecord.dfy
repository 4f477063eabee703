/**
 The match record: the one packet type whose layout depends on what it says. Player ids are there
 only for slots whose status has a player, slot mods only under freemods.
 */
module MatchRecord {
  import opened Lists
  import opened Wire

  /** What the writer needs to know of a slot and of a match. */
  datatype Slot = Slot(status: int, team: int, playerId: Option<int>, mods: int)

  datatype Record = Record(id: int, inProgress: bool, mods: int, name: seq<byte>, passwd: seq<byte>,
                           mapName: seq<byte>, mapId: int, mapMd5: seq<byte>, slots: seq<Slot>,
                           hostId: int, mode: int, winCondition: int, teamType: int, freemods: bool, seed: int)

  /** What the reader makes of it. */
  datatype MultiplayerMatch =
    MultiplayerMatch(id: int, inProgress: bool, powerplay: int, mods: int, name: seq<byte>, passwd: seq<byte>,
                     mapName: seq<byte>, mapId: int, mapMd5: seq<byte>, slotStatuses: seq<int>, slotTeams: seq<int>, slotIds: seq<int>,
                     hostId: int, mode: int, winCondition: int, teamType: int, freemods: bool, slotMods: seq<int>, seed: int)

  /** status & 124 != 0, for a status with its sign or without. */
  predicate HasPlayer(status: int) { status % 128 >= 4 }

  /** On the numbers of a byte, the test is the mask. */
  lemma HasPlayerIsTheMask(b: bv8)
    ensures b & 124 != 0 <==> b % 128 >= 4
  {
  }

  predicate IsByte(v: int) { 0 <= v < 256 }

  predicate IsU32(v: int) { 0 <= v < Pow(4) }

  predicate SlotIsWritable(s: Slot) {
    && IsByte(s.status) && IsByte(s.team)
    && (HasPlayer(s.status) ==> s.playerId.Some? && IsU32(s.playerId.value))
  }

  predicate HeadIsWritable(m: Record) { 0 <= m.id < Pow(2) && IsU32(m.mods) && FitsSigned(m.mapId, 4) }

  predicate BodyIsWritable(m: Record) { |m.slots| == 16 && forall s <- m.slots :: SlotIsWritable(s) }

  predicate TailIsWritable(m: Record) {
    && IsU32(m.hostId) && IsByte(m.mode) && IsByte(m.winCondition) && IsByte(m.teamType)
    && (m.freemods ==> |m.slots| == 16 && forall s <- m.slots :: IsU32(s.mods)) && IsU32(m.seed)
  }

  /** The matches on which write_match raises no exception. */
  predicate Writable(m: Record) { HeadIsWritable(m) && BodyIsWritable(m) && TailIsWritable(m) }

  function Flag(b: bool): byte { if b then 1 else 0 }

  function Password(m: Record, sendPw: bool): seq<byte> {
    if m.passwd == [] then [0] else if sendPw then String(m.passwd) else [0x0B, 0]
  }

  // the record in three parts, each followed by what comes after it

  function Head(m: Record, sendPw: bool, rest: seq<byte>): seq<byte>
    requires HeadIsWritable(m)
  {
    LE(m.id, 2) + ([Flag(m.inProgress)] + ([0] + (LE(m.mods, 4) + (String(m.name) + (Password(m, sendPw)
      + (String(m.mapName) + (LE(Unsigned(m.mapId, 4), 4) + (String(m.mapMd5) + rest))))))))
  }

  function Statuses(slots: seq<Slot>): seq<byte>
    requires forall s <- slots :: IsByte(s.status)
  {
    if slots == [] then []
    else
      assert IsByte(slots[0].status);
      [slots[0].status as byte] + Statuses(slots[1..])
  }

  function Teams(slots: seq<Slot>): seq<byte>
    requires forall s <- slots :: IsByte(s.team)
  {
    if slots == [] then []
    else
      assert IsByte(slots[0].team);
      [slots[0].team as byte] + Teams(slots[1..])
  }

  function IdBytes(s: Slot): seq<byte>
    requires SlotIsWritable(s)
  {
    if HasPlayer(s.status) then LE(s.playerId.value, 4) else []
  }

  function Ids(slots: seq<Slot>): seq<byte>
    requires forall s <- slots :: SlotIsWritable(s)
  {
    if slots == [] then []
    else
      assert SlotIsWritable(slots[0]);
      IdBytes(slots[0]) + Ids(slots[1..])
  }

  function ModBytes(slots: seq<Slot>): seq<byte>
    requires forall s <- slots :: IsU32(s.mods)
  {
    if slots == [] then []
    else
      assert IsU32(slots[0].mods);
      LE(slots[0].mods, 4) + ModBytes(slots[1..])
  }

  function Body(m: Record, rest: seq<byte>): seq<byte>
    requires BodyIsWritable(m)
  {
    Statuses(m.slots) + (Teams(m.slots) + (Ids(m.slots) + rest))
  }

  function Tail(m: Record, rest: seq<byte>): seq<byte>
    requires TailIsWritable(m)
  {
    LE(m.hostId, 4) + ([m.mode] + ([m.winCondition] + ([m.teamType] + ([Flag(m.freemods)]
      + ((if m.freemods then ModBytes(m.slots) else []) + (LE(m.seed, 4) + rest))))))
  }

  function Bytes(m: Record, sendPw: bool): seq<byte>
    requires Writable(m)
  {
    Head(m, sendPw, Body(m, Tail(m, [])))
  }

  lemma HeadThenRest(m: Record, sendPw: bool, x: seq<byte>, rest: seq<byte>)
    requires HeadIsWritable(m)
    ensures Head(m, sendPw, x) + rest == Head(m, sendPw, x + rest)
  {
    hide String, LE, Password;
    var x1 := String(m.mapMd5) + x;
    var x2 := LE(Unsigned(m.mapId, 4), 4) + x1;
    var x3 := String(m.mapName) + x2;
    var x4 := Password(m, sendPw) + x3;
    var x5 := String(m.name) + x4;
    var x6 := LE(m.mods, 4) + x5;
    var x7 := [0] + x6;
    var x8 := [Flag(m.inProgress)] + x7;
    Assoc(LE(m.id, 2), x8, rest);
    Assoc([Flag(m.inProgress)], x7, rest);
    Assoc([0], x6, rest);
    Assoc(LE(m.mods, 4), x5, rest);
    Assoc(String(m.name), x4, rest);
    Assoc(Password(m, sendPw), x3, rest);
    Assoc(String(m.mapName), x2, rest);
    Assoc(LE(Unsigned(m.mapId, 4), 4), x1, rest);
    Assoc(String(m.mapMd5), x, rest);
  }

  lemma BodyThenRest(m: Record, x: seq<byte>, rest: seq<byte>)
    requires BodyIsWritable(m)
    ensures Body(m, x) + rest == Body(m, x + rest)
  {
    hide Statuses, Teams, Ids;
    Assoc(Statuses(m.slots), Teams(m.slots) + (Ids(m.slots) + x), rest);
    Assoc(Teams(m.slots), Ids(m.slots) + x, rest);
    Assoc(Ids(m.slots), x, rest);
  }

  lemma TailThenRest(m: Record, rest: seq<byte>)
    requires TailIsWritable(m)
    ensures Tail(m, []) + rest == Tail(m, rest)
  {
    hide LE, ModBytes;
    var x1 := LE(m.seed, 4);
    assert LE(m.seed, 4) + [] == x1;
    var mods: seq<byte> := if m.freemods then ModBytes(m.slots) else [];
    var x2 := mods + x1;
    var x3 := [Flag(m.freemods)] + x2;
    var x4 := [m.teamType as byte] + x3;
    var x5 := [m.winCondition as byte] + x4;
    var x6 := [m.mode as byte] + x5;
    Assoc(LE(m.hostId, 4), x6, rest);
    Assoc([m.mode as byte], x5, rest);
    Assoc([m.winCondition as byte], x4, rest);
    Assoc([m.teamType as byte], x3, rest);
    Assoc([Flag(m.freemods)], x2, rest);
    Assoc(mods, x1, rest);
  }

  lemma BytesThenRest(m: Record, sendPw: bool, rest: seq<byte>)
    requires Writable(m)
    ensures Bytes(m, sendPw) + rest == Head(m, sendPw, Body(m, Tail(m, rest)))
  {
    hide Head, Body, Tail;
    TailThenRest(m, rest);
    BodyThenRest(m, Tail(m, []), rest);
    HeadThenRest(m, sendPw, Body(m, Tail(m, [])), rest);
  }

  // reading

  function ParseBytes(n: nat, s: seq<byte>): Read<(seq<int>, seq<byte>)> {
    if n == 0 then Got(([], s))
    else
      var b :- ParseI8(s);
      var r :- ParseBytes(n - 1, b.1);
      Got(([b.0] + r.0, r.1))
  }

  /** One id for each status that has a player. */
  function ParseIds(statuses: seq<int>, s: seq<byte>): (seq<int>, seq<byte>) {
    if statuses == [] then ([], s)
    else if !HasPlayer(statuses[0]) then ParseIds(statuses[1..], s)
    else
      var (id, after) := ParseSigned(s, 4);
      var (ids, rest) := ParseIds(statuses[1..], after);
      ([id] + ids, rest)
  }

  function ParseInts(n: nat, s: seq<byte>): (seq<int>, seq<byte>) {
    if n == 0 then ([], s)
    else
      var (v, after) := ParseSigned(s, 4);
      var (vs, rest) := ParseInts(n - 1, after);
      ([v] + vs, rest)
  }

  datatype HeadData = HeadData(id: int, inProgress: bool, powerplay: int, mods: int, name: seq<byte>, passwd: seq<byte>,
                               mapName: seq<byte>, mapId: int, mapMd5: seq<byte>)

  datatype BodyData = BodyData(statuses: seq<int>, teams: seq<int>, ids: seq<int>)

  datatype TailData = TailData(hostId: int, mode: int, winCondition: int, teamType: int, freemods: bool, slotMods: seq<int>, seed: int)

  function ParseHead(s: seq<byte>): Read<(HeadData, seq<byte>)> {
    var (id, s1) := ParseSigned(s, 2);
    var inProgress :- ParseI8(s1);
    var powerplay :- ParseI8(inProgress.1);
    var (mods, s2) := ParseSigned(powerplay.1, 4);
    var name :- ParseString(s2);
    var passwd :- ParseString(name.1);
    var mapName :- ParseString(passwd.1);
    var (mapId, s3) := ParseSigned(mapName.1, 4);
    var mapMd5 :- ParseString(s3);
    Got((HeadData(id, inProgress.0 == 1, powerplay.0, mods, name.0, passwd.0, mapName.0, mapId, mapMd5.0), mapMd5.1))
  }

  function ParseBody(s: seq<byte>): Read<(BodyData, seq<byte>)> {
    var statuses :- ParseBytes(16, s);
    var teams :- ParseBytes(16, statuses.1);
    var (ids, rest) := ParseIds(statuses.0, teams.1);
    Got((BodyData(statuses.0, teams.0, ids), rest))
  }

  function ParseTail(s: seq<byte>): Read<(TailData, seq<byte>)> {
    var (hostId, s1) := ParseSigned(s, 4);
    var mode :- ParseI8(s1);
    var winCondition :- ParseI8(mode.1);
    var teamType :- ParseI8(winCondition.1);
    var freemods :- ParseI8(teamType.1);
    var (slotMods, s2) := if freemods.0 == 1 then ParseInts(16, freemods.1) else ([], freemods.1);
    var (seed, rest) := ParseSigned(s2, 4);
    Got((TailData(hostId, mode.0, winCondition.0, teamType.0, freemods.0 == 1, slotMods, seed), rest))
  }

  function Join(h: HeadData, b: BodyData, t: TailData): MultiplayerMatch {
    MultiplayerMatch(h.id, h.inProgress, h.powerplay, h.mods, h.name, h.passwd, h.mapName, h.mapId, h.mapMd5,
                     b.statuses, b.teams, b.ids, t.hostId, t.mode, t.winCondition, t.teamType, t.freemods, t.slotMods, t.seed)
  }

  function ParseMatch(s: seq<byte>): Read<(MultiplayerMatch, seq<byte>)> {
    var h :- ParseHead(s);
    var b :- ParseBody(h.1);
    var t :- ParseTail(b.1);
    Got((Join(h.0, b.0, t.0), t.1))
  }

  // what the reader is meant to see

  /** A field that is written without a sign is read with one. */
  function AsI8(v: int): int { if 0 <= v then Signed(v, 1) else v }

  function AsI32(v: int): int { if 0 <= v then Signed(v, 4) else v }

  function SeenStatuses(slots: seq<Slot>): seq<int> { seq(|slots|, i requires 0 <= i < |slots| => AsI8(slots[i].status)) }

  function SeenTeams(slots: seq<Slot>): seq<int> { seq(|slots|, i requires 0 <= i < |slots| => AsI8(slots[i].team)) }

  function SeenMods(slots: seq<Slot>): seq<int> { seq(|slots|, i requires 0 <= i < |slots| => AsI32(slots[i].mods)) }

  /** The ids of the players in slots with a player, in slot order. */
  function SeenIds(slots: seq<Slot>): seq<int> {
    if slots == [] then []
    else (if HasPlayer(slots[0].status) && slots[0].playerId.Some? then [AsI32(slots[0].playerId.value)] else []) + SeenIds(slots[1..])
  }

  function Seen(m: Record, sendPw: bool): MultiplayerMatch
    requires Writable(m)
  {
    MultiplayerMatch(Signed(m.id, 2), m.inProgress, 0, AsI32(m.mods), m.name, if sendPw then m.passwd else [],
                     m.mapName, m.mapId, m.mapMd5, SeenStatuses(m.slots), SeenTeams(m.slots), SeenIds(m.slots),
                     AsI32(m.hostId), AsI8(m.mode), AsI8(m.winCondition), AsI8(m.teamType), m.freemods,
                     if m.freemods then SeenMods(m.slots) else [], AsI32(m.seed))
  }

  lemma ParseByte(b: byte, rest: seq<byte>)
    ensures ParseI8([b] + rest) == Got((AsI8(b), rest))
  {
    assert ([b] + rest)[1..] == rest;
  }

  lemma ParsePassword(m: Record, sendPw: bool, rest: seq<byte>)
    ensures ParseString(Password(m, sendPw) + rest) == Got((if sendPw then m.passwd else [], rest))
  {
    ParseStringOfString(m.passwd, rest);
    ParseHidden(rest);
  }

  lemma HeadIsRead(m: Record, sendPw: bool, rest: seq<byte>)
    requires HeadIsWritable(m)
    ensures ParseHead(Head(m, sendPw, rest)) ==
            Got((HeadData(Signed(m.id, 2), m.inProgress, 0, AsI32(m.mods), m.name, if sendPw then m.passwd else [], m.mapName, m.mapId, m.mapMd5), rest))
  {
    var x1 := String(m.mapMd5) + rest;
    var x2 := LE(Unsigned(m.mapId, 4), 4) + x1;
    var x3 := String(m.mapName) + x2;
    var x4 := Password(m, sendPw) + x3;
    var x5 := String(m.name) + x4;
    var x6 := LE(m.mods, 4) + x5;
    var x7 := [0] + x6;
    var x8 := [Flag(m.inProgress)] + x7;
    ParseUnsignedLE(m.id, 2, x8);
    ParseByte(Flag(m.inProgress), x7);
    ParseByte(0, x6);
    ParseUnsignedLE(m.mods, 4, x5);
    ParseStringOfString(m.name, x4);
    ParsePassword(m, sendPw, x3);
    ParseStringOfString(m.mapName, x2);
    SignedOfUnsigned(m.mapId, 4);
    ParseUnsignedLE(Unsigned(m.mapId, 4), 4, x1);
    ParseStringOfString(m.mapMd5, rest);
    hide String, LE, Password, ParseString, ParseI8, ParseSigned, Signed, Unsigned, Pow;
  }

  lemma {:induction false} StatusesAreRead(slots: seq<Slot>, rest: seq<byte>)
    requires forall s <- slots :: IsByte(s.status)
    ensures ParseBytes(|slots|, Statuses(slots) + rest) == Got((SeenStatuses(slots), rest))
  {
    if slots == [] {
      assert Statuses(slots) + rest == rest;
    } else {
      assert IsByte(slots[0].status);
      StatusesAreRead(slots[1..], rest);
      ParseByte(slots[0].status, Statuses(slots[1..]) + rest);
      assert Statuses(slots) + rest == [slots[0].status as byte] + (Statuses(slots[1..]) + rest);
      assert SeenStatuses(slots) == [AsI8(slots[0].status)] + SeenStatuses(slots[1..]);
    }
  }

  lemma {:induction false} TeamsAreRead(slots: seq<Slot>, rest: seq<byte>)
    requires forall s <- slots :: IsByte(s.team)
    ensures ParseBytes(|slots|, Teams(slots) + rest) == Got((SeenTeams(slots), rest))
  {
    if slots == [] {
      assert Teams(slots) + rest == rest;
    } else {
      assert IsByte(slots[0].team);
      TeamsAreRead(slots[1..], rest);
      ParseByte(slots[0].team, Teams(slots[1..]) + rest);
      assert Teams(slots) + rest == [slots[0].team as byte] + (Teams(slots[1..]) + rest);
      assert SeenTeams(slots) == [AsI8(slots[0].team)] + SeenTeams(slots[1..]);
    }
  }

  /** Both sides look at the same statuses, so they agree on which slots have an id. */
  lemma SameTest(s: Slot)
    requires SlotIsWritable(s)
    ensures HasPlayer(AsI8(s.status)) <==> HasPlayer(s.status)
  {
  }

  lemma ParseIdsCons(s: Slot, statuses: seq<int>, bytes: seq<byte>)
    requires SlotIsWritable(s)
    ensures var (ids, rest) := ParseIds(statuses, bytes);
      ParseIds([AsI8(s.status)] + statuses, IdBytes(s) + bytes)
      == (if HasPlayer(s.status) then [AsI32(s.playerId.value)] + ids else ids, rest)
  {
    SameTest(s);
    hide LE, Pow, ParseSigned, AsI8, HasPlayer, AsI32, IsU32;
    assert ([AsI8(s.status)] + statuses)[1..] == statuses;
    if HasPlayer(s.status) {
      ParseU32(s.playerId.value, bytes);
    } else {
      assert IdBytes(s) + bytes == bytes;
    }
  }

  lemma {:induction false} IdsAreRead(slots: seq<Slot>, rest: seq<byte>)
    requires forall s <- slots :: SlotIsWritable(s)
    ensures ParseIds(SeenStatuses(slots), Ids(slots) + rest) == (SeenIds(slots), rest)
  {
    hide IdBytes, ParseIds, AsI8, AsI32, HasPlayer;
    if slots == [] {
      NoStatuses(rest);
      assert Ids(slots) + rest == rest;
    } else {
      var s := slots[0];
      assert SlotIsWritable(s);
      IdsAreRead(slots[1..], rest);
      assert SeenStatuses(slots) == [AsI8(s.status)] + SeenStatuses(slots[1..]);
      Assoc(IdBytes(s), Ids(slots[1..]), rest);
      ParseIdsCons(s, SeenStatuses(slots[1..]), Ids(slots[1..]) + rest);
      assert HasPlayer(s.status) ==> s.playerId.Some? by { WithPlayer(s); }
      assert [] + SeenIds(slots[1..]) == SeenIds(slots[1..]);
    }
  }

  lemma WithPlayer(s: Slot)
    requires SlotIsWritable(s)
    ensures HasPlayer(s.status) ==> s.playerId.Some?
  {
  }

  lemma NoStatuses(rest: seq<byte>)
    ensures ParseIds([], rest) == ([], rest)
  {
  }

  lemma ParseU32(v: int, rest: seq<byte>)
    requires IsU32(v)
    ensures ParseSigned(LE(v, 4) + rest, 4) == (AsI32(v), rest)
  {
    ParseUnsignedLE(v, 4, rest);
  }

  lemma {:induction false} ModsAreRead(slots: seq<Slot>, rest: seq<byte>)
    requires forall s <- slots :: IsU32(s.mods)
    ensures ParseInts(|slots|, ModBytes(slots) + rest) == (SeenMods(slots), rest)
  {
    if slots == [] {
      assert ModBytes(slots) + rest == rest;
    } else {
      assert IsU32(slots[0].mods);
      ModsAreRead(slots[1..], rest);
      ParseU32(slots[0].mods, ModBytes(slots[1..]) + rest);
      hide LE, ParseSigned, AsI32, IsU32, Pow;
      assert ModBytes(slots) + rest == LE(slots[0].mods, 4) + (ModBytes(slots[1..]) + rest);
      assert SeenMods(slots) == [AsI32(slots[0].mods)] + SeenMods(slots[1..]);
    }
  }

  lemma BodyIsRead(m: Record, rest: seq<byte>)
    requires BodyIsWritable(m)
    ensures ParseBody(Body(m, rest)) == Got((BodyData(SeenStatuses(m.slots), SeenTeams(m.slots), SeenIds(m.slots)), rest))
  {
    StatusesAreRead(m.slots, Teams(m.slots) + (Ids(m.slots) + rest));
    TeamsAreRead(m.slots, Ids(m.slots) + rest);
    IdsAreRead(m.slots, rest);
  }

  lemma TailIsRead(m: Record, rest: seq<byte>)
    requires TailIsWritable(m)
    ensures ParseTail(Tail(m, rest)) ==
            Got((TailData(AsI32(m.hostId), AsI8(m.mode), AsI8(m.winCondition), AsI8(m.teamType), m.freemods,
                          if m.freemods then SeenMods(m.slots) else [], AsI32(m.seed)), rest))
  {
    var x1 := LE(m.seed, 4) + rest;
    var mods: seq<byte> := if m.freemods then ModBytes(m.slots) else [];
    var x2 := mods + x1;
    var x3 := [Flag(m.freemods)] + x2;
    var x4 := [m.teamType as byte] + x3;
    var x5 := [m.winCondition as byte] + x4;
    var x6 := [m.mode as byte] + x5;
    ParseUnsignedLE(m.hostId, 4, x6);
    ParseByte(m.mode, x5);
    ParseByte(m.winCondition, x4);
    ParseByte(m.teamType, x3);
    ParseByte(Flag(m.freemods), x2);
    if m.freemods { ModsAreRead(m.slots, x1); } else { assert x2 == x1; }
    ParseUnsignedLE(m.seed, 4, rest);
    hide LE, ModBytes, ParseI8, ParseSigned, ParseInts, SeenMods, Pow, Signed;
  }

  /** read_match after write_match, whatever follows in the buffer. */
  lemma RoundTrip(m: Record, sendPw: bool, rest: seq<byte>)
    requires Writable(m)
    ensures ParseMatch(Bytes(m, sendPw) + rest) == Got((Seen(m, sendPw), rest))
  {
    hide Head, Body, Tail, ParseHead, ParseBody, ParseTail, Bytes;
    BytesThenRest(m, sendPw, rest);
    HeadIsRead(m, sendPw, Body(m, Tail(m, rest)));
    BodyIsRead(m, Tail(m, rest));
    TailIsRead(m, rest);
  }

  /** Fields that are the same number with a sign as without. */
  predicate Small(m: Record) {
    && 2 * m.id < Pow(2) && 2 * m.mods < Pow(4) && 2 * m.hostId < Pow(4) && 2 * m.seed < Pow(4)
    && m.mode < 128 && m.winCondition < 128 && m.teamType < 128
    && forall s <- m.slots ::
         s.status < 128 && s.team < 128 && 2 * s.mods < Pow(4) && SmallId(s)
  }

  /** Then every field comes back as it was written, and the ids are exactly those of the slots with a player. */
  lemma SmallFieldsComeBack(m: Record, sendPw: bool)
    requires Writable(m) && Small(m)
    ensures var r := Seen(m, sendPw);
      && (r.id, r.inProgress, r.mods, r.name, r.mapName) == (m.id, m.inProgress, m.mods, m.name, m.mapName)
      && r.passwd == (if sendPw then m.passwd else [])
      && (r.mapId, r.mapMd5, r.hostId, r.freemods, r.seed) == (m.mapId, m.mapMd5, m.hostId, m.freemods, m.seed)
      && (r.mode, r.winCondition, r.teamType) == (m.mode, m.winCondition, m.teamType)
      && |r.slotStatuses| == |r.slotTeams| == 16
      && (forall i | 0 <= i < 16 :: r.slotStatuses[i] == m.slots[i].status && r.slotTeams[i] == m.slots[i].team)
      && (if m.freemods then |r.slotMods| == 16 && forall i | 0 <= i < 16 :: r.slotMods[i] == m.slots[i].mods else r.slotMods == [])
      && (forall id :: id in r.slotIds <==> exists s <- m.slots :: HasPlayer(s.status) && s.playerId == Some(id))
  {
    forall i | 0 <= i < 16 ensures SlotIsWritable(m.slots[i]) && AsI8(m.slots[i].status) == m.slots[i].status && AsI8(m.slots[i].team) == m.slots[i].team {
      assert m.slots[i] in m.slots;
    }
    forall id ensures id in SeenIds(m.slots) <==> exists s <- m.slots :: HasPlayer(s.status) && s.playerId == Some(id) {
      IdsOfPlayers(m.slots, id);
    }
  }

  /** Exactly the ids of slots with a player are seen, if with a sign. */
  lemma {:induction false} WhoIsSeen(slots: seq<Slot>, id: int)
    ensures id in SeenIds(slots) <==> exists s <- slots :: HasPlayer(s.status) && s.playerId.Some? && AsI32(s.playerId.value) == id
  {
    hide HasPlayer, AsI32;
    if slots != [] {
      var s := slots[0];
      WhoIsSeen(slots[1..], id);
      if t :| t in slots && HasPlayer(t.status) && t.playerId.Some? && AsI32(t.playerId.value) == id {
        assert t == s || t in slots[1..];
      }
    }
  }

  predicate SmallId(s: Slot) { s.playerId.Some? ==> 2 * s.playerId.value < Pow(4) }

  lemma {:induction false} IdsOfPlayers(slots: seq<Slot>, id: int)
    requires forall s <- slots :: SmallId(s)
    ensures id in SeenIds(slots) <==> exists s <- slots :: HasPlayer(s.status) && s.playerId == Some(id)
  {
    if slots != [] {
      var s := slots[0];
      IdsOfPlayers(slots[1..], id);
      assert SmallId(s);
      if t :| t in slots && HasPlayer(t.status) && t.playerId == Some(id) {
        assert t == s || t in slots[1..];
      }
    }
  }

  lemma SignedInRange(s: seq<byte>, k: nat)
    requires k <= 4
    ensures FitsSigned(ParseSigned(s, k).0, 4)
  {
    var n := Min(k, |s|);
    LEofFromLE(s[..n]);
    assert Pow(1) == 0x100 && Pow(2) == 0x1_0000 && Pow(3) == 0x100_0000 && Pow(4) == 0x1_0000_0000;
  }

  lemma TailSeedInRange(s: seq<byte>)
    requires ParseTail(s).Got?
    ensures FitsSigned(ParseTail(s).value.0.seed, 4)
  {
    hide FitsSigned, ParseSigned, ParseInts;
    var mode := ParseI8(ParseSigned(s, 4).1).value;
    var winCondition := ParseI8(mode.1).value;
    var teamType := ParseI8(winCondition.1).value;
    var freemods := ParseI8(teamType.1).value;
    SignedInRange(if freemods.0 == 1 then ParseInts(16, freemods.1).1 else freemods.1, 4);
  }

  lemma SeedInRange(s: seq<byte>)
    requires ParseMatch(s).Got?
    ensures FitsSigned(ParseMatch(s).value.0.seed, 4)
  {
    hide FitsSigned, ParseHead, ParseBody, ParseTail;
    TailSeedInRange(ParseBody(ParseHead(s).value.1).value.1);
  }

  /** A match with the seed of whatever record a client has sent can be sent exactly if the seed is not negative. */
  lemma SeedSurvives(s: seq<byte>, m: Record)
    requires ParseMatch(s).Got? && Writable(m.(seed := 0))
    ensures var seed := ParseMatch(s).value.0.seed;
      FitsSigned(seed, 4) && (Writable(m.(seed := seed)) <==> seed >= 0)
  {
    hide ParseMatch;
    SeedInRange(s);
    assert Pow(4) == 0x1_0000_0000;
  }

  /** write_match up to the map's md5; None stands for the exceptions. */
  method WriteHead(m: Record, sendPw: bool) returns (r: Option<seq<byte>>)
    ensures r == if HeadIsWritable(m) then Some(Head(m, sendPw, [])) else None
  {
    if !(0 <= m.id < Pow(2)) || !IsU32(m.mods) { return None; }
    var ret := LE(m.id, 2) + ([Flag(m.inProgress)] + ([0] + LE(m.mods, 4)));
    var start := ret;
    ret := ret + String(m.name);
    if m.passwd != [] {
      if sendPw {
        ret := ret + String(m.passwd);
      } else {
        ret := ret + [0x0B, 0];
      }
    } else {
      ret := ret + [0];
    }
    ret := ret + String(m.mapName);
    if !FitsSigned(m.mapId, 4) { return None; }
    ret := ret + LE(Unsigned(m.mapId, 4), 4);
    ret := ret + String(m.mapMd5);
    HeadInOrder(m, sendPw);
    return Some(ret);
  }

  /** The head, put together from the left. */
  lemma HeadInOrder(m: Record, sendPw: bool)
    requires HeadIsWritable(m)
    ensures LE(m.id, 2) + ([Flag(m.inProgress)] + ([0] + LE(m.mods, 4))) + String(m.name) + Password(m, sendPw) + String(m.mapName)
            + LE(Unsigned(m.mapId, 4), 4) + String(m.mapMd5) == Head(m, sendPw, [])
  {
    hide LE, String, Password;
    var md5, mapId, mapName, pw, name := String(m.mapMd5), LE(Unsigned(m.mapId, 4), 4), String(m.mapName), Password(m, sendPw), String(m.name);
    var a, b, c, d := LE(m.id, 2), [Flag(m.inProgress)], [0], LE(m.mods, 4);
    assert md5 + [] == md5;
    var start := a + (b + (c + d));
    Assoc(start + name + pw + mapName, mapId, md5);
    Assoc(start + name + pw, mapName, mapId + md5);
    Assoc(start + name, pw, mapName + (mapId + md5));
    Assoc(start, name, pw + (mapName + (mapId + md5)));
    var x := name + (pw + (mapName + (mapId + md5)));
    Assoc(a, b + (c + d), x);
    Assoc(b, c + d, x);
    Assoc(c, d, x);
  }

  /** ret.extend([s.status for s in m.slots]) */
  method WriteStatuses(slots: seq<Slot>) returns (r: Option<seq<byte>>)
    ensures r == if forall s <- slots :: IsByte(s.status) then Some(Statuses(slots)) else None
  {
    var ret: seq<byte> := [];
    for i := 0 to |slots|
      invariant forall j | 0 <= j < i :: IsByte(slots[j].status)
      invariant (forall s <- slots :: IsByte(s.status)) ==> ret + Statuses(slots[i..]) == Statuses(slots)
    {
      assert slots[i] in slots && slots[i..][1..] == slots[i + 1..];
      if !IsByte(slots[i].status) { return None; }
      ret := ret + [slots[i].status];
    }
    assert slots[|slots|..] == [] && ret + [] == ret;
    return Some(ret);
  }

  /** ret.extend([s.team for s in m.slots]) */
  method WriteTeams(slots: seq<Slot>) returns (r: Option<seq<byte>>)
    ensures r == if forall s <- slots :: IsByte(s.team) then Some(Teams(slots)) else None
  {
    var ret: seq<byte> := [];
    for i := 0 to |slots|
      invariant forall j | 0 <= j < i :: IsByte(slots[j].team)
      invariant (forall s <- slots :: IsByte(s.team)) ==> ret + Teams(slots[i..]) == Teams(slots)
    {
      assert slots[i] in slots && slots[i..][1..] == slots[i + 1..];
      if !IsByte(slots[i].team) { return None; }
      ret := ret + [slots[i].team];
    }
    assert slots[|slots|..] == [] && ret + [] == ret;
    return Some(ret);
  }

  /** The ids of the slots with a player; without a player in such a slot, the assertion fails. */
  lemma {:induction false} IdsSnoc(slots: seq<Slot>, s: Slot)
    requires (forall x <- slots :: SlotIsWritable(x)) && SlotIsWritable(s)
    ensures Ids(slots + [s]) == Ids(slots) + IdBytes(s)
  {
    hide IdBytes, SlotIsWritable;
    if slots == [] {
      assert slots + [s] == [s] && Ids([s][1..]) == [];
    } else {
      assert SlotIsWritable(slots[0]);
      IdsSnoc(slots[1..], s);
      assert (slots + [s])[1..] == slots[1..] + [s];
    }
  }

  method WriteIds(slots: seq<Slot>) returns (r: Option<seq<byte>>)
    requires forall s <- slots :: IsByte(s.status) && IsByte(s.team)
    ensures r == if forall s <- slots :: SlotIsWritable(s) then Some(Ids(slots)) else None
  {
    hide LE, Pow, Ids, HasPlayer;
    var ret: seq<byte> := [];
    NoIds();
    for i := 0 to |slots|
      invariant forall s <- slots[..i] :: SlotIsWritable(s)
      invariant ret == Ids(slots[..i])
    {
      var s := slots[i];
      assert s in slots && slots[..i + 1] == slots[..i] + [s];
      if HasPlayer(s.status) {
        if s.playerId == None || !IsU32(s.playerId.value) { return None; }
        ret := ret + LE(s.playerId.value, 4);
      }
      IdsSnoc(slots[..i], s);
    }
    assert slots[..|slots|] == slots;
    return Some(ret);
  }

  lemma NoIds()
    ensures Ids([]) == [] && ModBytes([]) == []
  {
  }

  lemma {:induction false} ModsSnoc(slots: seq<Slot>, s: Slot)
    requires (forall x <- slots :: IsU32(x.mods)) && IsU32(s.mods)
    ensures ModBytes(slots + [s]) == ModBytes(slots) + LE(s.mods, 4)
  {
    hide LE, Pow, IsU32;
    if slots == [] {
      assert slots + [s] == [s] && ModBytes([s][1..]) == [];
    } else {
      assert IsU32(slots[0].mods);
      ModsSnoc(slots[1..], s);
      assert (slots + [s])[1..] == slots[1..] + [s];
    }
  }

  method WriteMods(slots: seq<Slot>) returns (r: Option<seq<byte>>)
    ensures r == if forall s <- slots :: IsU32(s.mods) then Some(ModBytes(slots)) else None
  {
    hide LE, Pow, ModBytes;
    var ret: seq<byte> := [];
    NoIds();
    for i := 0 to |slots|
      invariant forall s <- slots[..i] :: IsU32(s.mods)
      invariant ret == ModBytes(slots[..i])
    {
      assert slots[i] in slots && slots[..i + 1] == slots[..i] + [slots[i]];
      if !IsU32(slots[i].mods) { return None; }
      ModsSnoc(slots[..i], slots[i]);
      ret := ret + LE(slots[i].mods, 4);
    }
    assert slots[..|slots|] == slots;
    return Some(ret);
  }

  /** write_match from the statuses to the ids. */
  method WriteBody(m: Record) returns (r: Option<seq<byte>>)
    requires |m.slots| == 16
    ensures r == if BodyIsWritable(m) then Some(Body(m, [])) else None
  {
    var statuses := WriteStatuses(m.slots);
    if statuses == None { return None; }
    var teams := WriteTeams(m.slots);
    if teams == None { return None; }
    var ids := WriteIds(m.slots);
    if ids == None { return None; }
    Assoc(statuses.value, teams.value, ids.value);
    assert ids.value + [] == ids.value;
    return Some(statuses.value + teams.value + ids.value);
  }

  /** write_match from the host's id. */
  method WriteTail(m: Record) returns (r: Option<seq<byte>>)
    requires |m.slots| == 16
    ensures r == if TailIsWritable(m) then Some(Tail(m, [])) else None
  {
    if !IsU32(m.hostId) { return None; }
    if !IsByte(m.mode) || !IsByte(m.winCondition) || !IsByte(m.teamType) { return None; }
    var mods: Option<seq<byte>> := Some([]);
    if m.freemods { mods := WriteMods(m.slots); }
    if mods == None || !IsU32(m.seed) { return None; }
    TailInOrder(m, mods.value);
    var ret := LE(m.hostId, 4) + ([m.mode as byte] + ([m.winCondition as byte] + ([m.teamType as byte] + [Flag(m.freemods)])));
    return Some(ret + mods.value + LE(m.seed, 4));
  }

  lemma TailInOrder(m: Record, mods: seq<byte>)
    requires TailIsWritable(m) && mods == if m.freemods then ModBytes(m.slots) else []
    ensures LE(m.hostId, 4) + ([m.mode as byte] + ([m.winCondition as byte] + ([m.teamType as byte] + [Flag(m.freemods)]))) + mods + LE(m.seed, 4)
            == Tail(m, [])
  {
    hide LE, ModBytes;
    var seed := LE(m.seed, 4);
    var a, b, c, d, e := LE(m.hostId, 4), [m.mode as byte], [m.winCondition as byte], [m.teamType as byte], [Flag(m.freemods)];
    assert seed + [] == seed;
    Assoc(a + (b + (c + (d + e))), mods, seed);
    var x := mods + seed;
    Assoc(a, b + (c + (d + e)), x);
    Assoc(b, c + (d + e), x);
    Assoc(c, d + e, x);
    Assoc(d, e, x);
  }

  /** write_match; None stands for the exceptions. */
  method WriteMatch(m: Record, sendPw: bool) returns (r: Option<seq<byte>>)
    requires |m.slots| == 16
    ensures r == if Writable(m) then Some(Bytes(m, sendPw)) else None
  {
    hide HeadIsWritable, BodyIsWritable, TailIsWritable, Head, Body, Tail;
    var head := WriteHead(m, sendPw);
    if head == None { return None; }
    var body := WriteBody(m);
    if body == None { return None; }
    var tail := WriteTail(m);
    if tail == None { return None; }
    BodyThenRest(m, [], Tail(m, []));
    HeadThenRest(m, sendPw, [], Body(m, Tail(m, [])));
    Assoc(head.value, body.value, tail.value);
    assert [] + tail.value == tail.value;
    assert [] + Body(m, Tail(m, [])) == Body(m, Tail(m, []));
    r := Some(head.value + body.value + tail.value);
  }

  // where the fields are

  lemma {:induction false} EachStatus(slots: seq<Slot>, i: nat)
    requires i < |slots| && forall s <- slots :: IsByte(s.status) && IsByte(s.team)
    ensures |Statuses(slots)| == |Teams(slots)| == |slots|
    ensures Statuses(slots)[i] == slots[i].status && Teams(slots)[i] == slots[i].team
  {
    if |slots| > 1 { EachStatus(slots[1..], if i == 0 then 0 else i - 1); }
  }

  lemma {:induction false} EachMods(slots: seq<Slot>, i: nat)
    requires i < |slots| && forall s <- slots :: IsU32(s.mods)
    ensures |ModBytes(slots)| == 4 * |slots| && FromLE(ModBytes(slots)[4 * i..4 * i + 4]) == slots[i].mods
  {
    hide LE, FromLE;
    var first := LE(slots[0].mods, 4);
    FromLEofLE(slots[0].mods, 4);
    if i == 0 { assert ModBytes(slots)[..4] == first; }
    if |slots| > 1 {
      var k := if i == 0 then 0 else i - 1;
      EachMods(slots[1..], k);
      if i > 0 { assert ModBytes(slots)[4 * i..4 * i + 4] == ModBytes(slots[1..])[4 * k..4 * k + 4]; }
    } else {
      NoIds();
    }
  }

  /** The first eight bytes hold the id, whether the match is in progress, a zero, and the mods; then come strings and the map's id. */
  lemma HeadLayout(m: Record, sendPw: bool, rest: seq<byte>)
    requires HeadIsWritable(m)
    ensures var h := Head(m, sendPw, rest);
      && |h| >= 8 && FromLE(h[..2]) == m.id && h[2] == (if m.inProgress then 1 else 0) && h[3] == 0 && FromLE(h[4..8]) == m.mods
      && h[8..] == String(m.name) + (Password(m, sendPw) + (String(m.mapName) + (LE(Unsigned(m.mapId, 4), 4) + (String(m.mapMd5) + rest))))
  {
    hide String, Password, LE, FromLE;
    FromLEofLE(m.id, 2);
    FromLEofLE(m.mods, 4);
    var h := Head(m, sendPw, rest);
    assert h[..2] == LE(m.id, 2) && h[4..8] == LE(m.mods, 4);
  }

  /** Sixteen statuses, sixteen teams, and then ids. */
  lemma BodyLayout(m: Record, rest: seq<byte>, i: nat)
    requires BodyIsWritable(m) && i < 16
    ensures var b := Body(m, rest);
      |b| >= 32 && b[i] == m.slots[i].status && b[16 + i] == m.slots[i].team && b[32..] == Ids(m.slots) + rest
  {
    hide Ids;
    EachStatus(m.slots, i);
  }

  /** The host's id, four single bytes, mods under freemods, and the seed. */
  lemma TailLayout(m: Record)
    requires TailIsWritable(m)
    ensures var t := Tail(m, []);
      && |t| == 12 + (if m.freemods then 64 else 0)
      && FromLE(t[..4]) == m.hostId && t[4] == m.mode && t[5] == m.winCondition && t[6] == m.teamType
      && t[7] == (if m.freemods then 1 else 0) && FromLE(t[|t| - 4..]) == m.seed
      && (m.freemods ==> forall i: nat | i < 16 :: FromLE(t[8 + 4 * i..12 + 4 * i]) == m.slots[i].mods)
  {
    hide LE, FromLE, ModBytes;
    FromLEofLE(m.hostId, 4);
    FromLEofLE(m.seed, 4);
    if m.freemods { EachMods(m.slots, 0); }
    var t := Tail(m, []);
    assert t[..4] == LE(m.hostId, 4) && t[|t| - 4..] == LE(m.seed, 4);
    if m.freemods {
      assert t[8..72] == ModBytes(m.slots);
      forall i: nat | i < 16 ensures FromLE(t[8 + 4 * i..12 + 4 * i]) == m.slots[i].mods {
        EachMods(m.slots, i);
        assert t[8 + 4 * i..12 + 4 * i] == t[8..72][4 * i..4 * i + 4];
      }
    }
  }
}
