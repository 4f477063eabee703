/** The packet reader, which takes values off the front of its view, and the packets it yields. */
module Reader {
  import opened Wire
  import M = MatchRecord

  /** n << k */
  function Shl(n: nat, k: nat): nat
    decreases k
  {
    if k == 0 then n else Shl(2 * n, k - 1)
  }

  lemma {:induction false} ShlAdds(a: nat, b: nat, k: nat)
    ensures Shl(a + b, k) == Shl(a, k) + Shl(b, k)
    decreases k
  {
    if k > 0 {
      ShlAdds(2 * a, 2 * b, k - 1);
    }
  }

  /** One turn of the decoding loop. */
  lemma NextDigit(digit: nat, rest: nat, k: nat)
    ensures Shl(digit + 128 * rest, k) == Shl(digit, k) + Shl(rest, k + 7)
  {
    ShlAdds(digit, 128 * rest, k);
    assert Shl(rest, k + 7) == Shl(2 * rest, k + 6) == Shl(4 * rest, k + 5) == Shl(8 * rest, k + 4);
    assert Shl(8 * rest, k + 4) == Shl(16 * rest, k + 3) == Shl(32 * rest, k + 2) == Shl(64 * rest, k + 1);
  }

  class BanchoPacketReader {
    var view: seq<byte>
    var currentLen: nat

    constructor (view: seq<byte>)
      ensures this.view == view && currentLen == 0
    {
      this.view, currentLen := view, 0;
    }

    /** Everything that belongs to the current packet. */
    method ReadRaw() returns (val: seq<byte>)
      modifies this`view
      ensures val + view == old(view) && |val| == Min(currentLen, |old(view)|)
    {
      var n := Min(currentLen, |view|);
      val := view[..n];
      view := view[n..];
    }

    method ReadI8() returns (r: Read<int>)
      modifies this`view
      ensures match ParseI8(old(view)) case Got(p) => r == Got(p.0) && view == p.1 case Short => r.Short? && view == old(view)
    {
      if view == [] { return Short; }
      r := Got(Signed(view[0], 1));
      view := view[1..];
    }

    method ReadUnsigned(k: nat) returns (val: nat)
      modifies this`view
      ensures (val, view) == ParseUnsigned(old(view), k)
    {
      var n := Min(k, |view|);
      val := FromLE(view[..n]);
      view := view[n..];
    }

    method ReadSigned(k: nat) returns (val: int)
      modifies this`view
      ensures (val, view) == ParseSigned(old(view), k)
    {
      var n := Min(k, |view|);
      val := Signed(FromLE(view[..n]), n);
      view := view[n..];
    }

    method ReadString() returns (r: Read<seq<byte>>)
      modifies this`view
      ensures match ParseString(old(view)) case Got(p) => r == Got(p.0) && view == p.1 case Short => r.Short?
    {
      if view == [] { return Short; }
      var present := view[0] == 0x0B;
      view := view[1..];
      if !present { return Got([]); }
      var length: nat, shift: nat := 0, 0;
      ghost var start := view;
      hide Shl;
      while true
        invariant ParseUleb(start).Got? <==> ParseUleb(view).Got?
        invariant ParseUleb(view).Got? ==>
          && ParseUleb(start).value.0 == length + Shl(ParseUleb(view).value.0, shift)
          && ParseUleb(start).value.1 == ParseUleb(view).value.1
        decreases |view|
      {
        if view == [] { return Short; }
        var digit := view[0];
        view := view[1..];
        length := length + Shl(digit % 128, shift);
        if digit < 128 { break; }
        if ParseUleb(view).Got? { NextDigit(digit % 128, ParseUleb(view).value.0, shift); }
        shift := shift + 7;
      }
      var n := Min(length, |view|);
      r := Got(view[..n]);
      view := view[n..];
    }

    method ReadBytes(n: nat) returns (r: Read<seq<int>>)
      modifies this`view
      ensures match M.ParseBytes(n, old(view)) case Got(p) => r == Got(p.0) && view == p.1 case Short => r.Short?
    {
      hide ParseI8;
      var vals: seq<int> := [];
      ghost var start := view;
      for i := 0 to n
        invariant M.ParseBytes(n, start).Short? <==> M.ParseBytes(n - i, view).Short?
        invariant M.ParseBytes(n - i, view).Got? ==>
          && M.ParseBytes(n, start).value.0 == vals + M.ParseBytes(n - i, view).value.0
          && M.ParseBytes(n, start).value.1 == M.ParseBytes(n - i, view).value.1
      {
        ghost var more := M.ParseBytes(n - i, view);
        var v :- ReadI8();
        if more.Got? {
          ghost var rest := M.ParseBytes(n - i - 1, view).value.0;
          assert vals + ([v] + rest) == vals + [v] + rest;
        }
        vals := vals + [v];
      }
      assert vals + [] == vals;
      return Got(vals);
    }

    /** The ids of the slots whose status has a player. */
    method ReadIds(statuses: seq<int>) returns (ids: seq<int>)
      modifies this`view
      ensures (ids, view) == M.ParseIds(statuses, old(view))
    {
      ids := [];
      for i := 0 to |statuses|
        invariant M.ParseIds(statuses, old(view)).0 == ids + M.ParseIds(statuses[i..], view).0
        invariant M.ParseIds(statuses, old(view)).1 == M.ParseIds(statuses[i..], view).1
      {
        assert statuses[i..][1..] == statuses[i + 1..];
        if M.HasPlayer(statuses[i]) {
          var id := ReadSigned(4);
          ids := ids + [id];
        }
      }
      assert statuses[|statuses|..] == [] && ids + [] == ids;
    }

    method ReadInts(n: nat) returns (vals: seq<int>)
      modifies this`view
      ensures (vals, view) == M.ParseInts(n, old(view))
    {
      vals := [];
      for i := 0 to n
        invariant M.ParseInts(n, old(view)).0 == vals + M.ParseInts(n - i, view).0
        invariant M.ParseInts(n, old(view)).1 == M.ParseInts(n - i, view).1
      {
        var v := ReadSigned(4);
        vals := vals + [v];
      }
      assert vals + [] == vals;
    }

    method ReadHead() returns (r: Read<M.HeadData>)
      modifies this`view
      ensures match M.ParseHead(old(view)) case Got(p) => r == Got(p.0) && view == p.1 case Short => r.Short?
    {
      hide ParseI8, ParseSigned, ParseString;
      var id := ReadSigned(2);
      var inProgress :- ReadI8();
      var powerplay :- ReadI8();
      var mods := ReadSigned(4);
      var name :- ReadString();
      var passwd :- ReadString();
      var mapName :- ReadString();
      var mapId := ReadSigned(4);
      var mapMd5 :- ReadString();
      return Got(M.HeadData(id, inProgress == 1, powerplay, mods, name, passwd, mapName, mapId, mapMd5));
    }

    method ReadBody() returns (r: Read<M.BodyData>)
      modifies this`view
      ensures match M.ParseBody(old(view)) case Got(p) => r == Got(p.0) && view == p.1 case Short => r.Short?
    {
      var statuses :- ReadBytes(16);
      var teams :- ReadBytes(16);
      var ids := ReadIds(statuses);
      return Got(M.BodyData(statuses, teams, ids));
    }

    method ReadTail() returns (r: Read<M.TailData>)
      modifies this`view
      ensures match M.ParseTail(old(view)) case Got(p) => r == Got(p.0) && view == p.1 case Short => r.Short?
    {
      hide ParseI8, ParseSigned, M.ParseInts;
      var hostId := ReadSigned(4);
      var mode :- ReadI8();
      var winCondition :- ReadI8();
      var teamType :- ReadI8();
      var freemods :- ReadI8();
      var slotMods: seq<int> := [];
      if freemods == 1 { slotMods := ReadInts(16); }
      var seed := ReadSigned(4);
      return Got(M.TailData(hostId, mode, winCondition, teamType, freemods == 1, slotMods, seed));
    }

    /** read_match. */
    method ReadMatch() returns (r: Read<M.MultiplayerMatch>)
      modifies this`view
      ensures match M.ParseMatch(old(view)) case Got(p) => r == Got(p.0) && view == p.1 case Short => r.Short?
    {
      hide M.ParseHead, M.ParseBody, M.ParseTail;
      var head :- ReadHead();
      var body :- ReadBody();
      var tail :- ReadTail();
      return Got(M.Join(head, body, tail));
    }
  }
}
