/**
 Packets on the wire: a header with id and payload length, and the payload. Packets that the server
 knows but does not handle are skipped; unknown ids and torn headers raise exceptions.
 */
module Framing {
  import opened Lists
  import opened Wire
  import R = Reader

  datatype Frame = Frame(id: nat, payload: seq<byte>)

  predicate Fits(f: Frame) { f.id < Pow(2) && |f.payload| < Pow(4) }

  function Packet(f: Frame): seq<byte> {
    LE(f.id, 2) + [0] + LE(|f.payload|, 4) + f.payload
  }

  function Concat(parts: seq<seq<byte>>): seq<byte> {
    if parts == [] then [] else parts[0] + Concat(parts[1..])
  }

  /** write, with the arguments encoded already: the size goes in between when all of it is there. */
  method Write(id: nat, args: seq<seq<byte>>) returns (r: Option<seq<byte>>)
    ensures var f := Frame(id, Concat(args)); r == if Fits(f) then Some(Packet(f)) else None
  {
    if id >= Pow(2) { return None; }
    var ret := LE(id, 2) + [0];
    for i := 0 to |args|
      invariant |ret| >= 3 && ret[..3] == LE(id, 2) + [0]
      invariant ret[3..] + Concat(args[i..]) == Concat(args)
    {
      assert args[i..][1..] == args[i + 1..];
      assert (ret + args[i])[3..] == ret[3..] + args[i];
      ret := ret + args[i];
    }
    assert args[|args|..] == [] && ret[3..] + [] == ret[3..];
    if |ret| - 3 >= Pow(4) { return None; }
    r := Some(ret[..3] + LE(|ret| - 3, 4) + ret[3..]);
  }

  /** _read_header: the id, the length, and what follows; the third byte is padding. */
  function ParseHeader(s: seq<byte>): Read<(nat, nat, seq<byte>)> {
    if |s| < 7 then Short else Got((FromLE(s[..2]), FromLE(s[3..7]), s[7..]))
  }

  datatype Outcome = Stop | Raise | Found(id: nat, length: nat, rest: seq<byte>)

  /** What __next__ finds: the first packet that is handled. */
  function Next(s: seq<byte>, known: set<nat>, handled: set<nat>): (r: Outcome)
    ensures r.Found? ==> r.id in handled && |r.rest| + 7 <= |s|
    decreases |s|
  {
    if s == [] then Stop
    else match ParseHeader(s)
      case Short => Raise
      case Got((id, length, rest)) =>
        if id !in known then Raise
        else if id !in handled then Next(rest[Min(length, |rest|)..], known, handled)
        else Found(id, length, rest)
  }

  /** The loop of __next__. */
  method ReadNext(reader: R.BanchoPacketReader, known: set<nat>, handled: set<nat>) returns (r: Outcome)
    modifies reader
    ensures r == Next(old(reader.view), known, handled)
    ensures r.Found? ==> reader.view == r.rest && reader.currentLen == r.length
    ensures r.Stop? ==> reader.view == []
  {
    while reader.view != []
      invariant Next(reader.view, known, handled) == Next(old(reader.view), known, handled)
      decreases |reader.view|
    {
      if |reader.view| < 7 { return Raise; }
      var id, length := FromLE(reader.view[..2]), FromLE(reader.view[3..7]);
      reader.view := reader.view[7..];
      if id !in known { return Raise; }
      if id !in handled {
        if length != 0 {
          reader.view := reader.view[Min(length, |reader.view|)..];
        }
      } else {
        reader.currentLen := length;
        return Found(id, length, reader.view);
      }
    }
    return Stop;
  }

  /** What a handler leaves of the view that it is given; it can only take from the front. */
  type Handler = (nat, nat, seq<byte>) -> seq<byte>

  ghost predicate Takes(leave: Handler) {
    forall id, length, s :: |leave(id, length, s)| <= |s|
  }

  /** All packets that a body yields, as id and payload. */
  ghost function Session(s: seq<byte>, known: set<nat>, handled: set<nat>, leave: Handler): Read<seq<Frame>>
    requires Takes(leave)
    decreases |s|
  {
    match Next(s, known, handled)
    case Stop => Got([])
    case Raise => Short
    case Found(id, length, rest) =>
      var more :- Session(leave(id, length, rest), known, handled, leave);
      Got([Frame(id, rest[..Min(length, |rest|)])] + more)
  }

  function Stream(frames: seq<Frame>): seq<byte> {
    if frames == [] then [] else Packet(frames[0]) + Stream(frames[1..])
  }

  function Handled(frames: seq<Frame>, handled: set<nat>): seq<Frame> {
    if frames == [] then []
    else (if frames[0].id in handled then [frames[0]] else []) + Handled(frames[1..], handled)
  }

  lemma HeaderOfPacket(f: Frame, rest: seq<byte>)
    requires Fits(f)
    ensures ParseHeader(Packet(f) + rest) == Got((f.id, |f.payload|, f.payload + rest))
  {
    var s := Packet(f) + rest;
    FromLEofLE(f.id, 2);
    FromLEofLE(|f.payload|, 4);
    assert s[..2] == LE(f.id, 2);
    assert s[3..7] == LE(|f.payload|, 4);
    assert s[7..] == f.payload + rest;
  }

  /** Two bytes for the id, one of padding and four for the length, least significant ones first. */
  lemma PacketLayout(f: Frame)
    requires Fits(f)
    ensures var s := Packet(f);
      && |s| == 7 + |f.payload| && s[7..] == f.payload && s[2] == 0
      && s[0] as nat + 0x100 * s[1] as nat == f.id
      && s[3] as nat + 0x100 * s[4] as nat + 0x1_0000 * s[5] as nat + 0x100_0000 * s[6] as nat == |f.payload|
  {
    var s := Packet(f);
    LittleEndian(s[..2]);
    LittleEndian(s[3..7]);
    HeaderOfPacket(f, []);
    assert s + [] == s;
  }

  /** One packet at the front. */
  lemma OneFrame(f: Frame, rest: seq<byte>, known: set<nat>, handled: set<nat>, leave: Handler)
    requires Takes(leave) && Fits(f) && f.id in known
    requires f.id in handled ==> leave(f.id, |f.payload|, f.payload + rest) == rest
    ensures var now, more := Session(Packet(f) + rest, known, handled, leave), Session(rest, known, handled, leave);
      if f.id !in handled then now == more else if more.Short? then now.Short? else now == Got([f] + more.value)
  {
    HeaderOfPacket(f, rest);
    assert (f.payload + rest)[|f.payload|..] == rest && (f.payload + rest)[..|f.payload|] == f.payload;
    hide Packet, ParseHeader;
  }

  lemma DamagedNow(bad: seq<byte>, known: set<nat>, handled: set<nat>, leave: Handler)
    requires Takes(leave)
    requires 0 < |bad| < 7 || (|bad| >= 7 && bad[0] as nat + 0x100 * bad[1] as nat !in known)
    ensures Session(bad, known, handled, leave).Short?
  {
    if |bad| >= 7 { LittleEndian(bad[..2]); }
    hide FromLE;
  }

  /** A torn header, and one with an id that is not known, wherever it is reached, raises an exception. */
  lemma {:induction false} Damaged(frames: seq<Frame>, bad: seq<byte>, known: set<nat>, handled: set<nat>, leave: Handler)
    requires Takes(leave)
    requires forall f <- frames :: Fits(f) && f.id in known
    requires forall f <- frames, rest | f.id in handled :: leave(f.id, |f.payload|, f.payload + rest) == rest
    requires 0 < |bad| < 7 || (|bad| >= 7 && bad[0] as nat + 0x100 * bad[1] as nat !in known)
    ensures Session(Stream(frames) + bad, known, handled, leave).Short?
  {
    hide Session, Packet, Fits, Takes;
    if frames == [] {
      assert Stream(frames) + bad == bad;
      DamagedNow(bad, known, handled, leave);
    } else {
      var f, rest := frames[0], Stream(frames[1..]) + bad;
      assert f in frames;
      Damaged(frames[1..], bad, known, handled, leave);
      OneFrame(f, rest, known, handled, leave);
      Assoc(Packet(f), Stream(frames[1..]), bad);
    }
  }

  /**
   Any sequence of packets with known ids, whose handlers take exactly their payload, yields the
   handled ones in order, to the end of the buffer.
   */
  lemma {:induction false} FramesAreRead(frames: seq<Frame>, known: set<nat>, handled: set<nat>, leave: Handler)
    requires Takes(leave)
    requires forall f <- frames :: Fits(f) && f.id in known
    requires forall f <- frames, rest | f.id in handled :: leave(f.id, |f.payload|, f.payload + rest) == rest
    ensures Session(Stream(frames), known, handled, leave) == Got(Handled(frames, handled))
  {
    if frames != [] {
      hide Session, Packet, Fits, Takes;
      var f, rest := frames[0], Stream(frames[1..]);
      assert f in frames;
      FramesAreRead(frames[1..], known, handled, leave);
      OneFrame(f, rest, known, handled, leave);
      assert Handled(frames, handled) == if f.id in handled then [f] + Handled(frames[1..], handled) else Handled(frames[1..], handled);
    }
  }

  /** Handlers that read_raw() are such handlers: the method takes the payload, and leaves what follows. */
  method RawIsExact(f: Frame, rest: seq<byte>) returns (val: seq<byte>, left: seq<byte>)
    ensures val == f.payload && left == rest
  {
    var reader := new R.BanchoPacketReader(f.payload + rest);
    reader.currentLen := |f.payload|;
    val := reader.ReadRaw();
    left := reader.view;
    assert val == (val + left)[..|f.payload|] == f.payload && left == (val + left)[|f.payload|..];
  }

  // lists of numbers and messages

  /** Numbers are written with a sign and read without. */
  function I32List(l: seq<int>): seq<byte>
    requires forall v <- l :: FitsSigned(v, 4)
  {
    if l == [] then []
    else
      assert FitsSigned(l[0], 4);
      LE(Unsigned(l[0], 4), 4) + I32List(l[1..])
  }

  lemma {:induction false} I32Snoc(l: seq<int>, v: int)
    requires (forall x <- l :: FitsSigned(x, 4)) && FitsSigned(v, 4)
    ensures I32List(l + [v]) == I32List(l) + LE(Unsigned(v, 4), 4)
  {
    hide LE, Pow, FitsSigned;
    if l == [] {
      assert l + [v] == [v] && I32List([v][1..]) == [];
    } else {
      assert FitsSigned(l[0], 4);
      I32Snoc(l[1..], v);
      assert (l + [v])[1..] == l[1..] + [v];
    }
  }

  lemma NoNumbers()
    ensures I32List([]) == []
  {
  }

  method WriteI32List(l: seq<int>) returns (r: Option<seq<byte>>)
    ensures r == if |l| < Pow(2) && forall v <- l :: FitsSigned(v, 4) then Some(LE(|l|, 2) + I32List(l)) else None
  {
    if |l| >= Pow(2) { return None; }
    hide LE, Unsigned, I32List;
    var ret: seq<byte> := [];
    NoNumbers();
    for i := 0 to |l|
      invariant forall v <- l[..i] :: FitsSigned(v, 4)
      invariant ret == I32List(l[..i])
    {
      assert l[i] in l && l[..i + 1] == l[..i] + [l[i]];
      if !FitsSigned(l[i], 4) { return None; }
      I32Snoc(l[..i], l[i]);
      ret := ret + LE(Unsigned(l[i], 4), 4);
    }
    assert l[..|l|] == l;
    return Some(LE(|l|, 2) + ret);
  }

  /** struct.unpack raises an exception unless there are exactly as many bytes as it needs. */
  function ParseU32s(n: nat, s: seq<byte>): Read<(seq<int>, seq<byte>)> {
    if |s| < 4 * n then Short
    else if n == 0 then Got(([], s))
    else
      var r :- ParseU32s(n - 1, s[4..]);
      Got(([FromLE(s[..4])] + r.0, r.1))
  }

  function ParseI32List(s: seq<byte>): Read<(seq<int>, seq<byte>)> {
    var (n, rest) := ParseUnsigned(s, 2);
    ParseU32s(n, rest)
  }

  /** A list as it is read: its negative numbers are 2 to the power of 32 too high. */
  function AsUnsigned(l: seq<int>): seq<int> {
    if l == [] then [] else [if l[0] < 0 then l[0] + Pow(4) else l[0]] + AsUnsigned(l[1..])
  }

  lemma ParseU32(v: int, rest: seq<byte>)
    requires FitsSigned(v, 4)
    ensures var s := LE(Unsigned(v, 4), 4) + rest;
      |s| >= 4 && FromLE(s[..4]) == (if v < 0 then v + Pow(4) else v) && s[4..] == rest
  {
    SignedOfUnsigned(v, 4);
    FromLEofLE(Unsigned(v, 4), 4);
    var s := LE(Unsigned(v, 4), 4) + rest;
    assert s[..4] == LE(Unsigned(v, 4), 4);
  }

  lemma {:induction false} U32sAreRead(l: seq<int>, rest: seq<byte>)
    requires forall v <- l :: FitsSigned(v, 4)
    ensures |I32List(l)| == 4 * |l|
    ensures ParseU32s(|l|, I32List(l) + rest) == Got((AsUnsigned(l), rest))
  {
    if l == [] {
      assert I32List(l) + rest == rest;
    } else {
      assert FitsSigned(l[0], 4);
      U32sAreRead(l[1..], rest);
      ParseU32(l[0], I32List(l[1..]) + rest);
      Assoc(LE(Unsigned(l[0], 4), 4), I32List(l[1..]), rest);
      hide Pow, LE, FromLE, Unsigned, FitsSigned;
    }
  }

  lemma I32ListRoundTrip(l: seq<int>, rest: seq<byte>)
    requires |l| < Pow(2) && forall v <- l :: FitsSigned(v, 4)
    ensures ParseI32List(LE(|l|, 2) + I32List(l) + rest) == Got((AsUnsigned(l), rest))
  {
    hide Pow, LE, I32List, ParseU32s, AsUnsigned, ParseUnsigned, FitsSigned;
    ParseUnsignedLE(|l|, 2, I32List(l) + rest);
    Assoc(LE(|l|, 2), I32List(l), rest);
    U32sAreRead(l, rest);
  }

  datatype Message = Message(sender: seq<byte>, text: seq<byte>, recipient: seq<byte>, senderId: int)

  function MessageBytes(m: Message): seq<byte>
    requires FitsSigned(m.senderId, 4)
  {
    String(m.sender) + String(m.text) + String(m.recipient) + LE(Unsigned(m.senderId, 4), 4)
  }

  function ParseMessage(s: seq<byte>): Read<(Message, seq<byte>)> {
    var sender :- ParseString(s);
    var text :- ParseString(sender.1);
    var recipient :- ParseString(text.1);
    var (senderId, rest) := ParseSigned(recipient.1, 4);
    Got((Message(sender.0, text.0, recipient.0, senderId), rest))
  }

  lemma MessageRoundTrip(m: Message, rest: seq<byte>)
    requires FitsSigned(m.senderId, 4)
    ensures ParseMessage(MessageBytes(m) + rest) == Got((m, rest))
  {
    hide String, ParseString, LE, ParseSigned;
    var x1 := LE(Unsigned(m.senderId, 4), 4) + rest;
    var x2 := String(m.recipient) + x1;
    var x3 := String(m.text) + x2;
    ParseStringOfString(m.sender, x3);
    ParseStringOfString(m.text, x2);
    ParseStringOfString(m.recipient, x1);
    SignedOfUnsigned(m.senderId, 4);
    ParseUnsignedLE(Unsigned(m.senderId, 4), 4, rest);
    Assoc(String(m.sender) + String(m.text) + String(m.recipient), LE(Unsigned(m.senderId, 4), 4), rest);
    Assoc(String(m.sender) + String(m.text), String(m.recipient), x1);
    Assoc(String(m.sender), String(m.text), x2);
  }

  /** In the order of the fields, with lists and numbers in little-endian order. */
  lemma Samples()
    ensures MessageBytes(Message([1], [2], [], -2)) == [0x0B, 1, 1, 0x0B, 1, 2, 0, 254, 255, 255, 255]
    ensures I32List([1, -1]) == [1, 0, 0, 0, 255, 255, 255, 255]
  {
    assert [1, -1][1..] == [-1];
  }
}
