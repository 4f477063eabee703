/** The mod flags of app/constants/mods.py; a value of an IntFlag is the set of its bit positions. */
module Mods {
  type Bit = b: nat | b < 32

  type Mods = set<Bit>

  const NOMOD: Mods := {}
  const DOUBLETIME: Mods := {6}
  const HALFTIME: Mods := {8}
  const NIGHTCORE: Mods := {9}
  const SPEED_CHANGING_MODS: Mods := DOUBLETIME + NIGHTCORE + HALFTIME

  /** The number of the bits below k. */
  function Number(m: Mods, k: nat := 32): (r: nat)
    requires k <= 32
    ensures r < TwoTo(k)
  {
    if k == 0 then 0 else Number(m, k - 1) + if k - 1 in m then TwoTo(k - 1) else 0
  }

  function TwoTo(k: nat): nat { if k == 0 then 1 else 2 * TwoTo(k - 1) }

  /** Every further bit adds its power of two. */
  lemma {:induction false} OneBitMore(m: Mods, b: Bit, k: nat)
    requires b !in m && k <= 32
    ensures Number(m + {b}, k) == Number(m, k) + if b < k then TwoTo(b) else 0
  {
    if k > 0 { OneBitMore(m, b, k - 1); }
  }

  lemma {:induction false} NoBits(k: nat)
    requires k <= 32
    ensures Number(NOMOD, k) == 0
  {
    if k > 0 { NoBits(k - 1); }
  }

  /** The number tells which bits there are. */
  lemma {:induction false} BitsComeBack(a: Mods, b: Mods, k: nat)
    requires k <= 32 && Number(a, k) == Number(b, k)
    ensures forall bit: Bit | bit < k :: bit in a <==> bit in b
  {
    if k > 0 {
      BitsComeBack(a, b, k - 1);
    }
  }

  /** The numbers that clients know. */
  lemma Masks()
    ensures Number(NOMOD) == 0 && Number(DOUBLETIME) == 64 && Number(HALFTIME) == 256 && Number(NIGHTCORE) == 512
    ensures Number(SPEED_CHANGING_MODS) == 64 + 256 + 512
  {
    hide Number, TwoTo;
    NoBits(32);
    Powers();
    OneBitMore(NOMOD, 6, 32);
    OneBitMore(NOMOD, 8, 32);
    OneBitMore(NOMOD, 9, 32);
    OneBitMore({6}, 8, 32);
    OneBitMore({6, 8}, 9, 32);
    assert NOMOD + {6} == DOUBLETIME && NOMOD + {8} == HALFTIME && NOMOD + {9} == NIGHTCORE;
    assert {6} + {8} == {6, 8} && {6, 8} + {9} == SPEED_CHANGING_MODS;
  }

  lemma Powers()
    ensures TwoTo(6) == 64 && TwoTo(8) == 256 && TwoTo(9) == 512
  {
    assert TwoTo(3) == 8;
    assert TwoTo(6) == 64;
  }

  /** The share of m that applies to the whole match. */
  function SpeedPart(m: Mods): Mods { m * SPEED_CHANGING_MODS }

  /** The share of m that a player may choose alone. */
  function FreePart(m: Mods): Mods { m - SPEED_CHANGING_MODS }

  /** What a player whose slot has slotMods plays with in a match with matchMods. */
  function Combined(matchMods: Mods, slotMods: Mods): Mods { matchMods + slotMods }

  /** Bit by bit. */
  lemma Shared(m: Mods, other: Mods, b: Bit)
    ensures b in SpeedPart(m) <==> b in m && (b == 6 || b == 8 || b == 9)
    ensures b in FreePart(m) <==> b in m && b != 6 && b != 8 && b != 9
    ensures b in Combined(m, other) <==> b in m || b in other
  {
  }

  /** The two shares are disjoint. */
  lemma Shares(m: Mods)
    ensures SpeedPart(FreePart(m)) == NOMOD && FreePart(SpeedPart(m)) == NOMOD
    ensures SpeedPart(SpeedPart(m)) == SpeedPart(m) && FreePart(FreePart(m)) == FreePart(m)
    ensures SpeedPart(NOMOD) == NOMOD && FreePart(NOMOD) == NOMOD
  {
  }

  /** The shares make up the whole, so switching freemods on preserves what a slot had no mods beyond the match's. */
  lemma SwitchingOn(matchMods: Mods, slotMods: Mods)
    ensures Combined(SpeedPart(matchMods), FreePart(matchMods)) == matchMods
    ensures matchMods == Combined(matchMods, slotMods) <==> slotMods <= matchMods
  {
    assert slotMods <= matchMods + slotMods;
  }

  /** What a slot has beyond the match's mods, if those are split. */
  lemma BeyondSplit(matchMods: Mods, slotMods: Mods)
    requires FreePart(matchMods) == NOMOD && SpeedPart(slotMods) == NOMOD
    ensures slotMods <= matchMods <==> slotMods == NOMOD
  {
  }

  /** Switching freemods off leaves the host with what they had exactly if the match mods were speed-changing only or covered. */
  lemma SwitchingOff(matchMods: Mods, hostMods: Mods)
    ensures Combined(SpeedPart(matchMods), hostMods) == Combined(matchMods, hostMods) <==> FreePart(matchMods) <= hostMods
  {
    if FreePart(matchMods) <= hostMods {
      assert matchMods == SpeedPart(matchMods) + FreePart(matchMods);
    } else {
      var x :| x in FreePart(matchMods) && x !in hostMods;
      assert x !in Combined(SpeedPart(matchMods), hostMods);
    }
  }
}
