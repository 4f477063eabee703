/** The enumerations of app/objects/match.py. */
module MatchTypes {
  import opened Lists

  datatype SlotStatus = Open | Locked | NotReady | Ready | NoMap | Playing | Complete | Quit {
    /** The number that goes over the wire. */
    function Value(): nat {
      match this
      case Open => 1
      case Locked => 2
      case NotReady => 4
      case Ready => 8
      case NoMap => 16
      case Playing => 32
      case Complete => 64
      case Quit => 128
    }

    predicate HasPlayer() { NotReady? || Ready? || NoMap? || Playing? || Complete? }

    /** HasPlayer is the mask test `status & 0b01111100 != 0` of the packet code. */
    lemma HasPlayerIsTheMask()
      ensures HasPlayer() <==> (Value() as bv8) & 124 != 0
    {
      match this
      case Open => assert (1 as bv8) & 124 == 0;
      case Locked => assert (2 as bv8) & 124 == 0;
      case NotReady => assert (4 as bv8) & 124 == 4;
      case Ready => assert (8 as bv8) & 124 == 8;
      case NoMap => assert (16 as bv8) & 124 == 16;
      case Playing => assert (32 as bv8) & 124 == 32;
      case Complete => assert (64 as bv8) & 124 == 64;
      case Quit => assert (128 as bv8) & 124 == 0;
    }
  }

  const STATUSES: seq<SlotStatus> := [Open, Locked, NotReady, Ready, NoMap, Playing, Complete, Quit]

  /** Each status is a bit of its own. */
  lemma StatusBits()
    ensures Open.Value() == 1 && forall i | 0 < i < 8 :: STATUSES[i].Value() == 2 * STATUSES[i - 1].Value()
    ensures forall s: SlotStatus :: s in STATUSES
  {
    forall s: SlotStatus ensures s in STATUSES {
      var i := match s case Open => 0 case Locked => 1 case NotReady => 2 case Ready => 3 case NoMap => 4 case Playing => 5 case Complete => 6 case Quit => 7;
      assert STATUSES[i] == s;
    }
  }

  datatype MatchTeams = Neutral | Blue | Red {
    function Value(): nat { match this case Neutral => 0 case Blue => 1 case Red => 2 }
  }

  datatype MatchTeamTypes = HeadToHead | TagCoop | TeamVs | TagTeamVs {
    function Value(): nat { match this case HeadToHead => 0 case TagCoop => 1 case TeamVs => 2 case TagTeamVs => 3 }

    /** Whether players are on the blue or the red side. */
    predicate HasTeams() { TeamVs? || TagTeamVs? }

    function DefaultTeam(): MatchTeams { if HasTeams() then Red else Neutral }
  }

  /** The numbers that clients use. */
  lemma TeamNumbers(t: MatchTeamTypes)
    ensures Neutral.Value() == 0 && Blue.Value() == 1 && Red.Value() == 2
    ensures t == if t.Value() == 0 then HeadToHead else if t.Value() == 1 then TagCoop else if t.Value() == 2 then TeamVs else TagTeamVs
    ensures t.DefaultTeam().Value() == if t.Value() >= 2 then 2 else 0
  {
  }

  /** MatchTeamTypes(value), which raises for a number that is no team type. */
  function TeamTypeOf(value: int): (r: Option<MatchTeamTypes>)
    ensures if 0 <= value < 4 then r.Some? && r.value.Value() == value else r.None?
  {
    match value
    case 0 => Some(HeadToHead)
    case 1 => Some(TagCoop)
    case 2 => Some(TeamVs)
    case 3 => Some(TagTeamVs)
    case _ => None
  }

  /** A signed number of four bytes, as clients send it. */
  type I32 = v: int | -0x8000_0000 <= v < 0x8000_0000

  /** A holder of match points: a player in free-for-all modes, a team otherwise. */
  datatype Side = Someone(playerId: int) | Team(team: MatchTeams)
}
