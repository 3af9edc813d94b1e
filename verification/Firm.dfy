/** The firm's clearance tiers and the host-authoritative caller identity. */
module Firm {
  datatype Clearance = L1 | L2 | L3 | L4 | L5

  function Rank(c: Clearance): nat {
    match c case L1 => 1 case L2 => 2 case L3 => 3 case L4 => 4 case L5 => 5
  }

  predicate AtLeast(c: Clearance, floor: Clearance) {
    Rank(c) >= Rank(floor)
  }

  function ShowClearance(c: Clearance): string {
    match c case L1 => "L1" case L2 => "L2" case L3 => "L3" case L4 => "L4" case L5 => "L5"
  }

  /** The levels in the order of their privilege. */
  lemma LevelsAscend(i: nat, j: nat)
    requires i < 5 && j < 5
    ensures var levels := [L1, L2, L3, L4, L5]; AtLeast(levels[i], levels[j]) <==> i >= j
  {
  }

  datatype Caller = Caller(email: string, clearance: Clearance)
}
