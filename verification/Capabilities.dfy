/** The registry of per-invocation capabilities, with the clock passed in. */
module Capabilities {
  import opened Wrappers
  import opened Firm

  type Cap = nat

  datatype Entry = Entry(bound: Caller, expiresAt: int)

  function Resolve(entries: map<Cap, Entry>, cap: Cap, now: int): Option<Caller> {
    if cap in entries && entries[cap].expiresAt > now then Some(entries[cap].bound) else None
  }

  function Sweep(entries: map<Cap, Entry>, now: int): map<Cap, Entry> {
    map c | c in entries && entries[c].expiresAt > now :: entries[c]
  }

  /** A sweep is invisible to every lookup at its own time or later, and for any
      earlier time there is a registry where it shows. */
  lemma SweepIsInvisible(swept: int, now: int)
    ensures (forall entries, cap :: Resolve(Sweep(entries, swept), cap, now) == Resolve(entries, cap, now))
       <==> now >= swept
  {
    if now < swept {
      var entries := map[0 := Entry(Caller("", L1), swept)];
      assert Resolve(entries, 0, now).Some? && Resolve(Sweep(entries, swept), 0, now).None?;
    }
  }

  /** The entries after minting `cap`: swept at `swept`, then with the new one. */
  function Mint(entries: map<Cap, Entry>, cap: Cap, bound: Caller, expiresAt: int, swept: int): map<Cap, Entry> {
    Sweep(entries, swept)[cap := Entry(bound, expiresAt)]
  }

  class InvocationCaps {
    var entries: map<Cap, Entry>

    constructor ()
      ensures entries == map[]
    {
      entries := map[];
    }

    /** `cap` is fresh. The clock is read once for the expiry and again for the sweep. */
    method MintCap(cap: Cap, bound: Caller, ttl: int, now: int, later: int)
      requires cap !in entries && now <= later
      modifies this
      ensures entries == Mint(old(entries), cap, bound, now + ttl, later)
      ensures forall t :: t >= later ==> Resolve(entries, cap, t) == (if now + ttl > t then Some(bound) else None)
      ensures forall c, t :: c != cap && t >= later ==> Resolve(entries, c, t) == Resolve(old(entries), c, t)
    {
      var expiresAt := now + ttl;
      entries := map c | c in entries && entries[c].expiresAt > later :: entries[c];
      entries := entries[cap := Entry(bound, expiresAt)];
    }

    method ResolveCap(cap: Cap, now: int) returns (r: Option<Caller>)
      ensures r == Resolve(entries, cap, now)
      ensures r.Some? <==> cap in entries && now < entries[cap].expiresAt
    {
      if cap in entries && entries[cap].expiresAt > now {
        return Some(entries[cap].bound);
      }
      return None;
    }

    method RevokeCap(cap: Cap)
      modifies this
      ensures entries == old(entries) - {cap}
      ensures forall t :: Resolve(entries, cap, t).None?
      ensures forall c, t :: c != cap ==> Resolve(entries, c, t) == Resolve(old(entries), c, t)
    {
      entries := entries - {cap};
    }
  }
}
