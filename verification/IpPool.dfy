/** First-fit allocation of addresses in the overlay range (internal/control/store.go:442-460). */
module IpPool {
  import opened Net
  import opened NetMap
  import opened Prefixes

  /** `netip.Addr.Next`: none after the last address of the family. */
  function NextAddr(p: Prefix, a: nat): Option<nat> {
    if a + 1 < Pow2(Width(p)) then Some(a + 1) else None
  }

  predicate InRange(p: Prefix, a: Option<nat>)
    requires ValidPrefix(p)
  {
    a.Some? && Contains(p, a.value)
  }

  /** Neither the network address nor the broadcast address. */
  predicate IsHost(p: Prefix, a: nat)
    requires Canonical(p)
  {
    p.addr < a < p.addr + Size(p) - 1
  }

  /** The first address from `a` on that the loop would hand out. */
  function FirstFree(p: Prefix, used: set<nat>, a: Option<nat>): Option<nat>
    requires Canonical(p)
    decreases if a.Some? then Pow2(Width(p)) - a.value else 0
  {
    if InRange(p, a) && InRange(p, NextAddr(p, a.value)) then
      if a.value !in used then a
      else FirstFree(p, used, NextAddr(p, a.value))
    else None
  }

  function Allocate(p: Prefix, used: set<nat>): Option<nat>
    requires Canonical(p)
  {
    FirstFree(p, used, NextAddr(p, p.addr))
  }

  /** The loop's guard, in terms of the range. */
  lemma GuardMeansHost(p: Prefix, a: nat)
    requires Canonical(p) && p.addr < a
    ensures Contains(p, a) && InRange(p, NextAddr(p, a)) <==> IsHost(p, a)
  {
    CanonicalRange(p, a);
    CanonicalRange(p, a + 1);
  }

  lemma {:induction false} FirstFreeMeaning(p: Prefix, used: set<nat>, a: nat)
    requires Canonical(p) && p.addr < a
    ensures var r := FirstFree(p, used, Some(a));
            && (r.Some? ==> a <= r.value && IsHost(p, r.value) && r.value !in used
                            && forall b :: a <= b < r.value ==> b in used)
            && (r.None? ==> forall b: nat :: a <= b && IsHost(p, b) ==> b in used)
    decreases Pow2(Width(p)) - a
  {
    GuardMeansHost(p, a);
    CanonicalRange(p, a);
    if IsHost(p, a) && a in used {
      FirstFreeMeaning(p, used, a + 1);
    }
  }

  /**
   * Allocation returns the least free host address, and fails exactly when every host address
   * is taken; the network and broadcast addresses are never handed out.
   */
  lemma AllocateMeaning(p: Prefix, used: set<nat>)
    requires Canonical(p)
    ensures var r := Allocate(p, used);
            && (r.Some? ==> IsHost(p, r.value) && r.value !in used
                            && forall b: nat :: IsHost(p, b) && b < r.value ==> b in used)
            && (r.None? <==> forall b: nat :: IsHost(p, b) ==> b in used)
  {
    CanonicalRange(p, p.addr);
    if p.addr + 1 < Pow2(Width(p)) {
      FirstFreeMeaning(p, used, p.addr + 1);
    }
  }

  lemma {:induction false} IntervalInSet(lo: nat, n: nat, used: set<nat>)
    requires forall b :: lo <= b < lo + n ==> b in used
    ensures n <= |used|
  {
    if n > 0 {
      assert lo + n - 1 in used;
      IntervalInSet(lo, n - 1, used - {lo + n - 1});
    }
  }

  /** While fewer addresses are in use than there are hosts, allocation succeeds. */
  lemma FewerThanHostsSucceeds(p: Prefix, used: set<nat>)
    requires Canonical(p) && |used| < Size(p) - 2
    ensures Allocate(p, used).Some?
  {
    AllocateMeaning(p, used);
    if Allocate(p, used).None? {
      IntervalInSet(p.addr + 1, Size(p) - 2, used);
    }
  }

  /** A /31 and a /32 (or their IPv6 counterparts) have no host to give. */
  lemma TooSmallAlwaysFails(p: Prefix, used: set<nat>)
    requires Canonical(p)
    ensures Width(p) - p.len <= 1 ==> Allocate(p, used) == None
    ensures (forall u: set<nat> :: Allocate(p, u) == None) ==> Width(p) - p.len <= 1
  {
    AllocateMeaning(p, used);
    if Width(p) - p.len >= 2 {
      AllocateMeaning(p, {});
      Pow2AtLeastFour(Width(p) - p.len);
      assert IsHost(p, p.addr + 1);
      assert Allocate(p, {}).Some?;
    }
  }

  lemma {:induction false} Pow2AtLeastFour(n: nat)
    requires n >= 2
    ensures Pow2(n) >= 4
  {
  }

  method AllocateIP(p: Prefix, used: set<nat>) returns (r: Option<nat>)
    requires Canonical(p)
    ensures r == Allocate(p, used)
  {
    var a := NextAddr(p, p.addr);
    while InRange(p, a) && InRange(p, NextAddr(p, a.value))
      invariant FirstFree(p, used, a) == Allocate(p, used)
      decreases if a.Some? then Pow2(Width(p)) - a.value else 0
    {
      if a.value !in used {
        return a;
      }
      a := NextAddr(p, a.value);
    }
    r := None;
  }
}
