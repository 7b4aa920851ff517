/** IP prefixes, their canonical form, and the addresses they stand for. */
module Prefixes {
  import opened Net
  import opened NetMap

  const DEFAULT_PREFIX := Prefix(true, 0, 0)

  function Width(p: Prefix): nat {
    if p.is4 then 32 else 128
  }

  predicate ValidPrefix(p: Prefix) {
    p.len <= Width(p) && p.addr < Pow2(Width(p))
  }

  /** The number of addresses of a prefix. */
  function Size(p: Prefix): nat
    requires ValidPrefix(p)
  {
    Pow2(Width(p) - p.len)
  }

  /** The prefix with its host bits cleared (`Prefix.Masked`). */
  function Masked(p: Prefix): (r: Prefix)
    requires ValidPrefix(p)
    ensures ValidPrefix(r)
  {
    p.(addr := BlockStart(p.addr, Size(p)))
  }

  /** The multiple of `s` at or just below `a`. */
  function BlockStart(a: nat, s: nat): (r: nat)
    requires s > 0
    ensures r <= a < r + s
  {
    assert a == a / s * s + a % s;
    a / s * s
  }

  predicate Canonical(p: Prefix) {
    ValidPrefix(p) && Masked(p) == p
  }

  predicate Contains(p: Prefix, a: nat)
    requires ValidPrefix(p)
  {
    a < Pow2(Width(p)) && a / Size(p) == p.addr / Size(p)
  }

  lemma {:induction false} RemainderFits(r: nat, low: nat, size: nat, factor: nat)
    requires r < factor && low < size
    ensures r * size + low < size * factor
    decreases factor
  {
    OneMoreFactor(size, factor - 1);
    if r < factor - 1 {
      RemainderFits(r, low, size, factor - 1);
    }
  }

  lemma OneMoreFactor(size: nat, factor: nat)
    ensures size * (factor + 1) == size * factor + size == factor * size + size
  {
  }

  lemma Regroup(m: nat, r: nat, factor: nat, size: nat)
    ensures (m * factor + r) * size == m * (size * factor) + r * size
  {
  }

  /** Addresses that share a block share every larger one. */
  lemma SameLargerBlock(a: nat, b: nat, size: nat, factor: nat)
    requires size > 0 && factor > 0 && a / size == b / size
    ensures BlockStart(a, size * factor) == BlockStart(b, size * factor)
  {
    var m, r := a / size / factor, a / size % factor;
    BlockOf(a, a / size, m, r, size, factor);
    BlockOf(b, b / size, m, r, size, factor);
  }

  lemma BlockOf(a: nat, q: nat, m: nat, r: nat, size: nat, factor: nat)
    requires size > 0 && factor > 0 && q == a / size && m == q / factor && r == q % factor
    ensures size * factor > 0 && BlockStart(a, size * factor) == m * (size * factor)
  {
    var low, s := a % size, size * factor;
    Division(a, size);
    Division(q, factor);
    RemainderFits(r, low, size, factor);
    Regroup(m, r, factor, size);
    StartsAt(a, m, r * size + low, s);
  }

  lemma Division(a: nat, s: nat)
    requires s > 0
    ensures a == a / s * s + a % s && a % s < s
  {
  }

  lemma StartsAt(a: nat, m: nat, low: nat, s: nat)
    requires low < s && a == m * s + low
    ensures BlockStart(a, s) == m * s
  {
    QuotientOfMultiple(m, low, s);
  }

  lemma MaskedIsCanonical(p: Prefix)
    requires ValidPrefix(p)
    ensures Canonical(Masked(p))
    ensures forall a :: Contains(Masked(p), a) <==> Contains(p, a)
  {
    QuotientOfMultiple(p.addr / Size(p), 0, Size(p));
  }

  /** A canonical prefix stands for the addresses from its own up to its size. */
  lemma CanonicalRange(p: Prefix, a: nat)
    requires Canonical(p)
    ensures p.addr + Size(p) <= Pow2(Width(p))
    ensures Contains(p, a) <==> p.addr <= a < p.addr + Size(p)
  {
    var s, w := Size(p), Pow2(Width(p));
    Pow2Adds(p.len, Width(p) - p.len);
    assert w == Pow2(p.len) * s;
    assert p.addr == p.addr / s * s;
    LastBlock(p.addr / s, s, Pow2(p.len));
    assert (p.addr / s + 1) * s == p.addr + s;
    InBlock(p.addr / s, s, a);
  }

  lemma LastBlock(q: nat, s: nat, n: nat)
    requires q * s < n * s
    ensures (q + 1) * s <= n * s
  {
  }

  lemma InBlock(q: nat, s: nat, a: nat)
    requires s > 0
    ensures a / s == q <==> q * s <= a < q * s + s
  {
    assert a == a / s * s + a % s;
    if q * s <= a < q * s + s {
      QuotientOfMultiple(q, a - q * s, s);
    }
  }

  lemma {:induction false} Pow2Adds(m: nat, n: nat)
    ensures Pow2(m + n) == Pow2(m) * Pow2(n)
  {
    if m > 0 {
      Pow2Adds(m - 1, n);
    }
  }

  lemma {:induction false} Pow2Monotone(m: nat, n: nat)
    requires m < n
    ensures Pow2(m) < Pow2(n)
  {
    if m + 1 < n {
      Pow2Monotone(m, n - 1);
    }
  }

  /** Two canonical prefixes of one family are equal exactly when they stand for the same addresses. */
  lemma CanonicalIsUnique(p: Prefix, q: Prefix)
    requires Canonical(p) && Canonical(q) && p.is4 == q.is4
    ensures p == q <==> forall a :: Contains(p, a) <==> Contains(q, a)
  {
    if forall a :: Contains(p, a) <==> Contains(q, a) {
      CanonicalRange(p, p.addr);
      CanonicalRange(q, p.addr);
      CanonicalRange(p, q.addr);
      CanonicalRange(q, q.addr);
      assert p.addr == q.addr;
      var lastP, lastQ := p.addr + Size(p) - 1, q.addr + Size(q) - 1;
      CanonicalRange(p, lastP);
      CanonicalRange(q, lastP);
      CanonicalRange(p, lastQ);
      CanonicalRange(q, lastQ);
      assert Contains(p, lastP) && Contains(q, lastQ);
      assert Size(p) == Size(q);
      if p.len < q.len {
        Pow2Monotone(Width(p) - q.len, Width(p) - p.len);
      } else if q.len < p.len {
        Pow2Monotone(Width(p) - p.len, Width(p) - q.len);
      }
    }
  }

  // ---------------------------------------------------------------- texts

  /** The text Go prints for a prefix. */
  function TextOf(p: Prefix): RouteText {
    Spelled(p, "")
  }

  /** `netip.ParsePrefix(strings.TrimSpace(s))`: every spelling of a prefix is accepted. */
  function ParsePrefix(t: RouteText): (r: Option<Prefix>)
    ensures r.Some? ==> ValidPrefix(r.value)
  {
    if t.Spelled? && ValidPrefix(t.prefix) then Some(t.prefix) else None
  }

  /** `net.ParseCIDR`, which trims nothing and returns the network. */
  function ParseCidr(t: RouteText): (r: Option<Prefix>)
    ensures r.Some? ==> ValidPrefix(r.value) && Canonical(r.value)
  {
    if t.Spelled? && t.spelling == "" && ValidPrefix(t.prefix) then
      MaskedIsCanonical(t.prefix);
      Some(Masked(t.prefix))
    else None
  }

  /** The two prefixes stand for the same addresses. */
  ghost predicate SameAddresses(p: Prefix, q: Prefix)
    requires ValidPrefix(p) && ValidPrefix(q)
  {
    p.is4 == q.is4 && forall a :: Contains(p, a) <==> Contains(q, a)
  }

  lemma MaskedOnly(p: Prefix, q: Prefix)
    requires ValidPrefix(p) && Canonical(q)
    ensures Masked(p) == q <==> SameAddresses(p, q)
  {
    MaskedIsCanonical(p);
    if p.is4 == q.is4 {
      CanonicalIsUnique(Masked(p), q);
    }
  }

  /** A route text is read as the one canonical prefix of its addresses, if it is spelled the way Go prints it. */
  lemma CidrMeans(t: RouteText, p: Prefix)
    ensures ParseCidr(t) == Some(p) <==>
              Canonical(p) && t.Spelled? && t.spelling == "" && ValidPrefix(t.prefix) && SameAddresses(t.prefix, p)
  {
    if t.Spelled? && ValidPrefix(t.prefix) && Canonical(p) {
      MaskedOnly(t.prefix, p);
    }
  }
}
