/**
 * The way of a route from the machine that offers it to the machines that use it
 * (internal/agent/agent.go:304-359, with internal/control and internal/wgnet): advertised,
 * normalised, approved, filtered by the policy, then by the agent's own choices.
 */
module Routes {
  import opened Net
  import opened NetMap
  import opened Prefixes
  import opened Acl
  import opened Control
  import ControlRuns
  import Wgnet
  import WgSync
  import WgEngine

  /** The options that concern routes; no exit node is Word(""). */
  datatype Options = Options(advertiseRoutes: seq<RouteText>, advertiseExitNode: bool, exitNode: Text, acceptRoutes: bool)

  const DEFAULT_ROUTE: RouteText := TextOf(DEFAULT_PREFIX)

  predicate Distinct(s: seq<RouteText>) {
    forall i, j :: 0 <= i < j < |s| ==> s[i] != s[j]
  }

  // ---------------------------------------------------------------- advertising

  function Offered(opts: Options): seq<RouteText> {
    opts.advertiseRoutes + if opts.advertiseExitNode then [DEFAULT_ROUTE] else []
  }

  function CanonicalText(t: RouteText): RouteText
    requires ParsePrefix(t).Some?
  {
    TextOf(Masked(ParsePrefix(t).value))
  }

  /** The canonical texts of the offered routes, each once; None when one of them is no route. */
  function Advertised(routes: seq<RouteText>): (r: Option<seq<RouteText>>)
  {
    if |routes| == 0 then Some([])
    else
      var init, last := Advertised(routes[..|routes| - 1]), routes[|routes| - 1];
      if init.None? || ParsePrefix(last).None? then None
      else if CanonicalText(last) in init.value then init
      else Some(init.value + [CanonicalText(last)])
  }

  /** The canonical texts of the routes, each once. */
  lemma {:induction false} AdvertisedTexts(routes: seq<RouteText>)
    ensures Advertised(routes).Some? <==> forall t :: t in routes ==> ParsePrefix(t).Some?
    ensures Advertised(routes).Some? ==>
              forall c :: c in Advertised(routes).value <==> exists t :: t in routes && CanonicalText(t) == c
    ensures Advertised(routes).Some? ==>
              forall i, j :: 0 <= i < j < |Advertised(routes).value| ==>
                Advertised(routes).value[i] != Advertised(routes).value[j]
  {
    hide CanonicalText, ParsePrefix;
    if |routes| > 0 {
      var init, last := routes[..|routes| - 1], routes[|routes| - 1];
      AdvertisedTexts(init);
      assert forall t :: t in routes <==> t in init || t == last;
    }
  }

  lemma {:induction false} AdvertisedOfPrefix(routes: seq<RouteText>, n: nat)
    requires n <= |routes| && Advertised(routes[..n]).None?
    ensures Advertised(routes).None?
  {
    if n < |routes| {
      assert routes[..|routes| - 1][..n] == routes[..n];
      AdvertisedOfPrefix(routes[..|routes| - 1], n);
    } else {
      assert routes[..n] == routes;
    }
  }

  /**
   * Advertising fails exactly when some offered text is no route; otherwise the result holds
   * for every offered route the one canonical text of its addresses and nothing else, once.
   */
  lemma {:induction false} AdvertisedMeaning(routes: seq<RouteText>)
    ensures Advertised(routes).Some? <==> forall t :: t in routes ==> t.Spelled? && ValidPrefix(t.prefix)
    ensures Advertised(routes).Some? ==> Distinct(Advertised(routes).value)
    ensures Advertised(routes).Some? ==>
              forall c :: c in Advertised(routes).value <==>
                c.Spelled? && c.spelling == "" && Canonical(c.prefix)
                && exists t :: t in routes && t.Spelled? && ValidPrefix(t.prefix) && SameAddresses(t.prefix, c.prefix)
  {
    AdvertisedTexts(routes);
    if Advertised(routes).Some? {
      forall c, t | t in routes
        ensures CanonicalText(t) == c <==>
                  c.Spelled? && c.spelling == "" && Canonical(c.prefix) && SameAddresses(t.prefix, c.prefix)
      {
        CanonicalTextIff(t, c);
      }
    }
  }

  lemma CanonicalTextIff(t: RouteText, c: RouteText)
    requires ParsePrefix(t).Some?
    ensures CanonicalText(t) == c <==>
              c.Spelled? && c.spelling == "" && Canonical(c.prefix) && SameAddresses(t.prefix, c.prefix)
  {
    MaskedIsCanonical(t.prefix);
    if c.Spelled? && Canonical(c.prefix) {
      MaskedOnly(t.prefix, c.prefix);
    }
  }

  /** Routes are advertised in the order in which they were first listed: more routes only add at the end. */
  lemma {:induction false} AdvertisedInOrder(routes: seq<RouteText>, n: nat)
    requires n <= |routes| && Advertised(routes).Some?
    ensures Advertised(routes[..n]).Some? && Advertised(routes[..n]).value <= Advertised(routes).value
  {
    if n < |routes| {
      AdvertisedInOrder(routes[..|routes| - 1], n);
      assert routes[..|routes| - 1][..n] == routes[..n];
    } else {
      assert routes[..n] == routes;
    }
  }

  method AdvertisedRoutes(opts: Options) returns (r: Option<(seq<RouteText>, set<RouteText>)>)
    ensures r.Some? <==> Advertised(Offered(opts)).Some?
    ensures r.Some? ==> r.value.0 == Advertised(Offered(opts)).value && r.value.1 == set c | c in r.value.0
  {
    var all := opts.advertiseRoutes;
    if opts.advertiseExitNode {
      all := all + [DEFAULT_ROUTE];
    }
    assert all == Offered(opts);
    var advertised: seq<RouteText>, myRoutes: set<RouteText> := [], {};
    for i := 0 to |all|
      invariant Advertised(all[..i]) == Some(advertised)
      invariant myRoutes == set c | c in advertised
    {
      assert all[..i + 1][..i] == all[..i];
      var p := ParsePrefix(all[i]);
      if p.None? {
        AdvertisedOfPrefix(all, i + 1);
        return None;
      }
      var c := TextOf(Masked(p.value));
      if c !in myRoutes {
        myRoutes := myRoutes + {c};
        advertised := advertised + [c];
      }
    }
    assert all[..|all|] == all;
    r := Some((advertised, myRoutes));
  }

  /** The list an agent's poll carries: an empty one is left out of the request, hence None. */
  function InRequest(advertised: seq<RouteText>): Option<seq<RouteText>> {
    if |advertised| == 0 then None else Some(advertised)
  }

  /** The server keeps the routes that can be read as IPv4 prefixes, each as the one canonical text of its addresses. */
  lemma NormalFormIff(t: RouteText, c: RouteText)
    ensures NormalizeCidr(t) == Some(c) <==>
              CanonicalRoute(c) && t.Spelled? && ValidPrefix(t.prefix) && SameAddresses(t.prefix, c.prefix)
  {
    if t.Spelled? && ValidPrefix(t.prefix) && CanonicalRoute(c) {
      MaskedOnly(t.prefix, c.prefix);
    }
  }

  /** The agent offers a prefix with these addresses. */
  ghost predicate Offers(opts: Options, p: Prefix)
    requires ValidPrefix(p)
  {
    (opts.advertiseExitNode && p == Prefix(true, 0, 0))
    || exists t :: t in opts.advertiseRoutes && t.Spelled? && ValidPrefix(t.prefix) && SameAddresses(t.prefix, p)
  }

  /**
   * What the server knows of an agent's routes after a poll: the IPv4 ones among those the
   * agent offers, each in canonical form. An agent that offers none any more is not heard:
   * its last list stays.
   */
  lemma PollPublishesRoutes(s: StateFile, pub: Pub, opts: Options, advertised: seq<RouteText>,
                            endpoint: string, reported: Option<seq<string>>, now: int, saveOk: bool, r: RouteText)
    requires pub in s.devices && Advertised(Offered(opts)) == Some(advertised)
    ensures var s' := TouchStep(s, pub, endpoint, reported, InRequest(advertised), now, saveOk).0;
            if !opts.advertiseExitNode && opts.advertiseRoutes == []
            then s'.devices[pub].advertised == s.devices[pub].advertised
            else r in s'.devices[pub].advertised <==> CanonicalRoute(r) && Offers(opts, r.prefix)
  {
    hide NormalizeCidr, Canonical, SameAddresses, CanonicalText, Distinct;
    var s' := TouchStep(s, pub, endpoint, reported, InRequest(advertised), now, saveOk).0;
    AdvertisedMeaning(Offered(opts));
    SomeAdvertised(Offered(opts));
    if advertised != [] {
      KeptByServer(advertised, r);
      if CanonicalRoute(r) {
        OfferedIff(opts, r);
      }
    }
  }

  /** Something is advertised as soon as something is offered. */
  lemma {:induction false} SomeAdvertised(routes: seq<RouteText>)
    requires Advertised(routes).Some?
    ensures Advertised(routes).value == [] <==> routes == []
  {
    if |routes| > 0 {
      SomeAdvertised(routes[..|routes| - 1]);
    }
  }

  /** Of a list of canonical texts the server keeps the IPv4 ones as they are. */
  lemma {:induction false} KeptByServer(advertised: seq<RouteText>, r: RouteText)
    requires forall c :: c in advertised ==> c.Spelled? && c.spelling == "" && Canonical(c.prefix)
    ensures r in Normalized(advertised) <==> r in advertised && CanonicalRoute(r)
  {
    forall c, t | c in advertised
      ensures NormalizeCidr(c) == Some(t) <==> t == c && CanonicalRoute(c)
    {
      MaskedIsCanonical(c.prefix);
    }
  }

  lemma OfferedIff(opts: Options, r: RouteText)
    requires CanonicalRoute(r)
    ensures (exists t :: t in Offered(opts) && t.Spelled? && ValidPrefix(t.prefix) && SameAddresses(t.prefix, r.prefix)) <==>
              Offers(opts, r.prefix)
  {
    hide SameAddresses;
    DefaultIsItself(r);
    assert forall t :: t in Offered(opts) <==> t in opts.advertiseRoutes || (opts.advertiseExitNode && t == DEFAULT_ROUTE);
  }

  lemma DefaultIsItself(r: RouteText)
    requires CanonicalRoute(r)
    ensures Canonical(DEFAULT_PREFIX) && (SameAddresses(DEFAULT_PREFIX, r.prefix) <==> r.prefix == Prefix(true, 0, 0))
  {
    assert BlockStart(0, Pow2(32)) == 0;
    CanonicalIsUnique(DEFAULT_PREFIX, r.prefix);
  }

  // ---------------------------------------------------------------- filtering

  predicate IsExit(opts: Options, p: Peer) {
    opts.exitNode != Word("") && (p.ip == opts.exitNode || p.hostname == opts.exitNode)
  }

  /** The default route only from the chosen exit node, other routes only if accepted and not our own. */
  predicate Keeps(opts: Options, mine: set<RouteText>, p: Peer, r: RouteText) {
    if r == DEFAULT_ROUTE then IsExit(opts, p) else opts.acceptRoutes && r !in mine
  }

  function Kept(opts: Options, mine: set<RouteText>, p: Peer, routes: seq<RouteText>): (k: seq<RouteText>)
    ensures forall r :: r in k <==> r in routes && Keeps(opts, mine, p, r)
  {
    if |routes| == 0 then []
    else
      var init, last := Kept(opts, mine, p, routes[..|routes| - 1]), routes[|routes| - 1];
      assert forall r :: r in routes <==> r in routes[..|routes| - 1] || r == last;
      if Keeps(opts, mine, p, last) then init + [last] else init
  }

  /** The routes kept stay in order. */
  lemma {:induction false} KeptInOrder(opts: Options, mine: set<RouteText>, p: Peer, a: seq<RouteText>, b: seq<RouteText>)
    ensures Kept(opts, mine, p, a + b) == Kept(opts, mine, p, a) + Kept(opts, mine, p, b)
  {
    hide Keeps;
    if |b| > 0 {
      var front := b[..|b| - 1];
      assert (a + b)[..|a + b| - 1] == a + front;
      KeptInOrder(opts, mine, p, a, front);
    } else {
      assert a + b == a;
    }
  }

  function FilteredPeer(opts: Options, mine: set<RouteText>, p: Peer): Peer {
    p.(routes := Kept(opts, mine, p, p.routes))
  }

  /** The subnets kept from one peer, added to those already found. */
  function WithSubnets(before: seq<RouteText>, opts: Options, mine: set<RouteText>, p: Peer, routes: seq<RouteText>)
    : seq<RouteText>
  {
    if |routes| == 0 then before
    else
      var init, last := WithSubnets(before, opts, mine, p, routes[..|routes| - 1]), routes[|routes| - 1];
      if last != DEFAULT_ROUTE && Keeps(opts, mine, p, last) && last !in init then init + [last] else init
  }

  function Subnets(opts: Options, mine: set<RouteText>, list: seq<Peer>): seq<RouteText> {
    if |list| == 0 then []
    else
      var p := list[|list| - 1];
      WithSubnets(Subnets(opts, mine, list[..|list| - 1]), opts, mine, p, p.routes)
  }

  lemma {:induction false} WithSubnetsMeaning(before: seq<RouteText>, opts: Options, mine: set<RouteText>, p: Peer,
                                              routes: seq<RouteText>)
    ensures forall r :: r in WithSubnets(before, opts, mine, p, routes) <==>
              r in before || (r != DEFAULT_ROUTE && r in routes && Keeps(opts, mine, p, r))
    ensures Distinct(before) ==> Distinct(WithSubnets(before, opts, mine, p, routes))
  {
    hide Keeps;
    if |routes| > 0 {
      var init, last := routes[..|routes| - 1], routes[|routes| - 1];
      WithSubnetsMeaning(before, opts, mine, p, init);
      assert forall r :: r in routes <==> r in init || r == last;
    }
  }

  /** `r` is a subnet some peer of the list keeps. */
  ghost predicate KeptSubnet(opts: Options, mine: set<RouteText>, list: seq<Peer>, r: RouteText) {
    r != Spelled(Prefix(true, 0, 0), "") && opts.acceptRoutes && r !in mine && exists p :: p in list && r in p.routes
  }

  lemma OneMoreKept(opts: Options, mine: set<RouteText>, list: seq<Peer>, p: Peer, r: RouteText)
    ensures KeptSubnet(opts, mine, list + [p], r) <==>
              KeptSubnet(opts, mine, list, r) || (r != DEFAULT_ROUTE && r in p.routes && Keeps(opts, mine, p, r))
  {
  }

  lemma NothingKept(opts: Options, mine: set<RouteText>)
    ensures Distinct([]) && forall r :: !KeptSubnet(opts, mine, [], r)
  {
  }

  /** The subnets to install: every subnet some peer keeps, once, and never the default route. */
  lemma {:induction false} SubnetsMeaning(opts: Options, mine: set<RouteText>, list: seq<Peer>)
    ensures forall r :: r in Subnets(opts, mine, list) <==> KeptSubnet(opts, mine, list, r)
    ensures Distinct(Subnets(opts, mine, list))
  {
    hide Keeps, Distinct, KeptSubnet;
    if |list| > 0 {
      var init, p := list[..|list| - 1], list[|list| - 1];
      SubnetsMeaning(opts, mine, init);
      WithSubnetsMeaning(Subnets(opts, mine, init), opts, mine, p, p.routes);
      forall r
        ensures KeptSubnet(opts, mine, list, r) <==>
                  KeptSubnet(opts, mine, init, r) || (r != DEFAULT_ROUTE && r in p.routes && Keeps(opts, mine, p, r))
      {
        OneMoreKept(opts, mine, init, p, r);
        assert init + [p] == list;
      }
    } else {
      NothingKept(opts, mine);
    }
  }

  /** More peers, and more routes of a peer, only add subnets at the end. */
  lemma {:induction false} SubnetsInOrder(opts: Options, mine: set<RouteText>, list: seq<Peer>, n: nat)
    requires n <= |list|
    ensures Subnets(opts, mine, list[..n]) <= Subnets(opts, mine, list)
  {
    if n < |list| {
      var front, p := list[..|list| - 1], list[|list| - 1];
      SubnetsInOrder(opts, mine, front, n);
      assert front[..n] == list[..n];
      RoutesOnlyAdd(Subnets(opts, mine, front), opts, mine, p, p.routes, 0);
      assert p.routes[..0] == [];
    } else {
      assert list[..n] == list;
    }
  }

  lemma {:induction false} RoutesOnlyAdd(before: seq<RouteText>, opts: Options, mine: set<RouteText>, p: Peer,
                                         routes: seq<RouteText>, n: nat)
    requires n <= |routes|
    ensures WithSubnets(before, opts, mine, p, routes[..n]) <= WithSubnets(before, opts, mine, p, routes)
  {
    hide Keeps;
    if n < |routes| {
      RoutesOnlyAdd(before, opts, mine, p, routes[..|routes| - 1], n);
      assert routes[..|routes| - 1][..n] == routes[..n];
    } else {
      assert routes[..n] == routes;
    }
  }

  /** The chosen exit node is in the list and offers the default route. */
  predicate OffersExit(opts: Options, list: seq<Peer>) {
    opts.exitNode != Word("")
    && exists p :: p in list && (p.hostname == opts.exitNode || p.ip == opts.exitNode) && DEFAULT_ROUTE in p.routes
  }

  lemma OneMoreOffers(opts: Options, list: seq<Peer>, p: Peer)
    ensures OffersExit(opts, list + [p]) <==> OffersExit(opts, list) || (IsExit(opts, p) && DEFAULT_ROUTE in p.routes)
  {
  }

  lemma NobodyOffers(opts: Options)
    ensures !OffersExit(opts, [])
  {
  }

  /** The inner loop, over the routes of one peer. */
  method FilterPeer(p: Peer, opts: Options, mine: set<RouteText>, before: seq<RouteText>)
      returns (keep: seq<RouteText>, subnets: seq<RouteText>, exit: bool)
    ensures keep == Kept(opts, mine, p, p.routes)
    ensures subnets == WithSubnets(before, opts, mine, p, p.routes)
    ensures exit <==> IsExit(opts, p) && DEFAULT_ROUTE in p.routes
  {
    keep, subnets, exit := [], before, false;
    var isExit := opts.exitNode != Word("") && (p.ip == opts.exitNode || p.hostname == opts.exitNode);
    for i := 0 to |p.routes|
      invariant keep == Kept(opts, mine, p, p.routes[..i])
      invariant subnets == WithSubnets(before, opts, mine, p, p.routes[..i])
      invariant exit <==> isExit && DEFAULT_ROUTE in p.routes[..i]
    {
      assert p.routes[..i + 1][..i] == p.routes[..i];
      var r := p.routes[i];
      if r == DEFAULT_ROUTE {
        if isExit {
          keep := keep + [r];
          exit := true;
        }
        continue;
      }
      if !opts.acceptRoutes || r in mine {
        continue;
      }
      keep := keep + [r];
      if r !in subnets {
        subnets := subnets + [r];
      }
    }
    assert p.routes[..|p.routes|] == p.routes;
  }

  method FilterRoutes(list: seq<Peer>, opts: Options, mine: set<RouteText>)
      returns (peers: seq<Peer>, subnets: seq<RouteText>, exitFound: bool)
    ensures |peers| == |list| && forall i :: 0 <= i < |list| ==> peers[i] == FilteredPeer(opts, mine, list[i])
    ensures subnets == Subnets(opts, mine, list)
    ensures exitFound <==> OffersExit(opts, list)
  {
    hide Kept, Keeps, IsExit, WithSubnets, OffersExit;
    NobodyOffers(opts);
    peers, subnets, exitFound := [], [], false;
    for i := 0 to |list|
      invariant |peers| == i && forall k :: 0 <= k < i ==> peers[k] == FilteredPeer(opts, mine, list[k])
      invariant subnets == Subnets(opts, mine, list[..i])
      invariant exitFound <==> OffersExit(opts, list[..i])
    {
      var p := list[i];
      assert list[..i + 1][..i] == list[..i];
      OneMoreOffers(opts, list[..i], p);
      assert list[..i + 1] == list[..i] + [p];
      var keep, more, exit := FilterPeer(p, opts, mine, subnets);
      peers := peers + [p.(routes := keep)];
      subnets := more;
      exitFound := exitFound || exit;
    }
    assert list[..|list|] == list;
  }

  // ---------------------------------------------------------------- the whole pipeline

  /** Route `r` of device `other` may be used by `self`: offered, approved, visible, and wanted. */
  ghost predicate Granted(s: StateFile, self: Pub, other: Pub, opts: Options, mine: set<RouteText>, r: RouteText) {
    && self in s.devices && other in s.devices && other != self
    && r in s.devices[other].advertised && r in s.devices[other].approved
    && MaySee(s, s.devices[self], s.devices[other])
    && (if r == Spelled(Prefix(true, 0, 0), "")
        then opts.exitNode != Word("")
             && (opts.exitNode == s.devices[other].hostname || opts.exitNode == AddressText(s.cidr, s.devices[other].ip))
        else opts.acceptRoutes && r !in mine)
  }

  /**
   * Every route that reaches an agent's peers is granted, and every granted route reaches
   * them: for the list a poll returns, a filtered peer carries route `r` for key `other`
   * exactly when `r` is advertised by and approved for a visible device of that key, and kept
   * by the agent's choices.
   */
  lemma RoutesReachExactly(s: StateFile, self: Pub, list: seq<Peer>, opts: Options, mine: set<RouteText>,
                           other: Pub, r: RouteText)
    requires KeyedByOwnKey(s) && self in s.devices
    requires forall p :: p in list <==> SeenBy(s, self, p)
    ensures (exists p :: p in list && FilteredPeer(opts, mine, p).publicKey == other
                         && r in FilteredPeer(opts, mine, p).routes) <==>
              Granted(s, self, other, opts, mine, r)
  {
    if Granted(s, self, other, opts, mine, r) {
      var p := PeerView(s.cidr, s.devices[other]);
      assert SeenBy(s, self, p);
      assert FilteredPeer(opts, mine, p).publicKey == other && r in FilteredPeer(opts, mine, p).routes;
    }
    if p :| p in list && FilteredPeer(opts, mine, p).publicKey == other && r in FilteredPeer(opts, mine, p).routes {
      assert SeenBy(s, self, p);
    }
  }

  lemma {:induction false} NetworksOf(routes: seq<RouteText>, prefix: Prefix)
    requires forall t :: t in routes ==> CanonicalRoute(t)
    ensures prefix in Wgnet.Networks(routes) <==> TextOf(prefix) in routes
  {
    if |routes| > 0 {
      var init, last := routes[..|routes| - 1], routes[|routes| - 1];
      assert forall t :: t in routes <==> t in init || t == last;
      NetworksOf(init, prefix);
      assert CanonicalRoute(last) && last == TextOf(last.prefix);
    }
  }

  /** The texts of two different canonical IPv4 routes stand for different sets of addresses. */
  lemma DifferentTextsDifferentAddresses(r: RouteText, t: RouteText)
    requires CanonicalRoute(r) && CanonicalRoute(t)
    ensures r == t <==> forall a :: Contains(r.prefix, a) <==> Contains(t.prefix, a)
  {
    CanonicalIsUnique(r.prefix, t.prefix);
  }

  /** The only canonical IPv4 route of length zero is the default route. */
  lemma ZeroLengthIsDefault(r: RouteText)
    requires CanonicalRoute(r)
    ensures r.prefix.len == 0 <==> r == DEFAULT_ROUTE
  {
    if r.prefix.len == 0 {
      CanonicalRange(r.prefix, 0);
    }
  }

  ghost predicate RoutesCanonical(s: StateFile) {
    forall pub :: pub in s.devices ==>
      (forall t :: t in s.devices[pub].advertised ==> CanonicalRoute(t))
      && (forall t :: t in s.devices[pub].approved ==> CanonicalRoute(t))
  }

  /**
   * What the engine is told: a peer's allowed IPs are its own address, as the engine reads it,
   * and exactly the routes granted for it, all canonical IPv4 networks.
   */
  lemma AllowedIPsAreGranted(s: StateFile, self: Pub, list: seq<Peer>, opts: Options, mine: set<RouteText>,
                             p: Peer, prefix: Prefix)
    requires KeyedByOwnKey(s) && self in s.devices && RoutesCanonical(s)
    requires forall q :: q in list <==> SeenBy(s, self, q)
    requires p in list
    ensures !p.ip.Word? && !FilteredPeer(opts, mine, p).ip.Word? &&
            var listed := Wgnet.Listed(FilteredPeer(opts, mine, p));
            && listed[0] == Wgnet.OwnPrefix(p.ip)
            && (prefix in listed[1..] <==> Granted(s, self, p.publicKey, opts, mine, TextOf(prefix)))
            && (prefix in listed[1..] ==> prefix.is4 && Canonical(prefix))
  {
    assert SeenBy(s, self, p);
    var d := s.devices[p.publicKey];
    assert p == PeerView(s.cidr, d);
    var routes := FilteredPeer(opts, mine, p).routes;
    assert Wgnet.Listed(FilteredPeer(opts, mine, p))[1..] == Wgnet.Networks(routes);
    NetworksOf(routes, prefix);
  }

  ghost predicate AddressesReadable(s: StateFile) {
    forall pub :: pub in s.devices ==> Wgnet.IsAddress(AddressText(s.cidr, s.devices[pub].ip))
  }

  /** Every state the store can reach has only canonical routes, and addresses an agent can read. */
  lemma {:induction false} ReachableRoutesAreCanonical(cidr: RouteText, run: ControlRuns.Run)
    ensures RoutesCanonical(ControlRuns.After(cidr, run)) && KeyedByOwnKey(ControlRuns.After(cidr, run))
    ensures AddressesReadable(ControlRuns.After(cidr, run))
  {
    ControlRuns.DevicesAreSound(cidr, run);
    var s := ControlRuns.After(cidr, run);
    forall pub | pub in s.devices
      ensures ControlRuns.DeviceSound(s, pub) && Wgnet.IsAddress(AddressText(s.cidr, s.devices[pub].ip))
    {
      assert ControlRuns.DeviceSound(s, pub);
      CanonicalRange(Pool(s).value, s.devices[pub].ip);
    }
  }

  lemma HostsInOneBlock(pool: Prefix, a: nat, b: nat)
    requires Canonical(pool) && !pool.is4 && pool.len >= 32 && Contains(pool, a) && Contains(pool, b)
    ensures BlockStart(a, Pow2(96)) == BlockStart(b, Pow2(96))
  {
    Pow2Adds(128 - pool.len, pool.len - 32);
    SameLargerBlock(a, b, Size(pool), Pow2(pool.len - 32));
  }

  lemma HostInPool(s: StateFile, pub: Pub)
    requires ControlRuns.DeviceSound(s, pub) && pub in s.devices
    ensures Pool(s).Some? && Contains(Pool(s).value, s.devices[pub].ip)
    ensures Pool(s).value.is4 <==> !(s.cidr.Spelled? && !s.cidr.prefix.is4)
  {
    CanonicalRange(Pool(s).value, s.devices[pub].ip);
  }

  /**
   * The agent writes "/32" behind every address. Two machines of an IPv4 range so get allowed
   * IPs of their own; two of an IPv6 range share one exactly when their first 32 bits agree,
   * which in a range of length 32 or more they always do.
   */
  lemma {:induction false} OwnAddressesApartIff(cidr: RouteText, run: ControlRuns.Run, a: Pub, b: Pub)
    requires var s := ControlRuns.After(cidr, run); a in s.devices && b in s.devices && a != b
    ensures var s := ControlRuns.After(cidr, run);
            var ipA, ipB := s.devices[a].ip, s.devices[b].ip;
            Pool(s).Some? &&
            var shared := Wgnet.OwnPrefix(AddressText(s.cidr, ipA)) == Wgnet.OwnPrefix(AddressText(s.cidr, ipB));
            && (shared <==> !Pool(s).value.is4 && BlockStart(ipA, Pow2(96)) == BlockStart(ipB, Pow2(96)))
            && (!Pool(s).value.is4 && Pool(s).value.len >= 32 ==> shared)
  {
    hide BlockStart, Pow2, Canonical, Contains;
    ControlRuns.DevicesAreSound(cidr, run);
    var s := ControlRuns.After(cidr, run);
    HostInPool(s, a);
    HostInPool(s, b);
    if !Pool(s).value.is4 && Pool(s).value.len >= 32 {
      HostsInOneBlock(Pool(s).value, s.devices[a].ip, s.devices[b].ip);
    }
  }

  // ---------------------------------------------------------------- the owners of allowed IPs

  /** The prefix is the machine's own address, or a route granted for it. */
  ghost predicate MayCarry(s: StateFile, self: Pub, opts: Options, mine: set<RouteText>, p: Peer, prefix: Prefix) {
    (!p.ip.Word? && prefix == Wgnet.OwnPrefix(p.ip)) || Granted(s, self, p.publicKey, opts, mine, TextOf(prefix))
  }

  /** The list of a poll, and what the agent makes of it. */
  ghost predicate Polled(s: StateFile, self: Pub, list: seq<Peer>, opts: Options, mine: set<RouteText>, peers: seq<Peer>) {
    && KeyedByOwnKey(s) && self in s.devices && RoutesCanonical(s) && AddressesReadable(s)
    && (forall q :: q in list <==> SeenBy(s, self, q))
    && |peers| == |list| && forall i :: 0 <= i < |list| ==> peers[i] == FilteredPeer(opts, mine, list[i])
  }

  lemma ListedIffMayCarry(s: StateFile, self: Pub, list: seq<Peer>, opts: Options, mine: set<RouteText>,
                          peers: seq<Peer>, i: nat, x: Wgnet.Texts, prefix: Prefix)
    requires Polled(s, self, list, opts, mine, peers) && i < |list|
    ensures Wgnet.Readable(x, peers[i]) <==> x.parseKey(list[i].publicKey).Some?
    ensures peers[i].publicKey == list[i].publicKey && !peers[i].ip.Word?
    ensures prefix in Wgnet.Listed(peers[i]) <==> MayCarry(s, self, opts, mine, list[i], prefix)
  {
    hide Granted, RoutesCanonical, KeyedByOwnKey, Keeps, Kept;
    AllowedIPsAreGranted(s, self, list, opts, mine, list[i], prefix);
    var listed := Wgnet.Listed(peers[i]);
    assert prefix in listed <==> prefix == listed[0] || prefix in listed[1..];
    assert SeenBy(s, self, list[i]);
  }

  /** Entry i may carry the prefix for key k, and no later entry that acts may, or has that key. */
  ghost predicate LastCarrier(s: StateFile, self: Pub, list: seq<Peer>, opts: Options, mine: set<RouteText>,
                              x: Wgnet.Texts, u: Wgnet.Synced, peers: seq<Peer>, prefix: Prefix, k: WgEngine.WgKey, i: nat) {
    && i < |list| == |peers| && WgSync.Acts(x, u.engine, peers, u.known, i)
    && x.parseKey(list[i].publicKey) == Some(k) && MayCarry(s, self, opts, mine, list[i], prefix)
    && forall j :: i < j < |list| && WgSync.Acts(x, u.engine, peers, u.known, j) ==>
         !MayCarry(s, self, opts, mine, list[j], prefix) && x.parseKey(list[j].publicKey) != Some(k)
  }

  lemma ListedIffCarried(s: StateFile, self: Pub, list: seq<Peer>, opts: Options, mine: set<RouteText>,
                         x: Wgnet.Texts, u: Wgnet.Synced, peers: seq<Peer>, prefix: Prefix, k: WgEngine.WgKey)
    requires Polled(s, self, list, opts, mine, peers)
    ensures WgSync.IsListed(x, u.engine, peers, u.known, prefix, k) <==>
              exists i :: LastCarrier(s, self, list, opts, mine, x, u, peers, prefix, k, i)
  {
    hide MayCarry, Wgnet.Listed, WgSync.Acts;
    forall i: nat | i < |list|
      ensures WgSync.Lists(x, peers[i], prefix, k) <==>
                x.parseKey(list[i].publicKey) == Some(k) && MayCarry(s, self, opts, mine, list[i], prefix)
      ensures Wgnet.Readable(x, peers[i]) ==>
                (WgSync.Ignores(x, peers[i], prefix, k) <==>
                   !MayCarry(s, self, opts, mine, list[i], prefix) && x.parseKey(list[i].publicKey) != Some(k))
    {
      ListedIffMayCarry(s, self, list, opts, mine, peers, i, x, prefix);
    }
    forall i: nat
      ensures WgSync.LastLister(x, u.engine, peers, u.known, prefix, k, i) <==>
                LastCarrier(s, self, list, opts, mine, x, u, peers, prefix, k, i)
    {
      ActsIsReadable(x, u, peers);
    }
  }

  lemma ActsIsReadable(x: Wgnet.Texts, u: Wgnet.Synced, peers: seq<Peer>)
    ensures forall j :: 0 <= j < |peers| && WgSync.Acts(x, u.engine, peers, u.known, j) ==> Wgnet.Readable(x, peers[j])
  {
  }

  /** The machine of that key may carry the prefix. */
  ghost predicate GrantedTo(s: StateFile, self: Pub, list: seq<Peer>, opts: Options, mine: set<RouteText>,
                            x: Wgnet.Texts, prefix: Prefix, k: WgEngine.WgKey) {
    exists p :: p in list && x.parseKey(p.publicKey) == Some(k) && MayCarry(s, self, opts, mine, p, prefix)
  }

  /** A leaked peer that the map does not want had the prefix, and no entry that acts lists it. */
  ghost predicate LeakedKeeps(x: Wgnet.Texts, w: Wgnet.Synced, run: seq<Wgnet.Sync>, peers: seq<Peer>,
                              prefix: Prefix, k: WgEngine.WgKey) {
    var u := WgSync.After(x, w, run);
    && k in WgSync.Leaked(x, w, run) && k !in WgSync.DesiredKeys(x, peers)
    && WgSync.OwnerOf(u.engine, prefix) == Some(k) && WgSync.NobodyTakes(x, u.engine, peers, u.known, prefix)
  }

  /**
   * The end of the pipeline. After any run of syncs, interrupted anywhere and over any maps, a
   * sync that goes through with the filtered peers of a poll gives a prefix to key `k` if and
   * only if `k` belongs to the last machine that may carry it among the entries that act, and
   * does not depart; or `k` is a leaked peer that keeps it.
   */
  lemma {:induction false} OwnersIff(s: StateFile, self: Pub, list: seq<Peer>, opts: Options, mine: set<RouteText>,
                                     x: Wgnet.Texts, w: Wgnet.Synced, run: seq<Wgnet.Sync>, t: Wgnet.Sync,
                                     prefix: Prefix, k: WgEngine.WgKey)
    requires Polled(s, self, list, opts, mine, t.peers)
    requires WgSync.InStep(x, w) && WgSync.Legal(x, w, run + [t]) && !Wgnet.Stops(x, WgSync.After(x, w, run), t)
    ensures var u := WgSync.After(x, w, run);
            WgSync.OwnerOf(WgSync.After(x, w, run + [t]).engine, prefix) == Some(k) <==>
              (k !in WgSync.Departed(x, t.peers, u.known)
               && exists i :: LastCarrier(s, self, list, opts, mine, x, u, t.peers, prefix, k, i))
              || LeakedKeeps(x, w, run, t.peers, prefix, k)
  {
    hide Polled, LastCarrier, WgSync.After, WgSync.Legal, WgSync.InStep, WgSync.OwnerOf, WgSync.Departed, Wgnet.Stops;
    hide WgSync.DesiredKeys, WgSync.NobodyTakes, WgSync.Leaked, WgSync.IsListed;
    WgSync.RunOwnersIff(x, w, run, t, prefix, k);
    ListedIffCarried(s, self, list, opts, mine, x, WgSync.After(x, w, run), t.peers, prefix, k);
  }

  /**
   * An owner that no grant stands behind is exactly a leaked peer whose prefix no entry of the
   * map takes: a machine the policy has revoked keeps its routes until then.
   */
  lemma {:induction false} UngrantedOwnerIff(s: StateFile, self: Pub, list: seq<Peer>, opts: Options, mine: set<RouteText>,
                                             x: Wgnet.Texts, w: Wgnet.Synced, run: seq<Wgnet.Sync>, t: Wgnet.Sync,
                                             prefix: Prefix, k: WgEngine.WgKey)
    requires Polled(s, self, list, opts, mine, t.peers)
    requires WgSync.InStep(x, w) && WgSync.Legal(x, w, run + [t]) && !Wgnet.Stops(x, WgSync.After(x, w, run), t)
    ensures WgSync.OwnerOf(WgSync.After(x, w, run + [t]).engine, prefix) == Some(k)
            && !GrantedTo(s, self, list, opts, mine, x, prefix, k) <==>
              LeakedKeeps(x, w, run, t.peers, prefix, k)
  {
    hide Polled, MayCarry, WgSync.After, WgSync.Legal, WgSync.InStep, WgSync.OwnerOf, WgSync.Departed, Wgnet.Stops;
    hide WgSync.DesiredKeys, WgSync.NobodyTakes, WgSync.Leaked;
    OwnersIff(s, self, list, opts, mine, x, w, run, t, prefix, k);
    if GrantedTo(s, self, list, opts, mine, x, prefix, k) {
      GrantedIsDesired(s, self, list, opts, mine, x, t.peers, prefix, k);
    }
  }

  lemma GrantedIsDesired(s: StateFile, self: Pub, list: seq<Peer>, opts: Options, mine: set<RouteText>,
                         x: Wgnet.Texts, peers: seq<Peer>, prefix: Prefix, k: WgEngine.WgKey)
    requires Polled(s, self, list, opts, mine, peers) && GrantedTo(s, self, list, opts, mine, x, prefix, k)
    ensures k in WgSync.DesiredKeys(x, peers)
  {
    hide Polled, MayCarry;
    var p :| p in list && x.parseKey(p.publicKey) == Some(k) && MayCarry(s, self, opts, mine, p, prefix);
    var i :| 0 <= i < |list| && list[i] == p;
    SameLength(s, self, list, opts, mine, peers);
    ListedIffMayCarry(s, self, list, opts, mine, peers, i, x, prefix);
    WgSync.DesiredKey(x, peers, peers[i]);
  }

  lemma SameLength(s: StateFile, self: Pub, list: seq<Peer>, opts: Options, mine: set<RouteText>, peers: seq<Peer>)
    requires Polled(s, self, list, opts, mine, peers)
    ensures |list| == |peers|
  {
  }

  /**
   * What the system is told: the routes to install are exactly the subnets granted by some
   * visible device; the default route is never among them, and neither is a route of our own.
   */
  lemma {:induction false} SystemRoutesAreGranted(s: StateFile, self: Pub, list: seq<Peer>, opts: Options,
                                                  mine: set<RouteText>, prefix: Prefix)
    requires KeyedByOwnKey(s) && self in s.devices && RoutesCanonical(s)
    requires forall q :: q in list <==> SeenBy(s, self, q)
    ensures prefix in Wgnet.Desired(Subnets(opts, mine, list)) <==>
              TextOf(prefix) != DEFAULT_ROUTE
              && exists other :: Granted(s, self, other, opts, mine, TextOf(prefix))
    ensures prefix in Wgnet.Desired(Subnets(opts, mine, list)) ==>
              prefix.is4 && Canonical(prefix) && prefix.len > 0 && TextOf(prefix) !in mine && opts.acceptRoutes
  {
    var r, subnets := TextOf(prefix), Subnets(opts, mine, list);
    SubnetsMeaning(opts, mine, list);
    forall t | t in subnets
      ensures CanonicalRoute(t) && t != DEFAULT_ROUTE && t.prefix.len > 0 && ParseCidr(t) == Some(t.prefix)
    {
      assert KeptSubnet(opts, mine, list, t);
      var p :| p in list && t in p.routes && Keeps(opts, mine, p, t);
      assert SeenBy(s, self, p);
      ZeroLengthIsDefault(t);
    }
    assert prefix in Wgnet.Desired(subnets) <==> r in subnets;
    if r in subnets {
      var p :| p in list && r in p.routes && Keeps(opts, mine, p, r);
      assert SeenBy(s, self, p);
      assert Granted(s, self, p.publicKey, opts, mine, r);
    }
    if r != DEFAULT_ROUTE && exists other :: Granted(s, self, other, opts, mine, r) {
      var other :| Granted(s, self, other, opts, mine, r);
      var p := PeerView(s.cidr, s.devices[other]);
      assert SeenBy(s, self, p);
      assert r in p.routes;
    }
  }
}
