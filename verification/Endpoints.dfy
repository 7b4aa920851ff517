/**
 * The endpoint manager (internal/agent/endpoints.go): per peer, direct, counting or relayed.
 *
 * Each critical section of `Observe`, `Probe` and `onPong` is a function on the manager's
 * fields. The class runs them as the source does; the event system below runs them with
 * pongs landing anywhere inside the unlocked part of `Probe`.
 */
module Endpoints {
  import opened Net
  import opened Disco
  import opened NetMap

  const SECOND := 1_000_000_000
  const HANDSHAKE_FRESH := 135 * SECOND
  const PROBE_EXPIRES := 15 * SECOND
  const RELAY_AFTER_ROUNDS := 2

  datatype PendingProbe = PendingProbe(publicKey: Pub, candidate: AddrPort, sentAt: int)

  /** The fields of the manager; `onRelay` holds the keys whose entry is true. */
  datatype Manager = Manager(pending: map<ProbeID, PendingProbe>, peers: map<Pub, seq<string>>, relayOK: bool,
                             disconnected: map<Pub, nat>, onRelay: set<Pub>)

  const FRESH := Manager(map[], map[], false, map[], {})

  // ---------------------------------------------------------------- candidates

  /** The non-empty strings of `xs`, each at its first occurrence. */
  function FirstOccurrences(xs: seq<string>): (r: seq<string>)
    ensures forall x :: x in r <==> x in xs && x != ""
    ensures forall i, j :: 0 <= i < j < |r| ==> r[i] != r[j]
  {
    if |xs| == 0 then []
    else
      var r := FirstOccurrences(xs[..|xs| - 1]);
      var x := xs[|xs| - 1];
      assert xs == xs[..|xs| - 1] + [x];
      if x == "" || x in r then r else r + [x]
  }

  function FirstIndex(xs: seq<string>, x: string): (i: nat)
    requires x in xs
    ensures i < |xs| && xs[i] == x && forall k :: 0 <= k < i ==> xs[k] != x
  {
    if xs[0] == x then 0 else 1 + FirstIndex(xs[1..], x)
  }

  /** Candidates keep the order in which they were first listed. */
  lemma {:induction false} FirstOccurrencesInOrder(xs: seq<string>, i: nat, j: nat)
    requires i < j < |FirstOccurrences(xs)|
    ensures FirstIndex(xs, FirstOccurrences(xs)[i]) < FirstIndex(xs, FirstOccurrences(xs)[j])
  {
    var front := xs[..|xs| - 1];
    var r := FirstOccurrences(front);
    FirstIndexOfPrefix(xs, FirstOccurrences(xs)[i]);
    FirstIndexOfPrefix(xs, FirstOccurrences(xs)[j]);
    if j < |r| {
      FirstOccurrencesInOrder(front, i, j);
    }
  }

  lemma {:induction false} FirstIndexOfPrefix(xs: seq<string>, x: string)
    requires x in xs
    ensures x in xs[..|xs| - 1] ==> FirstIndex(xs, x) == FirstIndex(xs[..|xs| - 1], x)
    ensures x !in xs[..|xs| - 1] ==> FirstIndex(xs, x) == |xs| - 1
  {
    var front, i := xs[..|xs| - 1], FirstIndex(xs, x);
    assert forall k :: 0 <= k < |front| ==> front[k] == xs[k];
  }

  function Candidates(p: Peer): seq<string> {
    FirstOccurrences(p.endpoints + [p.endpoint])
  }

  method CandidatesOf(p: Peer) returns (out: seq<string>)
    ensures out == Candidates(p)
  {
    var seen: set<string> := {};
    out := [];
    var all := p.endpoints + [p.endpoint];
    for i := 0 to |all|
      invariant out == FirstOccurrences(all[..i])
      invariant forall x :: x in seen <==> x in out
    {
      assert all[..i + 1][..i] == all[..i];
      var ep := all[i];
      if ep != "" && ep !in seen {
        seen := seen + {ep};
        out := out + [ep];
      }
    }
    assert all[..|all|] == all;
  }

  /** The first endpoint a new peer is given: its first reported one, else the observed one, else none. */
  function Initial(p: Peer): string {
    if |Candidates(p)| > 0 then Candidates(p)[0] else ""
  }

  method InitialEndpoint(p: Peer) returns (r: string)
    ensures r == Initial(p)
  {
    var c := CandidatesOf(p);
    r := if |c| > 0 then c[0] else "";
  }

  /** No endpoint is offered only when there is none, and the first one reported goes first. */
  lemma InitialIsFirstReported(p: Peer)
    ensures Initial(p) == "" <==> p.endpoint == "" && forall e :: e in p.endpoints ==> e == ""
    ensures p.endpoints != [] && p.endpoints[0] != "" ==> Initial(p) == p.endpoints[0]
    ensures (forall e :: e in p.endpoints ==> e == "") ==> Initial(p) == p.endpoint
  {
    hide FirstOccurrences;
    var all := p.endpoints + [p.endpoint];
    assert forall e :: e in all <==> e in p.endpoints || e == p.endpoint;
    if p.endpoints != [] && p.endpoints[0] != "" {
      FirstOccurrencesKeepsHead(all);
    }
    var c := FirstOccurrences(all);
    assert |c| > 0 ==> c[0] in c;
    assert p.endpoint in all;
  }

  lemma {:induction false} FirstOccurrencesKeepsHead(xs: seq<string>)
    requires |xs| > 0 && xs[0] != ""
    ensures |FirstOccurrences(xs)| > 0 && FirstOccurrences(xs)[0] == xs[0]
  {
    if |xs| > 1 {
      FirstOccurrencesKeepsHead(xs[..|xs| - 1]);
    } else {
      assert FirstOccurrences(xs[..0]) == [];
    }
  }

  // ---------------------------------------------------------------- critical sections

  function Count(m: Manager, pub: Pub): nat {
    if pub in m.disconnected then m.disconnected[pub] else 0
  }

  function PeersOf(ps: seq<Peer>): map<Pub, seq<string>> {
    if |ps| == 0 then map[]
    else PeersOf(ps[..|ps| - 1])[ps[|ps| - 1].publicKey := Candidates(ps[|ps| - 1])]
  }

  /** `Observe`: the new candidates, and no memory of peers that have left the map. */
  function ObserveStep(m: Manager, ps: seq<Peer>): Manager {
    var peers := PeersOf(ps);
    m.(peers := peers,
       disconnected := map pub | pub in m.disconnected && pub in peers :: m.disconnected[pub],
       onRelay := set pub | pub in m.onRelay && pub in peers)
  }

  lemma {:induction false} PeersOfKeys(ps: seq<Peer>, pub: Pub)
    ensures pub in PeersOf(ps) <==> exists p :: p in ps && p.publicKey == pub
  {
    hide Candidates;
    if |ps| > 0 {
      PeersOfKeys(ps[..|ps| - 1], pub);
      assert forall p :: p in ps <==> p in ps[..|ps| - 1] || p == ps[|ps| - 1];
    }
  }

  /** A key listed twice has the candidates of its last entry. */
  lemma {:induction false} PeersOfLastEntry(ps: seq<Peer>, pub: Pub, i: nat)
    requires LastEntry(ps, pub, i)
    ensures pub in PeersOf(ps) && PeersOf(ps)[pub] == Candidates(ps[i])
  {
    hide Candidates;
    if i < |ps| - 1 {
      assert forall j :: 0 <= j < |ps| - 1 ==> ps[..|ps| - 1][j] == ps[j];
      PeersOfLastEntry(ps[..|ps| - 1], pub, i);
    }
  }

  ghost predicate LastEntry(ps: seq<Peer>, pub: Pub, i: nat) {
    i < |ps| && ps[i].publicKey == pub && forall j :: i < j < |ps| ==> ps[j].publicKey != pub
  }

  /** A peer that leaves the map is forgotten, counter and relay mark; one that stays keeps both. */
  lemma ObserveForgetsDeparted(m: Manager, ps: seq<Peer>, pub: Pub)
    ensures var t, listed := ObserveStep(m, ps), exists p :: p in ps && p.publicKey == pub;
            && (pub in t.peers <==> listed)
            && Count(t, pub) == (if listed then Count(m, pub) else 0)
            && (pub in t.onRelay <==> listed && pub in m.onRelay)
            && t.pending == m.pending
  {
    PeersOfKeys(ps, pub);
  }

  predicate HasFreshHandshake(handshakes: map<Pub, int>, now: int, pub: Pub) {
    pub in handshakes && now - handshakes[pub] < HANDSHAKE_FRESH
  }

  /** The peers of a round that have no fresh handshake. */
  predicate Stale(m: Manager, handshakes: map<Pub, int>, now: int, pub: Pub) {
    pub in m.peers && !HasFreshHandshake(handshakes, now, pub)
  }

  /** The peers a round leaves alone: connected, and directly. */
  predicate DirectAndFresh(m: Manager, handshakes: map<Pub, int>, now: int, pub: Pub) {
    pub in m.peers && HasFreshHandshake(handshakes, now, pub) && pub !in m.onRelay
  }

  predicate FallsBack(m: Manager, handshakes: map<Pub, int>, now: int, pub: Pub) {
    Stale(m, handshakes, now, pub) && m.relayOK && pub !in m.onRelay && Count(m, pub) + 1 > RELAY_AFTER_ROUNDS
  }

  /** The rounds without handshake a peer has behind it after this one. */
  function NewCount(m: Manager, handshakes: map<Pub, int>, now: int, pub: Pub): nat {
    if Stale(m, handshakes, now, pub) then Count(m, pub) + 1
    else if DirectAndFresh(m, handshakes, now, pub) then 0
    else Count(m, pub)
  }

  predicate Recounted(m: Manager, handshakes: map<Pub, int>, now: int, pub: Pub) {
    Stale(m, handshakes, now, pub) || DirectAndFresh(m, handshakes, now, pub)
  }

  function Counted(m: Manager, handshakes: map<Pub, int>, now: int, done: set<Pub>): map<Pub, nat> {
    map pub | pub in m.disconnected.Keys + done && (pub in m.disconnected || Recounted(m, handshakes, now, pub)) ::
      if pub in done then NewCount(m, handshakes, now, pub) else Count(m, pub)
  }

  function Unexpired(pending: map<ProbeID, PendingProbe>, now: int): map<ProbeID, PendingProbe> {
    map id | id in pending && now - pending[id].sentAt <= PROBE_EXPIRES :: pending[id]
  }

  function ToRelay(m: Manager, handshakes: map<Pub, int>, now: int, done: set<Pub>): set<Pub> {
    set pub | pub in done && FallsBack(m, handshakes, now, pub)
  }

  /** The first critical section of `Probe`, once the peers in `done` have been looked at. */
  function DecideUpTo(m: Manager, handshakes: map<Pub, int>, now: int, done: set<Pub>): Manager {
    m.(pending := Unexpired(m.pending, now),
       disconnected := Counted(m, handshakes, now, done),
       onRelay := m.onRelay + ToRelay(m, handshakes, now, done))
  }

  function DecideStep(m: Manager, handshakes: map<Pub, int>, now: int): Manager {
    DecideUpTo(m, handshakes, now, m.peers.Keys)
  }

  /** A failed switch to the relay is forgotten; a successful one changes no field. */
  function RelayPushedStep(m: Manager, pub: Pub, ok: bool): Manager {
    if ok then m else m.(onRelay := m.onRelay - {pub})
  }

  function PingSentStep(m: Manager, id: ProbeID, probe: PendingProbe): Manager {
    m.(pending := m.pending[id := probe])
  }

  function PongTakenStep(m: Manager, id: ProbeID): Manager {
    m.(pending := m.pending - {id})
  }

  function PongCommittedStep(m: Manager, pub: Pub): Manager {
    m.(onRelay := m.onRelay - {pub}, disconnected := m.disconnected[pub := 0])
  }

  datatype Pushed = Relay | Direct(ap: AddrPort)
  datatype Ping = Ping(id: ProbeID, at: int)

  /** A pong for a peer already connected directly changes nothing. */
  predicate PongIgnored(m: Manager, pub: Pub, handshakes: Option<map<Pub, int>>, now: int) {
    pub !in m.onRelay && handshakes.Some? && HasFreshHandshake(handshakes.value, now, pub)
  }

  /** The endpoints after the engine took the switches it accepts. */
  function Switched(endpoints: map<Pub, Pushed>, due: set<Pub>, accepts: Pub -> bool): map<Pub, Pushed> {
    map pub | pub in endpoints.Keys + due && (pub in endpoints || accepts(pub)) ::
      if pub in due && accepts(pub) then Relay else endpoints[pub]
  }

  lemma SwitchOneMore(endpoints: map<Pub, Pushed>, done: set<Pub>, accepts: Pub -> bool, pub: Pub)
    ensures Switched(endpoints, done + {pub}, accepts) ==
              if accepts(pub) then Switched(endpoints, done, accepts)[pub := Relay] else Switched(endpoints, done, accepts)
  {
  }

  lemma NoSwitches(endpoints: map<Pub, Pushed>, accepts: Pub -> bool)
    ensures Switched(endpoints, {}, accepts) == endpoints
  {
  }

  function Pinged(pending: map<ProbeID, PendingProbe>, sent: seq<(Pub, AddrPort)>, ping: nat -> Option<Ping>)
    : map<ProbeID, PendingProbe>
  {
    if |sent| == 0 then pending
    else
      var k := |sent| - 1;
      var before := Pinged(pending, sent[..k], ping);
      if ping(k).None? then before
      else before[ping(k).value.id := PendingProbe(sent[k].0, sent[k].1, ping(k).value.at)]
  }

  /** A whole round, given the probes it sends. */
  function RoundStep(m: Manager, handshakes: map<Pub, int>, now: int, accepts: Pub -> bool,
                     ping: nat -> Option<Ping>, toSend: seq<(Pub, AddrPort)>): Manager {
    var d := DecideStep(m, handshakes, now);
    d.(onRelay := d.onRelay - (set pub | pub in ToRelay(m, handshakes, now, m.peers.Keys) && !accepts(pub)),
       pending := Pinged(d.pending, toSend, ping))
  }

  /** `list` enumerates `keys` without repetition. */
  ghost predicate Lists(list: seq<Pub>, keys: set<Pub>) {
    && (forall pub :: pub in list <==> pub in keys)
    && (forall i, j :: 0 <= i < j < |list| ==> list[i] != list[j])
  }

  method ListOneMore(list: seq<Pub>, ghost keys: set<Pub>, pub: Pub) returns (r: seq<Pub>)
    requires Lists(list, keys) && pub !in keys
    ensures Lists(r, keys + {pub})
  {
    r := list + [pub];
  }

  /** The probes of a round: every parsable candidate of every peer not left alone. */
  ghost predicate Probed(m: Manager, parse: string -> Option<AddrPort>, handshakes: map<Pub, int>, now: int,
                         pub: Pub, ap: AddrPort) {
    pub in m.peers && !DirectAndFresh(m, handshakes, now, pub)
    && exists c :: c in m.peers[pub] && parse(c) == Some(ap)
  }

  /** `toSend` holds the probes of the peers in `done` and no others. */
  ghost predicate ProbesExactly(m: Manager, parse: string -> Option<AddrPort>, handshakes: map<Pub, int>, now: int,
                                done: set<Pub>, toSend: seq<(Pub, AddrPort)>) {
    forall pub, ap :: (pub, ap) in toSend <==> pub in done && Probed(m, parse, handshakes, now, pub, ap)
  }

  lemma NoProbes(m: Manager, parse: string -> Option<AddrPort>, handshakes: map<Pub, int>, now: int,
                 done: set<Pub>, toSend: seq<(Pub, AddrPort)>, pub: Pub)
    requires ProbesExactly(m, parse, handshakes, now, done, toSend) && DirectAndFresh(m, handshakes, now, pub)
    ensures ProbesExactly(m, parse, handshakes, now, done + {pub}, toSend)
  {
  }

  lemma NothingDecidedYet(m: Manager, parse: string -> Option<AddrPort>, handshakes: map<Pub, int>, now: int)
    ensures DecideUpTo(m, handshakes, now, {}) == m.(pending := Unexpired(m.pending, now))
    ensures Lists([], ToRelay(m, handshakes, now, {})) && ProbesExactly(m, parse, handshakes, now, {}, [])
  {
  }

  /** One turn of the loop over the peers. */
  lemma DecideOneMore(m: Manager, handshakes: map<Pub, int>, now: int, done: set<Pub>, pub: Pub)
    requires pub in m.peers && pub !in done
    ensures var before, after := DecideUpTo(m, handshakes, now, done), DecideUpTo(m, handshakes, now, done + {pub});
            && (pub in before.onRelay <==> pub in m.onRelay) && Count(before, pub) == Count(m, pub)
            && after == before.(
                 onRelay := before.onRelay + (if FallsBack(m, handshakes, now, pub) then {pub} else {}),
                 disconnected := if Recounted(m, handshakes, now, pub)
                                 then before.disconnected[pub := NewCount(m, handshakes, now, pub)]
                                 else before.disconnected)
            && before.peers == m.peers && before.relayOK == m.relayOK
            && ToRelay(m, handshakes, now, done + {pub}) ==
                 ToRelay(m, handshakes, now, done) + (if FallsBack(m, handshakes, now, pub) then {pub} else {})
            && pub !in ToRelay(m, handshakes, now, done)
  {
    hide Stale, DirectAndFresh, FallsBack;
    var before, after := DecideUpTo(m, handshakes, now, done), DecideUpTo(m, handshakes, now, done + {pub});
    CountedOneMore(m, handshakes, now, done, pub);
    assert ToRelay(m, handshakes, now, done + {pub}) ==
             ToRelay(m, handshakes, now, done) + (if FallsBack(m, handshakes, now, pub) then {pub} else {});
    assert after.onRelay == before.onRelay + (if FallsBack(m, handshakes, now, pub) then {pub} else {});
  }

  lemma CountedOneMore(m: Manager, handshakes: map<Pub, int>, now: int, done: set<Pub>, pub: Pub)
    requires pub in m.peers && pub !in done
    ensures Counted(m, handshakes, now, done + {pub}) ==
              if Recounted(m, handshakes, now, pub)
              then Counted(m, handshakes, now, done)[pub := NewCount(m, handshakes, now, pub)]
              else Counted(m, handshakes, now, done)
    ensures Count(m.(disconnected := Counted(m, handshakes, now, done)), pub) == Count(m, pub)
  {
  }

  // ---------------------------------------------------------------- the manager

  /** The part of the WireGuard device the manager talks to: the last endpoint set for each peer. */
  class Device {
    var endpoints: map<Pub, Pushed>

    constructor ()
      ensures endpoints == map[]
    {
      endpoints := map[];
    }

    /** `ok` is whether the engine accepts the change. */
    method SetPeerEndpoint(pub: Pub, ep: Pushed, ok: bool)
      modifies this
      ensures endpoints == if ok then old(endpoints)[pub := ep] else old(endpoints)
    {
      if ok {
        endpoints := endpoints[pub := ep];
      }
    }
  }

  class EndpointManager {
    const dev: Device
    const parse: string -> Option<AddrPort>
    var pending: map<ProbeID, PendingProbe>
    var peers: map<Pub, seq<string>>
    var relayOK: bool
    var disconnected: map<Pub, nat>
    var onRelay: set<Pub>

    function Fields(): Manager
      reads this
    {
      Manager(pending, peers, relayOK, disconnected, onRelay)
    }

    constructor (dev: Device, parse: string -> Option<AddrPort>)
      ensures Fields() == FRESH && this.dev == dev && this.parse == parse
    {
      this.dev, this.parse := dev, parse;
      pending, peers, relayOK, disconnected, onRelay := map[], map[], false, map[], {};
    }

    method SetRelayAvailable(ok: bool)
      modifies this`relayOK
      ensures Fields() == old(Fields()).(relayOK := ok)
    {
      relayOK := ok;
    }

    method Observe(ps: seq<Peer>)
      modifies this
      ensures Fields() == ObserveStep(old(Fields()), ps)
    {
      peers := map[];
      for i := 0 to |ps|
        invariant peers == PeersOf(ps[..i])
        invariant disconnected == old(disconnected) && onRelay == old(onRelay)
        invariant pending == old(pending) && relayOK == old(relayOK)
      {
        var c := CandidatesOf(ps[i]);
        assert ps[..i + 1][..i] == ps[..i];
        peers := peers[ps[i].publicKey := c];
      }
      assert ps[..|ps|] == ps;
      disconnected := map pub | pub in disconnected && pub in peers :: disconnected[pub];
      onRelay := set pub | pub in onRelay && pub in peers;
    }

    method PurgeExpired(now: int)
      modifies this`pending
      ensures pending == Unexpired(old(pending), now)
    {
      pending := map id | id in pending && now - pending[id].sentAt <= PROBE_EXPIRES :: pending[id];
    }

    /** The body of the loop over the peers: count, and fall back on the relay if it is time. */
    method Visit(pub: Pub, handshakes: map<Pub, int>, now: int, ghost m: Manager)
        returns (fallsBack: bool, skipped: bool)
      requires pub in peers && peers == m.peers && relayOK == m.relayOK
      requires (pub in onRelay <==> pub in m.onRelay) && Count(Fields(), pub) == Count(m, pub)
      modifies this`disconnected, this`onRelay
      ensures disconnected == if Recounted(m, handshakes, now, pub)
                then old(disconnected)[pub := NewCount(m, handshakes, now, pub)] else old(disconnected)
      ensures onRelay == old(onRelay) + (if fallsBack then {pub} else {})
      ensures fallsBack == FallsBack(m, handshakes, now, pub) && skipped == DirectAndFresh(m, handshakes, now, pub)
    {
      fallsBack, skipped := false, false;
      var isFresh := pub in handshakes && now - handshakes[pub] < HANDSHAKE_FRESH;
      if isFresh && pub !in onRelay {
        disconnected := disconnected[pub := 0];
        return false, true;
      }
      if !isFresh {
        disconnected := disconnected[pub := (if pub in disconnected then disconnected[pub] else 0) + 1];
        if relayOK && pub !in onRelay && disconnected[pub] > RELAY_AFTER_ROUNDS {
          fallsBack := true;
          onRelay := onRelay + {pub};
        }
      }
    }

    method AddProbes(toSend: seq<(Pub, AddrPort)>, ghost m: Manager, ghost handshakes: map<Pub, int>, ghost now: int,
                     ghost done: set<Pub>, pub: Pub) returns (r: seq<(Pub, AddrPort)>)
      requires pub in m.peers && peers == m.peers && !DirectAndFresh(m, handshakes, now, pub)
      requires ProbesExactly(m, parse, handshakes, now, done, toSend)
      ensures ProbesExactly(m, parse, handshakes, now, done + {pub}, r)
    {
      hide DirectAndFresh;
      var candidates := peers[pub];
      r := toSend;
      for i := 0 to |candidates|
        invariant forall q, ap :: (q, ap) in r <==>
                    (q, ap) in toSend || (q == pub && exists c :: c in candidates[..i] && parse(c) == Some(ap))
      {
        assert candidates[..i + 1] == candidates[..i] + [candidates[i]];
        var ap := parse(candidates[i]);
        if ap.Some? {
          r := r + [(pub, ap.value)];
        }
      }
      assert candidates[..|candidates|] == candidates;
    }

    /** One turn of the loop: the peer is counted, listed for the relay if it is time, and probed. */
    method Turn(pub: Pub, handshakes: map<Pub, int>, now: int, toRelay: seq<Pub>, toSend: seq<(Pub, AddrPort)>,
                ghost m: Manager, ghost done: set<Pub>) returns (relayed: seq<Pub>, probes: seq<(Pub, AddrPort)>)
      requires pub in m.peers && pub !in done && Fields() == DecideUpTo(m, handshakes, now, done)
      requires Lists(toRelay, ToRelay(m, handshakes, now, done))
      requires ProbesExactly(m, parse, handshakes, now, done, toSend)
      modifies this`disconnected, this`onRelay
      ensures Fields() == DecideUpTo(m, handshakes, now, done + {pub})
      ensures Lists(relayed, ToRelay(m, handshakes, now, done + {pub}))
      ensures ProbesExactly(m, parse, handshakes, now, done + {pub}, probes)
    {
      hide DecideUpTo, FallsBack, Recounted, NewCount, DirectAndFresh, ProbesExactly, Lists, ToRelay;
      DecideOneMore(m, handshakes, now, done, pub);
      var fallsBack, skipped := Visit(pub, handshakes, now, m);
      relayed, probes := toRelay, toSend;
      if fallsBack {
        relayed := ListOneMore(toRelay, ToRelay(m, handshakes, now, done), pub);
      } else {
        assert ToRelay(m, handshakes, now, done) + {} == ToRelay(m, handshakes, now, done);
      }
      if !skipped {
        probes := AddProbes(toSend, m, handshakes, now, done, pub);
      } else {
        NoProbes(m, parse, handshakes, now, done, toSend, pub);
      }
    }

    /** The first critical section; the map is visited in an arbitrary order. */
    method Decide(handshakes: map<Pub, int>, now: int)
        returns (toRelay: seq<Pub>, toSend: seq<(Pub, AddrPort)>)
      modifies this`pending, this`disconnected, this`onRelay
      ensures Fields() == DecideStep(old(Fields()), handshakes, now)
      ensures Lists(toRelay, ToRelay(old(Fields()), handshakes, now, old(peers.Keys)))
      ensures ProbesExactly(old(Fields()), parse, handshakes, now, old(peers.Keys), toSend)
    {
      hide DecideUpTo, Unexpired, ProbesExactly, Lists, ToRelay;
      ghost var m := Fields();
      PurgeExpired(now);
      toRelay, toSend := [], [];
      var rest := peers.Keys;
      ghost var done: set<Pub> := {};
      NothingDecidedYet(m, parse, handshakes, now);
      while rest != {}
        invariant peers == m.peers && relayOK == m.relayOK
        invariant rest <= m.peers.Keys && done == m.peers.Keys - rest
        invariant Fields() == DecideUpTo(m, handshakes, now, done)
        invariant Lists(toRelay, ToRelay(m, handshakes, now, done))
        invariant ProbesExactly(m, parse, handshakes, now, done, toSend)
        decreases |rest|
      {
        var pub :| pub in rest;
        assert pub in m.peers.Keys && pub !in done;
        rest := rest - {pub};
        assert m.peers.Keys - rest == done + {pub};
        toRelay, toSend := Turn(pub, handshakes, now, toRelay, toSend, m, done);
        done := done + {pub};
      }
      assert done == m.peers.Keys;
    }

    /** The unlocked part of `Probe`: one engine call per peer falling back on the relay. */
    method Switch(toRelay: seq<Pub>, accepts: Pub -> bool, ghost due: set<Pub>)
      requires Lists(toRelay, due)
      modifies this`onRelay, dev
      ensures onRelay == old(onRelay) - (set pub | pub in due && !accepts(pub))
      ensures dev.endpoints == Switched(old(dev.endpoints), due, accepts)
    {
      hide Switched;
      NoSwitches(dev.endpoints, accepts);
      ghost var done: set<Pub> := {};
      for i := 0 to |toRelay|
        invariant done == set pub | pub in toRelay[..i]
        invariant onRelay == old(onRelay) - (set pub | pub in done && !accepts(pub))
        invariant dev.endpoints == Switched(old(dev.endpoints), done, accepts)
      {
        var pub := toRelay[i];
        SwitchOneMore(old(dev.endpoints), done, accepts, pub);
        dev.SetPeerEndpoint(pub, Relay, accepts(pub));
        if !accepts(pub) {
          onRelay := onRelay - {pub};
        }
        done := done + {pub};
      }
      assert toRelay[..|toRelay|] == toRelay;
      assert done == due;
    }

    /**
     * A whole round. `handshakes` is None when the engine cannot be read; `accepts` says which
     * relay switches the engine takes; `ping(k)` is the id drawn for the k-th probe, None when
     * the socket refuses it.
     */
    method Probe(handshakes: Option<map<Pub, int>>, now: int, accepts: Pub -> bool, ping: nat -> Option<Ping>)
        returns (toSend: seq<(Pub, AddrPort)>)
      modifies this`pending, this`disconnected, this`onRelay, dev
      ensures handshakes.None? ==> Fields() == old(Fields()) && dev.endpoints == old(dev.endpoints) && toSend == []
      ensures handshakes.Some? ==>
                var m, hs := old(Fields()), handshakes.value;
                && ProbesExactly(m, parse, hs, now, m.peers.Keys, toSend)
                && Fields() == RoundStep(m, hs, now, accepts, ping, toSend)
                && dev.endpoints == Switched(old(dev.endpoints), ToRelay(m, hs, now, m.peers.Keys), accepts)
    {
      toSend := [];
      if handshakes.None? {
        return;
      }
      var toRelay;
      ghost var m := Fields();
      toRelay, toSend := Decide(handshakes.value, now);
      ghost var decided := Fields();
      ghost var due := ToRelay(m, handshakes.value, now, m.peers.Keys);
      Switch(toRelay, accepts, due);
      for k := 0 to |toSend|
        invariant Fields() == decided.(onRelay := onRelay, pending := Pinged(decided.pending, toSend[..k], ping))
        invariant onRelay == decided.onRelay - (set pub | pub in due && !accepts(pub))
        invariant dev.endpoints == Switched(old(dev.endpoints), due, accepts)
      {
        assert toSend[..k + 1][..k] == toSend[..k];
        var p := ping(k);
        if p.Some? {
          pending := pending[p.value.id := PendingProbe(toSend[k].0, toSend[k].1, p.value.at)];
        }
      }
      assert toSend[..|toSend|] == toSend;
    }

    /** A whole pong: `accepts` is whether the engine takes the new endpoint. */
    method OnPong(id: ProbeID, from: AddrPort, handshakes: Option<map<Pub, int>>, now: int, accepts: bool)
      modifies this`pending, this`disconnected, this`onRelay, dev
      ensures var m := old(Fields());
              if id in m.pending && !PongIgnored(m, m.pending[id].publicKey, handshakes, now) && accepts
              then && Fields() == PongCommittedStep(PongTakenStep(m, id), m.pending[id].publicKey)
                   && dev.endpoints == old(dev.endpoints)[m.pending[id].publicKey := Direct(from)]
              else && Fields() == PongTakenStep(m, id)
                   && dev.endpoints == old(dev.endpoints)
    {
      if id !in pending {
        assert pending - {id} == pending;
        return;
      }
      var pr := pending[id];
      pending := pending - {id};
      var viaRelay := pr.publicKey in onRelay;
      if !viaRelay {
        if handshakes.Some? && pr.publicKey in handshakes.value
           && now - handshakes.value[pr.publicKey] < HANDSHAKE_FRESH {
          return;
        }
      }
      dev.SetPeerEndpoint(pr.publicKey, Direct(from), accepts);
      if !accepts {
        return;
      }
      onRelay := onRelay - {pr.publicKey};
      disconnected := disconnected[pr.publicKey := 0];
    }
  }
}
