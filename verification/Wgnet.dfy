/**
 * The WireGuard device of an agent (internal/wgnet/wgnet.go): the reconcilers that align the
 * engine's peers and the system's routes with the network map.
 */
module Wgnet {
  import opened Net
  import opened NetMap
  import opened Prefixes
  import opened WgEngine

  const KEEPALIVE_SECONDS := 25

  /**
   * The parsers applied to peers, the initial endpoint of a peer seen for the first time, and
   * the endpoints `Bind.ParseEndpoint` accepts.
   */
  datatype Texts = Texts(parseKey: Pub -> Option<WgKey>, initial: Peer -> string, isEndpoint: string -> bool)

  // ---------------------------------------------------------------- the script

  /** `net.ParseIP` succeeds. */
  predicate IsAddress(ip: Text) {
    (ip.Dotted? && ip.addr < Pow2(32)) || (ip.Colons? && ip.addr < Pow2(128))
  }

  /** A peer whose key or address cannot be read is ignored. */
  predicate Readable(x: Texts, p: Peer) {
    x.parseKey(p.publicKey).Some? && IsAddress(p.ip)
  }

  /** What the engine makes of an address followed by "/32": only an IPv4 address stands alone. */
  function OwnPrefix(ip: Text): Prefix
    requires !ip.Word?
  {
    if ip.Dotted? then Prefix(true, ip.addr, 32) else Prefix(false, BlockStart(ip.addr, Pow2(96)), 32)
  }

  function KeyOf(x: Texts, p: Peer): WgKey
    requires Readable(x, p)
  {
    x.parseKey(p.publicKey).value
  }

  /** The addresses it stands for: an IPv4 address alone, an IPv6 one with all that share its first 32 bits. */
  lemma OwnPrefixMeaning(ip: Text, a: nat)
    requires IsAddress(ip)
    ensures Canonical(OwnPrefix(ip)) && (OwnPrefix(ip).is4 <==> ip.Dotted?)
    ensures Contains(OwnPrefix(ip), a) <==>
              if ip.Dotted? then a == ip.addr else a < Pow2(128) && a / Pow2(96) == ip.addr / Pow2(96)
  {
    if ip.Dotted? {
      assert Pow2(0) == 1;
    } else {
      BlockIsAligned(ip.addr, Pow2(96));
    }
  }

  lemma BlockIsAligned(a: nat, s: nat)
    requires s > 0
    ensures BlockStart(a, s) / s == a / s && BlockStart(BlockStart(a, s), s) == BlockStart(a, s)
  {
    QuotientOfMultiple(a / s, 0, s);
  }

  /** The networks among a list of route texts. */
  function Networks(routes: seq<RouteText>): seq<Prefix> {
    if |routes| == 0 then []
    else
      var init, r := Networks(routes[..|routes| - 1]), ParseCidr(routes[|routes| - 1]);
      if r.Some? then init + [r.value] else init
  }

  /** The networks keep the order of their texts. */
  lemma {:induction false} NetworksInOrder(a: seq<RouteText>, b: seq<RouteText>)
    ensures Networks(a + b) == Networks(a) + Networks(b)
  {
    hide ParseCidr;
    if |b| > 0 {
      var front := b[..|b| - 1];
      assert (a + b)[..|a + b| - 1] == a + front;
      NetworksInOrder(a, front);
    } else {
      assert a + b == a;
    }
  }

  /** What a peer lists: its own address, then the subnets it routes. */
  function Listed(p: Peer): seq<Prefix>
    requires !p.ip.Word?
  {
    [OwnPrefix(p.ip)] + Networks(p.routes)
  }

  /** The lines of a block before its allowed IPs. */
  function BlockHead(x: Texts, p: Peer, isKnown: bool): Script
    requires Readable(x, p)
  {
    [PublicKey(KeyOf(x, p))]
    + (if isKnown then [UpdateOnly] else if x.initial(p) != "" then [EndpointLine(x.initial(p))] else [])
  }

  function Block(x: Texts, p: Peer, isKnown: bool): Script
    requires Readable(x, p)
  {
    BlockHead(x, p, isKnown) + [ReplaceAllowedIPs] + AllowedLines(Listed(p)) + [Keepalive(KEEPALIVE_SECONDS)]
  }

  /** Every block ends by asking for a keepalive every 25 seconds. */
  lemma BlockKeepsAlive(x: Texts, p: Peer, isKnown: bool)
    requires Readable(x, p)
    ensures |Block(x, p, isKnown)| > 0 && Last(Block(x, p, isKnown)) == Keepalive(25)
  {
  }

  lemma AllowedOneMore(ps: seq<Prefix>, p: Prefix)
    ensures AllowedLines(ps + [p]) == AllowedLines(ps) + [AllowedIP(p)]
  {
  }

  lemma AllowedOneFirst(p: Prefix, ps: seq<Prefix>)
    ensures AllowedLines([p] + ps) == [AllowedIP(p)] + AllowedLines(ps)
  {
  }

  function Blocks(x: Texts, peers: seq<Peer>, known: set<Pub>): Script {
    if |peers| == 0 then []
    else
      var p := peers[|peers| - 1];
      Blocks(x, peers[..|peers| - 1], known) + if Readable(x, p) then Block(x, p, p.publicKey in known) else []
  }

  function Removals(x: Texts, pubs: seq<Pub>): Script {
    if |pubs| == 0 then []
    else
      var k := x.parseKey(pubs[|pubs| - 1]);
      Removals(x, pubs[..|pubs| - 1]) + if k.Some? then [PublicKey(k.value), Remove] else []
  }

  function Seen(x: Texts, peers: seq<Peer>): set<Pub> {
    set p | p in peers && Readable(x, p) :: p.publicKey
  }

  /** The script of a sync whose removals come in the order `gone`. */
  function SyncScript(x: Texts, peers: seq<Peer>, known: set<Pub>, gone: seq<Pub>): Script {
    Blocks(x, peers, known) + Removals(x, gone)
  }

  /** The engine refuses the line. */
  predicate Refused(x: Texts, line: Line) {
    line.EndpointLine? && !x.isEndpoint(line.endpoint)
  }

  /** The first line refused, or the end of the script. */
  function FirstRefused(x: Texts, script: Script): (n: nat)
    ensures n <= |script| && (n < |script| ==> Refused(x, script[n]))
    ensures forall i :: 0 <= i < n ==> !Refused(x, script[i])
  {
    if |script| == 0 || Refused(x, script[0]) then 0 else 1 + FirstRefused(x, script[1..])
  }

  /**
   * The lines of a script the engine runs: up to the first it refuses, or, when it fails for
   * another reason, up to that point.
   */
  function LinesRun(x: Texts, script: Script, failsAfter: Option<nat>): (n: nat)
    ensures n <= |script|
  {
    var n := FirstRefused(x, script);
    if failsAfter.Some? && failsAfter.value < n then failsAfter.value else n
  }

  /** The engine, and the caller's set of known peers. */
  datatype Synced = Synced(engine: Engine, known: set<Pub>)

  /** A sync: the map, the order of the removals, and where the engine fails by itself, if it does. */
  datatype Sync = Sync(peers: seq<Peer>, gone: seq<Pub>, failsAfter: Option<nat>)

  function ScriptOf(x: Texts, s: Synced, t: Sync): Script {
    SyncScript(x, t.peers, s.known, t.gone)
  }

  /** The part of the script the engine runs. */
  function WrittenBy(x: Texts, s: Synced, t: Sync): Script {
    ScriptOf(x, s, t)[..LinesRun(x, ScriptOf(x, s, t), t.failsAfter)]
  }

  /** The engine stops before the end of the script. */
  predicate Stops(x: Texts, s: Synced, t: Sync) {
    |WrittenBy(x, s, t)| < |ScriptOf(x, s, t)|
  }

  /** An interrupted sync leaves `known` alone, and so does one that has nothing to write. */
  function SyncStep(x: Texts, s: Synced, t: Sync): Synced {
    Synced(Exec(s.engine, WrittenBy(x, s, t)),
           if Stops(x, s, t) || |ScriptOf(x, s, t)| == 0 then s.known else Seen(x, t.peers))
  }

  /** `gone` goes once through the known peers that are no longer listed. */
  ghost predicate Gone(x: Texts, peers: seq<Peer>, known: set<Pub>, gone: seq<Pub>) {
    forall pub :: pub in gone <==> pub in known && pub !in Seen(x, peers)
  }

  // ---------------------------------------------------------------- routes

  /** The networks among the texts, the default route excepted. */
  function Desired(cidrs: seq<RouteText>): set<Prefix> {
    set c | c in cidrs && ParseCidr(c).Some? && ParseCidr(c).value.len > 0 :: ParseCidr(c).value
  }

  method DesiredRoutes(cidrs: seq<RouteText>) returns (desired: set<Prefix>)
    ensures desired == Desired(cidrs)
    ensures forall p :: p in desired ==> Canonical(p) && p.len > 0
  {
    desired := {};
    for i := 0 to |cidrs|
      invariant desired == Desired(cidrs[..i])
    {
      assert forall c :: c in cidrs[..i + 1] <==> c in cidrs[..i] || c == cidrs[i];
      var p := ParseCidr(cidrs[i]);
      if p.Some? && p.value.len > 0 {
        desired := desired + {p.value};
      }
    }
    assert cidrs[..|cidrs|] == cidrs;
  }

  /** The system calls of one alignment: what must go, and what must come. */
  function Calls(installed: set<Prefix>, desired: set<Prefix>): set<Prefix> {
    (installed - desired) + (desired - installed)
  }

  function RoutesAfter(installed: set<Prefix>, desired: set<Prefix>, failing: set<Prefix>): set<Prefix> {
    desired * (installed + (desired - failing))
  }

  function KernelAfter(kernel: set<Prefix>, installed: set<Prefix>, desired: set<Prefix>, failing: set<Prefix>)
    : set<Prefix>
  {
    (kernel - ((installed - desired) - failing)) + ((desired - installed) - failing)
  }

  // ---------------------------------------------------------------- the device

  /** The caller's set of known peers, changed in place. */
  class PeerSet {
    var pubs: set<Pub>

    constructor ()
      ensures pubs == {}
    {
      pubs := {};
    }
  }

  class Device {
    const texts: Texts
    var engine: Engine
    var installedRoutes: set<Prefix>
    var kernel: set<Prefix>    // the routes the system actually has through this interface

    constructor (texts: Texts)
      ensures engine == EMPTY_ENGINE && installedRoutes == {} && kernel == {} && this.texts == texts
    {
      this.texts := texts;
      engine, installedRoutes, kernel := EMPTY_ENGINE, {}, {};
    }

    /** The engine runs a script, or stops with an error at a line. */
    method IpcSet(script: Script, failsAfter: Option<nat>) returns (ok: bool)
      modifies this`engine
      ensures ok <==> LinesRun(texts, script, failsAfter) == |script|
      ensures engine == Exec(old(engine), script[..LinesRun(texts, script, failsAfter)])
    {
      ok := LinesRun(texts, script, failsAfter) == |script|;
      engine := Exec(engine, script[..LinesRun(texts, script, failsAfter)]);
    }

    /** The lines for the routes that can be parsed. */
    method RouteLines(routes: seq<RouteText>) returns (sb: Script)
      ensures sb == AllowedLines(Networks(routes))
    {
      sb := [];
      for i := 0 to |routes|
        invariant sb == AllowedLines(Networks(routes[..i]))
      {
        assert routes[..i + 1][..i] == routes[..i];
        var r := ParseCidr(routes[i]);
        if r.Some? {
          AllowedOneMore(Networks(routes[..i]), r.value);
          sb := sb + [AllowedIP(r.value)];
        }
      }
      assert routes[..|routes|] == routes;
    }

    /** The lines written for one peer. */
    method PeerBlock(p: Peer, isKnown: bool) returns (sb: Script)
      requires Readable(texts, p)
      ensures sb == Block(texts, p, isKnown)
    {
      hide OwnPrefix, AllowedLines, Networks;
      sb := [PublicKey(texts.parseKey(p.publicKey).value)];
      if isKnown {
        sb := sb + [UpdateOnly];
      } else {
        var ep := texts.initial(p);
        if ep != "" {
          sb := sb + [EndpointLine(ep)];
        }
      }
      var routes := RouteLines(p.routes);
      AllowedOneFirst(OwnPrefix(p.ip), Networks(p.routes));
      sb := sb + [ReplaceAllowedIPs] + ([AllowedIP(OwnPrefix(p.ip))] + routes) + [Keepalive(KEEPALIVE_SECONDS)];
    }

    /** The first loop: one block per readable peer. */
    method WritePeers(peers: seq<Peer>, known: PeerSet) returns (sb: Script, seen: set<Pub>)
      ensures sb == Blocks(texts, peers, known.pubs) && seen == Seen(texts, peers)
    {
      hide Block;
      sb, seen := [], {};
      for i := 0 to |peers|
        invariant sb == Blocks(texts, peers[..i], known.pubs)
        invariant seen == Seen(texts, peers[..i])
      {
        assert peers[..i + 1][..i] == peers[..i];
        var p := peers[i];
        assert forall q :: q in peers[..i + 1] <==> q in peers[..i] || q == p;
        var key := texts.parseKey(p.publicKey);
        if key.None? || !IsAddress(p.ip) {
          continue;
        }
        seen := seen + {p.publicKey};
        var block := PeerBlock(p, p.publicKey in known.pubs);
        sb := sb + block;
      }
      assert peers[..|peers|] == peers;
    }

    method SyncPeers(peers: seq<Peer>, known: PeerSet, failsAfter: Option<nat>)
        returns (ok: bool, ghost gone: seq<Pub>)
      modifies this`engine, known
      ensures Gone(texts, peers, old(known.pubs), gone)
      ensures var s, t := old(Synced(engine, known.pubs)), Sync(peers, gone, failsAfter);
              ok == !Stops(texts, s, t) && Synced(engine, known.pubs) == SyncStep(texts, s, t)
    {
      var sb, seen := WritePeers(peers, known);
      ghost var blocks := sb;
      gone := [];
      var rest := known.pubs;
      while rest != {}
        invariant rest <= known.pubs
        invariant forall pub :: pub in gone <==> pub in known.pubs && pub !in rest && pub !in seen
        invariant sb == blocks + Removals(texts, gone)
        decreases |rest|
      {
        var pub :| pub in rest;
        rest := rest - {pub};
        if pub !in seen {
          assert (gone + [pub])[..|gone|] == gone;
          gone := gone + [pub];
          var key := texts.parseKey(pub);
          if key.Some? {
            sb := sb + [PublicKey(key.value), Remove];
          }
        }
      }
      if |sb| == 0 {
        return true, gone;
      }
      ok := IpcSet(sb, failsAfter);
      if !ok {
        return;
      }
      known.pubs := seen;
    }

    method RemoveStale(desired: set<Prefix>, failing: set<Prefix>) returns (ok: bool)
      modifies this`installedRoutes, this`kernel
      ensures installedRoutes == old(installedRoutes) * desired
      ensures kernel == old(kernel) - ((old(installedRoutes) - desired) - failing)
      ensures ok <==> (old(installedRoutes) - desired) !! failing
    {
      ok := true;
      var rest := installedRoutes;
      while rest != {}
        invariant rest <= old(installedRoutes)
        invariant forall c :: c in installedRoutes <==> c in old(installedRoutes) && (c in rest || c in desired)
        invariant forall c :: c in kernel <==>
                    c in old(kernel) && (c !in old(installedRoutes) || c in rest || c in desired || c in failing)
        invariant ok <==> forall c :: c in old(installedRoutes) && c !in rest && c !in desired ==> c !in failing
        decreases |rest|
      {
        var c :| c in rest;
        rest := rest - {c};
        if c !in desired {
          if c in failing {
            ok := false;
          } else {
            kernel := kernel - {c};
          }
          installedRoutes := installedRoutes - {c};
        }
      }
    }

    method AddMissing(desired: set<Prefix>, failing: set<Prefix>) returns (ok: bool)
      modifies this`installedRoutes, this`kernel
      ensures installedRoutes == old(installedRoutes) + ((desired - old(installedRoutes)) - failing)
      ensures kernel == old(kernel) + ((desired - old(installedRoutes)) - failing)
      ensures ok <==> (desired - old(installedRoutes)) !! failing
    {
      ok := true;
      var rest := desired;
      while rest != {}
        invariant rest <= desired
        invariant forall c :: c in installedRoutes <==>
                    c in old(installedRoutes) || (c in desired && c !in rest && c !in failing)
        invariant forall c :: c in kernel <==>
                    c in old(kernel) || (c in desired && c !in rest && c !in old(installedRoutes) && c !in failing)
        invariant ok <==> forall c :: c in desired && c !in rest && c !in old(installedRoutes) ==> c !in failing
        decreases |rest|
      {
        var c :| c in rest;
        rest := rest - {c};
        if c in installedRoutes {
          continue;
        }
        if c in failing {
          ok := false;
          continue;
        }
        kernel := kernel + {c};
        installedRoutes := installedRoutes + {c};
      }
    }

    /**
     * `failing` are the routes the system refuses to add or to remove. The maps are visited in
     * an arbitrary order.
     */
    method SetRoutes(cidrs: seq<RouteText>, failing: set<Prefix>) returns (ok: bool)
      modifies this`installedRoutes, this`kernel
      ensures installedRoutes == RoutesAfter(old(installedRoutes), Desired(cidrs), failing)
      ensures kernel == KernelAfter(old(kernel), old(installedRoutes), Desired(cidrs), failing)
      ensures ok <==> Calls(old(installedRoutes), Desired(cidrs)) !! failing
    {
      var desired := DesiredRoutes(cidrs);
      var removed := RemoveStale(desired, failing);
      var added := AddMissing(desired, failing);
      ok := removed && added;
    }
  }
}
