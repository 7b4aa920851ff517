/**
 * What the script written by `SyncPeers` does when the engine runs it
 * (internal/wgnet/wgnet.go:117-164).
 */
module WgSync {
  import opened Net
  import opened NetMap
  import opened WgEngine
  import opened Wgnet

  // ---------------------------------------------------------------- from lines to effects

  /** The effect of one peer's block. */
  function Effect(x: Texts, e: Engine, p: Peer, isKnown: bool): Engine
    requires Readable(x, p)
  {
    var k := KeyOf(x, p);
    if isKnown && k !in e.peers then e
    else
      var current := if k in e.peers then e.peers[k] else "";
      Engine(e.peers[k := if isKnown || x.initial(p) == "" then current else x.initial(p)],
             Granted(OwnedByOthers(e.owner, k), k, Listed(p)))
  }

  function Effects(x: Texts, e: Engine, peers: seq<Peer>, known: set<Pub>): Engine {
    if |peers| == 0 then e
    else
      var p, before := peers[|peers| - 1], Effects(x, e, peers[..|peers| - 1], known);
      if Readable(x, p) then Effect(x, before, p, p.publicKey in known) else before
  }

  function RemoveAll(x: Texts, e: Engine, pubs: seq<Pub>): Engine {
    if |pubs| == 0 then e
    else
      var k, before := x.parseKey(pubs[|pubs| - 1]), RemoveAll(x, e, pubs[..|pubs| - 1]);
      if k.Some? then RemovePeer(before, k.value) else before
  }

  lemma {:induction false} ExecTail(e: Engine, k: WgKey, created: bool, p: Peer)
    requires !p.ip.Word?
    ensures ExecFrom(e, Current(k, created),
                     [ReplaceAllowedIPs] + AllowedLines(Listed(p)) + [Keepalive(KEEPALIVE_SECONDS)]) ==
              (e.(owner := Granted(OwnedByOthers(e.owner, k), k, Listed(p))), Current(k, created))
  {
    var allowed := AllowedLines(Listed(p));
    var e1 := e.(owner := OwnedByOthers(e.owner, k));
    assert ([ReplaceAllowedIPs] + allowed)[1..] == allowed;
    ExecAllowed(e1, k, created, Listed(p));
    assert ExecFrom(e, Current(k, created), [ReplaceAllowedIPs] + allowed) == ExecFrom(e1, Current(k, created), allowed);
    ExecAppend(e, Current(k, created), [ReplaceAllowedIPs] + allowed, [Keepalive(KEEPALIVE_SECONDS)]);
  }

  lemma {:induction false} IgnoredLines(e: Engine, s: Script)
    requires forall i :: 0 <= i < |s| ==> !s[i].PublicKey?
    ensures ExecFrom(e, Ignored, s) == (e, Ignored)
    decreases |s|
  {
    if |s| > 0 {
      IgnoredLines(e, s[1..]);
    }
  }

  lemma {:induction false} HeadEffect(x: Texts, e: Engine, c: Cursor, p: Peer, isKnown: bool)
    requires Readable(x, p) && e.Valid()
    ensures var k, t := KeyOf(x, p), ExecFrom(e, c, BlockHead(x, p, isKnown));
            && t.0.owner == e.owner
            && (isKnown && k !in e.peers ==> t == (e, Ignored))
            && (!(isKnown && k !in e.peers) ==>
                  t == (Engine(Effect(x, e, p, isKnown).peers, e.owner), Current(k, k !in e.peers)))
  {
    hide Granted, Listed, ExecFrom;
    var k := KeyOf(x, p);
    var (e1, c1) := ExecLine(e, c, PublicKey(k));
    if isKnown {
      TwoLines(e, c, PublicKey(k), UpdateOnly);
      if k !in e.peers {
        CreatedAndRemoved(e, k);
      }
      assert k in e.peers ==> e.peers[k := e.peers[k]] == e.peers;
    } else if x.initial(p) != "" {
      TwoLines(e, c, PublicKey(k), EndpointLine(x.initial(p)));
      assert e1.peers[k := x.initial(p)] == e.peers[k := x.initial(p)];
    } else {
      OneLine(e, c, PublicKey(k));
      assert [PublicKey(k)] + [] == [PublicKey(k)];
      assert k in e.peers ==> e.peers[k := e.peers[k]] == e.peers;
    }
  }

  lemma {:induction false} OneLine(e: Engine, c: Cursor, line: Line)
    ensures ExecFrom(e, c, [line]) == ExecLine(e, c, line)
  {
    assert [line][1..] == [];
  }

  lemma {:induction false} TwoLines(e: Engine, c: Cursor, first: Line, second: Line)
    ensures var (e1, c1) := ExecLine(e, c, first); ExecFrom(e, c, [first] + [second]) == ExecLine(e1, c1, second)
  {
    hide ExecLine;
    var (e1, c1) := ExecLine(e, c, first);
    assert ([first] + [second])[1..] == [second];
    OneLine(e1, c1, second);
  }

  lemma CreatedAndRemoved(e: Engine, k: WgKey)
    requires e.Valid() && k !in e.peers
    ensures RemovePeer(e.(peers := e.peers[k := ""]), k) == e
  {
  }

  lemma {:induction false} BlockEffect(x: Texts, e: Engine, c: Cursor, p: Peer, isKnown: bool)
    requires Readable(x, p) && e.Valid()
    ensures ExecFrom(e, c, Block(x, p, isKnown)).0 == Effect(x, e, p, isKnown)
  {
    hide BlockHead, Granted, Listed, AllowedLines, OwnedByOthers, ExecFrom;
    var k, head := KeyOf(x, p), BlockHead(x, p, isKnown);
    var tail := [ReplaceAllowedIPs] + AllowedLines(Listed(p)) + [Keepalive(KEEPALIVE_SECONDS)];
    assert Block(x, p, isKnown) == head + tail;
    HeadEffect(x, e, c, p, isKnown);
    ExecAppend(e, c, head, tail);
    var (e2, c2) := ExecFrom(e, c, head);
    if isKnown && k !in e.peers {
      PlainTail(Listed(p));
      IgnoredLines(e, tail);
    } else {
      ExecTail(e2, k, k !in e.peers, p);
    }
  }

  lemma EffectIsValid(x: Texts, e: Engine, p: Peer, isKnown: bool)
    requires Readable(x, p) && e.Valid()
    ensures Effect(x, e, p, isKnown).Valid()
  {
  }

  lemma {:induction false} RemovalEffect(e: Engine, c: Cursor, k: WgKey)
    ensures ExecFrom(e, c, [PublicKey(k), Remove]).0 == RemovePeer(e, k)
  {
    var (e1, c1) := ExecLine(e, c, PublicKey(k));
    assert [PublicKey(k), Remove][1..] == [Remove];
    assert ExecFrom(e1, c1, [Remove]) == ExecLine(e1, c1, Remove) by {
      assert [Remove][1..] == [];
    }
    assert e1.peers - {k} == e.peers - {k};
  }

  lemma {:induction false} BlocksEffect(x: Texts, e: Engine, peers: seq<Peer>, known: set<Pub>)
    requires e.Valid()
    ensures Exec(e, Blocks(x, peers, known)) == Effects(x, e, peers, known)
    ensures Effects(x, e, peers, known).Valid()
  {
    hide Block, Effect;
    if |peers| > 0 {
      var init, p := peers[..|peers| - 1], peers[|peers| - 1];
      BlocksEffect(x, e, init, known);
      if Readable(x, p) {
        var b := Block(x, p, p.publicKey in known);
        ExecAppend(e, Ignored, Blocks(x, init, known), b);
        EffectIsValid(x, Effects(x, e, init, known), p, p.publicKey in known);
        BlockEffect(x, Effects(x, e, init, known), ExecFrom(e, Ignored, Blocks(x, init, known)).1, p, p.publicKey in known);
      } else {
        assert Blocks(x, init, known) + [] == Blocks(x, init, known);
      }
    }
  }

  lemma {:induction false} RemovalsEffect(x: Texts, e: Engine, c: Cursor, pubs: seq<Pub>)
    ensures ExecFrom(e, c, Removals(x, pubs)).0 == RemoveAll(x, e, pubs)
  {
    if |pubs| > 0 {
      var init, k := pubs[..|pubs| - 1], x.parseKey(pubs[|pubs| - 1]);
      RemovalsEffect(x, e, c, init);
      if k.Some? {
        var (e1, c1) := ExecFrom(e, c, Removals(x, init));
        ExecAppend(e, c, Removals(x, init), [PublicKey(k.value), Remove]);
        RemovalEffect(e1, c1, k.value);
      } else {
        assert Removals(x, init) + [] == Removals(x, init);
      }
    }
  }

  /** The script's meaning: every block takes its effect, then the departed peers go. */
  lemma {:induction false} ScriptEffect(x: Texts, e: Engine, peers: seq<Peer>, known: set<Pub>, gone: seq<Pub>)
    requires e.Valid()
    ensures Exec(e, SyncScript(x, peers, known, gone)) == RemoveAll(x, Effects(x, e, peers, known), gone)
  {
    BlocksEffect(x, e, peers, known);
    var (e1, c1) := ExecFrom(e, Ignored, Blocks(x, peers, known));
    ExecAppend(e, Ignored, Blocks(x, peers, known), Removals(x, gone));
    RemovalsEffect(x, e1, c1, gone);
  }

  // ---------------------------------------------------------------- the peers

  /** The keys of the readable peers. */
  function DesiredKeys(x: Texts, peers: seq<Peer>): set<WgKey> {
    set p | p in peers && Readable(x, p) :: KeyOf(x, p)
  }

  function NewKeys(x: Texts, peers: seq<Peer>, known: set<Pub>): set<WgKey> {
    set p | p in peers && Readable(x, p) && p.publicKey !in known :: KeyOf(x, p)
  }

  function KeysOf(x: Texts, pubs: set<Pub>): set<WgKey> {
    set pub | pub in pubs && x.parseKey(pub).Some? :: x.parseKey(pub).value
  }

  lemma SplitLast(peers: seq<Peer>)
    requires |peers| > 0
    ensures forall p :: p in peers <==> p in peers[..|peers| - 1] || p == peers[|peers| - 1]
  {
  }

  lemma {:induction false} EffectsPeers(x: Texts, e: Engine, peers: seq<Peer>, known: set<Pub>)
    ensures Effects(x, e, peers, known).peers.Keys == e.peers.Keys + NewKeys(x, peers, known)
  {
    if |peers| > 0 {
      EffectsPeers(x, e, peers[..|peers| - 1], known);
      SplitLast(peers);
    }
  }

  lemma {:induction false} RemoveAllPeers(x: Texts, e: Engine, pubs: seq<Pub>)
    ensures RemoveAll(x, e, pubs).peers.Keys == e.peers.Keys - KeysOf(x, set pub | pub in pubs)
    ensures forall k :: k in RemoveAll(x, e, pubs).peers ==> RemoveAll(x, e, pubs).peers[k] == e.peers[k]
    ensures forall p :: p in RemoveAll(x, e, pubs).owner <==>
              p in e.owner && e.owner[p] !in KeysOf(x, set pub | pub in pubs)
    ensures forall p :: p in RemoveAll(x, e, pubs).owner ==> RemoveAll(x, e, pubs).owner[p] == e.owner[p]
  {
    if |pubs| > 0 {
      var init := pubs[..|pubs| - 1];
      RemoveAllPeers(x, e, init);
      assert forall p :: p in pubs <==> p in init || p == pubs[|pubs| - 1];
    }
  }

  /** The keys a sync removes: those of the known texts that are no longer listed. */
  function Departed(x: Texts, peers: seq<Peer>, known: set<Pub>): set<WgKey> {
    KeysOf(x, known - Seen(x, peers))
  }

  lemma GoneAreDeparted(x: Texts, peers: seq<Peer>, known: set<Pub>, gone: seq<Pub>)
    requires Gone(x, peers, known, gone)
    ensures KeysOf(x, set pub | pub in gone) == Departed(x, peers, known)
  {
    assert (set pub | pub in gone) == known - Seen(x, peers);
  }

  /** The keys of the readable peers that were known. */
  function OldKeys(x: Texts, peers: seq<Peer>, known: set<Pub>): set<WgKey> {
    set p | p in peers && Readable(x, p) && p.publicKey in known :: KeyOf(x, p)
  }

  /** Desired keys are old or new; known keys are old or departed. */
  lemma KeysSplit(x: Texts, peers: seq<Peer>, known: set<Pub>)
    ensures DesiredKeys(x, peers) == OldKeys(x, peers, known) + NewKeys(x, peers, known)
    ensures KeysOf(x, known) == OldKeys(x, peers, known) + Departed(x, peers, known)
    ensures KeysOf(x, Seen(x, peers)) == DesiredKeys(x, peers)
  {
    forall k | k in KeysOf(x, known)
      ensures k in OldKeys(x, peers, known) + Departed(x, peers, known)
    {
      var pub :| pub in known && x.parseKey(pub) == Some(k);
      if pub in Seen(x, peers) {
        var p :| p in peers && Readable(x, p) && p.publicKey == pub;
        assert KeyOf(x, p) == k;
      }
    }
  }

  /**
   * No known text that is no longer listed stands for the key of a listed readable peer: no
   * peer comes back under another spelling of its key.
   */
  predicate NoneRespelled(x: Texts, peers: seq<Peer>, known: set<Pub>) {
    Departed(x, peers, known) !! DesiredKeys(x, peers)
  }

  /** The engine's peers after a sync. */
  lemma SyncedPeers(x: Texts, e: Engine, peers: seq<Peer>, known: set<Pub>, gone: seq<Pub>)
    requires e.Valid() && Gone(x, peers, known, gone)
    ensures Exec(e, SyncScript(x, peers, known, gone)).Valid()
    ensures Exec(e, SyncScript(x, peers, known, gone)).peers.Keys ==
              (e.peers.Keys + NewKeys(x, peers, known)) - Departed(x, peers, known)
  {
    ScriptEffect(x, e, peers, known, gone);
    BlocksEffect(x, e, peers, known);
    EffectsPeers(x, e, peers, known);
    RemoveAllPeers(x, Effects(x, e, peers, known), gone);
    GoneAreDeparted(x, peers, known, gone);
  }

  /**
   * A successful sync leaves exactly the readable desired peers in the engine if and only if no
   * peer comes back respelled, every engine peer was known or is desired, and every desired
   * known peer was in the engine or is listed under a new text as well.
   */
  lemma SyncAlignsPeersIff(x: Texts, e: Engine, peers: seq<Peer>, known: set<Pub>, gone: seq<Pub>)
    requires e.Valid() && Gone(x, peers, known, gone)
    ensures Exec(e, SyncScript(x, peers, known, gone)).peers.Keys == DesiredKeys(x, peers) <==>
              && NoneRespelled(x, peers, known)
              && e.peers.Keys <= KeysOf(x, known) + DesiredKeys(x, peers)
              && OldKeys(x, peers, known) <= e.peers.Keys + NewKeys(x, peers, known)
  {
    hide Exec, SyncScript, Departed, KeysOf, Gone, NewKeys, OldKeys, DesiredKeys;
    SyncedPeers(x, e, peers, known, gone);
    KeysSplit(x, peers, known);
  }

  // ---------------------------------------------------------------- the endpoints

  /** The endpoint the map offers for key `k`: the last one of a peer listed under a text not known. */
  function Offered(x: Texts, peers: seq<Peer>, known: set<Pub>, k: WgKey): Option<string> {
    if |peers| == 0 then None
    else
      var p := peers[|peers| - 1];
      if Readable(x, p) && KeyOf(x, p) == k && p.publicKey !in known && x.initial(p) != "" then Some(x.initial(p))
      else Offered(x, peers[..|peers| - 1], known, k)
  }

  lemma {:induction false} EffectsEndpoint(x: Texts, e: Engine, peers: seq<Peer>, known: set<Pub>, k: WgKey)
    requires k in e.peers
    ensures var offer, after := Offered(x, peers, known, k), Effects(x, e, peers, known).peers;
            k in after && after[k] == (if offer.Some? then offer.value else e.peers[k])
  {
    if |peers| > 0 {
      EffectsEndpoint(x, e, peers[..|peers| - 1], known, k);
    }
  }

  lemma {:induction false} EffectsNewEndpoint(x: Texts, e: Engine, peers: seq<Peer>, known: set<Pub>, k: WgKey)
    requires k !in e.peers
    ensures var offer, after := Offered(x, peers, known, k), Effects(x, e, peers, known).peers;
            && (offer.Some? ==> k in after)
            && (k in after ==> after[k] == if offer.Some? then offer.value else "")
  {
    if |peers| > 0 {
      EffectsNewEndpoint(x, e, peers[..|peers| - 1], known, k);
    }
  }

  /** A peer that is new to the engine starts with the endpoint the map offers its key, or with none. */
  lemma {:induction false} SyncStartsEndpoint(x: Texts, e: Engine, peers: seq<Peer>, known: set<Pub>, gone: seq<Pub>, k: WgKey)
    requires e.Valid() && Gone(x, peers, known, gone) && k !in e.peers
    ensures var after := Exec(e, SyncScript(x, peers, known, gone)).peers;
            && (k in after <==> k in NewKeys(x, peers, known) && k !in Departed(x, peers, known))
            && (k in after ==> after[k] == if Offered(x, peers, known, k).Some? then Offered(x, peers, known, k).value else "")
  {
    hide Offered;
    SyncedPeers(x, e, peers, known, gone);
    ScriptEffect(x, e, peers, known, gone);
    EffectsNewEndpoint(x, e, peers, known, k);
    RemoveAllPeers(x, Effects(x, e, peers, known), gone);
  }

  /** A key listed under known texts only is offered no endpoint. */
  lemma {:induction false} KnownIsOfferedNothing(x: Texts, peers: seq<Peer>, known: set<Pub>, k: WgKey)
    requires forall p :: p in peers && Readable(x, p) && KeyOf(x, p) == k ==> p.publicKey in known
    ensures Offered(x, peers, known, k) == None
  {
    if |peers| > 0 {
      SplitLast(peers);
      KnownIsOfferedNothing(x, peers[..|peers| - 1], known, k);
    }
  }

  /**
   * A peer of the engine comes through a sync with the endpoint it had if and only if it does
   * not depart and the map offers its key no other endpoint under a text not known. One that
   * is listed under known texts only is offered none, whatever its entries say.
   */
  lemma {:induction false} SyncKeepsEndpointIff(x: Texts, e: Engine, peers: seq<Peer>, known: set<Pub>, gone: seq<Pub>,
                                              k: WgKey)
    requires e.Valid() && Gone(x, peers, known, gone) && k in e.peers
    ensures var after := Exec(e, SyncScript(x, peers, known, gone)).peers;
            (k in after && after[k] == e.peers[k]) <==>
              k !in Departed(x, peers, known) && Offered(x, peers, known, k) in {None, Some(e.peers[k])}
    ensures (forall p :: p in peers && Readable(x, p) && KeyOf(x, p) == k ==> p.publicKey in known) ==>
              Offered(x, peers, known, k) == None
  {
    hide Offered;
    ScriptEffect(x, e, peers, known, gone);
    EffectsEndpoint(x, e, peers, known, k);
    RemoveAllPeers(x, Effects(x, e, peers, known), gone);
    GoneAreDeparted(x, peers, known, gone);
    if forall p :: p in peers && Readable(x, p) && KeyOf(x, p) == k ==> p.publicKey in known {
      KnownIsOfferedNothing(x, peers, known, k);
    }
  }

  // ---------------------------------------------------------------- the allowed IPs

  function OwnerOf(e: Engine, prefix: Prefix): Option<WgKey> {
    if prefix in e.owner then Some(e.owner[prefix]) else None
  }

  predicate Lists(x: Texts, p: Peer, prefix: Prefix, k: WgKey) {
    Readable(x, p) && KeyOf(x, p) == k && prefix in Listed(p)
  }

  predicate Ignores(x: Texts, p: Peer, prefix: Prefix, k: WgKey) {
    Readable(x, p) ==> prefix !in Listed(p) && KeyOf(x, p) != k
  }

  /** Entry i's block takes effect; an update of a peer the engine has not is ignored. */
  predicate Acts(x: Texts, e: Engine, peers: seq<Peer>, known: set<Pub>, i: nat)
    requires i < |peers|
  {
    var p := peers[i];
    Readable(x, p) && (p.publicKey in known ==> KeyOf(x, p) in e.peers.Keys + NewKeys(x, peers[..i], known))
  }

  /** Entry i lists the prefix for key k, and no later entry that acts lists it or has that key. */
  ghost predicate LastLister(x: Texts, e: Engine, peers: seq<Peer>, known: set<Pub>, prefix: Prefix, k: WgKey, i: nat) {
    && i < |peers| && Acts(x, e, peers, known, i) && Lists(x, peers[i], prefix, k)
    && forall j :: i < j < |peers| && Acts(x, e, peers, known, j) ==> Ignores(x, peers[j], prefix, k)
  }

  ghost predicate IsListed(x: Texts, e: Engine, peers: seq<Peer>, known: set<Pub>, prefix: Prefix, k: WgKey) {
    exists i :: LastLister(x, e, peers, known, prefix, k, i)
  }

  /** No entry that acts lists the prefix or has key k. */
  ghost predicate Untouched(x: Texts, e: Engine, peers: seq<Peer>, known: set<Pub>, prefix: Prefix, k: WgKey) {
    forall j :: 0 <= j < |peers| && Acts(x, e, peers, known, j) ==> Ignores(x, peers[j], prefix, k)
  }

  lemma ActsInPrefix(x: Texts, e: Engine, peers: seq<Peer>, known: set<Pub>, i: nat)
    requires i < |peers| - 1
    ensures Acts(x, e, peers, known, i) == Acts(x, e, peers[..|peers| - 1], known, i)
  {
    assert peers[..|peers| - 1][..i] == peers[..i];
  }

  lemma LastListerSnoc(x: Texts, e: Engine, peers: seq<Peer>, known: set<Pub>, prefix: Prefix, k: WgKey)
    requires |peers| > 0
    ensures var init, n := peers[..|peers| - 1], |peers| - 1;
            var spared := Acts(x, e, peers, known, n) ==> Ignores(x, peers[n], prefix, k);
            && (IsListed(x, e, peers, known, prefix, k) <==>
                  (Acts(x, e, peers, known, n) && Lists(x, peers[n], prefix, k))
                  || (IsListed(x, e, init, known, prefix, k) && spared))
            && (Untouched(x, e, peers, known, prefix, k) <==> Untouched(x, e, init, known, prefix, k) && spared)
  {
    hide Lists, Ignores, Acts;
    var init, n := peers[..|peers| - 1], |peers| - 1;
    forall i: nat | i < n
      ensures Acts(x, e, peers, known, i) == Acts(x, e, init, known, i)
    {
      ActsInPrefix(x, e, peers, known, i);
    }
    if Acts(x, e, peers, known, n) && Lists(x, peers[n], prefix, k) {
      assert LastLister(x, e, peers, known, prefix, k, n);
    }
    forall i: nat | i < n
      ensures LastLister(x, e, peers, known, prefix, k, i) <==>
                LastLister(x, e, init, known, prefix, k, i)
                && (Acts(x, e, peers, known, n) ==> Ignores(x, peers[n], prefix, k))
    {
      assert forall j :: 0 <= j < n ==> init[j] == peers[j];
    }
    assert forall j :: 0 <= j < n ==> init[j] == peers[j];
  }

  /** One block moves to its peer what it lists, takes from it what it does not, and leaves the rest. */
  lemma EffectOwner(x: Texts, e: Engine, p: Peer, isKnown: bool, prefix: Prefix, k: WgKey)
    requires Readable(x, p)
    ensures var acts, after := isKnown ==> KeyOf(x, p) in e.peers, Effect(x, e, p, isKnown);
            OwnerOf(after, prefix) == Some(k) <==>
              (acts && Lists(x, p, prefix, k)) || (OwnerOf(e, prefix) == Some(k) && (acts ==> Ignores(x, p, prefix, k)))
  {
  }

  lemma {:induction false} EffectsOwner(x: Texts, e: Engine, peers: seq<Peer>, known: set<Pub>, prefix: Prefix, k: WgKey)
    ensures OwnerOf(Effects(x, e, peers, known), prefix) == Some(k) <==>
              IsListed(x, e, peers, known, prefix, k)
              || (OwnerOf(e, prefix) == Some(k) && Untouched(x, e, peers, known, prefix, k))
  {
    hide OwnerOf, Lists, Ignores, Effect, IsListed, Untouched;
    if |peers| > 0 {
      var init, p := peers[..|peers| - 1], peers[|peers| - 1];
      EffectsOwner(x, e, init, known, prefix, k);
      EffectsPeers(x, e, init, known);
      LastListerSnoc(x, e, peers, known, prefix, k);
      if Readable(x, p) {
        EffectOwner(x, Effects(x, e, init, known), p, p.publicKey in known, prefix, k);
      }
    } else {
      NobodyListed(x, e, known, prefix, k);
    }
  }

  lemma NobodyListed(x: Texts, e: Engine, known: set<Pub>, prefix: Prefix, k: WgKey)
    ensures !IsListed(x, e, [], known, prefix, k) && Untouched(x, e, [], known, prefix, k)
  {
  }

  /**
   * Who owns an allowed IP after a sync of any engine: the last peer listing it among the
   * entries that act, or the owner it had when none of them touches the prefix or the owner;
   * and in either case only if that key does not depart.
   */
  lemma SyncAssignsOwners(x: Texts, e: Engine, peers: seq<Peer>, known: set<Pub>, gone: seq<Pub>, prefix: Prefix, k: WgKey)
    requires e.Valid() && Gone(x, peers, known, gone)
    ensures OwnerOf(Exec(e, SyncScript(x, peers, known, gone)), prefix) == Some(k) <==>
              k !in Departed(x, peers, known)
              && (IsListed(x, e, peers, known, prefix, k)
                  || (OwnerOf(e, prefix) == Some(k) && Untouched(x, e, peers, known, prefix, k)))
  {
    hide SyncScript, Departed, KeysOf, IsListed, Untouched;
    ScriptEffect(x, e, peers, known, gone);
    EffectsOwner(x, e, peers, known, prefix, k);
    RemoveAllPeers(x, Effects(x, e, peers, known), gone);
    GoneAreDeparted(x, peers, known, gone);
  }

  lemma ListedIsDesired(x: Texts, e: Engine, peers: seq<Peer>, known: set<Pub>, prefix: Prefix, k: WgKey)
    requires IsListed(x, e, peers, known, prefix, k)
    ensures exists p :: p in peers && Lists(x, p, prefix, k)
    ensures k in DesiredKeys(x, peers)
  {
    hide Listed;
    var i: nat :| LastLister(x, e, peers, known, prefix, k, i);
    assert peers[i] in peers && Lists(x, peers[i], prefix, k);
  }

  /** The entries of a peer the engine has act, so its listing decides what it keeps. */
  lemma DesiredIsTouched(x: Texts, e: Engine, peers: seq<Peer>, known: set<Pub>, prefix: Prefix, k: WgKey)
    requires k in DesiredKeys(x, peers) && k in e.peers
    ensures !Untouched(x, e, peers, known, prefix, k)
  {
    var p :| p in peers && Readable(x, p) && KeyOf(x, p) == k;
    var i :| 0 <= i < |peers| && peers[i] == p;
    assert Acts(x, e, peers, known, i) && !Ignores(x, peers[i], prefix, k);
  }

  /** No entry that acts lists the prefix. */
  ghost predicate NobodyTakes(x: Texts, e: Engine, peers: seq<Peer>, known: set<Pub>, prefix: Prefix) {
    forall j :: 0 <= j < |peers| && Acts(x, e, peers, known, j) ==> prefix !in Listed(peers[j])
  }

  lemma UntouchedIffNobodyTakes(x: Texts, e: Engine, peers: seq<Peer>, known: set<Pub>, prefix: Prefix, k: WgKey)
    requires k !in DesiredKeys(x, peers)
    ensures Untouched(x, e, peers, known, prefix, k) <==> NobodyTakes(x, e, peers, known, prefix)
  {
    hide Listed;
    forall j | 0 <= j < |peers| && Acts(x, e, peers, known, j)
      ensures KeyOf(x, peers[j]) != k
    {
      assert peers[j] in peers;
      DesiredKey(x, peers, peers[j]);
    }
  }

  lemma DesiredKey(x: Texts, peers: seq<Peer>, p: Peer)
    requires p in peers && Readable(x, p)
    ensures KeyOf(x, p) in DesiredKeys(x, peers)
  {
  }

  /** The desired owner: entry i lists the prefix, and no later readable entry lists it or has that key. */
  ghost predicate LastListed(x: Texts, peers: seq<Peer>, prefix: Prefix, k: WgKey, i: nat) {
    i < |peers| && Lists(x, peers[i], prefix, k) && forall j :: i < j < |peers| ==> Ignores(x, peers[j], prefix, k)
  }

  /** Every allowed IP has its desired owner and no other. */
  ghost predicate Owned(x: Texts, e: Engine, peers: seq<Peer>) {
    forall prefix, k :: OwnerOf(e, prefix) == Some(k) <==> exists i :: LastListed(x, peers, prefix, k, i)
  }

  /** When the engine has every known peer that is listed, every readable entry acts. */
  lemma AllAct(x: Texts, e: Engine, peers: seq<Peer>, known: set<Pub>, prefix: Prefix, k: WgKey)
    requires OldKeys(x, peers, known) <= e.peers.Keys
    ensures IsListed(x, e, peers, known, prefix, k) <==> exists i :: LastListed(x, peers, prefix, k, i)
  {
    hide Listed;
    forall i: nat | i < |peers|
      ensures Acts(x, e, peers, known, i) <==> Readable(x, peers[i])
    {
      assert peers[i] in peers;
      assert Readable(x, peers[i]) && peers[i].publicKey in known ==> KeyOf(x, peers[i]) in OldKeys(x, peers, known);
    }
    assert forall i: nat :: LastLister(x, e, peers, known, prefix, k, i) <==> LastListed(x, peers, prefix, k, i);
  }

  /** An engine that has no peer but known and desired ones ends with every desired owner. */
  lemma SyncOwns(x: Texts, e: Engine, peers: seq<Peer>, known: set<Pub>, gone: seq<Pub>)
    requires e.Valid() && Gone(x, peers, known, gone)
    requires e.peers.Keys <= KeysOf(x, known) + DesiredKeys(x, peers)
    requires OldKeys(x, peers, known) <= e.peers.Keys
    ensures NoneRespelled(x, peers, known) ==> Owned(x, Exec(e, SyncScript(x, peers, known, gone)), peers)
  {
    hide IsListed, Untouched, Exec, SyncScript, Departed, DesiredKeys, KeysOf, OldKeys, NewKeys, LastListed;
    if NoneRespelled(x, peers, known) {
      KeysSplit(x, peers, known);
      forall prefix, k
        ensures OwnerOf(Exec(e, SyncScript(x, peers, known, gone)), prefix) == Some(k) <==>
                  exists i :: LastListed(x, peers, prefix, k, i)
      {
        SyncAssignsOwners(x, e, peers, known, gone, prefix, k);
        AllAct(x, e, peers, known, prefix, k);
        if IsListed(x, e, peers, known, prefix, k) {
          ListedIsDesired(x, e, peers, known, prefix, k);
        }
        if k in DesiredKeys(x, peers) && OwnerOf(e, prefix) == Some(k) {
          DesiredIsTouched(x, e, peers, known, prefix, k);
        }
      }
    }
  }

  // ---------------------------------------------------------------- runs of syncs

  /** Where a run of syncs leads. */
  function After(x: Texts, s: Synced, run: seq<Sync>): Synced {
    if |run| == 0 then s else SyncStep(x, After(x, s, run[..|run| - 1]), run[|run| - 1])
  }

  /** Each sync goes once through the known peers it drops. */
  ghost predicate Legal(x: Texts, s: Synced, run: seq<Sync>) {
    |run| == 0 ||
    var before, t := run[..|run| - 1], run[|run| - 1];
    Legal(x, s, before) && Gone(x, t.peers, After(x, s, before).known, t.gone)
  }

  ghost predicate Readables(x: Texts, known: set<Pub>) {
    forall pub :: pub in known ==> x.parseKey(pub).Some?
  }

  /** What the caller believes is what the engine has. */
  ghost predicate InStep(x: Texts, s: Synced) {
    s.engine.Valid() && s.engine.peers.Keys == KeysOf(x, s.known) && Readables(x, s.known)
  }

  /** Every sync of the run is one of `peers`, and is interrupted. */
  ghost predicate Interrupted(x: Texts, s: Synced, peers: seq<Peer>, tries: seq<Sync>) {
    |tries| == 0 ||
    var before, t := tries[..|tries| - 1], tries[|tries| - 1];
    Interrupted(x, s, peers, before) && t.peers == peers && Stops(x, After(x, s, before), t)
  }

  /** The keys of a stretch of script that are created or updated, and stay. */
  function Added(s: Script): set<WgKey> {
    set i | 0 <= i < |s| - 1 && s[i].PublicKey? && !s[i + 1].UpdateOnly? && !s[i + 1].Remove? :: s[i].key
  }

  function Removed(s: Script): set<WgKey> {
    set i | 0 <= i < |s| - 1 && s[i].PublicKey? && s[i + 1].Remove? :: s[i].key
  }

  /** The key of a block or removal that is cut short after its first line. */
  function Dangling(s: Script): set<WgKey> {
    if |s| > 0 && s[|s| - 1].PublicKey? then {s[|s| - 1].key} else {}
  }

  /** Peers of the engine that the caller does not know of. */
  function Leaked(x: Texts, s: Synced, run: seq<Sync>): set<WgKey> {
    if |run| == 0 then {}
    else
      var before, t := run[..|run| - 1], run[|run| - 1];
      var u := After(x, s, before);
      if Stops(x, u, t) then
        var written := WrittenBy(x, u, t);
        Leaked(x, s, before) + ((Added(written) + Dangling(written)) - KeysOf(x, u.known))
      else Leaked(x, s, before) - DesiredKeys(x, t.peers)
  }

  /** Peers the caller believes in that the engine has not. */
  function Lost(x: Texts, s: Synced, run: seq<Sync>): set<WgKey> {
    if |run| == 0 then {}
    else
      var before, t := run[..|run| - 1], run[|run| - 1];
      var u := After(x, s, before);
      if Stops(x, u, t) then
        var written := WrittenBy(x, u, t);
        ((Lost(x, s, before) - Added(written)) + Removed(written)) - Dangling(written)
      else
        (DesiredKeys(x, t.peers) * Departed(x, t.peers, u.known))
        + ((OldKeys(x, t.peers, u.known) * Lost(x, s, before)) - NewKeys(x, t.peers, u.known))
  }

  // ---------------------------------------------------------------- scripts cut short

  /** Line i of a script that first writes blocks for `desired` keys and then removes `departed` ones. */
  ghost predicate WellPlaced(s: Script, i: nat, desired: set<WgKey>, departed: set<WgKey>)
    requires i < |s|
  {
    && (s[i].PublicKey? ==> s[i].key in desired + departed)
    && (s[i].UpdateOnly? || s[i].Remove? ==> i > 0 && s[i - 1].PublicKey?)
    && (s[i].Remove? ==> s[i - 1].key in departed)
    && (s[i].PublicKey? && i + 1 < |s| && !s[i + 1].Remove? ==>
          s[i].key in desired && forall j :: 0 <= j < i ==> !s[j].Remove?)
  }

  ghost predicate Shaped(s: Script, desired: set<WgKey>, departed: set<WgKey>) {
    forall i :: 0 <= i < |s| ==> WellPlaced(s, i, desired, departed)
  }

  ghost predicate Complete(s: Script) {
    |s| > 0 ==> !s[|s| - 1].PublicKey?
  }

  ghost predicate NoRemoval(s: Script) {
    forall i :: 0 <= i < |s| ==> !s[i].Remove?
  }

  ghost predicate OnlyRemovals(s: Script) {
    forall i :: 0 <= i < |s| - 1 && s[i].PublicKey? ==> s[i + 1].Remove?
  }

  lemma ShapedPrefix(s: Script, n: nat, desired: set<WgKey>, departed: set<WgKey>)
    requires n <= |s| && Shaped(s, desired, departed)
    ensures Shaped(s[..n], desired, departed)
  {
    forall i | 0 <= i < n
      ensures WellPlaced(s[..n], i, desired, departed)
    {
      assert WellPlaced(s, i, desired, departed);
    }
  }

  lemma ShapedConcat(s: Script, t: Script, desired: set<WgKey>, departed: set<WgKey>)
    requires Shaped(s, desired, departed) && Shaped(t, desired, departed)
    requires Complete(s) && Complete(t) && (NoRemoval(s) || OnlyRemovals(t))
    ensures Shaped(s + t, desired, departed) && Complete(s + t)
    ensures NoRemoval(s) && NoRemoval(t) ==> NoRemoval(s + t)
    ensures OnlyRemovals(s) && OnlyRemovals(t) ==> OnlyRemovals(s + t)
  {
    forall i | 0 <= i < |s + t|
      ensures WellPlaced(s + t, i, desired, departed)
    {
      if i < |s| {
        assert WellPlaced(s, i, desired, departed);
      } else {
        assert WellPlaced(t, i - |s|, desired, departed);
      }
    }
  }

  lemma BlockShape(x: Texts, p: Peer, isKnown: bool, desired: set<WgKey>, departed: set<WgKey>)
    requires Readable(x, p) && KeyOf(x, p) in desired
    ensures var b := Block(x, p, isKnown); Shaped(b, desired, departed) && Complete(b) && NoRemoval(b)
  {
    hide AllowedLines, Listed, Shaped;
    var head := BlockHead(x, p, isKnown);
    var tail := [ReplaceAllowedIPs] + AllowedLines(Listed(p)) + [Keepalive(KEEPALIVE_SECONDS)];
    PlainTail(Listed(p));
    assert Block(x, p, isKnown) == head + tail;
    HeadThenTail(head, tail, desired, departed);
  }

  ghost predicate Plain(s: Script) {
    forall i :: 0 <= i < |s| ==> !s[i].PublicKey? && !s[i].UpdateOnly? && !s[i].Remove?
  }

  lemma PlainTail(ps: seq<Prefix>)
    ensures Plain([ReplaceAllowedIPs] + AllowedLines(ps) + [Keepalive(KEEPALIVE_SECONDS)])
  {
  }

  lemma HeadThenTail(head: Script, tail: Script, desired: set<WgKey>, departed: set<WgKey>)
    requires 1 <= |head| <= 2 && head[0].PublicKey? && head[0].key in desired
    requires |head| == 2 ==> head[1].UpdateOnly? || head[1].EndpointLine?
    requires Plain(tail) && |tail| > 0
    ensures Shaped(head + tail, desired, departed) && Complete(head + tail) && NoRemoval(head + tail)
  {
  }

  lemma {:induction false} BlocksShape(x: Texts, peers: seq<Peer>, known: set<Pub>, desired: set<WgKey>,
                                     departed: set<WgKey>)
    requires DesiredKeys(x, peers) <= desired
    ensures var b := Blocks(x, peers, known); Shaped(b, desired, departed) && Complete(b) && NoRemoval(b)
  {
    hide Block, Shaped, Complete, NoRemoval;
    if |peers| > 0 {
      var init, p := peers[..|peers| - 1], peers[|peers| - 1];
      SplitLast(peers);
      assert DesiredKeys(x, init) <= DesiredKeys(x, peers);
      BlocksShape(x, init, known, desired, departed);
      if Readable(x, p) {
        assert KeyOf(x, p) in DesiredKeys(x, peers);
        BlockShape(x, p, p.publicKey in known, desired, departed);
        ShapedConcat(Blocks(x, init, known), Block(x, p, p.publicKey in known), desired, departed);
      } else {
        assert Blocks(x, init, known) + [] == Blocks(x, init, known);
      }
    } else {
      EmptyShape(desired, departed);
    }
  }

  lemma EmptyShape(desired: set<WgKey>, departed: set<WgKey>)
    ensures Shaped([], desired, departed) && Complete([]) && NoRemoval([]) && OnlyRemovals([])
  {
  }

  lemma RemovalShape(k: WgKey, desired: set<WgKey>, departed: set<WgKey>)
    requires k in departed
    ensures var r := [PublicKey(k), Remove]; Shaped(r, desired, departed) && Complete(r) && OnlyRemovals(r)
  {
  }

  lemma {:induction false} RemovalsShape(x: Texts, gone: seq<Pub>, desired: set<WgKey>, departed: set<WgKey>)
    requires KeysOf(x, set pub | pub in gone) <= departed
    ensures var r := Removals(x, gone); Shaped(r, desired, departed) && Complete(r) && OnlyRemovals(r)
  {
    hide Shaped, Complete, OnlyRemovals;
    if |gone| > 0 {
      var init, pub := gone[..|gone| - 1], gone[|gone| - 1];
      assert forall q :: q in gone <==> q in init || q == pub;
      assert KeysOf(x, set q | q in init) <= KeysOf(x, set q | q in gone);
      RemovalsShape(x, init, desired, departed);
      var k := x.parseKey(pub);
      if k.Some? {
        assert pub in set q | q in gone;
        assert k.value in KeysOf(x, set q | q in gone);
        RemovalShape(k.value, desired, departed);
        ShapedConcat(Removals(x, init), [PublicKey(k.value), Remove], desired, departed);
      } else {
        assert Removals(x, init) + [] == Removals(x, init);
      }
    } else {
      EmptyShape(desired, departed);
    }
  }

  lemma ScriptShape(x: Texts, peers: seq<Peer>, known: set<Pub>, gone: seq<Pub>)
    requires Gone(x, peers, known, gone)
    ensures Shaped(SyncScript(x, peers, known, gone), DesiredKeys(x, peers), Departed(x, peers, known))
  {
    var desired, departed := DesiredKeys(x, peers), Departed(x, peers, known);
    BlocksShape(x, peers, known, desired, departed);
    GoneAreDeparted(x, peers, known, gone);
    RemovalsShape(x, gone, desired, departed);
    ShapedConcat(Blocks(x, peers, known), Removals(x, gone), desired, departed);
  }

  lemma {:induction false} ExecOneMore(e: Engine, s: Script, line: Line)
    ensures var (e1, c1) := ExecFrom(e, Ignored, s);
            ExecFrom(e, Ignored, s + [line]) == ExecLine(e1, c1, line)
  {
    ExecAppend(e, Ignored, s, [line]);
    var (e1, c1) := ExecFrom(e, Ignored, s);
    assert [line][1..] == [];
  }

  /** One more line settles the key that was dangling. */
  lemma OneMoreLine(s: Script, line: Line)
    ensures Added(s + [line]) == Added(s) + (if line.UpdateOnly? || line.Remove? then {} else Dangling(s))
    ensures Removed(s + [line]) == Removed(s) + (if line.Remove? then Dangling(s) else {})
    ensures Dangling(s + [line]) == if line.PublicKey? then {line.key} else {}
  {
    var t := s + [line];
    assert forall i :: 0 <= i < |s| ==> t[i] == s[i];
    if Dangling(s) != {} {
      assert t[|s| - 1].key == s[|s| - 1].key && t[|s|] == line;
    }
    forall k | k in Added(s)
      ensures k in Added(t)
    {
      var i :| 0 <= i < |s| - 1 && s[i].PublicKey? && !s[i + 1].UpdateOnly? && !s[i + 1].Remove? && s[i].key == k;
      assert t[i] == s[i] && t[i + 1] == s[i + 1];
    }
    forall k | k in Removed(s)
      ensures k in Removed(t)
    {
      var i :| 0 <= i < |s| - 1 && s[i].PublicKey? && s[i + 1].Remove? && s[i].key == k;
      assert t[i] == s[i] && t[i + 1] == s[i + 1];
    }
  }

  /** The engine on a line: the peers settled so far, and the key dangling. */
  ghost predicate At(e: Engine, c: Cursor, settled: set<WgKey>, dangling: set<WgKey>) {
    && e.Valid() && e.peers.Keys == settled + dangling
    && (c.Current? ==> c.key in e.peers)
    && forall k :: k in dangling ==> dangling == {k} && c.Current? && c.key == k && (c.created <==> k !in settled)
  }

  lemma LineKeys(e: Engine, c: Cursor, line: Line, settled: set<WgKey>, dangling: set<WgKey>)
    requires At(e, c, settled, dangling) && (line.UpdateOnly? || line.Remove? ==> dangling != {})
    ensures At(ExecLine(e, c, line).0, ExecLine(e, c, line).1,
               if line.Remove? then settled - dangling else if line.UpdateOnly? then settled else settled + dangling,
               if line.PublicKey? then {line.key} else {})
  {
    if line.UpdateOnly? || line.Remove? {
      var k :| k in dangling;
      assert c.key == k;
    }
  }

  lemma NothingRemoved(s: Script, desired: set<WgKey>, departed: set<WgKey>)
    requires |s| > 1 && Shaped(s, desired, departed) && !s[|s| - 1].Remove? && s[|s| - 2].PublicKey?
    ensures Removed(s[..|s| - 1]) == {} && s[|s| - 2].key in desired
  {
    assert WellPlaced(s, |s| - 2, desired, departed);
  }

  function Settled(keys: set<WgKey>, s: Script): set<WgKey> {
    (keys + Added(s)) - Removed(s)
  }

  /** The engine's peers wherever a script stops. */
  lemma {:induction false} StoppedScript(e: Engine, s: Script, desired: set<WgKey>, departed: set<WgKey>)
    requires e.Valid() && Shaped(s, desired, departed)
    ensures At(ExecFrom(e, Ignored, s).0, ExecFrom(e, Ignored, s).1, Settled(e.peers.Keys, s), Dangling(s))
    ensures Added(s) <= desired && Removed(s) <= departed && Dangling(s) <= desired + departed
  {
    hide At, Added, Removed, Shaped, ExecLine;
    if |s| > 0 {
      var init, line := s[..|s| - 1], s[|s| - 1];
      assert s == init + [line];
      ShapedPrefix(s, |init|, desired, departed);
      StoppedScript(e, init, desired, departed);
      ExecOneMore(e, init, line);
      OneMoreLine(init, line);
      LastLine(s, desired, departed);
      if Dangling(init) != {} && !line.Remove? {
        NothingRemoved(s, desired, departed);
      }
      var (e1, c1) := ExecFrom(e, Ignored, init);
      var settled, dangling := Settled(e.peers.Keys, init), Dangling(init);
      LineKeys(e1, c1, line, settled, dangling);
      assert Settled(e.peers.Keys, s) ==
             if line.Remove? then settled - dangling else if line.UpdateOnly? then settled else settled + dangling;
    } else {
      NoLines(e);
    }
  }

  lemma LastLine(s: Script, desired: set<WgKey>, departed: set<WgKey>)
    requires |s| > 0 && Shaped(s, desired, departed)
    ensures var line, before := s[|s| - 1], Dangling(s[..|s| - 1]);
            && (line.PublicKey? ==> line.key in desired + departed)
            && (line.UpdateOnly? || line.Remove? ==> before != {})
            && (line.Remove? ==> before <= departed)
  {
    var init := s[..|s| - 1];
    assert |init| > 0 ==> init[|init| - 1] == s[|s| - 2];
    assert WellPlaced(s, |s| - 1, desired, departed);
  }

  lemma NoLines(e: Engine)
    requires e.Valid()
    ensures At(e, Ignored, Settled(e.peers.Keys, []), {}) && Added([]) == {} && Removed([]) == {}
  {
  }
  // ---------------------------------------------------------------- what the engine refuses

  ghost predicate AnyRefused(x: Texts, s: Script) {
    exists i :: 0 <= i < |s| && Refused(x, s[i])
  }

  /** A peer not known whose first endpoint is no endpoint. */
  predicate Malformed(x: Texts, p: Peer, known: set<Pub>) {
    Readable(x, p) && p.publicKey !in known && x.initial(p) != "" && !x.isEndpoint(x.initial(p))
  }

  lemma RefusedConcat(x: Texts, s: Script, t: Script)
    ensures AnyRefused(x, s + t) <==> AnyRefused(x, s) || AnyRefused(x, t)
  {
    forall i | 0 <= i < |s| ensures (s + t)[i] == s[i] {}
    forall i | 0 <= i < |t| ensures (s + t)[|s| + i] == t[i] {}
  }

  lemma BlockRefused(x: Texts, p: Peer, isKnown: bool)
    requires Readable(x, p)
    ensures AnyRefused(x, Block(x, p, isKnown)) <==> !isKnown && x.initial(p) != "" && !x.isEndpoint(x.initial(p))
  {
    hide AllowedLines, Listed;
    var head := BlockHead(x, p, isKnown);
    var tail := [ReplaceAllowedIPs] + AllowedLines(Listed(p)) + [Keepalive(KEEPALIVE_SECONDS)];
    assert Block(x, p, isKnown) == head + tail;
    RefusedConcat(x, head, tail);
    NoEndpointInTail(x, Listed(p));
    assert |head| > 1 ==> Refused(x, head[1]) == (!isKnown && !x.isEndpoint(x.initial(p)));
  }

  lemma NoEndpointInTail(x: Texts, ps: seq<Prefix>)
    ensures !AnyRefused(x, [ReplaceAllowedIPs] + AllowedLines(ps) + [Keepalive(KEEPALIVE_SECONDS)])
  {
  }

  lemma {:induction false} BlocksRefused(x: Texts, peers: seq<Peer>, known: set<Pub>)
    ensures AnyRefused(x, Blocks(x, peers, known)) <==> exists p :: p in peers && Malformed(x, p, known)
  {
    hide AnyRefused, Block;
    if |peers| > 0 {
      var init, p := peers[..|peers| - 1], peers[|peers| - 1];
      SplitLast(peers);
      BlocksRefused(x, init, known);
      assert (exists q :: q in peers && Malformed(x, q, known)) <==>
             (exists q :: q in init && Malformed(x, q, known)) || Malformed(x, p, known);
      if Readable(x, p) {
        BlockRefused(x, p, p.publicKey in known);
        RefusedConcat(x, Blocks(x, init, known), Block(x, p, p.publicKey in known));
      } else {
        assert Blocks(x, init, known) + [] == Blocks(x, init, known);
      }
    } else {
      assert !AnyRefused(x, []) by {
        NothingToRefuse(x);
      }
    }
  }

  lemma NothingToRefuse(x: Texts)
    ensures !AnyRefused(x, [])
  {
  }

  lemma {:induction false} RemovalsNotRefused(x: Texts, gone: seq<Pub>)
    ensures !AnyRefused(x, Removals(x, gone))
  {
    if |gone| > 0 {
      RemovalsNotRefused(x, gone[..|gone| - 1]);
    }
  }

  /**
   * A sync that meets no failure of the engine's own goes through if and only if no peer that
   * is not known offers an endpoint the engine cannot read.
   */
  lemma SyncGoesThroughIff(x: Texts, s: Synced, t: Sync)
    requires t.failsAfter.None?
    ensures Stops(x, s, t) <==> exists p :: p in t.peers && Malformed(x, p, s.known)
  {
    hide Malformed;
    BlocksRefused(x, t.peers, s.known);
    RemovalsNotRefused(x, t.gone);
    RefusedConcat(x, Blocks(x, t.peers, s.known), Removals(x, t.gone));
    var script := ScriptOf(x, s, t);
    assert AnyRefused(x, script) <==> FirstRefused(x, script) < |script|;
  }

  lemma AllWritten(x: Texts, s: Synced, t: Sync)
    requires !Stops(x, s, t)
    ensures WrittenBy(x, s, t) == ScriptOf(x, s, t)
  {
  }

  lemma {:induction false} BlocksOfPrefix(x: Texts, peers: seq<Peer>, known: set<Pub>, n: nat)
    requires n <= |peers|
    ensures Blocks(x, peers[..n], known) <= Blocks(x, peers, known)
  {
    if n < |peers| {
      BlocksOfPrefix(x, peers[..|peers| - 1], known, n);
      assert peers[..|peers| - 1][..n] == peers[..n];
    } else {
      assert peers[..n] == peers;
    }
  }

  /** A script that is refused stops within the blocks up to the malformed peer. */
  lemma {:induction false} StopsWithinBlocks(x: Texts, s: Synced, t: Sync, i: nat)
    requires i < |t.peers| && Malformed(x, t.peers[i], s.known)
    ensures WrittenBy(x, s, t) <= Blocks(x, t.peers[..i + 1], s.known) && Stops(x, s, t)
  {
    hide Malformed, Refused;
    var upTo, script := Blocks(x, t.peers[..i + 1], s.known), ScriptOf(x, s, t);
    assert t.peers[..i + 1][i] in t.peers[..i + 1];
    BlocksRefused(x, t.peers[..i + 1], s.known);
    BlocksOfPrefix(x, t.peers, s.known, i + 1);
    var r :| 0 <= r < |upTo| && Refused(x, upTo[r]);
    assert script[r] == upTo[r] && upTo <= script;
  }

  /** Running a part of the blocks removes nobody. */
  lemma {:induction false} CutBlocks(x: Texts, e: Engine, peers: seq<Peer>, known: set<Pub>, n: nat)
    requires e.Valid() && n <= |Blocks(x, peers, known)|
    ensures var after := Exec(e, Blocks(x, peers, known)[..n]);
            after.Valid() && e.peers.Keys <= after.peers.Keys <= e.peers.Keys + DesiredKeys(x, peers)
  {
    hide Added, Removed, Dangling, DesiredKeys, Shaped;
    BlocksShape(x, peers, known, DesiredKeys(x, peers), {});
    ShapedPrefix(Blocks(x, peers, known), n, DesiredKeys(x, peers), {});
    StoppedScript(e, Blocks(x, peers, known)[..n], DesiredKeys(x, peers), {});
  }

  lemma FrozenStep(x: Texts, s: Synced, t: Sync, i: nat)
    requires s.engine.Valid() && i < |t.peers| && Malformed(x, t.peers[i], s.known)
    ensures var u := SyncStep(x, s, t);
            && Stops(x, s, t) && u.known == s.known && u.engine.Valid()
            && s.engine.peers.Keys <= u.engine.peers.Keys <= s.engine.peers.Keys + DesiredKeys(x, t.peers[..i + 1])
  {
    hide Malformed, DesiredKeys, ScriptOf, Exec;
    StopsWithinBlocks(x, s, t, i);
    var blocks, n := Blocks(x, t.peers[..i + 1], s.known), |WrittenBy(x, s, t)|;
    assert WrittenBy(x, s, t) == blocks[..n];
    CutBlocks(x, s.engine, t.peers[..i + 1], s.known, n);
  }

  /**
   * As long as a map lists such a peer, no sync of it goes through, however often it is tried:
   * `known` stays, no peer that left the map is removed, and none listed after the malformed
   * one is added.
   */
  lemma {:induction false} MalformedEndpointFreezes(x: Texts, s: Synced, peers: seq<Peer>, tries: seq<Sync>, i: nat)
    requires s.engine.Valid() && i < |peers| && Malformed(x, peers[i], s.known)
    requires forall j :: 0 <= j < |tries| ==> tries[j].peers == peers
    ensures After(x, s, tries).known == s.known && After(x, s, tries).engine.Valid()
    ensures s.engine.peers.Keys <= After(x, s, tries).engine.peers.Keys <=
              s.engine.peers.Keys + DesiredKeys(x, peers[..i + 1])
    ensures Interrupted(x, s, peers, tries)
  {
    hide Malformed, DesiredKeys, Stops, SyncStep;
    if |tries| > 0 {
      var before, t := tries[..|tries| - 1], tries[|tries| - 1];
      MalformedEndpointFreezes(x, s, peers, before, i);
      FrozenStep(x, After(x, s, before), t, i);
    }
  }

  // ---------------------------------------------------------------- what runs of syncs do

  /** An empty script means there was nothing to keep and nothing to drop. */
  lemma EmptyScript(x: Texts, peers: seq<Peer>, known: set<Pub>, gone: seq<Pub>)
    requires Readables(x, known) && Gone(x, peers, known, gone)
    ensures |SyncScript(x, peers, known, gone)| == 0 ==> Seen(x, peers) == {} && known == {}
  {
    assert gone != [] ==> gone[|gone| - 1] in gone;
    if |SyncScript(x, peers, known, gone)| == 0 {
      EmptyBlocks(x, peers, known);
    }
  }

  lemma {:induction false} EmptyBlocks(x: Texts, peers: seq<Peer>, known: set<Pub>)
    requires |Blocks(x, peers, known)| == 0
    ensures Seen(x, peers) == {}
  {
    if |peers| > 0 {
      SplitLast(peers);
      EmptyBlocks(x, peers[..|peers| - 1], known);
    }
  }

  /** The engine's peers are those the caller knows, less the lost, and the leaked. */
  ghost predicate Drifted(x: Texts, s: Synced, leaked: set<WgKey>, lost: set<WgKey>) {
    && s.engine.Valid() && Readables(x, s.known)
    && s.engine.peers.Keys == (KeysOf(x, s.known) - lost) + leaked
    && lost <= KeysOf(x, s.known) && leaked !! KeysOf(x, s.known)
  }

  lemma WrittenBounds(x: Texts, s: Synced, t: Sync)
    requires s.engine.Valid() && Gone(x, t.peers, s.known, t.gone) && Stops(x, s, t)
    ensures var w := WrittenBy(x, s, t);
            && SyncStep(x, s, t).engine.Valid()
            && SyncStep(x, s, t).engine.peers.Keys == Settled(s.engine.peers.Keys, w) + Dangling(w)
            && Added(w) <= DesiredKeys(x, t.peers) && Removed(w) <= Departed(x, t.peers, s.known)
            && Dangling(w) <= DesiredKeys(x, t.peers) + Departed(x, t.peers, s.known)
  {
    hide Shaped, Settled, Added, Removed, Departed, DesiredKeys, SyncScript;
    var desired, departed := DesiredKeys(x, t.peers), Departed(x, t.peers, s.known);
    ScriptShape(x, t.peers, s.known, t.gone);
    ShapedPrefix(ScriptOf(x, s, t), |WrittenBy(x, s, t)|, desired, departed);
    StoppedScript(s.engine, WrittenBy(x, s, t), desired, departed);
  }

  lemma StoppedStep(x: Texts, s: Synced, t: Sync, leaked: set<WgKey>, lost: set<WgKey>)
    requires Drifted(x, s, leaked, lost) && Gone(x, t.peers, s.known, t.gone) && Stops(x, s, t)
    ensures var w := WrittenBy(x, s, t);
            Drifted(x, SyncStep(x, s, t), leaked + ((Added(w) + Dangling(w)) - KeysOf(x, s.known)),
                    ((lost - Added(w)) + Removed(w)) - Dangling(w))
  {
    hide Added, Removed, Dangling, Departed, DesiredKeys, OldKeys, NewKeys, KeysOf;
    WrittenBounds(x, s, t);
    KeysSplit(x, t.peers, s.known);
  }

  lemma FinishedStep(x: Texts, s: Synced, t: Sync, leaked: set<WgKey>, lost: set<WgKey>)
    requires Drifted(x, s, leaked, lost) && Gone(x, t.peers, s.known, t.gone) && !Stops(x, s, t)
    ensures SyncStep(x, s, t).known == Seen(x, t.peers)
    ensures Drifted(x, SyncStep(x, s, t), leaked - DesiredKeys(x, t.peers),
                    (DesiredKeys(x, t.peers) * Departed(x, t.peers, s.known))
                    + ((OldKeys(x, t.peers, s.known) * lost) - NewKeys(x, t.peers, s.known)))
  {
    hide Departed, DesiredKeys, OldKeys, NewKeys, KeysOf, SyncScript, Exec;
    SyncedPeers(x, s.engine, t.peers, s.known, t.gone);
    KeysSplit(x, t.peers, s.known);
    EmptyScript(x, t.peers, s.known, t.gone);
    AllWritten(x, s, t);
  }

  /**
   * In every run of syncs, interrupted anywhere or not, whatever the maps, the engine's peers
   * are exactly those the caller knows, less the lost ones, and the leaked ones.
   */
  lemma {:induction false} EngineIsKnownAndDrift(x: Texts, s: Synced, run: seq<Sync>)
    requires InStep(x, s) && Legal(x, s, run)
    ensures Drifted(x, After(x, s, run), Leaked(x, s, run), Lost(x, s, run))
  {
    hide Drifted, Gone, Stops, SyncStep, WrittenBy;
    if |run| > 0 {
      var before, t := run[..|run| - 1], run[|run| - 1];
      var u := After(x, s, before);
      EngineIsKnownAndDrift(x, s, before);
      if Stops(x, u, t) {
        StoppedStep(x, u, t, Leaked(x, s, before), Lost(x, s, before));
      } else {
        FinishedStep(x, u, t, Leaked(x, s, before), Lost(x, s, before));
      }
    } else {
      NoDrift(x, s);
    }
  }

  /** Being in step is having neither leaked nor lost peers. */
  lemma NoDrift(x: Texts, s: Synced)
    ensures InStep(x, s) <==> Drifted(x, s, {}, {})
  {
  }

  /**
   * After any run, a sync that goes through leaves exactly the desired peers if and only if
   * the map wants every leaked peer, no peer comes back respelled, and no lost peer is listed
   * under its known text alone.
   */
  lemma {:induction false} RunAlignsIff(x: Texts, s: Synced, run: seq<Sync>, t: Sync)
    requires InStep(x, s) && Legal(x, s, run + [t]) && !Stops(x, After(x, s, run), t)
    ensures var u, v := After(x, s, run), After(x, s, run + [t]);
            && v.known == Seen(x, t.peers)
            && (v.engine.peers.Keys == DesiredKeys(x, t.peers) <==>
                  && Leaked(x, s, run) <= DesiredKeys(x, t.peers)
                  && NoneRespelled(x, t.peers, u.known)
                  && OldKeys(x, t.peers, u.known) * Lost(x, s, run) <= NewKeys(x, t.peers, u.known))
  {
    hide After, Legal, Leaked, Lost, Departed, DesiredKeys, OldKeys, NewKeys, KeysOf, SyncStep, Stops, Gone;
    OneMoreSync(x, s, run, t);
    EngineIsKnownAndDrift(x, s, run);
    var u, leaked, lost := After(x, s, run), Leaked(x, s, run), Lost(x, s, run);
    FinishedStep(x, u, t, leaked, lost);
    KeysSplit(x, t.peers, u.known);
  }

  lemma {:induction false} OneMoreSync(x: Texts, s: Synced, run: seq<Sync>, t: Sync)
    ensures After(x, s, run + [t]) == SyncStep(x, After(x, s, run), t)
    ensures Legal(x, s, run + [t]) <==> Legal(x, s, run) && Gone(x, t.peers, After(x, s, run).known, t.gone)
  {
    assert (run + [t])[..|run|] == run;
  }

  /**
   * After any run, a sync that goes through gives a prefix to key `k` if and only if `k` is the
   * last peer listing it among the entries that act, and does not depart; or `k` is a leaked
   * peer the map does not want, which had the prefix already, and no entry that acts lists it.
   */
  lemma {:induction false} RunOwnersIff(x: Texts, s: Synced, run: seq<Sync>, t: Sync, prefix: Prefix, k: WgKey)
    requires InStep(x, s) && Legal(x, s, run + [t]) && !Stops(x, After(x, s, run), t)
    ensures var u := After(x, s, run);
            OwnerOf(After(x, s, run + [t]).engine, prefix) == Some(k) <==>
              (k !in Departed(x, t.peers, u.known) && IsListed(x, u.engine, t.peers, u.known, prefix, k))
              || (k in Leaked(x, s, run) && k !in DesiredKeys(x, t.peers)
                  && OwnerOf(u.engine, prefix) == Some(k) && NobodyTakes(x, u.engine, t.peers, u.known, prefix))
  {
    hide After, Legal, Leaked, Lost, Departed, DesiredKeys, OldKeys, NewKeys, KeysOf, Stops, Gone, Exec, SyncScript;
    hide IsListed, Untouched, NobodyTakes;
    OneMoreSync(x, s, run, t);
    EngineIsKnownAndDrift(x, s, run);
    var u := After(x, s, run);
    AllWritten(x, u, t);
    KeysSplit(x, t.peers, u.known);
    SyncAssignsOwners(x, u.engine, t.peers, u.known, t.gone, prefix, k);
    if k in DesiredKeys(x, t.peers) {
      if OwnerOf(u.engine, prefix) == Some(k) {
        DesiredIsTouched(x, u.engine, t.peers, u.known, prefix, k);
      }
    } else {
      UntouchedIffNobodyTakes(x, u.engine, t.peers, u.known, prefix, k);
    }
  }

  /** Once lost, a peer stays lost while maps list it under its known text alone. */
  lemma {:induction false} LostStaysLost(x: Texts, s: Synced, run: seq<Sync>, t: Sync, k: WgKey)
    requires InStep(x, s) && Legal(x, s, run + [t]) && !Stops(x, After(x, s, run), t)
    requires var known := After(x, s, run).known;
             k in Lost(x, s, run) && k in OldKeys(x, t.peers, known) && k !in NewKeys(x, t.peers, known)
    ensures k in Lost(x, s, run + [t]) && k !in After(x, s, run + [t]).engine.peers
    ensures k in DesiredKeys(x, t.peers)
  {
    hide OldKeys, NewKeys, DesiredKeys, Departed, SyncStep, Stops;
    assert (run + [t])[..|run|] == run;
    EngineIsKnownAndDrift(x, s, run + [t]);
    KeysSplit(x, t.peers, After(x, s, run).known);
    OneMoreSync(x, s, run, t);
  }

  // ---------------------------------------------------------------- runs that go through

  ghost predicate AllGoThrough(x: Texts, s: Synced, run: seq<Sync>) {
    |run| == 0 ||
    (AllGoThrough(x, s, run[..|run| - 1]) && !Stops(x, After(x, s, run[..|run| - 1]), run[|run| - 1]))
  }

  /** No sync of the run that goes through brings a known peer back respelled. */
  ghost predicate NeverRespells(x: Texts, s: Synced, run: seq<Sync>) {
    |run| == 0 ||
    var before, t := run[..|run| - 1], run[|run| - 1];
    NeverRespells(x, s, before)
    && (Stops(x, After(x, s, before), t) || NoneRespelled(x, t.peers, After(x, s, before).known))
  }

  ghost predicate AlwaysInStep(x: Texts, s: Synced, run: seq<Sync>) {
    InStep(x, After(x, s, run)) && (|run| > 0 ==> AlwaysInStep(x, s, run[..|run| - 1]))
  }

  /**
   * A sync that goes through from a state in step: the engine is in step again, with exactly
   * the readable desired peers, if and only if no peer comes back respelled; then every
   * allowed IP has its desired owner.
   */
  lemma SyncKeepsStepIff(x: Texts, s: Synced, t: Sync)
    requires InStep(x, s) && Gone(x, t.peers, s.known, t.gone) && !Stops(x, s, t)
    ensures var u := SyncStep(x, s, t);
            && u.known == Seen(x, t.peers)
            && (InStep(x, u) <==> NoneRespelled(x, t.peers, s.known))
            && (u.engine.peers.Keys == DesiredKeys(x, t.peers) <==> NoneRespelled(x, t.peers, s.known))
            && (NoneRespelled(x, t.peers, s.known) ==> Owned(x, u.engine, t.peers))
  {
    hide Departed, DesiredKeys, OldKeys, NewKeys, KeysOf, SyncScript, Exec, OwnerOf, Gone;
    NoDrift(x, s);
    FinishedStep(x, s, t, {}, {});
    KeysSplit(x, t.peers, s.known);
    SyncOwns(x, s.engine, t.peers, s.known, t.gone);
    AllWritten(x, s, t);
  }

  /** A device that has synced nothing yet. */
  const START := Synced(EMPTY_ENGINE, {})

  lemma StartsInStep(x: Texts)
    ensures InStep(x, START)
  {
  }

  /**
   * In every run of syncs that go through, whatever the order of removals: `known` and the
   * engine agree throughout if and only if no map brings a known peer back respelled, and then
   * the engine holds exactly the readable peers of the last map and every allowed IP has its
   * desired owner.
   */
  lemma {:induction false} RunsStayInStepIff(x: Texts, run: seq<Sync>)
    requires Legal(x, START, run) && AllGoThrough(x, START, run)
    ensures AlwaysInStep(x, START, run) <==> NeverRespells(x, START, run)
    ensures NeverRespells(x, START, run) && |run| > 0 ==>
              var s, peers := After(x, START, run), run[|run| - 1].peers;
              s.engine.peers.Keys == DesiredKeys(x, peers) && s.known == Seen(x, peers) && Owned(x, s.engine, peers)
  {
    hide InStep, NoneRespelled, DesiredKeys, Owned, SyncStep, Stops, Gone;
    StartsInStep(x);
    if |run| > 0 {
      var before := run[..|run| - 1];
      RunsStayInStepIff(x, before);
      if InStep(x, After(x, START, before)) {
        SyncKeepsStepIff(x, After(x, START, before), run[|run| - 1]);
      }
    }
  }

  // ---------------------------------------------------------------- refusals only

  /** The engine fails nowhere but at lines it refuses. */
  ghost predicate OnlyRefusals(run: seq<Sync>) {
    forall i :: 0 <= i < |run| ==> run[i].failsAfter.None?
  }

  lemma RefusalRemovesNobody(x: Texts, s: Synced, t: Sync)
    requires t.failsAfter.None? && Stops(x, s, t)
    ensures Removed(WrittenBy(x, s, t)) == {}
  {
    hide Malformed, Shaped, Complete;
    SyncGoesThroughIff(x, s, t);
    var p :| p in t.peers && Malformed(x, p, s.known);
    var i :| 0 <= i < |t.peers| && t.peers[i] == p;
    StopsWithinBlocks(x, s, t, i);
    BlocksShape(x, t.peers[..i + 1], s.known, DesiredKeys(x, t.peers[..i + 1]), {});
  }

  /**
   * With an engine that fails nowhere but at lines it refuses, no peer is ever lost unless a
   * map brings it back respelled: the next sync that goes through aligns the peers if and only
   * if the map wants every leaked one and respells no known one.
   */
  lemma {:induction false} RefusalsOnlyLeak(x: Texts, s: Synced, run: seq<Sync>)
    requires InStep(x, s) && Legal(x, s, run) && NeverRespells(x, s, run) && OnlyRefusals(run)
    ensures Lost(x, s, run) == {}
  {
    hide Added, Removed, Dangling, DesiredKeys, OldKeys, NewKeys, Departed, Stops, SyncStep;
    if |run| > 0 {
      var before, t := run[..|run| - 1], run[|run| - 1];
      RefusalsOnlyLeak(x, s, before);
      if Stops(x, After(x, s, before), t) {
        RefusalRemovesNobody(x, After(x, s, before), t);
      }
    }
  }

  lemma {:induction false} RefusalsAlignIff(x: Texts, s: Synced, run: seq<Sync>, t: Sync)
    requires InStep(x, s) && Legal(x, s, run + [t]) && NeverRespells(x, s, run) && OnlyRefusals(run)
    requires !Stops(x, After(x, s, run), t)
    ensures After(x, s, run + [t]).engine.peers.Keys == DesiredKeys(x, t.peers) <==>
              Leaked(x, s, run) <= DesiredKeys(x, t.peers) && NoneRespelled(x, t.peers, After(x, s, run).known)
  {
    hide After, Legal, Leaked, Lost, NoneRespelled, DesiredKeys, OldKeys, NewKeys, NeverRespells;
    OneMoreSync(x, s, run, t);
    RefusalsOnlyLeak(x, s, run);
    RunAlignsIff(x, s, run, t);
  }

  // ---------------------------------------------------------------- retrying the same map

  lemma {:induction false} InterruptedDrift(x: Texts, s: Synced, peers: seq<Peer>, tries: seq<Sync>)
    requires InStep(x, s) && Legal(x, s, tries) && Interrupted(x, s, peers, tries)
    ensures After(x, s, tries).known == s.known
    ensures Leaked(x, s, tries) <= DesiredKeys(x, peers) && Lost(x, s, tries) <= Departed(x, peers, s.known)
  {
    hide Added, Removed, Dangling, Departed, DesiredKeys, OldKeys, NewKeys, KeysOf, Gone, WrittenBy;
    if |tries| > 0 {
      var before, t := tries[..|tries| - 1], tries[|tries| - 1];
      InterruptedDrift(x, s, peers, before);
      EngineIsKnownAndDrift(x, s, before);
      WrittenBounds(x, After(x, s, before), t);
      KeysSplit(x, peers, s.known);
    }
  }

  /**
   * Syncs that the engine interrupts, however often and at whatever lines, are made good by
   * the next sync of the same map that goes through if and only if no peer comes back
   * respelled: exactly the desired peers and owners remain.
   */
  lemma {:induction false} RetryRealignsIff(x: Texts, s: Synced, tries: seq<Sync>, t: Sync)
    requires InStep(x, s) && Legal(x, s, tries + [t])
    requires Interrupted(x, s, t.peers, tries) && !Stops(x, After(x, s, tries), t)
    ensures var v := After(x, s, tries + [t]);
            && (v.engine.peers.Keys == DesiredKeys(x, t.peers) <==> NoneRespelled(x, t.peers, s.known))
            && (NoneRespelled(x, t.peers, s.known) ==> Owned(x, v.engine, t.peers))
  {
    hide After, Legal, Interrupted, Leaked, Lost, Departed, DesiredKeys, OldKeys, NewKeys, KeysOf, SyncScript, Exec, Gone;
    hide Owned;
    OneMoreSync(x, s, tries, t);
    InterruptedDrift(x, s, t.peers, tries);
    RunAlignsIff(x, s, tries, t);
    EngineIsKnownAndDrift(x, s, tries);
    KeysSplit(x, t.peers, s.known);
    if NoneRespelled(x, t.peers, s.known) {
      SyncOwns(x, After(x, s, tries).engine, t.peers, s.known, t.gone);
      AllWritten(x, After(x, s, tries), t);
    }
  }

  lemma RefusedAfterFirst(x: Texts, p: Peer, bad: Peer)
    requires Readable(x, p) && !Malformed(x, p, {}) && Malformed(x, bad, {})
    ensures WrittenBy(x, START, Sync([p, bad], [], None)) == Block(x, p, false) + [PublicKey(KeyOf(x, bad))]
    ensures Stops(x, START, Sync([p, bad], [], None))
  {
    hide Block, AnyRefused;
    var t, b, c := Sync([p, bad], [], None), Block(x, p, false), Block(x, bad, false);
    assert [p, bad][..1] == [p] && [p][..0] == [];
    assert Blocks(x, [p], {}) == b;
    assert ScriptOf(x, START, t) == b + c;
    BlockRefused(x, p, false);
    MalformedBlock(x, bad);
    CutAtRefusal(x, b, c);
  }

  lemma {:induction false} CutAtRefusal(x: Texts, b: Script, c: Script)
    requires !AnyRefused(x, b) && |c| > 1 && !Refused(x, c[0]) && Refused(x, c[1])
    ensures FirstRefused(x, b + c) == |b| + 1 < |b + c| && (b + c)[..|b| + 1] == b + [c[0]]
  {
    var s := b + c;
    assert s[|b|] == c[0] && s[|b| + 1] == c[1];
    assert forall i :: 0 <= i < |b| ==> s[i] == b[i] && !Refused(x, b[i]);
  }

  lemma MalformedBlock(x: Texts, bad: Peer)
    requires Malformed(x, bad, {})
    ensures var c := Block(x, bad, false);
            |c| > 1 && c[0] == PublicKey(KeyOf(x, bad)) && c[1] == EndpointLine(x.initial(bad))
  {
    hide AllowedLines, Listed;
  }

  lemma AddedAlone(x: Texts, p: Peer, other: WgKey)
    requires Readable(x, p)
    ensures var e := Exec(EMPTY_ENGINE, Block(x, p, false) + [PublicKey(other)]);
            KeyOf(x, p) in e.peers && forall prefix :: prefix in Listed(p) ==> OwnerOf(e, prefix) == Some(KeyOf(x, p))
  {
    hide Block, ExecFrom, Listed;
    BlockEffect(x, EMPTY_ENGINE, Ignored, p, false);
    ExecOneMore(EMPTY_ENGINE, Block(x, p, false), PublicKey(other));
  }

  lemma EmptyMapWritesNothing(x: Texts, u: Synced)
    ensures SyncStep(x, u, Sync([], [], None)) == u
  {
  }

  /**
   * With another map the leftovers stay: when a map lists `p` and then a peer whose endpoint is
   * refused, and the next map lists neither, `p` stays in the engine and keeps its allowed IPs.
   */
  lemma {:induction false} RefusedMapLeaks(x: Texts, p: Peer, bad: Peer)
    requires Readable(x, p) && !Malformed(x, p, {}) && Malformed(x, bad, {})
    ensures var run, e := [Sync([p, bad], [], None), Sync([], [], None)], After(x, START, RefusedThenEmpty(p, bad)).engine;
            && run == RefusedThenEmpty(p, bad) && Legal(x, START, run) && DesiredKeys(x, []) == {}
            && KeyOf(x, p) in e.peers && forall prefix :: prefix in Listed(p) ==> OwnerOf(e, prefix) == Some(KeyOf(x, p))
  {
    hide Block, Effect, ExecFrom, Listed;
    var first, second := Sync([p, bad], [], None), Sync([], [], None);
    assert [first] + [second] == RefusedThenEmpty(p, bad) && [] + [first] == [first];
    OneMoreSync(x, START, [], first);
    OneMoreSync(x, START, [first], second);
    RefusedAfterFirst(x, p, bad);
    AddedAlone(x, p, KeyOf(x, bad));
    SyncGoesThroughIff(x, After(x, START, [first]), second);
    EmptyMapWritesNothing(x, After(x, START, [first]));
  }

  function RefusedThenEmpty(p: Peer, bad: Peer): seq<Sync> {
    [Sync([p, bad], [], None), Sync([], [], None)]
  }

  /**
   * The other way round, with an engine that fails by itself between two removals: a peer
   * removed by the interrupted sync and listed by the next map is never put back, because the
   * caller still takes it for known. Refusals alone never lead there (`RefusalsOnlyLeak`).
   */
  lemma {:induction false} InterruptedRemovalLoses(x: Texts, s: Synced, p: Peer, other: Pub)
    requires Readable(x, p) && x.parseKey(other).Some? && x.parseKey(other).value != KeyOf(x, p)
    requires InStep(x, s) && s.known == {p.publicKey, other}
    ensures var run := [Sync([], [p.publicKey, other], Some(2)), Sync([p], [other], None)];
            && Legal(x, s, run) && DesiredKeys(x, [p]) == {KeyOf(x, p)}
            && After(x, s, run).known == {p.publicKey} && After(x, s, run).engine.peers == map[]
  {
    hide SyncStep;
    var first, second := Sync([], [p.publicKey, other], Some(2)), Sync([p], [other], None);
    assert [first] + [second] == [first, second] && [] + [first] == [first];
    OneMoreSync(x, s, [], first);
    OneMoreSync(x, s, [first], second);
    FirstIsRemoved(x, s, p, other);
    OnlyKnownRelisted(x, SyncStep(x, s, first), p, other);
  }

  lemma FirstIsRemoved(x: Texts, s: Synced, p: Peer, other: Pub)
    requires Readable(x, p) && x.parseKey(other).Some? && x.parseKey(other).value != KeyOf(x, p)
    requires InStep(x, s) && s.known == {p.publicKey, other}
    ensures var u := SyncStep(x, s, Sync([], [p.publicKey, other], Some(2)));
            u.known == s.known && u.engine.Valid() && u.engine.peers.Keys == {x.parseKey(other).value}
  {
    hide Exec;
    var gone := [p.publicKey, other];
    var first := Sync([], gone, Some(2));
    assert gone[..1] == [p.publicKey] && gone[..1][..0] == [];
    assert Removals(x, gone[..1]) == [PublicKey(KeyOf(x, p)), Remove];
    var w := WrittenBy(x, s, first);
    assert w == [PublicKey(KeyOf(x, p)), Remove];
    assert KeyOf(x, p) in Removed(w) by {
      assert w[0].PublicKey? && w[1].Remove?;
    }
    assert KeysOf(x, s.known) == {KeyOf(x, p), x.parseKey(other).value};
    WrittenBounds(x, s, first);
  }

  lemma OnlyKnownRelisted(x: Texts, u: Synced, p: Peer, other: Pub)
    requires Readable(x, p) && x.parseKey(other).Some? && x.parseKey(other).value != KeyOf(x, p)
    requires u.known == {p.publicKey, other} && u.engine.Valid() && u.engine.peers.Keys == {x.parseKey(other).value}
    ensures var t := Sync([p], [other], None);
            && Gone(x, [p], u.known, [other]) && DesiredKeys(x, [p]) == {KeyOf(x, p)}
            && SyncStep(x, u, t).known == {p.publicKey} && SyncStep(x, u, t).engine.peers == map[]
  {
    hide Exec, SyncScript;
    assert Seen(x, [p]) == {p.publicKey};
    SyncedPeers(x, u.engine, [p], u.known, [other]);
    assert u.known - Seen(x, [p]) == {other};
    EmptyScript(x, [p], u.known, [other]);
    var t := Sync([p], [other], None);
    SyncGoesThroughIff(x, u, t);
    AllWritten(x, u, t);
  }

  /** Two texts of one key break the alignment: renaming a peer's key text removes the peer. */
  lemma AliasedKeyIsLost(x: Texts, e: Engine, old_: Pub, p: Peer)
    requires e.Valid() && old_ != p.publicKey && Readable(x, p) && x.parseKey(old_) == Some(KeyOf(x, p))
    ensures KeyOf(x, p) !in Exec(e, SyncScript(x, [p], {old_}, [old_])).peers
    ensures Gone(x, [p], {old_}, [old_]) && !NoneRespelled(x, [p], {old_})
  {
    assert Seen(x, [p]) == {p.publicKey};
    SyncedPeers(x, e, [p], {old_}, [old_]);
    assert old_ in {old_} - Seen(x, [p]);
    assert p in [p] && KeyOf(x, p) in DesiredKeys(x, [p]);
  }
}
