/**
 * What the relay's traffic says about its registrations, and why the server agrees.
 *
 * A log is read as a history of events, using only the frames received and the frames sent.
 * Proofs, keep-alives and challenges are then followed through the history without looking
 * at the server's maps, and the maps are proved to hold exactly what the history says.
 */
module RelayHistory {
  import opened Net
  import opened RelayFrames
  import opened RelayServer

  datatype Event =
    | Proven(key: Key, nonce: Nonce, src: AddrPort, t0: int, t1: int)   // PROOF answered by ACK
    | Refused(nonce: Nonce, src: AddrPort, t0: int)                     // PROOF without answer
    | Refreshed(key: Key, src: AddrPort, t0: int, t1: int)              // REGISTER answered by ACK
    | Challenged(nonce: Nonce, src: AddrPort, t1: int)                  // REGISTER answered by CHALLENGE
    | Other

  type History = seq<Event>

  /** The event a line of traffic stands for. */
  function Observe(e: Entry): Event {
    var acked := e.out == Some(Sent(AckFrame(), e.inp.src));
    if ProofIn(e.inp).Some? then
      var p := ProofIn(e.inp).value;
      if acked then Proven(p.clientPub, p.nonce, e.inp.src, e.inp.t0, e.inp.t1)
      else Refused(p.nonce, e.inp.src, e.inp.t0)
    else if RegisterIn(e.inp).Some? then
      if acked then Refreshed(RegisterIn(e.inp).value, e.inp.src, e.inp.t0, e.inp.t1)
      else if e.out.Some? && ParseChallenge(e.out.value.frame).Some? then
        Challenged(ParseChallenge(e.out.value.frame).value.nonce, e.inp.src, e.inp.t1)
      else Other
    else Other
  }

  function Events(log: Log): (h: History)
    ensures |h| == |log|
  {
    seq(|log|, n requires 0 <= n < |log| => Observe(log[n]))
  }

  // ---------------------------------------------------------------- reading a history

  /** The latest proof of `key`. */
  function LatestProof(h: History, key: Key): (r: Option<nat>)
    ensures r.Some? ==> r.value < |h| && h[r.value].Proven? && h[r.value].key == key
                        && forall q :: r.value < q < |h| ==> !(h[q].Proven? && h[q].key == key)
    ensures r.None? ==> forall q :: 0 <= q < |h| ==> !(h[q].Proven? && h[q].key == key)
  {
    if |h| == 0 then None
    else if Last(h).Proven? && Last(h).key == key then Some(|h| - 1)
    else LatestProof(Front(h), key)
  }

  /** Event q proves, from another address, a key whose latest proof until then came from `a`. */
  predicate MovesAwayFrom(h: History, q: nat, a: AddrPort)
    requires q < |h|
  {
    h[q].Proven? && h[q].src != a
    && var p := LatestProof(h[..q], h[q].key); p.Some? && h[p.value].src == a
  }

  /** Event p proved a key from `a`; nothing since has proved from `a` or moved a key away from it. */
  ghost predicate HoldsAddress(h: History, p: nat, a: AddrPort) {
    p < |h| && h[p].Proven? && h[p].src == a
    && forall q {:trigger h[q]} :: p < q < |h| ==> !(h[q].Proven? && h[q].src == a) && !MovesAwayFrom(h, q, a)
  }

  /** The proof by which address `a` currently speaks. */
  function Holder(h: History, a: AddrPort): (r: Option<nat>)
    ensures r.Some? ==> r.value < |h| && h[r.value].Proven? && h[r.value].src == a
  {
    if |h| == 0 then None
    else if Last(h).Proven? && Last(h).src == a then Some(|h| - 1)
    else if MovesAwayFrom(h, |h| - 1, a) then None
    else Holder(Front(h), a)
  }

  lemma MovesAwayInPrefix(h: History, q: nat, a: AddrPort)
    requires q < |h| - 1
    ensures MovesAwayFrom(h, q, a) == MovesAwayFrom(Front(h), q, a)
  {
  }

  lemma {:induction false} HolderMeaning(h: History, a: AddrPort, p: nat)
    ensures Holder(h, a) == Some(p) <==> HoldsAddress(h, p, a)
  {
    if |h| > 0 {
      HolderMeaning(Front(h), a, p);
      forall q | 0 <= q < |h| - 1
        ensures MovesAwayFrom(h, q, a) == MovesAwayFrom(Front(h), q, a)
      {
        MovesAwayInPrefix(h, q, a);
      }
    }
  }

  /** An address only ever speaks for a key whose latest proof came from it. */
  lemma {:induction false} HolderIsLatestProof(h: History, a: AddrPort)
    requires Holder(h, a).Some?
    ensures LatestProof(h, h[Holder(h, a).value].key) == Holder(h, a)
  {
    if !(Last(h).Proven? && Last(h).src == a) {
      HolderIsLatestProof(Front(h), a);
    }
  }

  predicate KeepsAlive(e: Event, key: Key) {
    (e.Proven? || e.Refreshed?) && e.key == key
  }

  /** The events that kept `key` alive since its latest proof. */
  function LifeLine(h: History, key: Key): (c: seq<nat>)
    ensures forall x :: 0 <= x < |c| ==> c[x] < |h|
    ensures forall q :: 0 <= q < |h| && KeepsAlive(h[q], key) ==> |c| > 0 && q <= c[|c| - 1]
    ensures |c| > 0 ==> KeepsAlive(h[c[|c| - 1]], key)
  {
    if |h| == 0 then []
    else if Last(h).Proven? && Last(h).key == key then [|h| - 1]
    else if KeepsAlive(Last(h), key) then LifeLine(Front(h), key) + [|h| - 1]
    else LifeLine(Front(h), key)
  }

  /**
   * An unbroken chain from a proof of `key` at address `a`: every further link is an
   * acknowledged REGISTER from `a`, less than 40 s after the link before it.
   */
  ghost predicate Chain(h: History, c: seq<nat>, key: Key, a: AddrPort) {
    |c| > 0 && (forall x :: 0 <= x < |c| ==> c[x] < |h|)
    && h[c[0]].Proven? && h[c[0]].key == key && h[c[0]].src == a
    && (forall x :: 0 < x < |c| ==> LinkAfter(h, c[x - 1], c[x], key, a))
  }

  /** When an event was stored. */
  function TimeOf(e: Event): int {
    match e
    case Proven(_, _, _, _, t1) => t1
    case Refreshed(_, _, _, t1) => t1
    case Challenged(_, _, t1) => t1
    case Refused(_, _, t0) => t0
    case Other => 0
  }

  predicate LinkAfter(h: History, m: nat, n: nat, key: Key, a: AddrPort)
    requires m < |h| && n < |h|
  {
    m < n && h[n].Refreshed? && h[n].key == key && h[n].src == a && h[n].t0 - TimeOf(h[m]) < CLIENT_TTL
  }

  /** `e` carries the nonce of challenge `ch` within its 30 seconds (whatever its MAC). */
  predicate Answers(ch: Event, e: Event) {
    ch.Challenged? && (e.Proven? || e.Refused?) && e.src == ch.src && e.nonce == ch.nonce
    && e.t0 < ch.t1 + CHALLENGE_TTL
  }

  /** The challenge `a` has been sent and has neither answered nor had replaced. */
  function OpenChallenge(h: History, a: AddrPort): (r: Option<nat>)
    ensures r.Some? ==> r.value < |h| && h[r.value].Challenged? && h[r.value].src == a
                        && forall q :: r.value < q < |h| ==>
                             !(h[q].Challenged? && h[q].src == a) && !Answers(h[r.value], h[q])
  {
    if |h| == 0 then None
    else if Last(h).Challenged? && Last(h).src == a then Some(|h| - 1)
    else
      var open := OpenChallenge(Front(h), a);
      if open.Some? && Answers(h[open.value], Last(h)) then None else open
  }

  // ---------------------------------------------------------------- the maps explained by the history

  /** `key` is registered where it last proved, and was last seen at the end of its life line. */
  ghost predicate ClientExplained(h: History, key: Key, clients: map<Key, Client>) {
    var c := LifeLine(h, key);
    && (key in clients <==> LatestProof(h, key).Some?)
    && (key in clients ==>
          && Chain(h, c, key, clients[key].addr)
          && LatestProof(h, key) == Some(c[0])
          && clients[key].lastSeen == TimeOf(h[c[|c| - 1]]))
  }

  ghost predicate SpeakerExplained(h: History, a: AddrPort, byAddr: map<AddrPort, Key>) {
    && (a in byAddr <==> Holder(h, a).Some?)
    && (a in byAddr ==> byAddr[a] == h[Holder(h, a).value].key)
  }

  ghost predicate PendingExplained(h: History, a: AddrPort, pending: map<AddrPort, Pending>) {
    && (a in pending <==> OpenChallenge(h, a).Some?)
    && (a in pending ==>
          var ch := h[OpenChallenge(h, a).value]; pending[a] == Pending(ch.nonce, ch.t1 + CHALLENGE_TTL))
  }

  ghost predicate Explained(h: History, s: State) {
    && (forall k :: ClientExplained(h, k, s.clients))
    && (forall a :: SpeakerExplained(h, a, s.byAddr))
    && (forall a :: PendingExplained(h, a, s.pending))
  }

  predicate Spends(s: State, src: AddrPort, nonce: Nonce, t0: int) {
    src in s.pending && t0 < s.pending[src].expires && s.pending[src].nonce == nonce
  }

  /** The state after an event, computed from the event alone. */
  function Apply(s: State, e: Event): State {
    match e
    case Proven(key, _, src, _, t1) =>
      var byAddr := if key in s.clients && s.clients[key].addr != src
                    then s.byAddr - {s.clients[key].addr} else s.byAddr;
      State(s.clients[key := Client(src, t1)], byAddr[src := key], s.pending - {src})
    case Refused(nonce, src, t0) =>
      if Spends(s, src, nonce, t0) then s.(pending := s.pending - {src}) else s
    case Refreshed(key, src, _, t1) => s.(clients := s.clients[key := Client(src, t1)])
    case Challenged(nonce, src, t1) => s.(pending := s.pending[src := Pending(nonce, t1 + CHALLENGE_TTL)])
    case Other => s
  }

  /** Acknowledgements are only given where the maps allow it. */
  predicate Lawful(s: State, e: Event) {
    match e
    case Proven(_, nonce, src, t0, _) => Spends(s, src, nonce, t0)
    case Refreshed(key, src, t0, _) =>
      key in s.clients && s.clients[key].addr == src && t0 - s.clients[key].lastSeen < CLIENT_TTL
    case _ => true
  }

  /** What the server does is what the event it leaves in the log says, and the event is lawful. */
  lemma StepIsEvent(id: Identity, s: State, e: Entry)
    requires e.out == Step(id, s, e.inp).1
    ensures Step(id, s, e.inp).0 == Apply(s, Observe(e)) && Lawful(s, Observe(e))
    ensures Observe(e).Proven? ==>
              var p := ProofIn(e.inp).value;
              exists shared :: id.crypto.x25519(id.priv, p.clientPub) == Some(shared)
                               && p.mac == id.crypto.hmac(shared, p.nonce + p.clientPub)
  {
    FrameDecomposes(AckFrame());
    if e.inp.nonce.Some? {
      ChallengeRoundTrip(id.pub, e.inp.nonce.value, []);
      assert |ChallengeFrame(id.pub, e.inp.nonce.value)| != |AckFrame()|;
    }
  }

  lemma ChainExtends(h: History, c: seq<nat>, key: Key, a: AddrPort)
    requires |h| > 0 && Chain(Front(h), c, key, a)
    ensures Chain(h, c, key, a)
  {
  }

  lemma ChainGrows(h: History, c: seq<nat>, key: Key, a: AddrPort)
    requires |h| > 0 && Chain(Front(h), c, key, a)
    requires var e := Last(h);
             e.Refreshed? && e.key == key && e.src == a && e.t0 - TimeOf(h[c[|c| - 1]]) < CLIENT_TTL
    ensures Chain(h, c + [|h| - 1], key, a)
  {
    ChainExtends(h, c, key, a);
    assert LinkAfter(h, c[|c| - 1], |h| - 1, key, a);
  }

  lemma OnlyKeepAlivesMoveClients(s: State, e: Event, k: Key)
    ensures var clients := Apply(s, e).clients;
            && (k in clients <==> k in s.clients || KeepsAlive(e, k))
            && (k in clients ==> clients[k] == if KeepsAlive(e, k) then Client(e.src, e.t1) else s.clients[k])
  {
  }

  lemma ClientStep(h: History, s: State, k: Key)
    requires |h| > 0 && Lawful(s, Last(h)) && ClientExplained(Front(h), k, s.clients)
    ensures ClientExplained(h, k, Apply(s, Last(h)).clients)
  {
    var e, c := Last(h), LifeLine(Front(h), k);
    OnlyKeepAlivesMoveClients(s, e, k);
    hide Apply;
    if e.Proven? && e.key == k {
      assert LifeLine(h, k) == [|h| - 1];
    } else if k in s.clients {
      hide Chain;
      if e.Refreshed? && e.key == k {
        ChainGrows(h, c, k, s.clients[k].addr);
        assert LifeLine(h, k) == c + [|h| - 1];
      } else {
        ChainExtends(h, c, k, s.clients[k].addr);
      }
    }
  }

  lemma SpeakerStep(h: History, s: State, a: AddrPort)
    requires |h| > 0 && Lawful(s, Last(h)) && SpeakerExplained(Front(h), a, s.byAddr)
    requires Last(h).Proven? ==> ClientExplained(Front(h), Last(h).key, s.clients)
    ensures SpeakerExplained(h, a, Apply(s, Last(h)).byAddr)
  {
  }

  lemma PendingStep(h: History, s: State, a: AddrPort)
    requires |h| > 0 && Lawful(s, Last(h)) && PendingExplained(Front(h), a, s.pending)
    ensures PendingExplained(h, a, Apply(s, Last(h)).pending)
  {
  }

  lemma EventsFront(log: Log)
    requires |log| > 0
    ensures Events(log) == Events(Front(log)) + [Observe(Last(log))]
    ensures Front(Events(log)) == Events(Front(log)) && Last(Events(log)) == Observe(Last(log))
  {
  }

  /** In every run, each of the three maps is exactly what the traffic so far says it should be. */
  lemma {:induction false} RunExplained(id: Identity, log: Log)
    requires Genuine(id, log)
    ensures Explained(Events(log), Replay(id, log))
  {
    if |log| > 0 {
      var h, s := Events(log), Replay(id, Front(log));
      RunExplained(id, Front(log));
      EventsFront(log);
      StepIsEvent(id, s, Last(log));
      forall k ensures ClientExplained(h, k, Apply(s, Last(h)).clients) { ClientStep(h, s, k); }
      forall a ensures SpeakerExplained(h, a, Apply(s, Last(h)).byAddr) { SpeakerStep(h, s, a); }
      forall a ensures PendingExplained(h, a, Apply(s, Last(h)).pending) { PendingStep(h, s, a); }
    }
  }

  lemma {:induction false} EventsPrefix(id: Identity, log: Log, n: nat)
    requires Genuine(id, log) && n < |log|
    ensures Events(log)[..n] == Events(log[..n])
    ensures Genuine(id, log[..n])
    ensures log[n].out == Step(id, Replay(id, log[..n]), log[n].inp).1
    ensures Explained(Events(log)[..n], Replay(id, log[..n]))
  {
    EntryIsStep(id, log, n);
    RunExplained(id, log[..n]);
    assert Events(log)[..n] == Events(log[..n]);
  }

  // ---------------------------------------------------------------- forwarding

  /** `key` is alive at `a`: its latest proof came from there, and a chain of keep-alives reaches `t`. */
  ghost predicate AliveAt(h: History, key: Key, a: AddrPort, t: int) {
    exists c :: Chain(h, c, key, a) && LatestProof(h, key) == Some(c[0])
                && t - TimeOf(h[c[|c| - 1]]) < CLIENT_TTL
  }

  /** `a` currently speaks for `key`. */
  ghost predicate SpeaksFor(h: History, a: AddrPort, key: Key) {
    exists p: nat :: HoldsAddress(h, p, a) && h[p].key == key
  }

  lemma SpeakerIs(h: History, s: State, a: AddrPort, key: Key)
    requires Explained(h, s)
    ensures SpeaksFor(h, a, key) <==> a in s.byAddr && s.byAddr[a] == key
    ensures a in s.byAddr ==> s.byAddr[a] in s.clients && s.clients[s.byAddr[a]].addr == a
  {
    assert SpeakerExplained(h, a, s.byAddr);
    if a in s.byAddr {
      var p := Holder(h, a).value;
      HolderMeaning(h, a, p);
      HolderIsLatestProof(h, a);
      assert ClientExplained(h, h[p].key, s.clients);
    }
    forall p: nat | HoldsAddress(h, p, a)
      ensures Holder(h, a) == Some(p)
    {
      HolderMeaning(h, a, p);
    }
  }

  /** The clock never runs backwards from one frame to the next. */
  ghost predicate ClockAdvances(log: Log) {
    forall m, n :: 0 <= m < n < |log| ==> log[m].inp.t1 <= log[n].inp.t1
  }

  /** Acknowledgements are stamped in order. */
  ghost predicate StampsAdvance(h: History) {
    forall m, n :: 0 <= m < n < |h| && Stamped(h[m]) && Stamped(h[n]) ==> TimeOf(h[m]) <= TimeOf(h[n])
  }

  predicate Stamped(e: Event) {
    e.Proven? || e.Refreshed?
  }

  lemma ClockStamps(log: Log, n: nat)
    requires ClockAdvances(log) && n <= |log|
    ensures StampsAdvance(Events(log)[..n])
  {
  }

  predicate RegisteredAt(s: State, key: Key, a: AddrPort, t: int) {
    key in s.clients && s.clients[key].addr == a && t - s.clients[key].lastSeen < CLIENT_TTL
  }

  lemma RegisteredIsAlive(h: History, s: State, key: Key, a: AddrPort, t: int)
    requires ClientExplained(h, key, s.clients) && RegisteredAt(s, key, a, t)
    ensures AliveAt(h, key, a, t)
  {
  }

  lemma AliveIsRegistered(h: History, s: State, key: Key, a: AddrPort, t: int)
    requires ClientExplained(h, key, s.clients) && StampsAdvance(h) && AliveAt(h, key, a, t)
    ensures RegisteredAt(s, key, a, t)
  {
    hide LifeLine, LatestProof, LinkAfter, StampsAdvance;
    var c := LifeLine(h, key);
    var d :| Chain(h, d, key, a) && LatestProof(h, key) == Some(d[0])
             && t - TimeOf(h[d[|d| - 1]]) < CLIENT_TTL;
    ChainKeepsAlive(h, d, key, a);
    LaterIsNotEarlier(h, d[|d| - 1], c[|c| - 1]);
  }

  lemma LaterIsNotEarlier(h: History, m: nat, n: nat)
    requires StampsAdvance(h) && m <= n < |h| && Stamped(h[m]) && Stamped(h[n])
    ensures TimeOf(h[m]) <= TimeOf(h[n])
  {
  }

  lemma ChainKeepsAlive(h: History, c: seq<nat>, key: Key, a: AddrPort)
    requires Chain(h, c, key, a)
    ensures c[|c| - 1] < |h| && KeepsAlive(h[c[|c| - 1]], key)
  {
    if |c| > 1 {
      assert LinkAfter(h, c[|c| - 2], c[|c| - 1], key, a);
    }
  }

  /** Forwarding, in terms of the maps. */
  lemma ForwardStepIff(id: Identity, s: State, i: Input, key: Key, dst: AddrPort)
    requires ForwardIn(i).Some?
    requires i.src in s.byAddr ==> s.byAddr[i.src] in s.clients && s.clients[s.byAddr[i.src]].addr == i.src
    ensures var f := ForwardIn(i).value;
            Step(id, s, i).1 == Some(Sent(RecvFrame(key, f.payload), dst)) <==>
              i.src in s.byAddr && s.byAddr[i.src] == key
              && RegisteredAt(s, key, i.src, i.t1) && RegisteredAt(s, f.key, dst, i.t0)
    ensures Step(id, s, i).1.Some? ==>
              i.src in s.byAddr
              && Step(id, s, i).1.value.frame == RecvFrame(s.byAddr[i.src], ForwardIn(i).value.payload)
  {
    var f := ForwardIn(i).value;
    KeyedRoundTrip(TYPE_RECV, key, f.payload, []);
    if i.src in s.byAddr {
      KeyedRoundTrip(TYPE_RECV, s.byAddr[i.src], f.payload, []);
    }
  }

  /**
   * Forwarding, in terms of traffic alone. In every run, a FORWARD from `src` is relayed as a
   * packet from `key` to address `dst` exactly when `src` speaks for `key` by its latest proof,
   * `key` is alive at `src` and the destination key is alive at `dst`.
   * The direction from answer to traffic needs no assumption on the clock (RelayedOnlyIf).
   */
  lemma {:induction false} RelayedExactlyIf(id: Identity, log: Log, n: nat, key: Key, dst: AddrPort)
    requires Genuine(id, log) && n < |log| && ForwardIn(log[n].inp).Some?
    requires ClockAdvances(log)
    ensures var i, f, h := log[n].inp, ForwardIn(log[n].inp).value, Events(log)[..n];
            log[n].out == Some(Sent(RecvFrame(key, f.payload), dst)) <==>
              && SpeaksFor(h, i.src, key) && AliveAt(h, key, i.src, i.t1)
              && AliveAt(h, f.key, dst, i.t0)
  {
    hide Step, Replay, Genuine, ForwardIn, AliveAt, SpeaksFor, ClockAdvances, StampsAdvance, RecvFrame, RegisteredAt, Observe;
    var i, f, h, s := log[n].inp, ForwardIn(log[n].inp).value, Events(log)[..n], Replay(id, log[..n]);
    EventsPrefix(id, log, n);
    ClockStamps(log, n);
    assert ClientExplained(h, key, s.clients) && ClientExplained(h, f.key, s.clients);
    SpeakerIs(h, s, i.src, key);
    ForwardStepIff(id, s, i, key, dst);
    if RegisteredAt(s, key, i.src, i.t1) {
      RegisteredIsAlive(h, s, key, i.src, i.t1);
    }
    if AliveAt(h, key, i.src, i.t1) {
      AliveIsRegistered(h, s, key, i.src, i.t1);
    }
    if RegisteredAt(s, f.key, dst, i.t0) {
      RegisteredIsAlive(h, s, f.key, dst, i.t0);
    }
    if AliveAt(h, f.key, dst, i.t0) {
      AliveIsRegistered(h, s, f.key, dst, i.t0);
    }
  }

  /**
   * Whatever the clock does, a frame is relayed only under the key its source address last
   * proved, only while both ends are alive, and only to the address the destination proved from.
   */
  lemma {:induction false} RelayedOnlyIf(id: Identity, log: Log, n: nat)
    requires Genuine(id, log) && n < |log| && log[n].out.Some?
    requires IsFrame(log[n].out.value.frame) && FrameType(log[n].out.value.frame) == TYPE_RECV
    ensures ForwardIn(log[n].inp).Some?
    ensures var i, f, h := log[n].inp, ForwardIn(log[n].inp).value, Events(log)[..n];
            exists key :: log[n].out.value.frame == RecvFrame(key, f.payload)
                          && SpeaksFor(h, i.src, key)
                          && AliveAt(h, key, i.src, i.t1)
                          && AliveAt(h, f.key, log[n].out.value.dst, i.t0)
  {
    var i, h, s := log[n].inp, Events(log)[..n], Replay(id, log[..n]);
    EventsPrefix(id, log, n);
    FrameDecomposes(AckFrame());
    if i.nonce.Some? {
      ChallengeRoundTrip(id.pub, i.nonce.value, []);
    }
    var f, key := ForwardIn(i).value, s.byAddr[i.src];
    SpeakerIs(h, s, i.src, key);
    ForwardStepIff(id, s, i, key, log[n].out.value.dst);
    RegisteredIsAlive(h, s, key, i.src, i.t1);
    RegisteredIsAlive(h, s, f.key, log[n].out.value.dst, i.t0);
  }

  // ---------------------------------------------------------------- challenges

  /**
   * Every accepted proof verifies, and spends a challenge of its own: one sent earlier to the
   * same address with the same nonce, less than 30 s before, neither replaced nor spent since.
   */
  lemma {:induction false} ProofSpendsItsChallenge(id: Identity, log: Log, n: nat)
    requires Genuine(id, log) && n < |log| && Events(log)[n].Proven?
    ensures var h, p := Events(log), ProofIn(log[n].inp).value;
            && (exists shared :: id.crypto.x25519(id.priv, p.clientPub) == Some(shared)
                                 && p.mac == id.crypto.hmac(shared, p.nonce + p.clientPub))
            && OpenChallenge(h[..n], h[n].src).Some?
            && Answers(h[OpenChallenge(h[..n], h[n].src).value], h[n])
  {
    EventsPrefix(id, log, n);
    var s := Replay(id, log[..n]);
    StepIsEvent(id, s, log[n]);
    assert PendingExplained(Events(log)[..n], log[n].inp.src, s.pending);
  }

  /**
   * Exactly when a proof is accepted: its address has an open challenge with that nonce, less
   * than 30 s old, and the MAC is the one computed over nonce and claimed key with the secret
   * the relay shares with that key. Any other is dropped without an answer.
   */
  lemma {:induction false} ProofAcceptedIff(id: Identity, log: Log, n: nat, key: Key, nonce: Nonce, mac: Mac)
    requires Genuine(id, log) && n < |log| && log[n].inp.pkt == ProofFrame(key, nonce, mac)
    ensures var h, src := Events(log), log[n].inp.src;
            var open := OpenChallenge(h[..n], src);
            log[n].out == (
              if open.Some? && h[open.value].nonce == nonce && log[n].inp.t0 - h[open.value].t1 < 30_000_000_000
                 && exists shared :: id.crypto.x25519(id.priv, key) == Some(shared)
                                     && mac == id.crypto.hmac(shared, nonce + key)
              then Some(Sent(AckFrame(), src)) else None)
  {
    hide Replay, Genuine, Observe;
    ProofRoundTrip(key, nonce, mac, []);
    EventsPrefix(id, log, n);
    var s := Replay(id, log[..n]);
    assert PendingExplained(Events(log)[..n], log[n].inp.src, s.pending);
  }

  /**
   * How a REGISTER is answered: with an ACK exactly when its key is alive at its address, and
   * otherwise with a fresh challenge, unless the random source fails.
   */
  lemma {:induction false} RegisterAnsweredIff(id: Identity, log: Log, n: nat, key: Key)
    requires Genuine(id, log) && n < |log| && log[n].inp.pkt == RegisterFrame(key)
    requires ClockAdvances(log)
    ensures var i, h := log[n].inp, Events(log)[..n];
            log[n].out == (if AliveAt(h, key, i.src, i.t0) then Some(Sent(AckFrame(), i.src))
                           else if i.nonce.Some? then Some(Sent(ChallengeFrame(id.pub, i.nonce.value), i.src))
                           else None)
  {
    hide Replay, Genuine, AliveAt, ClockAdvances, StampsAdvance, Observe, RegisteredAt, ClientExplained;
    var i, h, s := log[n].inp, Events(log)[..n], Replay(id, log[..n]);
    KeyedRoundTrip(TYPE_REGISTER, key, [], []);
    assert Frame(TYPE_REGISTER, key + []) == RegisterFrame(key);
    EventsPrefix(id, log, n);
    ClockStamps(log, n);
    RegisterIffRegistered(id, s, i, key);
    if RegisteredAt(s, key, i.src, i.t0) {
      RegisteredIsAlive(h, s, key, i.src, i.t0);
    }
    if AliveAt(h, key, i.src, i.t0) {
      AliveIsRegistered(h, s, key, i.src, i.t0);
    }
  }

  lemma RegisterIffRegistered(id: Identity, s: State, i: Input, key: Key)
    requires RegisterIn(i) == Some(key)
    ensures Step(id, s, i).1 == if RegisteredAt(s, key, i.src, i.t0) then Some(Sent(AckFrame(), i.src))
                                else if i.nonce.Some? then Some(Sent(ChallengeFrame(id.pub, i.nonce.value), i.src))
                                else None
  {
  }

  /** Two accepted proofs never spend the same challenge. */
  lemma {:induction false} ProofsSpendDistinctChallenges(id: Identity, log: Log, m: nat, n: nat)
    requires Genuine(id, log) && m < n < |log| && Events(log)[m].Proven? && Events(log)[n].Proven?
    ensures var h := Events(log); OpenChallenge(h[..m], h[m].src) != OpenChallenge(h[..n], h[n].src)
  {
    var h := Events(log);
    ProofSpendsItsChallenge(id, log, m);
    ProofSpendsItsChallenge(id, log, n);
    var j := OpenChallenge(h[..m], h[m].src).value;
    assert h[..n][m] == h[m] && h[..n][j] == h[j];
  }

  lemma SpentStaysSpent(h: History, m: nat, n: nat)
    requires m < n <= |h| && (h[m].Proven? || h[m].Refused?)
    requires OpenChallenge(h[..m], h[m].src).Some?
    requires Answers(h[OpenChallenge(h[..m], h[m].src).value], h[m])
    requires forall q :: m < q < n ==> !(h[q].Challenged? && h[q].src == h[m].src)
    ensures OpenChallenge(h[..n], h[m].src).None?
  {
  }

  /**
   * A nonce can be tried once: after any PROOF carrying the open challenge's nonce, even one
   * whose MAC is then refused, no proof from that address is accepted until a new challenge.
   */
  lemma {:induction false} AnsweredChallengeIsSpent(id: Identity, log: Log, m: nat, n: nat)
    requires Genuine(id, log) && m < n < |log|
    requires var h := Events(log);
             && (h[m].Proven? || h[m].Refused?)
             && OpenChallenge(h[..m], h[m].src).Some?
             && Answers(h[OpenChallenge(h[..m], h[m].src).value], h[m])
             && forall q :: m < q < n ==> !(h[q].Challenged? && h[q].src == h[m].src)
    ensures var h := Events(log); !(h[n].Proven? && h[n].src == h[m].src)
  {
    var h := Events(log);
    SpentStaysSpent(h, m, n);
    if h[n].Proven? && h[n].src == h[m].src {
      ProofSpendsItsChallenge(id, log, n);
    }
  }

  // ---------------------------------------------------------------- byAddr against clients

  /** `byAddr` is a partial inverse of `clients` in every reachable state. */
  lemma {:induction false} ByAddrInvertsClients(id: Identity, log: Log, a: AddrPort)
    requires Genuine(id, log) && a in Replay(id, log).byAddr
    ensures var s := Replay(id, log);
            s.byAddr[a] in s.clients && s.clients[s.byAddr[a]].addr == a
  {
    RunExplained(id, log);
    SpeakerIs(Events(log), Replay(id, log), a, Replay(id, log).byAddr[a]);
  }

  /**
   * The converse needs its condition: a registered key can speak from its address exactly
   * when, since its latest proof, nobody proved from that address and no key moved away from it.
   */
  lemma {:induction false} RegisteredKeySpeaksIff(id: Identity, log: Log, key: Key)
    requires Genuine(id, log) && key in Replay(id, log).clients
    ensures var s, a := Replay(id, log), Replay(id, log).clients[key].addr;
            LatestProof(Events(log), key).Some? &&
            (a in s.byAddr && s.byAddr[a] == key <==>
               HoldsAddress(Events(log), LatestProof(Events(log), key).value, a))
  {
    var h, s, a := Events(log), Replay(id, log), Replay(id, log).clients[key].addr;
    RunExplained(id, log);
    SpeakerIs(h, s, a, key);
    assert ClientExplained(h, key, s.clients);
    HolderMeaning(h, a, LatestProof(h, key).value);
    assert SpeakerExplained(h, a, s.byAddr);
    if Holder(h, a).Some? {
      HolderIsLatestProof(h, a);
    }
  }

  /** No key is ever spoken for from two addresses. */
  lemma OneAddressPerKey(h: History, a: AddrPort, b: AddrPort, key: Key)
    requires SpeaksFor(h, a, key) && SpeaksFor(h, b, key)
    ensures a == b
  {
    var p: nat :| HoldsAddress(h, p, a) && h[p].key == key;
    var q: nat :| HoldsAddress(h, q, b) && h[q].key == key;
    HolderMeaning(h, a, p);
    HolderMeaning(h, b, q);
    HolderIsLatestProof(h, a);
    HolderIsLatestProof(h, b);
  }

  ghost predicate OneKeyPerAddress(h: History) {
    forall m, n :: 0 <= m < |h| && 0 <= n < |h| && h[m].Proven? && h[n].Proven? && h[m].src == h[n].src ==>
      h[m].key == h[n].key
  }

  /** When no address proves two keys, the two maps are exact inverses. */
  lemma {:induction false} MapsAreInverse(id: Identity, log: Log)
    requires Genuine(id, log) && OneKeyPerAddress(Events(log))
    ensures var s := Replay(id, log);
            forall key, a :: (key in s.clients && s.clients[key].addr == a) <==> (a in s.byAddr && s.byAddr[a] == key)
  {
    hide Replay, Genuine, Observe;
    var h, s := Events(log), Replay(id, log);
    RunExplained(id, log);
    forall key, a
      ensures (key in s.clients && s.clients[key].addr == a) <==> (a in s.byAddr && s.byAddr[a] == key)
    {
      SpeakerIs(h, s, a, key);
      if key in s.clients && s.clients[key].addr == a {
        RegisteredKeySpeaksIff(id, log, key);
        assert ClientExplained(h, key, s.clients);
        var p := LatestProof(h, key).value;
        forall q | p < q < |h|
          ensures !(h[q].Proven? && h[q].src == a) && !MovesAwayFrom(h, q, a)
        {
          assert forall m :: 0 <= m < q ==> h[..q][m] == h[m];
        }
      }
    }
  }
}
