/**
 * The relay and the magic sockets together: registration of an honest client, delivery of a
 * relayed payload, and the one situation in which a registered client cannot speak.
 */
module RelayPath {
  import opened Net
  import opened RelayFrames
  import opened RelayServer
  import Sock = OmniSock

  const OVERHEAD := HEADER_LEN + KEY_LEN

  // ---------------------------------------------------------------- honest registration

  /** The server's state after handling frames one by one. */
  function RunAll(id: Identity, s: State, ins: seq<Input>): State
    decreases |ins|
  {
    if |ins| == 0 then s else RunAll(id, Step(id, s, ins[0]).0, ins[1..])
  }

  /** Frames from elsewhere do not touch the challenge an address has been sent. */
  lemma {:induction false} OthersKeepChallenge(id: Identity, s: State, ins: seq<Input>, a: AddrPort)
    requires a in s.pending && forall i :: i in ins ==> i.src != a
    ensures a in RunAll(id, s, ins).pending && RunAll(id, s, ins).pending[a] == s.pending[a]
    decreases |ins|
  {
    if |ins| > 0 {
      assert ins[0] in ins;
      OthersKeepChallenge(id, Step(id, s, ins[0]).0, ins[1..], a);
    }
  }

  /** A socket configured for the relay at `relay` with this private key. */
  ghost predicate Configured(c: Crypto, b: Sock.State, relay: AddrPort, priv: Key, pub: Key) {
    PublicKey(c, priv) == Some(pub) && b.relayAddr == Some(relay) && b.relayPriv == priv && b.relaySelfKey == pub
  }

  /** The REGISTER of a configured socket, as the server reads it. */
  function RegisterInput(b: Sock.State, a: AddrPort, nonce: Nonce, t0: int, t1: int): Input {
    Input(RegisterFrame(b.relaySelfKey), a, Some(nonce), t0, t1)
  }

  /** Either the key is already registered there and kept alive, or the client is challenged. */
  lemma RegisterIsAnswered(id: Identity, s: State, b: Sock.State, a: AddrPort, nonce: Nonce, t0: int, t1: int)
    ensures var i := RegisterInput(b, a, nonce, t0, t1);
            var (s', out) := Step(id, s, i);
            || (out == Some(Sent(AckFrame(), a)) && b.relaySelfKey in s'.clients
                && s'.clients[b.relaySelfKey] == Client(a, t1))
            || (out == Some(Sent(ChallengeFrame(id.pub, nonce), a))
                && a in s'.pending && s'.pending[a] == Pending(nonce, t1 + CHALLENGE_TTL))
  {
    KeyedRoundTrip(TYPE_REGISTER, b.relaySelfKey, [], []);
    assert Frame(TYPE_REGISTER, b.relaySelfKey + []) == RegisterFrame(b.relaySelfKey);
  }

  /** The socket answers its relay's challenge with its proof, and nobody else's. */
  lemma ChallengeIsProved(c: Crypto, b: Sock.State, relay: AddrPort, relayPub: Key, nonce: Nonce, src: AddrPort, now: int)
    requires b.relayAddr == Some(relay)
    ensures var (b', d) := Sock.PacketStep(c, b, ChallengeFrame(relayPub, nonce), src, now);
            d.Consumed? &&
            b'.sent == b.sent + if src == relay && Prove(c, b.relayPriv, relayPub, nonce).Some?
                                then [Datagram(Prove(c, b.relayPriv, relayPub, nonce).value, relay)] else []
  {
    ChallengeRoundTrip(relayPub, nonce, []);
    Sock.ProtocolsAreDisjoint(ChallengeFrame(relayPub, nonce));
  }

  lemma AckIsRecorded(c: Crypto, b: Sock.State, src: AddrPort, now: int, later: int)
    requires b.relayAddr.Some?
    ensures var (b', d) := Sock.PacketStep(c, b, AckFrame(), src, now);
            d.Consumed? && (Sock.RelayHealthyAt(b', later) <==> later - now < Sock.RELAY_HEALTHY_FOR)
  {
  }

  /**
   * Honest registration completes. Whatever the server's state, the challenge sent for an
   * honest REGISTER, answered by the socket within 30 s while any other addresses talk to the
   * server, leaves the client registered and speaking at its address, acknowledged, and its
   * socket healthy for 35 s from the ACK. The only way out is an X25519 that fails on the two keys.
   */
  lemma HonestRegistrationCompletes(id: Identity, s: State, b: Sock.State, relay: AddrPort, priv: Key, pub: Key,
                                    a: AddrPort, nonce: Nonce, r0: int, r1: int, others: seq<Input>,
                                    p0: int, p1: int, challengedAt: int, ackedAt: int, later: int)
    requires Commutes(id.crypto) && PublicKey(id.crypto, id.priv) == Some(id.pub)
    requires Configured(id.crypto, b, relay, priv, pub)
    requires forall i :: i in others ==> i.src != a
    requires p0 - r1 < CHALLENGE_TTL
    requires id.crypto.x25519(priv, id.pub).Some?
    ensures var (s1, out1) := Step(id, s, RegisterInput(b, a, nonce, r0, r1));
            out1 == Some(Sent(ChallengeFrame(id.pub, nonce), a)) ==>
              var b1 := Sock.PacketStep(id.crypto, b, out1.value.frame, relay, challengedAt).0;
              && |b1.sent| == |b.sent| + 1 && b1.sent[|b.sent|].peer == relay
              && var (s2, out2) := Step(id, RunAll(id, s1, others), Input(b1.sent[|b.sent|].pkt, a, None, p0, p1));
                 && out2 == Some(Sent(AckFrame(), a))
                 && pub in s2.clients && s2.clients[pub] == Client(a, p1)
                 && a in s2.byAddr && s2.byAddr[a] == pub
                 && (Sock.RelayHealthyAt(Sock.PacketStep(id.crypto, b1, out2.value.frame, relay, ackedAt).0, later) <==>
                     later - ackedAt < Sock.RELAY_HEALTHY_FOR)
  {
    var (s1, out1) := Step(id, s, RegisterInput(b, a, nonce, r0, r1));
    RegisterIsAnswered(id, s, b, a, nonce, r0, r1);
    if out1 == Some(Sent(ChallengeFrame(id.pub, nonce), a)) {
      ChallengeRoundTrip(id.pub, nonce, []);
      ChallengeIsProved(id.crypto, b, relay, id.pub, nonce, relay, challengedAt);
      HonestProofVerifies(id.crypto, priv, id.priv, id.pub, nonce);
      OthersKeepChallenge(id, s1, others, a);
      var b1 := Sock.PacketStep(id.crypto, b, out1.value.frame, relay, challengedAt).0;
      AckIsRecorded(id.crypto, b1, relay, ackedAt, later);
    }
  }

  // ---------------------------------------------------------------- relayed payloads

  /** What reaches WireGuard at B when A's socket sends `payload` to B by way of the relay. */
  function RelayedTo(id: Identity, s: State, i: Input, b: Sock.State, capacity: nat, relay: AddrPort, now: int)
    : Sock.Outcome
  {
    match Step(id, s, AsRead(i)).1
    case None => Sock.Consumed
    case Some(sent) => Sock.PacketStep(id.crypto, b, Truncated(sent.frame, capacity), relay, now).1
  }

  /** The frame header costs 38 bytes of every buffer a relayed payload goes through. */
  lemma TruncatedFrame(frameType: byte, key: Key, payload: seq<byte>, capacity: nat)
    requires capacity > OVERHEAD
    ensures Truncated(Frame(frameType, key + payload), capacity) ==
              Frame(frameType, key + Truncated(payload, capacity - OVERHEAD))
  {
  }

  /**
   * A relayed payload arrives intact, labelled with A's key, exactly when it fits behind the
   * 38-byte header in the relay's buffer and in the receiver's; a longer one arrives cut.
   */
  lemma RelayedPayloadArrives(id: Identity, s: State, keyA: Key, keyB: Key, srcA: AddrPort,
                              payload: seq<byte>, t0: int, t1: int,
                              b: Sock.State, capacity: nat, relay: AddrPort, now: int)
    requires |payload| > 0 && UnmapPort(srcA) == srcA
    requires srcA in s.byAddr && s.byAddr[srcA] == keyA
    requires keyA in s.clients && s.clients[keyA].addr == srcA && t1 - s.clients[keyA].lastSeen < CLIENT_TTL
    requires keyB in s.clients && t0 - s.clients[keyB].lastSeen < CLIENT_TTL
    ensures var out := Sock.Outgoing(Some(relay), [payload], Sock.ViaRelay(keyB));
            var i := Input(out[0].pkt, srcA, None, t0, t1);
            && (Step(id, s, AsRead(i)).1.Some? && Step(id, s, AsRead(i)).1.value.dst == s.clients[keyB].addr)
            && (RelayedTo(id, s, i, b, capacity, relay, now) == Sock.Handed(Sock.Delivery(payload, Sock.ViaRelay(keyA))) <==>
                OVERHEAD + |payload| <= MAX_PACKET && OVERHEAD + |payload| <= capacity)
            && (capacity > OVERHEAD ==> RelayedTo(id, s, i, b, capacity, relay, now).Handed?)
  {
    hide Step, Sock.PacketStep;
    var atRelay := Truncated(payload, MAX_PACKET - OVERHEAD);
    var i := Input(ForwardFrame(keyB, payload), srcA, None, t0, t1);
    TruncatedFrame(TYPE_FORWARD, keyB, payload, MAX_PACKET);
    assert AsRead(i) == Input(ForwardFrame(keyB, atRelay), srcA, None, t0, t1);
    ForwardIsRelayed(id, s, AsRead(i), keyB, atRelay);
    RecvIsDelivered(id.crypto, b, keyA, atRelay, capacity, relay, now);
  }

  lemma ForwardIsRelayed(id: Identity, s: State, i: Input, keyB: Key, payload: seq<byte>)
    requires i.pkt == ForwardFrame(keyB, payload) && |payload| > 0
    requires i.src in s.byAddr && s.byAddr[i.src] in s.clients && keyB in s.clients
    requires var cl := s.clients[s.byAddr[i.src]]; cl.addr == i.src && i.t1 - cl.lastSeen < CLIENT_TTL
    requires i.t0 - s.clients[keyB].lastSeen < CLIENT_TTL
    ensures Step(id, s, i) == (s, Some(Sent(RecvFrame(s.byAddr[i.src], payload), s.clients[keyB].addr)))
  {
    KeyedRoundTrip(TYPE_FORWARD, keyB, payload, []);
  }

  lemma RecvIsDelivered(c: Crypto, b: Sock.State, keyA: Key, payload: seq<byte>, capacity: nat, relay: AddrPort, now: int)
    requires |payload| > 0
    ensures var d := Sock.PacketStep(c, b, Truncated(RecvFrame(keyA, payload), capacity), relay, now).1;
            && (capacity > OVERHEAD ==>
                  d == Sock.Handed(Sock.Delivery(Truncated(payload, capacity - OVERHEAD), Sock.ViaRelay(keyA))))
            && (capacity <= OVERHEAD ==> !d.Handed? || d.delivery.from.Direct?)
  {
    var f := RecvFrame(keyA, payload);
    if capacity > OVERHEAD {
      var cut := Truncated(payload, capacity - OVERHEAD);
      TruncatedFrame(TYPE_RECV, keyA, payload, capacity);
      KeyedRoundTrip(TYPE_RECV, keyA, cut, []);
      Sock.ProtocolsAreDisjoint(RecvFrame(keyA, cut));
    }
  }

  // ---------------------------------------------------------------- two keys at one address

  /** A log continued with the server's answer to one more frame. */
  function Extend(id: Identity, log: Log, i: Input): Log {
    log + [Entry(i, Step(id, Replay(id, log), i).1)]
  }

  lemma {:induction false} ExtendReplays(id: Identity, log: Log, i: Input)
    ensures Replay(id, Extend(id, log, i)) == Step(id, Replay(id, log), i).0
    ensures Genuine(id, log) ==> Genuine(id, Extend(id, log, i))
  {
  }

  /** The two frames by which whoever owns `key` registers it from `a` at time 0. */
  function Enrol(id: Identity, log: Log, key: Key, nonce: Nonce, mac: Mac, a: AddrPort): Log {
    Extend(id, Extend(id, log, Input(RegisterFrame(key), a, Some(nonce), 0, 0)),
           Input(ProofFrame(key, nonce, mac), a, None, 0, 0))
  }

  lemma {:induction false} EnrolRegisters(id: Identity, log: Log, key: Key, nonce: Nonce, mac: Mac, a: AddrPort)
    requires Genuine(id, log)
    requires key in Replay(id, log).clients ==> Replay(id, log).clients[key].addr != a
    requires ProofMac(id.crypto, id.priv, key, key, nonce) == Some(mac)
    ensures Genuine(id, Enrol(id, log, key, nonce, mac, a))
    ensures var s, s' := Replay(id, log), Replay(id, Enrol(id, log, key, nonce, mac, a));
            && s'.clients == s.clients[key := Client(a, 0)]
            && s'.byAddr == (if key in s.clients then s.byAddr - {s.clients[key].addr} else s.byAddr)[a := key]
  {
    var s := Replay(id, log);
    var register := Input(RegisterFrame(key), a, Some(nonce), 0, 0);
    KeyedRoundTrip(TYPE_REGISTER, key, [], []);
    assert Frame(TYPE_REGISTER, key + []) == RegisterFrame(key);
    ExtendReplays(id, log, register);
    ProofRoundTrip(key, nonce, mac, []);
    ExtendReplays(id, Extend(id, log, register), Input(ProofFrame(key, nonce, mac), a, None, 0, 0));
  }

  /**
   * Why `byAddr` is not the inverse of `clients`: when a first key has proved from an address
   * where a second one then proves, and the first moves elsewhere, the second key stays
   * registered and acknowledged there, but everything it sends is dropped.
   */
  lemma {:induction false} SecondKeyIsMute(id: Identity, key1: Key, key2: Key, a: AddrPort, b: AddrPort, n: Nonce,
                                           mac1: Mac, mac2: Mac, dst: Key, payload: seq<byte>, t: int)
    requires key1 != key2 && a != b && t < CLIENT_TTL
    requires ProofMac(id.crypto, id.priv, key1, key1, n) == Some(mac1)
    requires ProofMac(id.crypto, id.priv, key2, key2, n) == Some(mac2)
    ensures exists log :: Genuine(id, log)
              && var s := Replay(id, log);
                 && key2 in s.clients && s.clients[key2] == Client(a, 0) && a !in s.byAddr
                 && Step(id, s, Input(RegisterFrame(key2), a, None, t, t)).1 == Some(Sent(AckFrame(), a))
                 && Step(id, s, Input(ForwardFrame(dst, payload), a, None, t, t)).1 == None
  {
    hide Step, Enrol;
    var log1 := Enrol(id, [], key1, n, mac1, a);
    EnrolRegisters(id, [], key1, n, mac1, a);
    var log2 := Enrol(id, log1, key2, n, mac2, a);
    EnrolRegisters(id, log1, key2, n, mac2, a);
    var log3 := Enrol(id, log2, key1, n, mac1, b);
    EnrolRegisters(id, log2, key1, n, mac1, b);
    MuteAnswers(id, Replay(id, log3), key2, a, dst, payload, t);
  }

  lemma MuteAnswers(id: Identity, s: State, key: Key, a: AddrPort, dst: Key, payload: seq<byte>, t: int)
    requires key in s.clients && s.clients[key] == Client(a, 0) && a !in s.byAddr && t < CLIENT_TTL
    ensures Step(id, s, Input(RegisterFrame(key), a, None, t, t)).1 == Some(Sent(AckFrame(), a))
    ensures Step(id, s, Input(ForwardFrame(dst, payload), a, None, t, t)).1 == None
  {
    KeyedRoundTrip(TYPE_REGISTER, key, [], []);
    assert Frame(TYPE_REGISTER, key + []) == RegisterFrame(key);
    KeyedRoundTrip(TYPE_FORWARD, dst, payload, []);
  }
}
