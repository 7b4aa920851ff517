/**
 * The relay server (internal/relay/server.go): challenge/response registration over the
 * maps `clients`, `byAddr` and `pending`, then forwarding between registered keys.
 *
 * The server is specified by `Step`, one received frame at a time, and every claim about a
 * whole run is a claim about its log: the frames that came in and the frames that went out.
 */
module RelayServer {
  import opened Net
  import opened RelayFrames

  const SECOND := 1_000_000_000
  const CLIENT_TTL := 40 * SECOND
  const CHALLENGE_TTL := 30 * SECOND
  const MAX_PACKET := 2048

  datatype Client = Client(addr: AddrPort, lastSeen: int)
  datatype Pending = Pending(nonce: Nonce, expires: int)

  /** The relay's ephemeral key pair. */
  datatype Identity = Identity(crypto: Crypto, priv: Key, pub: Key)

  datatype State = State(clients: map<Key, Client>, byAddr: map<AddrPort, Key>, pending: map<AddrPort, Pending>)

  /**
   * One frame as `handle` sees it. The handler reads the clock twice: `t0` when it checks
   * what is stored, `t1` when it stores or answers. `nonce` is what the random source
   * yields, None when it fails.
   */
  datatype Input = Input(pkt: seq<byte>, src: AddrPort, nonce: Option<Nonce>, t0: int, t1: int)
  datatype Sent = Sent(frame: seq<byte>, dst: AddrPort)

  const EMPTY := State(map[], map[], map[])

  // ---------------------------------------------------------------- one frame

  function RegisterStep(id: Identity, s: State, key: Key, i: Input): (State, Option<Sent>) {
    if key in s.clients && s.clients[key].addr == i.src && i.t0 - s.clients[key].lastSeen < CLIENT_TTL then
      (s.(clients := s.clients[key := Client(i.src, i.t1)]), Some(Sent(AckFrame(), i.src)))
    else if i.nonce.None? then
      (s, None)
    else
      (s.(pending := s.pending[i.src := Pending(i.nonce.value, i.t1 + CHALLENGE_TTL)]),
       Some(Sent(ChallengeFrame(id.pub, i.nonce.value), i.src)))
  }

  function ProofStep(id: Identity, s: State, p: Proof, i: Input): (State, Option<Sent>) {
    if !(i.src in s.pending && i.t0 < s.pending[i.src].expires && s.pending[i.src].nonce == p.nonce) then
      (s, None)
    else
      var spent := s.(pending := s.pending - {i.src});
      if !VerifyProof(id.crypto, id.priv, p.clientPub, p.nonce, p.mac) then
        (spent, None)
      else
        var byAddr := if p.clientPub in s.clients && s.clients[p.clientPub].addr != i.src
                      then s.byAddr - {s.clients[p.clientPub].addr} else s.byAddr;
        (State(s.clients[p.clientPub := Client(i.src, i.t1)], byAddr[i.src := p.clientPub], spent.pending),
         Some(Sent(AckFrame(), i.src)))
  }

  function ForwardStep(s: State, k: Keyed, i: Input): Option<Sent> {
    if i.src in s.byAddr && s.byAddr[i.src] in s.clients && k.key in s.clients then
      var sender, dst := s.clients[s.byAddr[i.src]], s.clients[k.key];
      if sender.addr == i.src && i.t1 - sender.lastSeen < CLIENT_TTL && i.t0 - dst.lastSeen < CLIENT_TTL then
        Some(Sent(RecvFrame(s.byAddr[i.src], k.payload), dst.addr))
      else
        None
    else
      None
  }

  function RegisterIn(i: Input): Option<Key> {
    if IsFrame(i.pkt) && FrameType(i.pkt) == TYPE_REGISTER && ParseKeyed(i.pkt).Some?
    then Some(ParseKeyed(i.pkt).value.key) else None
  }

  function ProofIn(i: Input): Option<Proof> {
    if IsFrame(i.pkt) && FrameType(i.pkt) == TYPE_PROOF then ParseProof(i.pkt) else None
  }

  function ForwardIn(i: Input): Option<Keyed> {
    if IsFrame(i.pkt) && FrameType(i.pkt) == TYPE_FORWARD && ParseKeyed(i.pkt).Some?
       && |ParseKeyed(i.pkt).value.payload| > 0
    then ParseKeyed(i.pkt) else None
  }

  /** What the server does with one frame: its next state, and the frame it sends if any. */
  function Step(id: Identity, s: State, i: Input): (State, Option<Sent>) {
    if RegisterIn(i).Some? then RegisterStep(id, s, RegisterIn(i).value, i)
    else if ProofIn(i).Some? then ProofStep(id, s, ProofIn(i).value, i)
    else if ForwardIn(i).Some? then (s, ForwardStep(s, ForwardIn(i).value, i))
    else (s, None)
  }

  // ---------------------------------------------------------------- runs

  /** One line of the relay's traffic: a frame received and what it was answered with. */
  datatype Entry = Entry(inp: Input, out: Option<Sent>)
  type Log = seq<Entry>

  /** The state a log leads to. */
  function Replay(id: Identity, log: Log): State {
    if |log| == 0 then EMPTY else Step(id, Replay(id, Front(log)), Last(log).inp).0
  }

  /** The answers in the log are the ones the server gives. */
  predicate Genuine(id: Identity, log: Log) {
    |log| == 0 ||
    (Genuine(id, Front(log)) && Last(log).out == Step(id, Replay(id, Front(log)), Last(log).inp).1)
  }

  lemma {:induction false} GenuinePrefix(id: Identity, log: Log, n: nat)
    requires Genuine(id, log) && n <= |log|
    ensures Genuine(id, log[..n])
  {
    if n < |log| {
      GenuinePrefix(id, Front(log), n);
      assert Front(log)[..n] == log[..n];
    } else {
      assert log[..n] == log;
    }
  }

  /** The answer at any line of a genuine log is the step taken from the state before it. */
  lemma {:induction false} EntryIsStep(id: Identity, log: Log, n: nat)
    requires Genuine(id, log) && n < |log|
    ensures Genuine(id, log[..n])
    ensures log[n].out == Step(id, Replay(id, log[..n]), log[n].inp).1
  {
    GenuinePrefix(id, log, n);
    GenuinePrefix(id, log, n + 1);
    assert Front(log[..n + 1]) == log[..n];
  }

  // ---------------------------------------------------------------- the server

  class Server {
    const id: Identity
    var clients: map<Key, Client>
    var byAddr: map<AddrPort, Key>
    var pending: map<AddrPort, Pending>
    ghost var log: Log

    ghost function Maps(): State
      reads this
    {
      State(clients, byAddr, pending)
    }

    /** The maps are those of a genuine run whose traffic is `log`. */
    ghost predicate Valid()
      reads this
    {
      Genuine(id, log) && Maps() == Replay(id, log)
    }

    constructor (id: Identity)
      requires PublicKey(id.crypto, id.priv) == Some(id.pub)
      ensures Valid() && this.id == id && log == []
    {
      this.id := id;
      clients, byAddr, pending, log := map[], map[], map[], [];
    }

    method Handle(i: Input) returns (out: Option<Sent>)
      requires Valid()
      modifies this
      ensures Valid()
      ensures (Maps(), out) == Step(id, old(Maps()), i)
      ensures log == old(log) + [Entry(i, out)]
    {
      out := None;
      if IsFrame(i.pkt) {
        if FrameType(i.pkt) == TYPE_REGISTER {
          out := HandleRegister(i);
        } else if FrameType(i.pkt) == TYPE_PROOF {
          out := HandleProof(i);
        } else if FrameType(i.pkt) == TYPE_FORWARD {
          out := HandleForward(i);
        }
      }
      log := log + [Entry(i, out)];
      assert Front(log) == old(log);
    }

    method HandleRegister(i: Input) returns (out: Option<Sent>)
      requires IsFrame(i.pkt) && FrameType(i.pkt) == TYPE_REGISTER
      modifies this`clients, this`pending
      ensures (Maps(), out) == Step(id, old(Maps()), i)
    {
      out := None;
      var keyed := ParseKeyed(i.pkt);
      if keyed.None? {
        return;
      }
      var key := keyed.value.key;
      if key in clients && clients[key].addr == i.src && i.t0 - clients[key].lastSeen < CLIENT_TTL {
        clients := clients[key := Client(i.src, i.t1)];
        var ack := BuildAck();
        return Some(Sent(ack[..], i.src));
      }
      if i.nonce.None? {
        return;
      }
      pending := pending[i.src := Pending(i.nonce.value, i.t1 + CHALLENGE_TTL)];
      var challenge := BuildChallenge(id.pub, i.nonce.value);
      out := Some(Sent(challenge[..], i.src));
    }

    method HandleProof(i: Input) returns (out: Option<Sent>)
      requires IsFrame(i.pkt) && FrameType(i.pkt) == TYPE_PROOF
      modifies this`clients, this`byAddr, this`pending
      ensures (Maps(), out) == Step(id, old(Maps()), i)
    {
      out := None;
      var parsed := ParseProof(i.pkt);
      if parsed.None? {
        return;
      }
      var p := parsed.value;
      var valid := i.src in pending && i.t0 < pending[i.src].expires && pending[i.src].nonce == p.nonce;
      if valid {
        pending := pending - {i.src};
      }
      if !valid || !VerifyProof(id.crypto, id.priv, p.clientPub, p.nonce, p.mac) {
        return;
      }
      if p.clientPub in clients && clients[p.clientPub].addr != i.src {
        byAddr := byAddr - {clients[p.clientPub].addr};
      }
      clients := clients[p.clientPub := Client(i.src, i.t1)];
      byAddr := byAddr[i.src := p.clientPub];
      var ack := BuildAck();
      out := Some(Sent(ack[..], i.src));
    }

    method HandleForward(i: Input) returns (out: Option<Sent>)
      requires IsFrame(i.pkt) && FrameType(i.pkt) == TYPE_FORWARD
      ensures (Maps(), out) == Step(id, Maps(), i)
    {
      out := None;
      var keyed := ParseKeyed(i.pkt);
      if keyed.None? || |keyed.value.payload| == 0 {
        return;
      }
      var dstKey := keyed.value.key;
      var senderKnown := i.src in byAddr;
      var dstFresh := dstKey in clients && i.t0 - clients[dstKey].lastSeen < CLIENT_TTL;
      if !senderKnown || !dstFresh {
        return;
      }
      var srcKey := byAddr[i.src];
      if srcKey !in clients || clients[srcKey].addr != i.src || i.t1 - clients[srcKey].lastSeen >= CLIENT_TTL {
        return;
      }
      var recv := BuildRecv(srcKey, keyed.value.payload);
      out := Some(Sent(recv[..], clients[dstKey].addr));
    }

    /** The read loop: each datagram is cut to the 2048-byte buffer and its source unmapped. */
    method Serve(arrivals: seq<Input>) returns (outs: seq<Option<Sent>>)
      requires Valid()
      modifies this
      ensures Valid()
      ensures |outs| == |arrivals| && |log| == |old(log)| + |arrivals| && old(log) <= log
      ensures forall k :: 0 <= k < |arrivals| ==> log[|old(log)| + k] == Entry(AsRead(arrivals[k]), outs[k])
    {
      outs := [];
      for n := 0 to |arrivals|
        invariant Valid()
        invariant |outs| == n && |log| == |old(log)| + n && old(log) <= log
        invariant forall k :: 0 <= k < n ==> log[|old(log)| + k] == Entry(AsRead(arrivals[k]), outs[k])
      {
        var out := Handle(AsRead(arrivals[n]));
        outs := outs + [out];
      }
    }
  }

  function AsRead(i: Input): Input {
    i.(pkt := Truncated(i.pkt, MAX_PACKET), src := UnmapPort(i.src))
  }
}
