/**
 * The magic socket (internal/omnisock/bind.go): one UDP socket shared by WireGuard, STUN,
 * disco probes and the relay, told apart packet by packet on reception.
 */
module OmniSock {
  import opened Net
  import opened RelayFrames
  import opened Disco
  import Stun

  const RELAY_HEALTHY_FOR := 35_000_000_000

  /** Where a packet handed to WireGuard came from, and where its answers should go. */
  datatype Endpoint = Direct(ap: AddrPort) | ViaRelay(peerKey: Key)

  /** A datagram waiting in the socket, with the clock reading of the moment it is handled. */
  datatype Arrival = Arrival(pkt: seq<byte>, src: AddrPort, now: int)

  /** A packet handed to WireGuard. */
  datatype Delivery = Delivery(payload: seq<byte>, from: Endpoint)

  datatype Pong = Pong(id: ProbeID, from: AddrPort)
  datatype StunReply = StunReply(channel: nat, mapped: AddrPort)

  /**
   * The socket's fields, together with what it has done to the outside: datagrams written,
   * pong callbacks made, and STUN answers put on their requesters' channels.
   */
  datatype State = State(
    stunTx: map<Stun.TxID, nat>, nextChannel: nat, hasPongHandler: bool,
    relayAddr: Option<AddrPort>, relayPriv: Key, relaySelfKey: Key, relayLastAck: Option<int>,
    sent: seq<Datagram>, pongs: seq<Pong>, replies: seq<StunReply>)

  // ---------------------------------------------------------------- one packet

  function DiscoStep(s: State, pkt: seq<byte>, src: AddrPort): State
    requires IsDisco(pkt)
  {
    var (msgType, id) := DecodeDisco(pkt);
    if msgType == DISCO_PING then s.(sent := s.sent + [Datagram(DiscoBytes(DISCO_PONG, id), src)])
    else if msgType == DISCO_PONG && s.hasPongHandler then s.(pongs := s.pongs + [Pong(id, src)])
    else s
  }

  /** The packet on which the STUN parser leaves its slice and the program panics. */
  predicate Crashes(pkt: seq<byte>) {
    Stun.ParsedResponse(pkt) == Stun.OutOfRange
  }

  /** How a packet ends: used up by the socket, handed to WireGuard, or with a panic. */
  datatype Outcome = Consumed | Handed(delivery: Delivery) | Panicked

  function StunStep(s: State, pkt: seq<byte>): State {
    match Stun.ParsedResponse(pkt)
    case Found(id, mapped) =>
      if id in s.stunTx
      then s.(stunTx := s.stunTx - {id}, replies := s.replies + [StunReply(s.stunTx[id], mapped)])
      else s
    case _ => s
  }

  /** The proof the socket owes for a packet, if it is a challenge from its own relay. */
  function ProofFor(c: Crypto, s: State, pkt: seq<byte>, src: AddrPort): Option<seq<byte>> {
    if IsFrame(pkt) && FrameType(pkt) == TYPE_CHALLENGE && ParseChallenge(pkt).Some? && s.relayAddr == Some(src)
    then Prove(c, s.relayPriv, ParseChallenge(pkt).value.relayPub, ParseChallenge(pkt).value.nonce)
    else None
  }

  function RelayStep(c: Crypto, s: State, pkt: seq<byte>, src: AddrPort, now: int): (State, Outcome)
    requires IsFrame(pkt)
  {
    if FrameType(pkt) == TYPE_ACK then (s.(relayLastAck := Some(now)), Consumed)
    else if FrameType(pkt) == TYPE_CHALLENGE then
      match ProofFor(c, s, pkt, src)
      case Some(proof) => (s.(sent := s.sent + [Datagram(proof, src)]), Consumed)
      case None => (s, Consumed)
    else if FrameType(pkt) == TYPE_RECV && ParseKeyed(pkt).Some? && |ParseKeyed(pkt).value.payload| > 0 then
      (s, Handed(Delivery(ParseKeyed(pkt).value.payload, ViaRelay(ParseKeyed(pkt).value.key))))
    else (s, Consumed)
  }

  function PacketStep(c: Crypto, s: State, pkt: seq<byte>, src: AddrPort, now: int): (State, Outcome) {
    if IsDisco(pkt) then (DiscoStep(s, pkt, src), Consumed)
    else if Stun.IsBindingResponse(pkt) then
      if Crashes(pkt) then (s, Panicked) else (StunStep(s, pkt), Consumed)
    else if IsFrame(pkt) then RelayStep(c, s, pkt, src, now)
    else (s, Handed(Delivery(pkt, Direct(src))))
  }

  /** One arrival, as a socket with buffers of this capacity reads it. */
  function ArrivalStep(c: Crypto, s: State, a: Arrival, capacity: nat): (State, Outcome) {
    PacketStep(c, s, Truncated(a.pkt, capacity), UnmapPort(a.src), a.now)
  }

  /** One call of `receive`: packets are consumed up to the first one meant for WireGuard, or to a panic. */
  function ReceiveStep(c: Crypto, s: State, capacity: nat, inbox: seq<Arrival>)
    : (r: (State, seq<Arrival>, Outcome))
    ensures !r.2.Consumed? ==> |r.1| < |inbox|
    ensures r.2.Consumed? ==> r.1 == []
    decreases |inbox|
  {
    if |inbox| == 0 then (s, [], Consumed)
    else
      var (s', o) := ArrivalStep(c, s, inbox[0], capacity);
      if o.Consumed? then ReceiveStep(c, s', capacity, inbox[1..]) else (s', inbox[1..], o)
  }

  /**
   * Everything `receive` hands over when WireGuard calls it until the socket is empty or the
   * program has panicked, and whether it has.
   */
  function Drain(c: Crypto, s: State, capacity: nat, inbox: seq<Arrival>): (r: (State, seq<Delivery>, bool))
    decreases |inbox|
  {
    var (s', rest, o) := ReceiveStep(c, s, capacity, inbox);
    if o.Handed? then
      var (s'', ds, panicked) := Drain(c, s', capacity, rest); (s'', [o.delivery] + ds, panicked)
    else (s', [], o.Panicked?)
  }

  // ---------------------------------------------------------------- the stream filter

  // what is expected is read off the bytes of the packets, not off the steps above

  /** A disco probe of this type: the magic, the type, twelve bytes of id. */
  predicate IsProbe(pkt: seq<byte>, msgType: byte) {
    |pkt| == 18 && pkt[..6] == [0xC5, 0x4F, 0x4D, 0x4E, 0x49, msgType]
  }

  /** A relay frame of this type. */
  predicate IsRelayed(pkt: seq<byte>, frameType: byte) {
    |pkt| >= 6 && pkt[..6] == [0xC6, 0x4F, 0x4D, 0x4E, 0x52, frameType]
  }

  /** Neither disco, nor a STUN response, nor a relay frame. */
  predicate IsForWireGuard(pkt: seq<byte>) {
    && !(|pkt| == 18 && pkt[..5] == [0xC5, 0x4F, 0x4D, 0x4E, 0x49])
    && !(|pkt| >= 20 && pkt[..2] == [1, 1] && pkt[4..8] == [0x21, 0x12, 0xA4, 0x42])
    && !(|pkt| >= 6 && pkt[..5] == [0xC6, 0x4F, 0x4D, 0x4E, 0x52])
  }

  /** What one arrival contributes to WireGuard's input, whatever the state of the socket. */
  function Delivered(a: Arrival, capacity: nat): seq<Delivery> {
    var pkt := Truncated(a.pkt, capacity);
    if IsForWireGuard(pkt) then [Delivery(pkt, Direct(UnmapPort(a.src)))]
    else if IsRelayed(pkt, 4) && |pkt| > 38 then [Delivery(pkt[38..], ViaRelay(pkt[6..38]))]
    else []
  }

  function AllDelivered(inbox: seq<Arrival>, capacity: nat): seq<Delivery> {
    if |inbox| == 0 then [] else Delivered(inbox[0], capacity) + AllDelivered(inbox[1..], capacity)
  }

  /** What one arrival makes the socket write: a pong for a ping, a proof for its relay's challenge. */
  function Answered(c: Crypto, s: State, a: Arrival, capacity: nat): seq<Datagram> {
    var pkt, src := Truncated(a.pkt, capacity), UnmapPort(a.src);
    if IsProbe(pkt, 1) then [Datagram([0xC5, 0x4F, 0x4D, 0x4E, 0x49, 2] + pkt[6..18], src)]
    else if IsRelayed(pkt, 5) && |pkt| == 54 && s.relayAddr == Some(src)
            && Prove(c, s.relayPriv, pkt[6..38], pkt[38..54]).Some? then
      [Datagram(Prove(c, s.relayPriv, pkt[6..38], pkt[38..54]).value, src)]
    else []
  }

  function AllAnswered(c: Crypto, s: State, inbox: seq<Arrival>, capacity: nat): seq<Datagram> {
    if |inbox| == 0 then [] else Answered(c, s, inbox[0], capacity) + AllAnswered(c, s, inbox[1..], capacity)
  }

  /** The pong an arrival brings to the handler: twelve bytes of id, and where it came from. */
  function Heard(a: Arrival, capacity: nat): seq<Pong> {
    var pkt := Truncated(a.pkt, capacity);
    if IsProbe(pkt, 2) then [Pong(pkt[6..18], UnmapPort(a.src))] else []
  }

  function AllHeard(inbox: seq<Arrival>, capacity: nat): seq<Pong> {
    if |inbox| == 0 then [] else Heard(inbox[0], capacity) + AllHeard(inbox[1..], capacity)
  }

  /** The transaction id an arrival answers, and with which address. */
  function AnswersTo(a: Arrival, capacity: nat): Option<(Stun.TxID, AddrPort)> {
    match Stun.ParsedResponse(Truncated(a.pkt, capacity))
    case Found(id, mapped) => Some((id, mapped))
    case _ => None
  }

  predicate AnswersID(a: Arrival, capacity: nat, id: Stun.TxID) {
    AnswersTo(a, capacity).Some? && AnswersTo(a, capacity).value.0 == id
  }

  /** Arrival `i` is the first answer to a request that was waiting. */
  predicate FirstAnswer(waiting: map<Stun.TxID, nat>, inbox: seq<Arrival>, i: nat, capacity: nat)
    requires i < |inbox|
  {
    AnswersTo(inbox[i], capacity).Some? &&
    var id := AnswersTo(inbox[i], capacity).value.0;
    id in waiting && forall j :: 0 <= j < i ==> !AnswersID(inbox[j], capacity, id)
  }

  /** For each first answer to a waiting request, its address on that request's channel, in order. */
  function AllReplied(waiting: map<Stun.TxID, nat>, inbox: seq<Arrival>, capacity: nat): seq<StunReply> {
    if |inbox| == 0 then []
    else
      var n := |inbox| - 1;
      AllReplied(waiting, inbox[..n], capacity) +
      if FirstAnswer(waiting, inbox, n, capacity)
      then [StunReply(waiting[AnswersTo(inbox[n], capacity).value.0], AnswersTo(inbox[n], capacity).value.1)] else []
  }

  /** The requests still waiting: those no arrival answers. */
  function StillWaiting(waiting: map<Stun.TxID, nat>, inbox: seq<Arrival>, capacity: nat): map<Stun.TxID, nat> {
    map id | id in waiting && (forall a :: a in inbox ==> !AnswersID(a, capacity, id)) :: waiting[id]
  }

  /** Going through the arrivals from the front comes to the same. */
  lemma {:induction false} RepliedFromFront(waiting: map<Stun.TxID, nat>, a: Arrival, later: seq<Arrival>, capacity: nat)
    ensures AllReplied(waiting, [a] + later, capacity) ==
              AllReplied(waiting, [a], capacity) + AllReplied(StillWaiting(waiting, [a], capacity), later, capacity)
    ensures StillWaiting(waiting, [a] + later, capacity) ==
              StillWaiting(StillWaiting(waiting, [a], capacity), later, capacity)
    decreases |later|
  {
    hide AnswersTo, AllReplied;
    var all := [a] + later;
    assert forall x :: x in all <==> x == a || x in later;
    if |later| > 0 {
      var n := |later| - 1;
      RepliedFromFront(waiting, a, later[..n], capacity);
      assert all[..n + 1] == [a] + later[..n];
      FirstAnswerBehind(waiting, a, later, n, capacity);
      AllRepliedSnoc(waiting, all, capacity);
      AllRepliedSnoc(StillWaiting(waiting, [a], capacity), later, capacity);
    } else {
      assert all == [a];
      NothingReplied(StillWaiting(waiting, [a], capacity), capacity);
    }
  }

  lemma {:induction false} NothingReplied(waiting: map<Stun.TxID, nat>, capacity: nat)
    ensures AllReplied(waiting, [], capacity) == [] && StillWaiting(waiting, [], capacity) == waiting
  {
  }

  lemma {:induction false} AllRepliedSnoc(waiting: map<Stun.TxID, nat>, inbox: seq<Arrival>, capacity: nat)
    requires |inbox| > 0
    ensures var n := |inbox| - 1;
            AllReplied(waiting, inbox, capacity) == AllReplied(waiting, inbox[..n], capacity) +
              if FirstAnswer(waiting, inbox, n, capacity)
              then [StunReply(waiting[AnswersTo(inbox[n], capacity).value.0], AnswersTo(inbox[n], capacity).value.1)] else []
  {
  }

  lemma FirstAnswerBehind(waiting: map<Stun.TxID, nat>, a: Arrival, later: seq<Arrival>, n: nat, capacity: nat)
    requires n < |later|
    ensures FirstAnswer(waiting, [a] + later, n + 1, capacity) <==>
              FirstAnswer(StillWaiting(waiting, [a], capacity), later, n, capacity)
  {
    hide AnswersTo;
    var all := [a] + later;
    assert all[0] == a && forall j :: 0 <= j < |later| ==> all[j + 1] == later[j];
    if AnswersTo(later[n], capacity).Some? {
      var id := AnswersTo(later[n], capacity).value.0;
      assert id in StillWaiting(waiting, [a], capacity) <==> id in waiting && !AnswersID(a, capacity, id);
      if FirstAnswer(waiting, all, n + 1, capacity) {
        assert !AnswersID(all[0], capacity, id);
        forall j | 0 <= j < n
          ensures !AnswersID(later[j], capacity, id)
        {
          assert !AnswersID(all[j + 1], capacity, id);
        }
      }
    }
  }

  /** No packet belongs to two of the protocols. */
  lemma ProtocolsAreDisjoint(pkt: seq<byte>)
    ensures !(IsDisco(pkt) && Stun.IsBindingResponse(pkt))
    ensures !(IsDisco(pkt) && IsFrame(pkt))
    ensures !(Stun.IsBindingResponse(pkt) && IsFrame(pkt))
  {
  }

  /** No WireGuard message, one type byte in 1..4 and three zero bytes, is intercepted. */
  lemma WireGuardPassesThrough(pkt: seq<byte>)
    requires |pkt| >= 4 && 1 <= pkt[0] <= 4 && pkt[1] == pkt[2] == pkt[3] == 0
    ensures IsForWireGuard(pkt)
  {
  }

  lemma TypeByte(pkt: seq<byte>, magic: seq<byte>, t: byte)
    requires |magic| == 5 && |pkt| >= 6
    ensures pkt[..6] == magic + [t] <==> pkt[..5] == magic && pkt[5] == t
  {
    assert pkt[..6] == pkt[..5] + [pkt[5]];
    if pkt[..6] == magic + [t] {
      assert pkt[..5] == pkt[..6][..5] == magic;
      assert pkt[5] == pkt[..6][5];
    }
  }

  lemma FrameMagic(pkt: seq<byte>)
    ensures IsFrame(pkt) <==> |pkt| >= 6 && pkt[..5] == MAGIC
  {
    if |pkt| >= 6 {
      assert pkt[..5] == [pkt[0]] + pkt[1..5];
      assert MAGIC == [0xC6] + MAGIC[1..5];
      assert pkt[..5][0] == pkt[0] && pkt[..5][1..] == pkt[1..5];
    }
  }

  /** The packet classes, byte for byte. */
  lemma ProtocolsOnTheWire(pkt: seq<byte>)
    ensures IsDisco(pkt) <==> |pkt| == 18 && pkt[..5] == [0xC5, 0x4F, 0x4D, 0x4E, 0x49]
    ensures IsDisco(pkt) ==> DecodeDisco(pkt) == (pkt[5], pkt[6..18])
    ensures forall t: byte :: IsProbe(pkt, t) <==> IsDisco(pkt) && DecodeDisco(pkt).0 == t
    ensures Stun.IsBindingResponse(pkt) <==>
              |pkt| >= 20 && pkt[..2] == [1, 1] && pkt[4..8] == [0x21, 0x12, 0xA4, 0x42]
    ensures IsFrame(pkt) <==> |pkt| >= 6 && pkt[..5] == [0xC6, 0x4F, 0x4D, 0x4E, 0x52]
    ensures forall t: byte :: IsRelayed(pkt, t) <==> IsFrame(pkt) && FrameType(pkt) == t
    ensures ParseKeyed(pkt) == if |pkt| < 38 then None else Some(Keyed(pkt[6..38], pkt[38..]))
    ensures ParseChallenge(pkt) == if |pkt| != 54 then None else Some(Challenge(pkt[6..38], pkt[38..54]))
  {
    FrameMagic(pkt);
    if |pkt| >= 6 {
      assert pkt[..6] == pkt[..5] + [pkt[5]];
      assert pkt[..|pkt|] == pkt;
      forall t: byte
        ensures IsProbe(pkt, t) <==> IsDisco(pkt) && pkt[5] == t
        ensures IsRelayed(pkt, t) <==> IsFrame(pkt) && pkt[5] == t
      {
        TypeByte(pkt, [0xC5, 0x4F, 0x4D, 0x4E, 0x49], t);
        TypeByte(pkt, [0xC6, 0x4F, 0x4D, 0x4E, 0x52], t);
        assert [0xC5, 0x4F, 0x4D, 0x4E, 0x49] + [t] == [0xC5, 0x4F, 0x4D, 0x4E, 0x49, t];
        assert [0xC6, 0x4F, 0x4D, 0x4E, 0x52] + [t] == [0xC6, 0x4F, 0x4D, 0x4E, 0x52, t];
      }
    }
    if |pkt| >= 20 {
      assert pkt[..2] == [pkt[0], pkt[1]] && pkt[0..2] == pkt[..2];
      BigEndian16RoundTrip(0, pkt[0..2]);
    }
  }

  lemma {:induction false} OneReplied(waiting: map<Stun.TxID, nat>, a: Arrival, capacity: nat)
    ensures AllReplied(waiting, [a], capacity) ==
              if AnswersTo(a, capacity).Some? && AnswersTo(a, capacity).value.0 in waiting
              then [StunReply(waiting[AnswersTo(a, capacity).value.0], AnswersTo(a, capacity).value.1)] else []
    ensures StillWaiting(waiting, [a], capacity) ==
              if AnswersTo(a, capacity).Some? then waiting - {AnswersTo(a, capacity).value.0} else waiting
  {
    hide AnswersTo;
    assert [a][..0] == [];
    NothingReplied(waiting, capacity);
    AllRepliedSnoc(waiting, [a], capacity);
    assert a in [a];
  }

  predicate CrashesAt(a: Arrival, capacity: nat) {
    Crashes(Truncated(a.pkt, capacity))
  }

  /** An ACK, from wherever it comes. */
  predicate IsAck(a: Arrival, capacity: nat) {
    IsRelayed(Truncated(a.pkt, capacity), 2)
  }

  /** What an arrival is expected to bring about, given how it ends. */
  ghost predicate Contributes(c: Crypto, s: State, a: Arrival, capacity: nat, t: State, o: Outcome) {
    && (o.Panicked? <==> CrashesAt(a, capacity))
    && Delivered(a, capacity) == (if o.Handed? then [o.delivery] else [])
    && t.sent == s.sent + Answered(c, s, a, capacity)
    && t.pongs == s.pongs + (if s.hasPongHandler then Heard(a, capacity) else [])
    && t.replies == s.replies + AllReplied(s.stunTx, [a], capacity)
    && t.stunTx == StillWaiting(s.stunTx, [a], capacity)
    && t.hasPongHandler == s.hasPongHandler
    && t.relayAddr == s.relayAddr && t.relayPriv == s.relayPriv
    && t.relayLastAck == (if IsAck(a, capacity) then Some(a.now) else s.relayLastAck)
    && (o.Panicked? ==> t == s)
  }

  lemma DiscoContribution(c: Crypto, s: State, a: Arrival, capacity: nat)
    requires IsDisco(Truncated(a.pkt, capacity))
    ensures Contributes(c, s, a, capacity, ArrivalStep(c, s, a, capacity).0, ArrivalStep(c, s, a, capacity).1)
  {
    hide Stun.ParsedResponse, Stun.IsBindingResponse, ParseKeyed, ParseChallenge, Prove, IsFrame;
    var pkt := Truncated(a.pkt, capacity);
    ProtocolsOnTheWire(pkt);
    ProtocolsAreDisjoint(pkt);
    OnlyResponsesParse(pkt);
    assert DiscoBytes(DISCO_PONG, pkt[6..18]) == [0xC5, 0x4F, 0x4D, 0x4E, 0x49, 2] + pkt[6..18];
    OneReplied(s.stunTx, a, capacity);
  }

  lemma OnlyResponsesParse(pkt: seq<byte>)
    ensures !Stun.IsBindingResponse(pkt) ==> Stun.ParsedResponse(pkt) == Stun.NotAResponse
  {
  }

  lemma StunContribution(c: Crypto, s: State, a: Arrival, capacity: nat)
    requires Stun.IsBindingResponse(Truncated(a.pkt, capacity))
    ensures Contributes(c, s, a, capacity, ArrivalStep(c, s, a, capacity).0, ArrivalStep(c, s, a, capacity).1)
  {
    hide Stun.ParsedResponse, Stun.IsBindingResponse, ParseKeyed, ParseChallenge, Prove, IsFrame, IsDisco;
    var pkt := Truncated(a.pkt, capacity);
    ProtocolsOnTheWire(pkt);
    ProtocolsAreDisjoint(pkt);
    OneReplied(s.stunTx, a, capacity);
  }

  lemma RelayContribution(c: Crypto, s: State, a: Arrival, capacity: nat)
    requires IsFrame(Truncated(a.pkt, capacity))
    ensures Contributes(c, s, a, capacity, ArrivalStep(c, s, a, capacity).0, ArrivalStep(c, s, a, capacity).1)
  {
    hide Stun.ParsedResponse, Stun.IsBindingResponse, ParseKeyed, ParseChallenge, Prove, IsFrame, IsDisco;
    var pkt := Truncated(a.pkt, capacity);
    ProtocolsOnTheWire(pkt);
    ProtocolsAreDisjoint(pkt);
    OnlyResponsesParse(pkt);
    OneReplied(s.stunTx, a, capacity);
  }

  lemma PlainContribution(c: Crypto, s: State, a: Arrival, capacity: nat)
    requires var pkt := Truncated(a.pkt, capacity); !IsDisco(pkt) && !Stun.IsBindingResponse(pkt) && !IsFrame(pkt)
    ensures Contributes(c, s, a, capacity, ArrivalStep(c, s, a, capacity).0, ArrivalStep(c, s, a, capacity).1)
  {
    hide Stun.ParsedResponse, Stun.IsBindingResponse, ParseKeyed, ParseChallenge, Prove, IsFrame, IsDisco;
    var pkt := Truncated(a.pkt, capacity);
    ProtocolsOnTheWire(pkt);
    OnlyResponsesParse(pkt);
    OneReplied(s.stunTx, a, capacity);
  }

  /**
   * What one packet brings about is read off its bytes: a delivery, a datagram written, a pong
   * heard, a STUN answer, an ACK or a panic.
   */
  lemma PacketContribution(c: Crypto, s: State, a: Arrival, capacity: nat)
    ensures Contributes(c, s, a, capacity, ArrivalStep(c, s, a, capacity).0, ArrivalStep(c, s, a, capacity).1)
  {
    hide Contributes, Stun.IsBindingResponse, IsFrame, IsDisco, ArrivalStep;
    var pkt := Truncated(a.pkt, capacity);
    if IsDisco(pkt) {
      DiscoContribution(c, s, a, capacity);
    } else if Stun.IsBindingResponse(pkt) {
      StunContribution(c, s, a, capacity);
    } else if IsFrame(pkt) {
      RelayContribution(c, s, a, capacity);
    } else {
      PlainContribution(c, s, a, capacity);
    }
  }

  /** The arrivals before the first on which the program panics, which are all when there is none. */
  function Survived(inbox: seq<Arrival>, capacity: nat): (r: seq<Arrival>)
    ensures r <= inbox
    ensures forall a :: a in r ==> !CrashesAt(a, capacity)
    ensures |r| < |inbox| ==> CrashesAt(inbox[|r|], capacity)
  {
    if |inbox| == 0 || CrashesAt(inbox[0], capacity) then [] else [inbox[0]] + Survived(inbox[1..], capacity)
  }

  ghost predicate IsLastAck(inbox: seq<Arrival>, i: nat, capacity: nat) {
    i < |inbox| && IsAck(inbox[i], capacity) && forall k :: i < k < |inbox| ==> !IsAck(inbox[k], capacity)
  }

  /** The moment of the last ACK among the arrivals, or else the one known before. */
  function LastAck(before: Option<int>, inbox: seq<Arrival>, capacity: nat): Option<int>
    decreases |inbox|
  {
    if |inbox| == 0 then before
    else LastAck(if IsAck(inbox[0], capacity) then Some(inbox[0].now) else before, inbox[1..], capacity)
  }

  lemma {:induction false} LastAckMeaning(before: Option<int>, inbox: seq<Arrival>, capacity: nat)
    ensures (forall a :: a in inbox ==> !IsAck(a, capacity)) ==> LastAck(before, inbox, capacity) == before
    ensures forall i: nat :: IsLastAck(inbox, i, capacity) ==> LastAck(before, inbox, capacity) == Some(inbox[i].now)
    decreases |inbox|
  {
    hide IsAck;
    if |inbox| > 0 {
      LastAckMeaning(if IsAck(inbox[0], capacity) then Some(inbox[0].now) else before, inbox[1..], capacity);
      forall i: nat | IsLastAck(inbox, i, capacity)
        ensures LastAck(before, inbox, capacity) == Some(inbox[i].now)
      {
        if i > 0 {
          assert IsLastAck(inbox[1..], i - 1, capacity);
        } else {
          assert forall a :: a in inbox[1..] ==> !IsAck(a, capacity);
        }
      }
    }
  }

  lemma {:induction false} AnsweredDependsOnRelay(c: Crypto, s: State, s': State, inbox: seq<Arrival>, capacity: nat)
    requires s.relayAddr == s'.relayAddr && s.relayPriv == s'.relayPriv
    ensures AllAnswered(c, s, inbox, capacity) == AllAnswered(c, s', inbox, capacity)
  {
    if |inbox| > 0 {
      AnsweredDependsOnRelay(c, s, s', inbox[1..], capacity);
    }
  }

  /** What reaches `t` from `s` over the arrivals `inbox` is what `rest` still gives from there. */
  ghost predicate Carries(c: Crypto, s: State, inbox: seq<Arrival>, t: State, rest: seq<Arrival>, capacity: nat) {
    && s.sent + AllAnswered(c, s, inbox, capacity) == t.sent + AllAnswered(c, t, rest, capacity)
    && s.pongs + (if s.hasPongHandler then AllHeard(inbox, capacity) else []) ==
       t.pongs + (if s.hasPongHandler then AllHeard(rest, capacity) else [])
    && s.replies + AllReplied(s.stunTx, inbox, capacity) == t.replies + AllReplied(t.stunTx, rest, capacity)
    && StillWaiting(s.stunTx, inbox, capacity) == StillWaiting(t.stunTx, rest, capacity)
    && t.hasPongHandler == s.hasPongHandler
    && t.relayAddr == s.relayAddr && t.relayPriv == s.relayPriv
    && LastAck(s.relayLastAck, inbox, capacity) == LastAck(t.relayLastAck, rest, capacity)
  }

  lemma ArrivalCarries(c: Crypto, s: State, a: Arrival, later: seq<Arrival>, capacity: nat)
    ensures Carries(c, s, [a] + later, ArrivalStep(c, s, a, capacity).0, later, capacity)
  {
    hide ArrivalStep, Answered, Delivered, CrashesAt, IsAck, Heard, AllReplied, StillWaiting;
    PacketContribution(c, s, a, capacity);
    var t, all := ArrivalStep(c, s, a, capacity).0, [a] + later;
    AnsweredDependsOnRelay(c, s, t, later, capacity);
    assert all[0] == a && all[1..] == later;
    assert s.sent + (Answered(c, s, a, capacity) + AllAnswered(c, s, later, capacity)) ==
           t.sent + AllAnswered(c, s, later, capacity);
    assert s.hasPongHandler ==>
             s.pongs + (Heard(a, capacity) + AllHeard(later, capacity)) == t.pongs + AllHeard(later, capacity);
    RepliedFromFront(s.stunTx, a, later, capacity);
    assert s.replies + (AllReplied(s.stunTx, [a], capacity) + AllReplied(t.stunTx, later, capacity)) ==
           t.replies + AllReplied(t.stunTx, later, capacity);
  }

  lemma {:induction false} ReceiveStepIsFilter(c: Crypto, s: State, capacity: nat, inbox: seq<Arrival>)
    ensures var (t, rest, o) := ReceiveStep(c, s, capacity, inbox);
            var before, after := Survived(inbox, capacity), if o.Panicked? then [] else Survived(rest, capacity);
            && AllDelivered(before, capacity) == (if o.Handed? then [o.delivery] else []) + AllDelivered(after, capacity)
            && Carries(c, s, before, t, after, capacity)
            && (o.Panicked? ==> |before| < |inbox|)
            && (!o.Panicked? ==> |inbox| - |before| == |rest| - |after|)
    decreases |inbox|
  {
    hide ArrivalStep, CrashesAt, Answered, Delivered, LastAck;
    if |inbox| > 0 {
      PacketContribution(c, s, inbox[0], capacity);
      var (s1, o) := ArrivalStep(c, s, inbox[0], capacity);
      if !o.Panicked? {
        ArrivalCarries(c, s, inbox[0], Survived(inbox[1..], capacity), capacity);
        if o.Consumed? {
          ReceiveStepIsFilter(c, s1, capacity, inbox[1..]);
        }
      }
    }
  }

  /**
   * `receive` is a stream filter: over any sequence of packets up to the first on which the
   * STUN parser panics, WireGuard is handed exactly its own packets and the unwrapped relayed
   * ones, in order, and the socket writes exactly one pong per ping and one proof per
   * challenge of its relay, in order. It gets through the whole sequence if and only if no
   * packet makes the parser panic.
   */
  lemma {:induction false} DrainIsFilter(c: Crypto, s: State, capacity: nat, inbox: seq<Arrival>)
    ensures var (t, deliveries, panicked) := Drain(c, s, capacity, inbox);
            var survived := Survived(inbox, capacity);
            && deliveries == AllDelivered(survived, capacity)
            && t.sent == s.sent + AllAnswered(c, s, survived, capacity)
            && t.pongs == s.pongs + (if s.hasPongHandler then AllHeard(survived, capacity) else [])
            && t.replies == s.replies + AllReplied(s.stunTx, survived, capacity)
            && t.stunTx == StillWaiting(s.stunTx, survived, capacity)
            && (panicked <==> exists a :: a in inbox && CrashesAt(a, capacity))
            && (!panicked <==> survived == inbox)
            && t.relayAddr == s.relayAddr && t.relayLastAck == LastAck(s.relayLastAck, survived, capacity)
    decreases |inbox|
  {
    hide CrashesAt, Delivered, Answered, Heard, AllReplied, StillWaiting, IsAck;
    ReceiveStepIsFilter(c, s, capacity, inbox);
    var (s', rest, o) := ReceiveStep(c, s, capacity, inbox);
    if o.Handed? {
      DrainIsFilter(c, s', capacity, rest);
    } else {
      NothingReplied(s'.stunTx, capacity);
    }
  }

  /**
   * After any traffic the relay counts as healthy for 35 s from the last ACK, whoever sent it;
   * traffic without one changes nothing.
   */
  lemma {:induction false} HealthyIffAckIsRecent(c: Crypto, s: State, capacity: nat, inbox: seq<Arrival>, now: int)
    ensures var t, survived := Drain(c, s, capacity, inbox).0, Survived(inbox, capacity);
            && (forall i: nat :: IsLastAck(survived, i, capacity) ==>
                  (RelayHealthyAt(t, now) <==> s.relayAddr.Some? && now < survived[i].now + RELAY_HEALTHY_FOR))
            && ((forall a :: a in survived ==> !IsAck(a, capacity)) ==>
                  (RelayHealthyAt(t, now) <==> RelayHealthyAt(s, now)))
  {
    hide IsLastAck, IsAck;
    DrainIsFilter(c, s, capacity, inbox);
    LastAckMeaning(s.relayLastAck, Survived(inbox, capacity), capacity);
  }

  // ---------------------------------------------------------------- STUN channels

  /** A request still waiting has had no answer, and no channel has had two. */
  ghost predicate ServedOnce(waiting: map<Stun.TxID, nat>, next: nat, replies: seq<StunReply>) {
    && (forall id :: id in waiting ==> waiting[id] < next)
    && (forall id, id' :: id in waiting && id' in waiting && waiting[id] == waiting[id'] ==> id == id')
    && (forall id, k :: id in waiting && 0 <= k < |replies| ==> replies[k].channel != waiting[id])
    && (forall k :: 0 <= k < |replies| ==> replies[k].channel < next)
    && (forall k, m :: 0 <= k < m < |replies| ==> replies[k].channel != replies[m].channel)
  }

  ghost predicate ChannelsServedOnce(s: State) {
    ServedOnce(s.stunTx, s.nextChannel, s.replies)
  }

  /** Channels hold one value, so a send that happens at most once per channel never blocks. */
  lemma {:induction false} ReceiveServesChannelsOnce(c: Crypto, s: State, capacity: nat, inbox: seq<Arrival>)
    requires ChannelsServedOnce(s)
    ensures ChannelsServedOnce(ReceiveStep(c, s, capacity, inbox).0)
    decreases |inbox|
  {
    hide PacketStep, ChannelsServedOnce;
    if |inbox| > 0 {
      var (s', o) := ArrivalStep(c, s, inbox[0], capacity);
      PacketServesChannelsOnce(c, s, Truncated(inbox[0].pkt, capacity), UnmapPort(inbox[0].src), inbox[0].now);
      if o.Consumed? {
        ReceiveServesChannelsOnce(c, s', capacity, inbox[1..]);
      }
    }
  }

  lemma PacketServesChannelsOnce(c: Crypto, s: State, pkt: seq<byte>, src: AddrPort, now: int)
    requires ChannelsServedOnce(s)
    ensures ChannelsServedOnce(PacketStep(c, s, pkt, src, now).0)
  {
    hide ServedOnce, Stun.IsBindingResponse, Stun.ParsedResponse, Prove;
    if !IsDisco(pkt) && Stun.IsBindingResponse(pkt) && Stun.ParsedResponse(pkt).Found? {
      var p := Stun.ParsedResponse(pkt);
      if p.id in s.stunTx {
        ServingOne(s.stunTx, s.nextChannel, s.replies, p.id, p.addr);
      }
    }
  }

  lemma ServingOne(waiting: map<Stun.TxID, nat>, next: nat, replies: seq<StunReply>, id: Stun.TxID, mapped: AddrPort)
    requires ServedOnce(waiting, next, replies) && id in waiting
    ensures ServedOnce(waiting - {id}, next, replies + [StunReply(waiting[id], mapped)])
  {
  }

  predicate RelayHealthyAt(s: State, now: int) {
    s.relayAddr.Some? && s.relayLastAck.Some? && now - s.relayLastAck.value < RELAY_HEALTHY_FOR
  }

  // ---------------------------------------------------------------- the socket

  datatype SendError = ErrClosed | ErrNoRelay

  /**
   * How a call of `receive` ends: with the packet in the first `size` bytes of the buffer, with
   * the error of a socket that is closed or has nothing more to read, or with a panic.
   */
  datatype Reception = Packet(size: nat, from: Endpoint) | NothingRead | Crash

  /** The outcome `o` as a caller holding the buffer sees it. */
  ghost predicate Shows(r: Reception, buf: array<byte>, o: Outcome)
    reads buf
  {
    match r
    case Packet(size, from) => size <= buf.Length && o == Handed(Delivery(buf[..size], from))
    case NothingRead => o.Consumed?
    case Crash => o.Panicked?
  }

  /** The datagrams a send to `ep` stands for. */
  function Outgoing(relay: Option<AddrPort>, bufs: seq<seq<byte>>, ep: Endpoint): (r: seq<Datagram>)
    requires ep.ViaRelay? ==> relay.Some?
    ensures |r| == |bufs|
  {
    seq(|bufs|, i requires 0 <= i < |bufs| =>
      if ep.Direct? then Datagram(bufs[i], ep.ap)
      else Datagram(ForwardFrame(ep.peerKey, bufs[i]), relay.value))
  }

  /** A send writes one datagram per buffer: the buffer itself, or FORWARD, key and buffer to the relay. */
  lemma OutgoingOnTheWire(relay: Option<AddrPort>, bufs: seq<seq<byte>>, ep: Endpoint, i: nat)
    requires (ep.ViaRelay? ==> relay.Some?) && i < |bufs|
    ensures Outgoing(relay, bufs, ep)[i] ==
              if ep.Direct? then Datagram(bufs[i], ep.ap)
              else Datagram([0xC6, 0x4F, 0x4D, 0x4E, 0x52, 3] + ep.peerKey + bufs[i], relay.value)
  {
    if ep.ViaRelay? {
      WireFormat(ep.peerKey, seq(NONCE_LEN, _ => 0), seq(MAC_LEN, _ => 0), bufs[i]);
    }
  }

  class Bind {
    const crypto: Crypto
    var isOpen: bool
    var stunTx: map<Stun.TxID, nat>
    var nextChannel: nat
    var hasPongHandler: bool
    var relayAddr: Option<AddrPort>
    var relayPriv: Key
    var relaySelfKey: Key
    var relayLastAck: Option<int>

    // the operating system's side of the socket, and the callbacks made
    var inbox: seq<Arrival>
    var sent: seq<Datagram>
    var pongs: seq<Pong>
    var replies: seq<StunReply>

    function Fields(): State
      reads this
    {
      State(stunTx, nextChannel, hasPongHandler, relayAddr, relayPriv, relaySelfKey, relayLastAck,
            sent, pongs, replies)
    }

    ghost predicate Valid()
      reads this
    {
      ChannelsServedOnce(Fields())
    }

    constructor (crypto: Crypto)
      ensures Valid() && this.crypto == crypto && !isOpen && relayAddr == None && relayLastAck == None
    {
      this.crypto := crypto;
      isOpen, stunTx, nextChannel, hasPongHandler := false, map[], 0, false;
      relayAddr, relayPriv, relaySelfKey, relayLastAck := None, seq(KEY_LEN, _ => 0), seq(KEY_LEN, _ => 0), None;
      inbox, sent, pongs, replies := [], [], [], [];
    }

    /** A write on a closed socket fails; on an open one the datagram leaves. */
    method WriteTo(pkt: seq<byte>, dst: AddrPort) returns (ok: bool)
      modifies this`sent
      ensures ok == isOpen
      ensures sent == if isOpen then old(sent) + [Datagram(pkt, dst)] else old(sent)
    {
      ok := isOpen;
      if ok {
        sent := sent + [Datagram(pkt, dst)];
      }
    }

    method HandleDisco(pkt: seq<byte>, src: AddrPort)
      requires isOpen && IsDisco(pkt)
      modifies this`sent, this`pongs
      ensures Fields() == DiscoStep(old(Fields()), pkt, src)
    {
      var (msgType, id) := DecodeDisco(pkt);
      if msgType == DISCO_PING {
        var pong := EncodeDisco(DISCO_PONG, id);
        var _ := WriteTo(pong[..], src);
      } else if msgType == DISCO_PONG {
        if hasPongHandler {
          pongs := pongs + [Pong(id, src)];
        }
      }
    }

    /** `crashed` when the parser panics: nothing after that runs. */
    method HandleStun(pkt: seq<byte>) returns (crashed: bool)
      modifies this`stunTx, this`replies
      ensures crashed <==> Crashes(pkt)
      ensures Fields() == if crashed then old(Fields()) else StunStep(old(Fields()), pkt)
    {
      var parsed := Stun.ParseBindingResponse(pkt);
      if parsed.Found? {
        if parsed.id in stunTx {
          var ch := stunTx[parsed.id];
          stunTx := stunTx - {parsed.id};
          replies := replies + [StunReply(ch, parsed.addr)];
        }
      }
      crashed := parsed.OutOfRange?;
    }

    method AnswerChallenge(pkt: seq<byte>, src: AddrPort)
      requires isOpen && IsFrame(pkt) && FrameType(pkt) == TYPE_CHALLENGE
      modifies this`sent
      ensures Fields() == RelayStep(crypto, old(Fields()), pkt, src, 0).0
    {
      var ch := ParseChallenge(pkt);
      if ch.Some? && relayAddr == Some(src) {
        var proof := BuildProof(crypto, relayPriv, ch.value.relayPub, ch.value.nonce);
        if proof.Some? {
          var _ := WriteTo(proof.value[..], src);
        }
      }
    }

    /** The switch of the loop, on the packet `buf[..n]`. */
    method Dispatch(buf: array<byte>, n: nat, src: AddrPort, now: int) returns (r: Reception)
      requires isOpen && n <= buf.Length
      modifies this`stunTx, this`relayLastAck, this`sent, this`pongs, this`replies, buf
      ensures var (s, o) := PacketStep(crypto, old(Fields()), old(buf[..n]), src, now);
              Fields() == s && Shows(r, buf, o)
    {
      var pkt := buf[..n];
      r := NothingRead;
      if IsDisco(pkt) {
        HandleDisco(pkt, src);
      } else if Stun.IsBindingResponse(pkt) {
        var crashed := HandleStun(pkt);
        if crashed {
          return Crash;
        }
      } else if IsFrame(pkt) {
        if FrameType(pkt) == TYPE_ACK {
          relayLastAck := Some(now);
        } else if FrameType(pkt) == TYPE_CHALLENGE {
          AnswerChallenge(pkt, src);
        } else if FrameType(pkt) == TYPE_RECV {
          var keyed := ParseKeyed(pkt);
          if keyed.Some? && |keyed.value.payload| > 0 {
            assert pkt[HEADER_LEN + KEY_LEN..] == buf[HEADER_LEN + KEY_LEN..n];
            ShiftDown(buf, HEADER_LEN + KEY_LEN, n);
            return Packet(n - HEADER_LEN - KEY_LEN, ViaRelay(keyed.value.key));
          }
        }
      } else {
        return Packet(n, Direct(src));
      }
    }

    /**
     * One packet for WireGuard, in the first bytes of `buf`. A relayed payload is moved to the
     * front of the buffer it arrived in.
     */
    method Receive(buf: array<byte>) returns (r: Reception)
      requires Valid()
      modifies this, buf
      ensures Valid()
      ensures !old(isOpen) ==> r == NothingRead && Fields() == old(Fields()) && inbox == old(inbox)
      ensures isOpen == old(isOpen)
      ensures old(isOpen) ==>
                var (s, rest, o) := ReceiveStep(crypto, old(Fields()), buf.Length, old(inbox));
                Fields() == s && inbox == rest && Shows(r, buf, o)
    {
      if !isOpen {
        return NothingRead;
      }
      hide PacketStep, ChannelsServedOnce;
      ReceiveServesChannelsOnce(crypto, Fields(), buf.Length, inbox);
      while |inbox| > 0
        invariant isOpen
        invariant ReceiveStep(crypto, Fields(), buf.Length, inbox) ==
                  ReceiveStep(crypto, old(Fields()), buf.Length, old(inbox))
        decreases |inbox|
      {
        var a := inbox[0];
        inbox := inbox[1..];
        var pkt := Truncated(a.pkt, buf.Length);
        CopyInto(buf, 0, pkt);
        assert buf[..|pkt|] == pkt;
        r := Dispatch(buf, |pkt|, UnmapPort(a.src), a.now);
        if r != NothingRead {
          return;
        }
      }
      r := NothingRead;
    }

    method ConfigureRelay(addr: AddrPort, privKey: Key) returns (ok: bool)
      modifies this`relayAddr, this`relayPriv, this`relaySelfKey
      ensures ok <==> PublicKey(crypto, privKey).Some?
      ensures Fields() == if ok
                then old(Fields()).(relayAddr := Some(addr), relayPriv := privKey,
                                    relaySelfKey := PublicKey(crypto, privKey).value)
                else old(Fields())
    {
      var pub := PublicKey(crypto, privKey);
      if pub.None? {
        return false;
      }
      relayAddr := Some(addr);
      relayPriv := privKey;
      relaySelfKey := pub.value;
      ok := true;
    }

    method RelayRegister() returns (ok: bool)
      modifies this`sent
      ensures ok <==> isOpen && relayAddr.Some?
      ensures sent == if ok then old(sent) + [Datagram(RegisterFrame(relaySelfKey), relayAddr.value)] else old(sent)
    {
      if relayAddr.None? {
        return false;
      }
      var frame := BuildRegister(relaySelfKey);
      ok := WriteTo(frame[..], relayAddr.value);
    }

    method RelayHealthy(now: int) returns (r: bool)
      ensures r == RelayHealthyAt(Fields(), now)
    {
      r := relayAddr.Some? && relayLastAck.Some? && now - relayLastAck.value < RELAY_HEALTHY_FOR;
    }

    method SendPing(id: ProbeID, dst: AddrPort) returns (ok: bool)
      modifies this`sent
      ensures ok == isOpen
      ensures sent == if ok then old(sent) + [Datagram(DiscoBytes(DISCO_PING, id), dst)] else old(sent)
    {
      var ping := EncodeDisco(DISCO_PING, id);
      ok := WriteTo(ping[..], dst);
    }

    /** The registration of a STUN request: a fresh one-value channel under its id. */
    method BeginStunRequest(id: Stun.TxID, server: AddrPort) returns (channel: nat)
      requires Valid()
      modifies this`stunTx, this`nextChannel, this`sent
      ensures Valid()
      ensures channel == old(nextChannel) && stunTx == old(stunTx)[id := channel]
      ensures sent == if isOpen then old(sent) + [Datagram(Stun.RequestBytes(id), server)] else old(sent)
    {
      channel := nextChannel;
      nextChannel := nextChannel + 1;
      stunTx := stunTx[id := channel];
      var request := Stun.BuildBindingRequest(id);
      var _ := WriteTo(request[..], server);
    }

    method EndStunRequest(id: Stun.TxID)
      requires Valid()
      modifies this`stunTx
      ensures Valid()
      ensures stunTx == old(stunTx) - {id}
    {
      stunTx := stunTx - {id};
    }

    /** Each buffer goes out as it is, or wrapped in a FORWARD frame for a relayed peer. */
    method Send(bufs: seq<seq<byte>>, ep: Endpoint) returns (err: Option<SendError>)
      modifies this`sent
      ensures err == if ep.ViaRelay? && relayAddr.None? then Some(ErrNoRelay)
                     else if !isOpen && |bufs| > 0 then Some(ErrClosed) else None
      ensures sent == old(sent) + if err.Some? then [] else Outgoing(relayAddr, bufs, ep)
    {
      if ep.ViaRelay? && relayAddr.None? {
        return Some(ErrNoRelay);
      }
      for i := 0 to |bufs|
        invariant i > 0 ==> isOpen
        invariant sent == old(sent) + Outgoing(relayAddr, bufs[..i], ep)
      {
        var ok;
        if ep.Direct? {
          ok := WriteTo(bufs[i], ep.ap);
        } else {
          var frame := BuildForward(ep.peerKey, bufs[i]);
          ok := WriteTo(frame[..], relayAddr.value);
        }
        if !ok {
          return Some(ErrClosed);
        }
      }
      assert bufs[..|bufs|] == bufs;
      err := None;
    }
  }
}
