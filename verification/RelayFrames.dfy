/**
 * The relay's wire format and its proof of key possession (internal/relay/relay.go).
 * X25519 and HMAC-SHA256 are parameters; the only property ever asked of them is that
 * Diffie-Hellman commutes.
 */
module RelayFrames {
  import opened Net

  const HEADER_LEN := 6
  const KEY_LEN := 32
  const NONCE_LEN := 16
  const MAC_LEN := 32

  const TYPE_REGISTER: byte := 0x01
  const TYPE_ACK: byte := 0x02
  const TYPE_FORWARD: byte := 0x03
  const TYPE_RECV: byte := 0x04
  const TYPE_CHALLENGE: byte := 0x05
  const TYPE_PROOF: byte := 0x06

  const MAGIC: seq<byte> := [0xC6, 'O' as byte, 'M' as byte, 'N' as byte, 'R' as byte]

  type Key = k: seq<byte> | |k| == KEY_LEN witness seq(KEY_LEN, _ => 0)
  type Nonce = n: seq<byte> | |n| == NONCE_LEN witness seq(NONCE_LEN, _ => 0)
  type Mac = m: seq<byte> | |m| == MAC_LEN witness seq(MAC_LEN, _ => 0)

  // ---------------------------------------------------------------- frames

  function Frame(frameType: byte, body: seq<byte>): (b: seq<byte>)
  {
    MAGIC + [frameType] + body
  }

  predicate IsFrame(b: seq<byte>) {
    |b| >= HEADER_LEN && b[0] == 0xC6 && b[1..5] == MAGIC[1..5]
  }

  function FrameType(b: seq<byte>): byte
    requires IsFrame(b)
  {
    b[5]
  }

  function RegisterFrame(selfKey: Key): seq<byte> { Frame(TYPE_REGISTER, selfKey) }
  function AckFrame(): seq<byte> { Frame(TYPE_ACK, []) }
  function ForwardFrame(dstKey: Key, payload: seq<byte>): seq<byte> { Frame(TYPE_FORWARD, dstKey + payload) }
  function RecvFrame(srcKey: Key, payload: seq<byte>): seq<byte> { Frame(TYPE_RECV, srcKey + payload) }
  function ChallengeFrame(relayPub: Key, nonce: Nonce): seq<byte> { Frame(TYPE_CHALLENGE, relayPub + nonce) }
  function ProofFrame(clientPub: Key, nonce: Nonce, mac: Mac): seq<byte> {
    Frame(TYPE_PROOF, clientPub + nonce + mac)
  }

  datatype Keyed = Keyed(key: Key, payload: seq<byte>)
  datatype Challenge = Challenge(relayPub: Key, nonce: Nonce)
  datatype Proof = Proof(clientPub: Key, nonce: Nonce, mac: Mac)

  function ParseKeyed(b: seq<byte>): Option<Keyed> {
    if |b| < HEADER_LEN + KEY_LEN then None
    else Some(Keyed(b[HEADER_LEN..HEADER_LEN + KEY_LEN], b[HEADER_LEN + KEY_LEN..]))
  }

  function ParseChallenge(b: seq<byte>): Option<Challenge> {
    if |b| != HEADER_LEN + KEY_LEN + NONCE_LEN then None
    else Some(Challenge(b[HEADER_LEN..HEADER_LEN + KEY_LEN], b[HEADER_LEN + KEY_LEN..]))
  }

  function ParseProof(b: seq<byte>): Option<Proof> {
    if |b| != HEADER_LEN + KEY_LEN + NONCE_LEN + MAC_LEN then None
    else Some(Proof(b[HEADER_LEN..HEADER_LEN + KEY_LEN],
                    b[HEADER_LEN + KEY_LEN..HEADER_LEN + KEY_LEN + NONCE_LEN],
                    b[HEADER_LEN + KEY_LEN + NONCE_LEN..]))
  }

  /** A packet is a frame exactly when it is some type and body behind the magic. */
  lemma FrameDecomposes(b: seq<byte>)
    ensures IsFrame(b) <==> |b| >= HEADER_LEN && b == Frame(b[5], b[HEADER_LEN..])
  {
  }

  /** Parsing a keyed frame recovers key and payload, and rebuilding recovers the packet. */
  lemma KeyedRoundTrip(frameType: byte, key: Key, payload: seq<byte>, b: seq<byte>)
    ensures var f := Frame(frameType, key + payload);
            IsFrame(f) && FrameType(f) == frameType && ParseKeyed(f) == Some(Keyed(key, payload))
    ensures IsFrame(b) && ParseKeyed(b).Some? ==>
              b == Frame(FrameType(b), ParseKeyed(b).value.key + ParseKeyed(b).value.payload)
  {
    var f := Frame(frameType, key + payload);
    assert f[HEADER_LEN..] == key + payload;
    assert f[HEADER_LEN..HEADER_LEN + KEY_LEN] == key;
    assert f[HEADER_LEN + KEY_LEN..] == payload;
    FrameDecomposes(f);
    FrameDecomposes(b);
    if |b| >= HEADER_LEN + KEY_LEN {
      assert b[HEADER_LEN..] == b[HEADER_LEN..HEADER_LEN + KEY_LEN] + b[HEADER_LEN + KEY_LEN..];
    }
  }

  lemma ChallengeRoundTrip(relayPub: Key, nonce: Nonce, b: seq<byte>)
    ensures var f := ChallengeFrame(relayPub, nonce);
            IsFrame(f) && FrameType(f) == TYPE_CHALLENGE && ParseChallenge(f) == Some(Challenge(relayPub, nonce))
    ensures IsFrame(b) && FrameType(b) == TYPE_CHALLENGE && ParseChallenge(b).Some? ==>
              b == ChallengeFrame(ParseChallenge(b).value.relayPub, ParseChallenge(b).value.nonce)
  {
    KeyedRoundTrip(TYPE_CHALLENGE, relayPub, nonce, b);
  }

  lemma ProofRoundTrip(clientPub: Key, nonce: Nonce, mac: Mac, b: seq<byte>)
    ensures var f := ProofFrame(clientPub, nonce, mac);
            IsFrame(f) && FrameType(f) == TYPE_PROOF && ParseProof(f) == Some(Proof(clientPub, nonce, mac))
    ensures IsFrame(b) && FrameType(b) == TYPE_PROOF && ParseProof(b).Some? ==>
              b == ProofFrame(ParseProof(b).value.clientPub, ParseProof(b).value.nonce, ParseProof(b).value.mac)
  {
    var f := ProofFrame(clientPub, nonce, mac);
    assert f == Frame(TYPE_PROOF, clientPub + (nonce + mac));
    KeyedRoundTrip(TYPE_PROOF, clientPub, nonce + mac, b);
    assert f[HEADER_LEN + KEY_LEN..] == nonce + mac;
    assert f[HEADER_LEN..HEADER_LEN + KEY_LEN] == clientPub;
    assert f[HEADER_LEN + KEY_LEN..HEADER_LEN + KEY_LEN + NONCE_LEN] == nonce;
    assert f[HEADER_LEN + KEY_LEN + NONCE_LEN..] == mac;
    if IsFrame(b) && FrameType(b) == TYPE_PROOF && ParseProof(b).Some? {
      var p := ParseProof(b).value;
      assert b[HEADER_LEN + KEY_LEN..] == p.nonce + p.mac;
      assert p.clientPub + (p.nonce + p.mac) == p.clientPub + p.nonce + p.mac;
    }
  }

  /** The six frames, byte for byte. */
  lemma WireFormat(key: Key, nonce: Nonce, mac: Mac, payload: seq<byte>)
    ensures RegisterFrame(key) == [0xC6, 0x4F, 0x4D, 0x4E, 0x52, 0x01] + key
    ensures AckFrame() == [0xC6, 0x4F, 0x4D, 0x4E, 0x52, 0x02]
    ensures ForwardFrame(key, payload) == [0xC6, 0x4F, 0x4D, 0x4E, 0x52, 0x03] + key + payload
    ensures RecvFrame(key, payload) == [0xC6, 0x4F, 0x4D, 0x4E, 0x52, 0x04] + key + payload
    ensures ChallengeFrame(key, nonce) == [0xC6, 0x4F, 0x4D, 0x4E, 0x52, 0x05] + key + nonce
    ensures ProofFrame(key, nonce, mac) == [0xC6, 0x4F, 0x4D, 0x4E, 0x52, 0x06] + key + nonce + mac
  {
  }

  // ---------------------------------------------------------------- builders

  /** A zeroed buffer of the frame's size, with magic and type already in place. */
  method NewFrame(frameType: byte, bodyLen: nat) returns (b: array<byte>)
    ensures fresh(b) && b.Length == HEADER_LEN + bodyLen
    ensures b[..HEADER_LEN] == MAGIC + [frameType]
  {
    b := new byte[HEADER_LEN + bodyLen](_ => 0);
    CopyInto(b, 0, MAGIC);
    b[5] := frameType;
  }

  method BuildRegister(selfKey: Key) returns (b: array<byte>)
    ensures fresh(b) && b[..] == RegisterFrame(selfKey)
  {
    b := NewFrame(TYPE_REGISTER, KEY_LEN);
    CopyInto(b, HEADER_LEN, selfKey);
  }

  method BuildAck() returns (b: array<byte>)
    ensures fresh(b) && b[..] == AckFrame()
  {
    b := NewFrame(TYPE_ACK, 0);
    assert b[..] == b[..HEADER_LEN];
  }

  method BuildForward(dstKey: Key, payload: seq<byte>) returns (b: array<byte>)
    ensures fresh(b) && b[..] == ForwardFrame(dstKey, payload)
  {
    b := NewFrame(TYPE_FORWARD, KEY_LEN + |payload|);
    CopyInto(b, HEADER_LEN, dstKey);
    CopyInto(b, HEADER_LEN + KEY_LEN, payload);
  }

  method BuildRecv(srcKey: Key, payload: seq<byte>) returns (b: array<byte>)
    ensures fresh(b) && b[..] == RecvFrame(srcKey, payload)
  {
    b := NewFrame(TYPE_RECV, KEY_LEN + |payload|);
    CopyInto(b, HEADER_LEN, srcKey);
    CopyInto(b, HEADER_LEN + KEY_LEN, payload);
  }

  method BuildChallenge(relayPub: Key, nonce: Nonce) returns (b: array<byte>)
    ensures fresh(b) && b[..] == ChallengeFrame(relayPub, nonce)
  {
    b := NewFrame(TYPE_CHALLENGE, KEY_LEN + NONCE_LEN);
    CopyInto(b, HEADER_LEN, relayPub);
    CopyInto(b, HEADER_LEN + KEY_LEN, nonce);
  }

  /** None is the error X25519 returns when the shared secret would be all zeros. */
  method BuildProof(c: Crypto, clientPriv: Key, relayPub: Key, nonce: Nonce) returns (b: Option<array<byte>>)
    ensures b.Some? <==> Prove(c, clientPriv, relayPub, nonce).Some?
    ensures b.Some? ==> fresh(b.value) && b.value[..] == Prove(c, clientPriv, relayPub, nonce).value
  {
    var clientPub := PublicKey(c, clientPriv);
    if clientPub.None? {
      return None;
    }
    var mac := ProofMac(c, clientPriv, relayPub, clientPub.value, nonce);
    if mac.None? {
      return None;
    }
    var f := NewFrame(TYPE_PROOF, KEY_LEN + NONCE_LEN + MAC_LEN);
    CopyInto(f, HEADER_LEN, clientPub.value);
    CopyInto(f, HEADER_LEN + KEY_LEN, nonce);
    CopyInto(f, HEADER_LEN + KEY_LEN + NONCE_LEN, mac.value);
    b := Some(f);
  }

  // ---------------------------------------------------------------- proof of possession

  /** The primitives of the protocol; x25519 fails on an all-zero shared secret. */
  datatype Crypto = Crypto(x25519: (Key, Key) -> Option<Key>, base: Key, hmac: (Key, seq<byte>) -> Mac)

  function PublicKey(c: Crypto, priv: Key): Option<Key> {
    c.x25519(priv, c.base)
  }

  /** Both ends of a Diffie-Hellman exchange reach the same secret, or both fail. */
  ghost predicate Commutes(c: Crypto) {
    forall a: Key, b: Key :: PublicKey(c, a).Some? && PublicKey(c, b).Some? ==>
      c.x25519(a, PublicKey(c, b).value) == c.x25519(b, PublicKey(c, a).value)
  }

  function ProofMac(c: Crypto, priv: Key, pub: Key, clientPub: Key, nonce: Nonce): Option<Mac> {
    match c.x25519(priv, pub)
    case None => None
    case Some(shared) => Some(c.hmac(shared, nonce + clientPub))
  }

  /** What a client answers to the challenge (relayPub, nonce). */
  function Prove(c: Crypto, clientPriv: Key, relayPub: Key, nonce: Nonce): Option<seq<byte>> {
    match PublicKey(c, clientPriv)
    case None => None
    case Some(clientPub) =>
      match ProofMac(c, clientPriv, relayPub, clientPub, nonce)
      case None => None
      case Some(mac) => Some(ProofFrame(clientPub, nonce, mac))
  }

  predicate VerifyProof(c: Crypto, relayPriv: Key, clientPub: Key, nonce: Nonce, mac: Mac) {
    ProofMac(c, relayPriv, clientPub, clientPub, nonce) == Some(mac)
  }

  /** The relay accepts every proof an honest client can build, for the key that client owns. */
  lemma HonestProofVerifies(c: Crypto, clientPriv: Key, relayPriv: Key, relayPub: Key, nonce: Nonce)
    requires Commutes(c)
    requires PublicKey(c, relayPriv) == Some(relayPub)
    requires Prove(c, clientPriv, relayPub, nonce).Some?
    ensures var f := Prove(c, clientPriv, relayPub, nonce).value;
            && IsFrame(f) && FrameType(f) == TYPE_PROOF && ParseProof(f).Some?
            && Some(ParseProof(f).value.clientPub) == PublicKey(c, clientPriv)
            && ParseProof(f).value.nonce == nonce
            && VerifyProof(c, relayPriv, ParseProof(f).value.clientPub, nonce, ParseProof(f).value.mac)
  {
    var clientPub := PublicKey(c, clientPriv).value;
    var mac := ProofMac(c, clientPriv, relayPub, clientPub, nonce).value;
    ProofRoundTrip(clientPub, nonce, mac, []);
    assert c.x25519(clientPriv, relayPub) == c.x25519(relayPriv, clientPub);
  }
}
