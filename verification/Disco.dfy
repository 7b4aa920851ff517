/** Disco probes: the ping/pong used to punch through NATs (internal/omnisock/disco.go). */
module Disco {
  import opened Net

  const DISCO_LEN := 18
  const DISCO_MAGIC: seq<byte> := [0xC5, 'O' as byte, 'M' as byte, 'N' as byte, 'I' as byte]
  const DISCO_PING: byte := 0x01
  const DISCO_PONG: byte := 0x02

  type ProbeID = id: seq<byte> | |id| == 12 witness seq(12, _ => 0)

  predicate IsDisco(b: seq<byte>) {
    |b| == DISCO_LEN && b[..5] == DISCO_MAGIC
  }

  function DiscoBytes(msgType: byte, id: ProbeID): (b: seq<byte>)
    ensures IsDisco(b)
  {
    DISCO_MAGIC + [msgType] + id
  }

  function DecodeDisco(b: seq<byte>): (byte, ProbeID)
    requires IsDisco(b)
  {
    (b[5], b[6..])
  }

  method EncodeDisco(msgType: byte, id: ProbeID) returns (b: array<byte>)
    ensures fresh(b) && b[..] == DiscoBytes(msgType, id)
  {
    b := new byte[DISCO_LEN](_ => 0);
    CopyInto(b, 0, DISCO_MAGIC);
    b[5] := msgType;
    CopyInto(b, 6, id);
  }

  /** Decoding inverts encoding on every probe, and encoding inverts decoding on every disco packet. */
  lemma DiscoRoundTrip(msgType: byte, id: ProbeID, b: seq<byte>)
    ensures DecodeDisco(DiscoBytes(msgType, id)) == (msgType, id)
    ensures IsDisco(b) ==> DiscoBytes(DecodeDisco(b).0, DecodeDisco(b).1) == b
  {
  }
}
