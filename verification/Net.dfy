/** Bytes, addresses and datagrams shared by every protocol of the mesh. */
module Net {

  datatype Option<+T> = None | Some(value: T)

  type byte = x: int | 0 <= x < 0x100
  type uint16 = x: int | 0 <= x < 0x1_0000

  /** IP addresses are held as Go's `netip.Addr` holds them: 4 or 16 bytes. */
  type Bytes4 = b: seq<byte> | |b| == 4 witness [0, 0, 0, 0]
  type Bytes16 = b: seq<byte> | |b| == 16 witness seq(16, _ => 0)

  datatype Addr = V4(v4: Bytes4) | V6(v6: Bytes16)
  datatype AddrPort = AddrPort(addr: Addr, port: uint16)

  datatype Datagram = Datagram(pkt: seq<byte>, peer: AddrPort)

  /** An IPv4-mapped IPv6 address becomes the IPv4 address it carries. */
  function Unmap(a: Addr): Addr {
    match a
    case V4(_) => a
    case V6(b) =>
      if b[..12] == [0, 0, 0, 0, 0, 0, 0, 0, 0, 0, 0xFF, 0xFF] then V4(b[12..]) else a
  }

  function UnmapPort(a: AddrPort): AddrPort {
    a.(addr := Unmap(a.addr))
  }

  /** A UDP read keeps what the buffer can hold and drops the rest. */
  function Truncated(pkt: seq<byte>, capacity: nat): (r: seq<byte>)
    ensures |r| <= capacity && r <= pkt
    ensures r == pkt <==> |pkt| <= capacity
  {
    if |pkt| <= capacity then pkt else pkt[..capacity]
  }

  // ---------------------------------------------------------------- runs

  /** A sequence without its last element. */
  function Front<T>(s: seq<T>): seq<T>
    requires |s| > 0
  {
    s[..|s| - 1]
  }

  function Last<T>(s: seq<T>): T
    requires |s| > 0
  {
    s[|s| - 1]
  }

  // ---------------------------------------------------------------- integers on the wire

  function BigEndian16(b: seq<byte>): (n: uint16)
    requires |b| == 2
  {
    (b[0] as int) * 0x100 + b[1] as int
  }

  function PutBigEndian16(n: uint16): (b: seq<byte>)
    ensures |b| == 2
  {
    [n / 0x100, n % 0x100]
  }

  lemma BigEndian16RoundTrip(n: uint16, b: seq<byte>)
    requires |b| == 2
    ensures BigEndian16(PutBigEndian16(n)) == n
    ensures PutBigEndian16(BigEndian16(b)) == b
    ensures BigEndian16(b) == 256 * (b[0] as int) + b[1] as int
  {
  }

  // ---------------------------------------------------------------- exclusive or

  function Pow2(k: nat): (p: nat)
    ensures p > 0
  {
    if k == 0 then 1 else 2 * Pow2(k - 1)
  }

  /** Exclusive or of the `width` low bits of two machine words. */
  function XorBits(a: nat, b: nat, width: nat): (r: nat)
    ensures r < Pow2(width)
  {
    if width == 0 then 0
    else 2 * XorBits(a / 2, b / 2, width - 1) + (if a % 2 == b % 2 then 0 else 1)
  }

  /** Xoring twice with the same mask gives the word back. */
  lemma {:induction false} XorBitsInvolutive(a: nat, b: nat, width: nat)
    requires a < Pow2(width)
    ensures XorBits(XorBits(a, b, width), b, width) == a
  {
    if width > 0 {
      XorBitsInvolutive(a / 2, b / 2, width - 1);
      HalvesOf(XorBits(a / 2, b / 2, width - 1), if a % 2 == b % 2 then 0 else 1);
    }
  }

  lemma MultipleOutOfReach(x: int, s: nat)
    ensures x >= 1 ==> x * s >= s
    ensures x <= -1 ==> x * s <= -(s as int)
  {
  }

  lemma QuotientOfMultiple(q: nat, r: nat, s: nat)
    requires r < s
    ensures (q * s + r) / s == q
  {
    var a := q * s + r;
    var d: int := a / s;
    assert a == d * s + a % s;
    MultipleOutOfReach(d - q as int, s);
    assert (d - q) * s == d * s - q * s;
  }

  lemma HalvingTwice(a: nat, p: nat)
    requires p > 0
    ensures a / 2 / p == a / (2 * p)
  {
    var q, r := a / 2 / p, a / 2 % p;
    assert a / 2 == q * p + r && a == 2 * (a / 2) + a % 2;
    assert a == q * (2 * p) + (2 * r + a % 2);
    QuotientOfMultiple(q, 2 * r + a % 2, 2 * p);
  }

  /** Bit `i` of a number. */
  function Bit(x: nat, i: nat): (b: nat)
    ensures b < 2
    decreases i
  {
    if i == 0 then x % 2 else Bit(x / 2, i - 1)
  }

  /** It is the binary digit of weight 2^i. */
  lemma {:induction false} BitIsDigit(x: nat, i: nat)
    ensures Bit(x, i) == x / Pow2(i) % 2
    decreases i
  {
    if i > 0 {
      BitIsDigit(x / 2, i - 1);
      HalvingTwice(x, Pow2(i - 1));
    }
  }

  /** Numbers of one width with the same bits are the same. */
  lemma {:induction false} BitsDetermine(a: nat, b: nat, width: nat)
    requires a < Pow2(width) && b < Pow2(width)
    requires forall i :: 0 <= i < width ==> Bit(a, i) == Bit(b, i)
    ensures a == b
  {
    if width > 0 {
      assert Bit(a, 0) == Bit(b, 0);
      assert forall i :: 0 <= i < width - 1 ==> Bit(a / 2, i) == Bit(a, i + 1) && Bit(b / 2, i) == Bit(b, i + 1);
      BitsDetermine(a / 2, b / 2, width - 1);
    }
  }

  /** Bit `i` of the exclusive or is the sum, modulo 2, of the operands' bits `i`. */
  lemma {:induction false} XorBitsAt(a: nat, b: nat, width: nat, i: nat)
    requires i < width
    ensures Bit(XorBits(a, b, width), i) == (Bit(a, i) + Bit(b, i)) % 2
  {
    hide XorBits;
    XorBitsHalves(a, b, width);
    if i > 0 {
      XorBitsAt(a / 2, b / 2, width - 1, i - 1);
    }
  }

  lemma XorBitsHalves(a: nat, b: nat, width: nat)
    requires width > 0
    ensures XorBits(a, b, width) / 2 == XorBits(a / 2, b / 2, width - 1)
    ensures XorBits(a, b, width) % 2 == (a % 2 + b % 2) % 2
  {
    HalvesOf(XorBits(a / 2, b / 2, width - 1), if a % 2 == b % 2 then 0 else 1);
  }

  lemma HalvesOf(high: nat, low: nat)
    requires low < 2
    ensures (2 * high + low) / 2 == high && (2 * high + low) % 2 == low
  {
  }

  lemma Pow2Of8And16()
    ensures Pow2(8) == 0x100 && Pow2(16) == 0x1_0000
  {
  }

  function XorByte(a: byte, b: byte): byte {
    Pow2Of8And16();
    XorBits(a, b, 8)
  }

  function Xor16(a: uint16, b: uint16): uint16 {
    Pow2Of8And16();
    XorBits(a, b, 16)
  }

  lemma XorByteInvolutive(a: byte, b: byte)
    ensures XorByte(XorByte(a, b), b) == a
  {
    Pow2Of8And16();
    XorBitsInvolutive(a, b, 8);
  }

  lemma Xor16Involutive(a: uint16, b: uint16)
    ensures Xor16(Xor16(a, b), b) == a
  {
    Pow2Of8And16();
    XorBitsInvolutive(a, b, 16);
  }

  // ---------------------------------------------------------------- buffers

  /** Go's `copy(buf[at:], data)` for data that fits and lies outside `buf`. */
  method CopyInto(buf: array<byte>, at: nat, data: seq<byte>)
    requires at + |data| <= buf.Length
    modifies buf
    ensures buf[..] == old(buf[..at]) + data + old(buf[at + |data|..])
    ensures buf[..at + |data|] == old(buf[..at]) + data
  {
    for i := 0 to |data|
      invariant buf[..at] == old(buf[..at])
      invariant buf[at..at + i] == data[..i]
      invariant buf[at + i..] == old(buf[at + i..])
    {
      buf[at + i] := data[i];
    }
    assert buf[..] == buf[..at] + buf[at..at + |data|] + buf[at + |data|..];
  }

  /**
   * Go's `copy(buf, buf[from:to])`: source and destination overlap, and the destination
   * lies before the source, so moving the bytes upwards is what memmove does.
   */
  method ShiftDown(buf: array<byte>, from: nat, to: nat)
    requires from <= to <= buf.Length
    modifies buf
    ensures buf[..to - from] == old(buf[from..to])
    ensures buf[to - from..] == old(buf[to - from..])
  {
    for i := 0 to to - from
      invariant buf[..i] == old(buf[from..from + i])
      invariant forall k :: i <= k < buf.Length ==> buf[k] == old(buf[k])
    {
      buf[i] := buf[from + i];
    }
  }
}
