/**
 * The network map exchanged between server and agents (internal/types/types.go), and the
 * texts it is made of. A string counts only through equality and through the parsers applied
 * to it, so texts are modelled by what their parser sees.
 */
module NetMap {
  /**
   * A string that is the text of an IPv4 address, of an IPv6 address (`spelling` tells its
   * texts apart), or any other word.
   */
  datatype Text = Dotted(addr: nat) | Colons(addr: nat, spelling: string) | Word(s: string)

  /** An IP prefix as written, host bits included; `addr` is 32 or 128 bits wide. */
  datatype Prefix = Prefix(is4: bool, addr: nat, len: nat)

  /**
   * A string offered as a route: the text of a prefix (`spelling` is empty for the text Go
   * prints, and tells other spellings of the same prefix apart), or not a route at all.
   */
  datatype RouteText = Spelled(prefix: Prefix, spelling: string) | NotARoute(s: string)

  /** The base64 text of a WireGuard public key. */
  datatype Pub = Pub(text: string)

  datatype Peer = Peer(hostname: Text, publicKey: Pub, ip: Text,
                       endpoint: string, endpoints: seq<string>, routes: seq<RouteText>)
}
