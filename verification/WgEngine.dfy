/**
 * The part of the WireGuard engine that configuration scripts act on: its peers, the endpoint
 * of each, and the one owner of each allowed IP. A script is a list of lines; after a
 * `public_key` line, the lines that follow concern that peer.
 */
module WgEngine {
  import opened Net
  import opened NetMap

  datatype WgKey = WgKey(raw: seq<byte>)

  datatype Line =
    | PublicKey(key: WgKey)
    | UpdateOnly
    | Remove
    | EndpointLine(endpoint: string)
    | ReplaceAllowedIPs
    | AllowedIP(prefix: Prefix)
    | Keepalive(seconds: nat)

  type Script = seq<Line>

  /** `peers` gives each peer's endpoint, "" while it has none. */
  datatype Engine = Engine(peers: map<WgKey, string>, owner: map<Prefix, WgKey>) {
    /** Only peers own allowed IPs. */
    ghost predicate Valid() {
      forall p :: p in owner ==> owner[p] in peers
    }
  }

  const EMPTY_ENGINE := Engine(map[], map[])

  /** The peer the next lines concern; Ignored after a removal, or an update of an unknown peer. */
  datatype Cursor = Ignored | Current(key: WgKey, created: bool)

  function OwnedByOthers(owner: map<Prefix, WgKey>, k: WgKey): map<Prefix, WgKey> {
    map p | p in owner && owner[p] != k :: owner[p]
  }

  function RemovePeer(e: Engine, k: WgKey): Engine {
    Engine(e.peers - {k}, OwnedByOthers(e.owner, k))
  }

  function ExecLine(e: Engine, c: Cursor, line: Line): (Engine, Cursor) {
    match (line, c)
    case (PublicKey(k), _) =>
      if k in e.peers then (e, Current(k, false)) else (e.(peers := e.peers[k := ""]), Current(k, true))
    case (UpdateOnly, Current(k, created)) => if created then (RemovePeer(e, k), Ignored) else (e, c)
    case (Remove, Current(k, _)) => (RemovePeer(e, k), Ignored)
    case (EndpointLine(ep), Current(k, _)) => (e.(peers := e.peers[k := ep]), c)
    case (ReplaceAllowedIPs, Current(k, _)) => (e.(owner := OwnedByOthers(e.owner, k)), c)
    case (AllowedIP(p), Current(k, _)) => (e.(owner := e.owner[p := k]), c)
    case (_, _) => (e, c)
  }

  function ExecFrom(e: Engine, c: Cursor, s: Script): (Engine, Cursor)
    decreases |s|
  {
    if |s| == 0 then (e, c)
    else var (e', c') := ExecLine(e, c, s[0]); ExecFrom(e', c', s[1..])
  }

  function Exec(e: Engine, s: Script): Engine {
    ExecFrom(e, Ignored, s).0
  }

  lemma {:induction false} ExecAppend(e: Engine, c: Cursor, s: Script, t: Script)
    ensures ExecFrom(e, c, s + t) == ExecFrom(ExecFrom(e, c, s).0, ExecFrom(e, c, s).1, t)
    decreases |s|
  {
    if |s| > 0 {
      var (e', c') := ExecLine(e, c, s[0]);
      ExecAppend(e', c', s[1..], t);
      assert (s + t)[1..] == s[1..] + t;
    } else {
      assert s + t == t;
    }
  }

  lemma {:induction false} ExecAllowed(e: Engine, k: WgKey, created: bool, ps: seq<Prefix>)
    ensures ExecFrom(e, Current(k, created), AllowedLines(ps)) ==
              (e.(owner := Granted(e.owner, k, ps)), Current(k, created))
  {
    if |ps| > 0 {
      var init, last := ps[..|ps| - 1], ps[|ps| - 1];
      ExecAllowed(e, k, created, init);
      assert AllowedLines(ps) == AllowedLines(init) + [AllowedIP(last)];
      ExecAppend(e, Current(k, created), AllowedLines(init), [AllowedIP(last)]);
      assert ExecFrom(e.(owner := Granted(e.owner, k, init)), Current(k, created), [AllowedIP(last)]) ==
             (e.(owner := Granted(e.owner, k, init)[last := k]), Current(k, created));
    }
  }

  function AllowedLines(ps: seq<Prefix>): Script {
    seq(|ps|, i requires 0 <= i < |ps| => AllowedIP(ps[i]))
  }

  /** The owners once `k` has been given every prefix of `ps`. */
  function Granted(owner: map<Prefix, WgKey>, k: WgKey, ps: seq<Prefix>): (r: map<Prefix, WgKey>)
    ensures forall p :: p in r <==> p in owner || p in ps
    ensures forall p :: p in r ==> r[p] == if p in ps then k else owner[p]
  {
    if |ps| == 0 then owner
    else
      assert forall p :: p in ps <==> p in ps[..|ps| - 1] || p == ps[|ps| - 1];
      Granted(owner, k, ps[..|ps| - 1])[ps[|ps| - 1] := k]
  }
}
