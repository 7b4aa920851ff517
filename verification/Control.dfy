/**
 * The coordination store (internal/control/store.go, internal/control/users.go): machines,
 * enrolment keys, invitations and accounts. `saveOk` tells whether saving the state file
 * succeeds; memory has changed by then either way.
 */
module Control {
  import opened Net
  import opened NetMap
  import opened Prefixes
  import opened IpPool
  import opened Acl

  const TOKEN_GRACE := 3_600_000_000_000

  /** A random API token. */
  datatype Token = Token(n: nat)

  datatype Device = Device(
    id: Text, hostname: Text, owner: string, publicKey: Pub,
    token: Token, tokenIssuedAt: int, prevToken: Option<Token>, prevTokenUntil: int,
    ip: nat, endpoint: string, endpoints: seq<string>,
    advertised: seq<RouteText>, approved: seq<RouteText>, createdAt: int, lastSeen: Option<int>)

  datatype AuthKey = AuthKey(key: Text, owner: string, reusable: bool, used: bool, createdAt: int, expiresAt: Option<int>)
  datatype Invite = Invite(code: Text, used: bool, createdAt: int, expiresAt: Option<int>)
  datatype User = User(id: Text, email: string, passwordHash: string, createdAt: int)

  datatype StateFile = StateFile(
    cidr: RouteText, authKeys: seq<AuthKey>, devices: map<Pub, Device>, acl: Option<Policy>,
    users: map<string, User>, invites: seq<Invite>)

  function EmptyState(cidr: RouteText): StateFile {
    StateFile(cidr, [], map[], None, map[], [])
  }

  datatype Error =
    | InvalidAuthKey | IPExhausted | BadCidr | SaveFailed | UnknownDevice | InvalidRoute | NoMatch | NotOwned
    | Unauthorized | InvalidEmail | WeakPassword | HashFailed | EmailTaken | InvalidInvite

  datatype Result<T> = Ok(value: T) | Err(error: Error)

  /** The random values drawn by a call. */
  datatype Draw = Draw(id: Text, token: Token)

  predicate NotExpired(expiresAt: Option<int>, now: int) {
    expiresAt.None? || now < expiresAt.value
  }

  // ---------------------------------------------------------------- enrolment

  function UsedIPs(devices: map<Pub, Device>): set<nat> {
    set pub | pub in devices :: devices[pub].ip
  }

  /** The state's range, when its text can be read. */
  function Pool(s: StateFile): (r: Option<Prefix>)
    ensures r.Some? ==> Canonical(r.value)
  {
    match ParsePrefix(s.cidr)
    case None => None
    case Some(p) => MaskedIsCanonical(p); Some(Masked(p))
  }

  function NewIP(s: StateFile): Result<nat> {
    if Pool(s).None? then Err(BadCidr)
    else
      match Allocate(Pool(s).value, UsedIPs(s.devices))
      case Some(ip) => Ok(ip)
      case None => Err(IPExhausted)
  }

  predicate Usable(k: AuthKey, authKey: Text, now: int) {
    k.key == authKey && (k.reusable || !k.used) && NotExpired(k.expiresAt, now)
  }

  /** The first key of that text that may still enrol a machine. */
  function UsableKey(keys: seq<AuthKey>, authKey: Text, now: int): (r: Option<nat>)
    ensures r.Some? ==> r.value < |keys| && Usable(keys[r.value], authKey, now)
                        && forall j :: 0 <= j < r.value ==> !Usable(keys[j], authKey, now)
    ensures r.None? ==> forall j :: 0 <= j < |keys| ==> !Usable(keys[j], authKey, now)
  {
    if |keys| == 0 then None
    else if UsableKey(keys[..|keys| - 1], authKey, now).Some? then UsableKey(keys[..|keys| - 1], authKey, now)
    else if Usable(keys[|keys| - 1], authKey, now) then Some(|keys| - 1)
    else None
  }

  function NewAuthKey(owner: string, reusable: bool, ttl: int, text: Text, now: int): AuthKey {
    AuthKey(text, owner, reusable, false, now, if ttl > 0 then Some(now + ttl) else None)
  }

  function NewDevice(hostname: Text, pub: Pub, owner: string, ip: nat, now: int, draw: Draw): Device {
    Device(draw.id, hostname, owner, pub, draw.token, now, None, 0, ip, "", [], [], [], now, None)
  }

  function Saved<T>(ok: bool, value: T): Result<T> {
    if ok then Ok(value) else Err(SaveFailed)
  }

  function RegisterStep(s: StateFile, authKey: Text, hostname: Text, pub: Pub, now: int, draw: Draw, saveOk: bool)
    : (StateFile, Result<Device>)
  {
    if pub in s.devices then
      var d := s.devices[pub];
      if hostname != Word("") && d.hostname != hostname then
        var d' := d.(hostname := hostname);
        (s.(devices := s.devices[pub := d']), Saved(saveOk, d'))
      else (s, Ok(d))
    else
      match UsableKey(s.authKeys, authKey, now)
      case None => (s, Err(InvalidAuthKey))
      case Some(i) =>
        match NewIP(s)
        case Err(e) => (s, Err(e))
        case Ok(ip) =>
          var d := NewDevice(hostname, pub, s.authKeys[i].owner, ip, now, draw);
          (s.(devices := s.devices[pub := d],
              authKeys := s.authKeys[i := s.authKeys[i].(used := true)]), Saved(saveOk, d))
  }

  function RegisterSSOStep(s: StateFile, hostname: Text, pub: Pub, owner: string, now: int, draw: Draw, saveOk: bool)
    : (StateFile, Result<Device>)
  {
    if pub in s.devices then
      var d := s.devices[pub];
      var d1 := if hostname != Word("") then d.(hostname := hostname) else d;
      var d2 := if owner != "" then d1.(owner := owner) else d1;
      (s.(devices := s.devices[pub := d2]), if d2 != d then Saved(saveOk, d2) else Ok(d2))
    else
      match NewIP(s)
      case Err(e) => (s, Err(e))
      case Ok(ip) =>
        var d := NewDevice(hostname, pub, owner, ip, now, draw);
        (s.(devices := s.devices[pub := d]), Saved(saveOk, d))
  }

  /** The text of an address handed out in this range. */
  function AddressText(cidr: RouteText, ip: nat): Text {
    if cidr.Spelled? && !cidr.prefix.is4 then Colons(ip, "") else Dotted(ip)
  }

  predicate Matches(cidr: RouteText, d: Device, target: Text) {
    AddressText(cidr, d.ip) == target || d.hostname == target || d.id == target
  }

  predicate OwnedMatch(cidr: RouteText, d: Device, owner: string, target: Text) {
    d.owner == owner && Matches(cidr, d, target)
  }

  // ---------------------------------------------------------------- tokens

  predicate TokensKept(a: Device, b: Device) {
    a.token == b.token && a.tokenIssuedAt == b.tokenIssuedAt
    && a.prevToken == b.prevToken && a.prevTokenUntil == b.prevTokenUntil
  }

  /** The device's API accepts its token, and its previous one until the grace period ends. */
  predicate AcceptsToken(d: Device, token: Token, now: int) {
    d.token == token || (d.prevToken == Some(token) && now < d.prevTokenUntil)
  }

  predicate RotationDue(d: Device, now: int, rotateAfter: int) {
    now - d.tokenIssuedAt >= rotateAfter
  }

  function Rotated(d: Device, now: int, token: Token): Device {
    d.(prevToken := Some(d.token), prevTokenUntil := now + TOKEN_GRACE, token := token, tokenIssuedAt := now)
  }

  /** The new token, or None when no rotation was due. */
  function RotateStep(s: StateFile, pub: Pub, now: int, rotateAfter: int, token: Token, saveOk: bool)
    : (StateFile, Result<Option<Token>>)
  {
    if pub !in s.devices then (s, Err(UnknownDevice))
    else if !RotationDue(s.devices[pub], now, rotateAfter) then (s, Ok(None))
    else (s.(devices := s.devices[pub := Rotated(s.devices[pub], now, token)]), Saved(saveOk, Some(token)))
  }

  // ---------------------------------------------------------------- routes

  /** A route in canonical form, when it is an IPv4 one. */
  function NormalizeCidr(t: RouteText): (r: Option<RouteText>)
    ensures r.Some? ==> CanonicalRoute(r.value)
  {
    match ParsePrefix(t)
    case None => None
    case Some(p) =>
      if !p.is4 then None
      else MaskedIsCanonical(p); Some(TextOf(Masked(p)))
  }

  /** The canonical text of an IPv4 network. */
  predicate CanonicalRoute(t: RouteText) {
    t.Spelled? && t.spelling == "" && t.prefix.is4 && Canonical(t.prefix)
  }

  /** The routes that can be normalised, in order. */
  function Normalized(routes: seq<RouteText>): (r: seq<RouteText>)
    ensures forall t :: t in r <==> exists u :: u in routes && NormalizeCidr(u) == Some(t)
  {
    if |routes| == 0 then []
    else
      var init, last := Normalized(routes[..|routes| - 1]), NormalizeCidr(routes[|routes| - 1]);
      assert forall u :: u in routes <==> u in routes[..|routes| - 1] || u == routes[|routes| - 1];
      if last.Some? then init + [last.value] else init
  }

  /** The advertised routes that are also approved, in the order advertised. */
  function ActiveRoutesOf(advertised: seq<RouteText>, approved: seq<RouteText>): (r: seq<RouteText>)
    ensures forall t :: t in r <==> t in advertised && t in approved
  {
    if |advertised| == 0 then []
    else
      var init, last := ActiveRoutesOf(advertised[..|advertised| - 1], approved), advertised[|advertised| - 1];
      assert forall t :: t in advertised <==> t in advertised[..|advertised| - 1] || t == last;
      if last in approved then init + [last] else init
  }

  /** Both lists are gone through from front to back: what is kept of two lists in a row is what is kept of each. */
  lemma {:induction false} RoutesKeepTheirOrder(a: seq<RouteText>, b: seq<RouteText>, approved: seq<RouteText>)
    ensures ActiveRoutesOf(a + b, approved) == ActiveRoutesOf(a, approved) + ActiveRoutesOf(b, approved)
    ensures Normalized(a + b) == Normalized(a) + Normalized(b)
    ensures |b| == 1 ==> ActiveRoutesOf(b, approved) == if b[0] in approved then b else []
    ensures |b| == 1 ==> Normalized(b) == if NormalizeCidr(b[0]).Some? then [NormalizeCidr(b[0]).value] else []
  {
    hide NormalizeCidr;
    if |b| > 0 {
      var front := b[..|b| - 1];
      assert (a + b)[..|a + b| - 1] == a + front;
      RoutesKeepTheirOrder(a, front, approved);
    } else {
      assert a + b == a;
    }
  }

  lemma {:induction false} NothingApproved(advertised: seq<RouteText>, approved: seq<RouteText>)
    requires |advertised| == 0 || |approved| == 0
    ensures ActiveRoutesOf(advertised, approved) == []
  {
    if |advertised| > 0 {
      NothingApproved(advertised[..|advertised| - 1], approved);
    }
  }

  function TouchStep(s: StateFile, pub: Pub, endpoint: string, reported: Option<seq<string>>,
                     advertised: Option<seq<RouteText>>, now: int, saveOk: bool): (StateFile, Result<bool>)
  {
    if pub !in s.devices then (s, Err(UnknownDevice))
    else
      var d := s.devices[pub];
      var d' := d.(lastSeen := Some(now),
                   endpoint := if endpoint != "" then endpoint else d.endpoint,
                   endpoints := if reported.Some? then reported.value else d.endpoints,
                   advertised := if advertised.Some? then Normalized(advertised.value) else d.advertised);
      (s.(devices := s.devices[pub := d']), Saved(saveOk, true))
  }

  function ApproveStep(s: StateFile, pub: Pub, routes: seq<RouteText>): StateFile
    requires pub in s.devices
  {
    s.(devices := s.devices[pub := s.devices[pub].(approved := routes)])
  }

  // ---------------------------------------------------------------- accounts

  predicate Open(inv: Invite, code: Text, now: int) {
    inv.code == code && !inv.used && NotExpired(inv.expiresAt, now)
  }

  function OpenInvite(invites: seq<Invite>, code: Text, now: int): (r: Option<nat>)
    ensures r.Some? ==> r.value < |invites| && Open(invites[r.value], code, now)
                        && forall j :: 0 <= j < r.value ==> !Open(invites[j], code, now)
    ensures r.None? ==> forall j :: 0 <= j < |invites| ==> !Open(invites[j], code, now)
  {
    if |invites| == 0 then None
    else if OpenInvite(invites[..|invites| - 1], code, now).Some? then OpenInvite(invites[..|invites| - 1], code, now)
    else if Open(invites[|invites| - 1], code, now) then Some(|invites| - 1)
    else None
  }

  function NewInvite(ttl: int, code: Text, now: int): Invite {
    Invite(code, false, now, if ttl > 0 then Some(now + ttl) else None)
  }

  /** A request to create an account; `hash` is bcrypt's answer, None when it fails. */
  datatype SignUp = SignUp(email: string, password: string, hash: Option<string>, code: Text, requireInvite: bool)

  function SignUpStep(s: StateFile, r: SignUp, now: int, id: Text, saveOk: bool): (StateFile, Result<User>) {
    if r.email == "" || '@' !in r.email then (s, Err(InvalidEmail))
    else if |r.password| < 8 then (s, Err(WeakPassword))
    else if r.hash.None? then (s, Err(HashFailed))
    else if r.email in s.users then (s, Err(EmailTaken))
    else
      var u := User(id, r.email, r.hash.value, now);
      if !r.requireInvite then (s.(users := s.users[r.email := u]), Saved(saveOk, u))
      else
        match OpenInvite(s.invites, r.code, now)
        case None => (s, Err(InvalidInvite))
        case Some(i) =>
          (s.(users := s.users[r.email := u], invites := s.invites[i := s.invites[i].(used := true)]), Saved(saveOk, u))
  }

  // ---------------------------------------------------------------- views

  function MachineOf(cidr: RouteText, d: Device): Machine {
    Machine(d.hostname, AddressText(cidr, d.ip))
  }

  function PeerView(cidr: RouteText, d: Device): Peer {
    Peer(d.hostname, d.publicKey, AddressText(cidr, d.ip), d.endpoint, d.endpoints,
         ActiveRoutesOf(d.advertised, d.approved))
  }

  /** The policy shows `b` to `a`: traffic is allowed one way or the other. */
  ghost predicate MaySee(s: StateFile, a: Device, b: Device) {
    Allowed(s.acl, MachineOf(s.cidr, a), MachineOf(s.cidr, b)) || Allowed(s.acl, MachineOf(s.cidr, b), MachineOf(s.cidr, a))
  }

  /** `p` shows the device: its names, its address, its endpoints, and the routes offered and approved. */
  ghost predicate Shows(cidr: RouteText, d: Device, p: Peer) {
    && p.hostname == d.hostname && p.publicKey == d.publicKey
    && (if cidr.Spelled? && !cidr.prefix.is4 then p.ip == Colons(d.ip, "") else p.ip == Dotted(d.ip))
    && p.endpoint == d.endpoint && p.endpoints == d.endpoints
    && p.routes == ActiveRoutesOf(d.advertised, d.approved)
  }

  predicate KeyedByOwnKey(s: StateFile) {
    forall pub :: pub in s.devices ==> s.devices[pub].publicKey == pub
  }

  /** `p` is the view of another device that `pub` is allowed to see. */
  ghost predicate SeenBy(s: StateFile, pub: Pub, p: Peer)
    requires pub in s.devices
  {
    exists other :: other in s.devices && other != pub
      && MaySee(s, s.devices[pub], s.devices[other]) && Shows(s.cidr, s.devices[other], p)
  }

  // ---------------------------------------------------------------- the store

  class Store {
    var s: StateFile

    constructor (cidr: RouteText)
      ensures s == EmptyState(cidr)
    {
      s := EmptyState(cidr);
    }

    method CreateAuthKeyFor(owner: string, reusable: bool, ttl: int, text: Text, now: int, saveOk: bool)
        returns (r: Result<AuthKey>)
      modifies this
      ensures s == old(s).(authKeys := old(s.authKeys) + [NewAuthKey(owner, reusable, ttl, text, now)])
      ensures r == Saved(saveOk, NewAuthKey(owner, reusable, ttl, text, now))
    {
      var k := AuthKey(text, owner, reusable, false, now, None);
      if ttl > 0 {
        k := k.(expiresAt := Some(now + ttl));
      }
      s := s.(authKeys := s.authKeys + [k]);
      r := Saved(saveOk, k);
    }

    /** The used addresses are collected, then the range is walked. */
    method AllocateIPLocked() returns (r: Result<nat>)
      ensures r == NewIP(s)
    {
      var pool := Pool(s);
      if pool.None? {
        return Err(BadCidr);
      }
      var used: set<nat> := {};
      var rest := s.devices.Keys;
      while rest != {}
        invariant rest <= s.devices.Keys
        invariant used == set pub | pub in s.devices && pub !in rest :: s.devices[pub].ip
        decreases |rest|
      {
        var pub :| pub in rest;
        rest := rest - {pub};
        used := used + {s.devices[pub].ip};
      }
      assert used == UsedIPs(s.devices);
      var ip := AllocateIP(pool.value, used);
      r := if ip.Some? then Ok(ip.value) else Err(IPExhausted);
    }

    method CreateDeviceLocked(hostname: Text, pub: Pub, owner: string, now: int, draw: Draw) returns (r: Result<Device>)
      modifies this
      ensures old(NewIP(s)).Ok? ==>
                var d := NewDevice(hostname, pub, owner, old(NewIP(s)).value, now, draw);
                r == Ok(d) && s == old(s).(devices := old(s.devices)[pub := d])
      ensures old(NewIP(s)).Err? ==> r == Err(old(NewIP(s)).error) && s == old(s)
    {
      var ip := AllocateIPLocked();
      if ip.Err? {
        return Err(ip.error);
      }
      var d := NewDevice(hostname, pub, owner, ip.value, now, draw);
      s := s.(devices := s.devices[pub := d]);
      r := Ok(d);
    }

    method FindAuthKey(authKey: Text, now: int) returns (r: Option<nat>)
      ensures r == UsableKey(s.authKeys, authKey, now)
    {
      for i := 0 to |s.authKeys|
        invariant UsableKey(s.authKeys[..i], authKey, now).None?
      {
        assert s.authKeys[..i + 1][..i] == s.authKeys[..i];
        var k := s.authKeys[i];
        if k.key == authKey && (k.reusable || !k.used) && NotExpired(k.expiresAt, now) {
          return Some(i);
        }
      }
      assert s.authKeys[..|s.authKeys|] == s.authKeys;
      r := None;
    }

    method RegisterDevice(authKey: Text, hostname: Text, pub: Pub, now: int, draw: Draw, saveOk: bool)
        returns (r: Result<Device>)
      modifies this
      ensures (s, r) == RegisterStep(old(s), authKey, hostname, pub, now, draw, saveOk)
    {
      if pub in s.devices {
        var d := s.devices[pub];
        if hostname != Word("") && d.hostname != hostname {
          d := d.(hostname := hostname);
          s := s.(devices := s.devices[pub := d]);
          return Saved(saveOk, d);
        }
        return Ok(d);
      }
      var i := FindAuthKey(authKey, now);
      if i.None? {
        return Err(InvalidAuthKey);
      }
      var d := CreateDeviceLocked(hostname, pub, s.authKeys[i.value].owner, now, draw);
      if d.Err? {
        return d;
      }
      s := s.(authKeys := s.authKeys[i.value := s.authKeys[i.value].(used := true)]);
      r := Saved(saveOk, d.value);
    }

    method RegisterDeviceSSO(hostname: Text, pub: Pub, owner: string, now: int, draw: Draw, saveOk: bool)
        returns (r: Result<Device>)
      modifies this
      ensures (s, r) == RegisterSSOStep(old(s), hostname, pub, owner, now, draw, saveOk)
    {
      if pub in s.devices {
        var d := s.devices[pub];
        var changed := false;
        if hostname != Word("") && d.hostname != hostname {
          d := d.(hostname := hostname);
          changed := true;
        }
        if owner != "" && d.owner != owner {
          d := d.(owner := owner);
          changed := true;
        }
        assert s.devices[pub := s.devices[pub]] == s.devices;
        if changed {
          s := s.(devices := s.devices[pub := d]);
          return Saved(saveOk, d);
        }
        return Ok(d);
      }
      r := CreateDeviceLocked(hostname, pub, owner, now, draw);
      if r.Ok? {
        r := Saved(saveOk, r.value);
      }
    }

    /** The devices are visited in an arbitrary order; the empty token is None. */
    method DeviceByToken(token: Option<Token>, now: int) returns (r: Option<Device>)
      ensures r.Some? ==> token.Some? && exists pub :: pub in s.devices && s.devices[pub] == r.value
                                                     && AcceptsToken(r.value, token.value, now)
      ensures r.None? && token.Some? ==> forall pub :: pub in s.devices ==> !AcceptsToken(s.devices[pub], token.value, now)
    {
      if token.None? {
        return None;
      }
      var rest := s.devices.Keys;
      while rest != {}
        invariant rest <= s.devices.Keys
        invariant forall pub :: pub in s.devices && pub !in rest ==> !AcceptsToken(s.devices[pub], token.value, now)
        decreases |rest|
      {
        var pub :| pub in rest;
        rest := rest - {pub};
        if AcceptsToken(s.devices[pub], token.value, now) {
          return Some(s.devices[pub]);
        }
      }
      r := None;
    }

    method RotateTokenIfDue(pub: Pub, now: int, rotateAfter: int, token: Token, saveOk: bool)
        returns (r: Result<Option<Token>>)
      modifies this
      ensures (s, r) == RotateStep(old(s), pub, now, rotateAfter, token, saveOk)
    {
      if pub !in s.devices {
        return Err(UnknownDevice);
      }
      var d := s.devices[pub];
      if now - d.tokenIssuedAt < rotateAfter {
        return Ok(None);
      }
      d := d.(prevToken := Some(d.token), prevTokenUntil := now + TOKEN_GRACE);
      d := d.(token := token, tokenIssuedAt := now);
      s := s.(devices := s.devices[pub := d]);
      r := Saved(saveOk, Some(token));
    }

    method TouchDevice(pub: Pub, endpoint: string, reported: Option<seq<string>>, advertised: Option<seq<RouteText>>,
                       now: int, saveOk: bool) returns (r: Result<bool>)
      modifies this
      ensures (s, r) == TouchStep(old(s), pub, endpoint, reported, advertised, now, saveOk)
    {
      if pub !in s.devices {
        return Err(UnknownDevice);
      }
      var d := s.devices[pub].(lastSeen := Some(now));
      if endpoint != "" {
        d := d.(endpoint := endpoint);
      }
      if reported.Some? {
        d := d.(endpoints := reported.value);
      }
      if advertised.Some? {
        var valid: seq<RouteText> := [];
        for i := 0 to |advertised.value|
          invariant valid == Normalized(advertised.value[..i])
        {
          assert advertised.value[..i + 1][..i] == advertised.value[..i];
          var c := NormalizeCidr(advertised.value[i]);
          if c.Some? {
            valid := valid + [c.value];
          }
        }
        assert advertised.value[..|advertised.value|] == advertised.value;
        d := d.(advertised := valid);
      }
      s := s.(devices := s.devices[pub := d]);
      r := Saved(saveOk, true);
    }

    /** Every route must be valid; the machine is any one the target designates. */
    method SetApprovedRoutes(target: Text, routes: seq<RouteText>, saveOk: bool) returns (r: Result<Device>)
      modifies this
      ensures (exists u :: u in routes && NormalizeCidr(u).None?) ==> r == Err(InvalidRoute) && s == old(s)
      ensures (forall u :: u in routes ==> NormalizeCidr(u).Some?) &&
              (forall pub :: pub in old(s.devices) ==> !Matches(old(s.cidr), old(s.devices)[pub], target)) ==>
                r == Err(NoMatch) && s == old(s)
      ensures (forall u :: u in routes ==> NormalizeCidr(u).Some?) &&
              (exists pub :: pub in old(s.devices) && Matches(old(s.cidr), old(s.devices)[pub], target)) ==>
                exists pub :: pub in old(s.devices) && Matches(old(s.cidr), old(s.devices)[pub], target)
                  && s == ApproveStep(old(s), pub, Normalized(routes)) && r == Saved(saveOk, s.devices[pub])
    {
      var normalized: seq<RouteText> := [];
      for i := 0 to |routes|
        invariant forall u :: u in routes[..i] ==> NormalizeCidr(u).Some?
        invariant normalized == Normalized(routes[..i])
      {
        assert routes[..i + 1][..i] == routes[..i];
        var c := NormalizeCidr(routes[i]);
        if c.None? {
          assert routes[i] in routes;
          return Err(InvalidRoute);
        }
        normalized := normalized + [c.value];
      }
      assert routes[..|routes|] == routes;
      var found := FindDevice(target);
      if found.None? {
        return Err(NoMatch);
      }
      var d := s.devices[found.value].(approved := normalized);
      s := s.(devices := s.devices[found.value := d]);
      r := Saved(saveOk, d);
    }

    method FindDevice(target: Text) returns (r: Option<Pub>)
      ensures r.Some? ==> r.value in s.devices && Matches(s.cidr, s.devices[r.value], target)
      ensures r.None? ==> forall pub :: pub in s.devices ==> !Matches(s.cidr, s.devices[pub], target)
    {
      var rest := s.devices.Keys;
      while rest != {}
        invariant rest <= s.devices.Keys
        invariant forall pub :: pub in s.devices && pub !in rest ==> !Matches(s.cidr, s.devices[pub], target)
        decreases |rest|
      {
        var pub :| pub in rest;
        rest := rest - {pub};
        if Matches(s.cidr, s.devices[pub], target) {
          return Some(pub);
        }
      }
      r := None;
    }

    method ActiveRoutes(d: Device) returns (out: seq<RouteText>)
      ensures out == ActiveRoutesOf(d.advertised, d.approved)
    {
      out := [];
      if |d.advertised| == 0 || |d.approved| == 0 {
        NothingApproved(d.advertised, d.approved);
        return;
      }
      var approved := set t | t in d.approved;
      for i := 0 to |d.advertised|
        invariant out == ActiveRoutesOf(d.advertised[..i], d.approved)
      {
        assert d.advertised[..i + 1][..i] == d.advertised[..i];
        if d.advertised[i] in approved {
          out := out + [d.advertised[i]];
        }
      }
      assert d.advertised[..|d.advertised|] == d.advertised;
    }

    method RemoveDevice(target: Text, saveOk: bool) returns (r: Result<Device>)
      modifies this
      ensures (forall pub :: pub in old(s.devices) ==> !Matches(old(s.cidr), old(s.devices)[pub], target)) ==>
                r == Err(NoMatch) && s == old(s)
      ensures (exists pub :: pub in old(s.devices) && Matches(old(s.cidr), old(s.devices)[pub], target)) ==>
                exists pub :: pub in old(s.devices) && Matches(old(s.cidr), old(s.devices)[pub], target)
                  && s == old(s).(devices := old(s.devices) - {pub}) && r == Saved(saveOk, old(s.devices)[pub])
    {
      var found := FindDevice(target);
      if found.None? {
        return Err(NoMatch);
      }
      var d := s.devices[found.value];
      s := s.(devices := s.devices - {found.value});
      r := Saved(saveOk, d);
    }

    method RemoveOwnedDevice(owner: string, target: Text, saveOk: bool) returns (r: Result<Device>)
      modifies this
      ensures (forall pub :: pub in old(s.devices) ==> !OwnedMatch(old(s.cidr), old(s.devices)[pub], owner, target)) ==>
                r == Err(NotOwned) && s == old(s)
      ensures (exists pub :: pub in old(s.devices) && OwnedMatch(old(s.cidr), old(s.devices)[pub], owner, target)) ==>
                exists pub :: pub in old(s.devices) && OwnedMatch(old(s.cidr), old(s.devices)[pub], owner, target)
                  && s == old(s).(devices := old(s.devices) - {pub}) && r == Saved(saveOk, old(s.devices)[pub])
    {
      var rest := s.devices.Keys;
      while rest != {}
        invariant s == old(s) && rest <= s.devices.Keys
        invariant forall pub :: pub in s.devices && pub !in rest ==> !OwnedMatch(s.cidr, s.devices[pub], owner, target)
        decreases |rest|
      {
        var pub :| pub in rest;
        rest := rest - {pub};
        var d := s.devices[pub];
        if d.owner == owner && Matches(s.cidr, d, target) {
          s := s.(devices := s.devices - {pub});
          return Saved(saveOk, d);
        }
      }
      r := Err(NotOwned);
    }

    method CreateInvite(ttl: int, code: Text, now: int, saveOk: bool) returns (r: Result<Invite>)
      modifies this
      ensures s == old(s).(invites := old(s.invites) + [NewInvite(ttl, code, now)])
      ensures r == Saved(saveOk, NewInvite(ttl, code, now))
    {
      var inv := Invite(code, false, now, None);
      if ttl > 0 {
        inv := inv.(expiresAt := Some(now + ttl));
      }
      s := s.(invites := s.invites + [inv]);
      r := Saved(saveOk, inv);
    }

    method FindInvite(code: Text, now: int) returns (r: Option<nat>)
      ensures r == OpenInvite(s.invites, code, now)
    {
      for i := 0 to |s.invites|
        invariant OpenInvite(s.invites[..i], code, now).None?
      {
        assert s.invites[..i + 1][..i] == s.invites[..i];
        var inv := s.invites[i];
        if inv.code == code && !inv.used && NotExpired(inv.expiresAt, now) {
          return Some(i);
        }
      }
      assert s.invites[..|s.invites|] == s.invites;
      r := None;
    }

    method RegisterUser(q: SignUp, now: int, id: Text, saveOk: bool) returns (r: Result<User>)
      modifies this
      ensures (s, r) == SignUpStep(old(s), q, now, id, saveOk)
    {
      if q.email == "" || '@' !in q.email {
        return Err(InvalidEmail);
      }
      if |q.password| < 8 {
        return Err(WeakPassword);
      }
      if q.hash.None? {
        return Err(HashFailed);
      }
      if q.email in s.users {
        return Err(EmailTaken);
      }
      if q.requireInvite {
        var i := FindInvite(q.code, now);
        if i.None? {
          return Err(InvalidInvite);
        }
        s := s.(invites := s.invites[i.value := s.invites[i.value].(used := true)]);
      }
      var u := User(id, q.email, q.hash.value, now);
      s := s.(users := s.users[q.email := u]);
      r := Saved(saveOk, u);
    }

    method SetACL(p: Option<Policy>, saveOk: bool) returns (r: Result<bool>)
      modifies this
      ensures s == old(s).(acl := p) && r == Saved(saveOk, true)
    {
      s := s.(acl := p);
      r := Saved(saveOk, true);
    }

    /** The map sent to `self`: one view per visible device, in whatever order they come. */
    method VisiblePeers(self: Device) returns (peers: seq<Peer>)
      ensures forall p :: p in peers <==>
                exists pub :: pub in s.devices && s.devices[pub].publicKey != self.publicKey
                  && MaySee(s, self, s.devices[pub]) && Shows(s.cidr, s.devices[pub], p)
    {
      peers := [];
      var rest := s.devices.Keys;
      while rest != {}
        invariant rest <= s.devices.Keys
        invariant forall p :: p in peers <==>
                    exists pub :: pub in s.devices && pub !in rest && s.devices[pub].publicKey != self.publicKey
                      && MaySee(s, self, s.devices[pub]) && Shows(s.cidr, s.devices[pub], p)
        decreases |rest|
      {
        var pub :| pub in rest;
        rest := rest - {pub};
        var d := s.devices[pub];
        if d.publicKey == self.publicKey {
          continue;
        }
        var visible := Visible(s.acl, MachineOf(s.cidr, self), MachineOf(s.cidr, d));
        if !visible {
          continue;
        }
        peers := peers + [PeerView(s.cidr, d)];
      }
    }
  }

  // ---------------------------------------------------------------- polls

  /** What an agent sends with a poll; None stands for a missing list. */
  datatype PollRequest = PollRequest(endpoint: string, endpoints: Option<seq<string>>, advertised: Option<seq<RouteText>>)

  /** The readings and outcomes of one poll: lookup at t0, the rest at t1. */
  datatype PollEnv = PollEnv(t0: int, t1: int, rotateAfter: int, drawn: Token, touchSaved: bool, rotateSaved: bool)

  datatype PollReply = PollReply(newToken: Option<Token>, self: Peer, peers: seq<Peer>)

  /** The state after a poll of the device `pub`, and the new token its reply carries, if there is a reply. */
  function PollStep(s: StateFile, pub: Pub, q: PollRequest, env: PollEnv): (StateFile, Result<Option<Token>>) {
    var (s1, touched) := TouchStep(s, pub, q.endpoint, q.endpoints, q.advertised, env.t1, env.touchSaved);
    if touched.Err? then (s1, Err(touched.error))
    else RotateStep(s1, pub, env.t1, env.rotateAfter, env.drawn, env.rotateSaved)
  }

  /** The handler behind the token check. */
  method Answer(store: Store, self: Device, q: PollRequest, env: PollEnv) returns (r: Result<PollReply>)
    requires KeyedByOwnKey(store.s) && self.publicKey in store.s.devices && store.s.devices[self.publicKey] == self
    modifies store
    ensures var (s', t) := PollStep(old(store.s), self.publicKey, q, env);
            && store.s == s'
            && (t.Err? ==> r == Err(t.error))
            && (t.Ok? ==> r.Ok? && r.value.newToken == t.value
                          && Shows(s'.cidr, s'.devices[self.publicKey], r.value.self)
                          && forall p :: p in r.value.peers <==> SeenBy(s', self.publicKey, p))
  {
    var pub := self.publicKey;
    var touched := store.TouchDevice(pub, q.endpoint, q.endpoints, q.advertised, env.t1, env.touchSaved);
    if touched.Err? {
      return Err(touched.error);
    }
    var t := store.RotateTokenIfDue(pub, env.t1, env.rotateAfter, env.drawn, env.rotateSaved);
    if t.Err? {
      return Err(t.error);
    }
    var peers := store.VisiblePeers(self);
    r := Ok(PollReply(t.value, PeerView(store.s.cidr, store.s.devices[pub]), peers));
  }

  /** The machine is found by its token, touched, its token rotated when due, and shown its visible peers. */
  method HandlePoll(store: Store, token: Option<Token>, q: PollRequest, env: PollEnv) returns (r: Result<PollReply>)
    requires KeyedByOwnKey(store.s)
    modifies store
    ensures (token.None? || forall pub :: pub in old(store.s.devices) ==>
                              !AcceptsToken(old(store.s.devices)[pub], token.value, env.t0)) ==>
              r == Err(Unauthorized) && store.s == old(store.s)
    ensures token.Some? && (exists pub :: pub in old(store.s.devices) &&
                              AcceptsToken(old(store.s.devices)[pub], token.value, env.t0)) ==>
              exists pub :: pub in old(store.s.devices)
                && AcceptsToken(old(store.s.devices)[pub], token.value, env.t0)
                && var (s', t) := PollStep(old(store.s), pub, q, env);
                   && store.s == s'
                   && (t.Err? ==> r == Err(t.error))
                   && (t.Ok? ==> r.Ok? && r.value.newToken == t.value
                                 && Shows(s'.cidr, s'.devices[pub], r.value.self)
                                 && forall p :: p in r.value.peers <==> SeenBy(s', pub, p))
  {
    var found := store.DeviceByToken(token, env.t0);
    if found.None? {
      return Err(Unauthorized);
    }
    var self := found.value;
    var pub := self.publicKey;
    assert pub in store.s.devices && store.s.devices[pub] == self;
    r := Answer(store, self, q, env);
  }
}
