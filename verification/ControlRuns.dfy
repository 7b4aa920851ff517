/** What the coordination store keeps over every run of its operations, failed saves included. */
module ControlRuns {
  import opened Net
  import opened NetMap
  import opened Prefixes
  import opened IpPool
  import opened Acl
  import opened Control

  datatype Event =
    | CreateKey(owner: string, reusable: bool, ttl: int, text: Text, now: int)
    | Register(authKey: Text, hostname: Text, pub: Pub, now: int, draw: Draw, saveOk: bool)
    | RegisterSSO(hostname: Text, pub: Pub, owner: string, now: int, draw: Draw, saveOk: bool)
    | Touch(pub: Pub, endpoint: string, reported: Option<seq<string>>, advertised: Option<seq<RouteText>>,
            now: int, saveOk: bool)
    | Rotate(pub: Pub, now: int, rotateAfter: int, token: Token, saveOk: bool)
    | Approve(pub: Pub, routes: seq<RouteText>)
    | Remove(pub: Pub)
    | SetAcl(acl: Option<Policy>)
    | CreateInvite(ttl: int, code: Text, now: int)
    | SignUpEvent(q: SignUp, now: int, id: Text, saveOk: bool)

  type Run = seq<Event>

  function Next(s: StateFile, e: Event): StateFile {
    match e
    case CreateKey(owner, reusable, ttl, text, now) =>
      s.(authKeys := s.authKeys + [NewAuthKey(owner, reusable, ttl, text, now)])
    case Register(authKey, hostname, pub, now, draw, saveOk) =>
      RegisterStep(s, authKey, hostname, pub, now, draw, saveOk).0
    case RegisterSSO(hostname, pub, owner, now, draw, saveOk) =>
      RegisterSSOStep(s, hostname, pub, owner, now, draw, saveOk).0
    case Touch(pub, endpoint, reported, advertised, now, saveOk) =>
      TouchStep(s, pub, endpoint, reported, advertised, now, saveOk).0
    case Rotate(pub, now, rotateAfter, token, saveOk) => RotateStep(s, pub, now, rotateAfter, token, saveOk).0
    case Approve(pub, routes) =>
      if pub in s.devices && (forall u :: u in routes ==> NormalizeCidr(u).Some?)
      then ApproveStep(s, pub, Normalized(routes)) else s
    case Remove(pub) => s.(devices := s.devices - {pub})
    case SetAcl(acl) => s.(acl := acl)
    case CreateInvite(ttl, code, now) => s.(invites := s.invites + [NewInvite(ttl, code, now)])
    case SignUpEvent(q, now, id, saveOk) => SignUpStep(s, q, now, id, saveOk).0
  }

  function After(cidr: RouteText, r: Run): StateFile {
    if |r| == 0 then EmptyState(cidr) else Next(After(cidr, Front(r)), r[|r| - 1])
  }

  // ---------------------------------------------------------------- what an event does to the devices

  datatype Change = Unchanged | Put(pub: Pub, d: Device) | Drop(pub: Pub)

  function Changed(devices: map<Pub, Device>, c: Change): map<Pub, Device> {
    match c
    case Unchanged => devices
    case Put(pub, d) => devices[pub := d]
    case Drop(pub) => devices - {pub}
  }

  function ChangeBy(s: StateFile, e: Event): Change {
    if e.Remove? then Drop(e.pub)
    else if (e.Register? || e.RegisterSSO? || e.Touch? || e.Rotate? || e.Approve?) && e.pub in Next(s, e).devices
    then Put(e.pub, Next(s, e).devices[e.pub])
    else Unchanged
  }

  function DrawnSet(e: Event): set<Token> {
    if DrawnBy(e).Some? then {DrawnBy(e).value} else {}
  }

  /** Every event leaves the devices alone, drops one, or puts one that was there or is new. */
  lemma DevicesChange(s: StateFile, e: Event)
    ensures Next(s, e).devices == Changed(s.devices, ChangeBy(s, e)) && Next(s, e).cidr == s.cidr
    ensures ChangeBy(s, e).Put? && ChangeBy(s, e).pub in s.devices ==>
              var was, d := s.devices[ChangeBy(s, e).pub], ChangeBy(s, e).d;
              && d.publicKey == was.publicKey && d.ip == was.ip
              && TokensOf(d) <= TokensOf(was) + DrawnSet(e)
              && (!e.Rotate? ==> TokensKept(was, d))
              && (d.advertised == was.advertised || (e.Touch? && d.advertised == Normalized(e.advertised.value)))
              && (d.approved == was.approved || (e.Approve? && d.approved == Normalized(e.routes)))
    ensures ChangeBy(s, e).Put? && ChangeBy(s, e).pub !in s.devices ==>
              var d := ChangeBy(s, e).d;
              && d.publicKey == ChangeBy(s, e).pub && NewIP(s) == Ok(d.ip) && TokensOf(d) == DrawnSet(e)
              && d.advertised == [] && d.approved == []
  {
    hide NewIP, UsableKey, Normalized, NormalizeCidr, OpenInvite, Open, NewAuthKey, NewInvite;
    if ChangeBy(s, e).Put? && e.pub in s.devices {
      assert s.devices[e.pub := s.devices[e.pub]] == s.devices;
    }
  }

  // ---------------------------------------------------------------- devices and their addresses

  ghost predicate DeviceSound(s: StateFile, pub: Pub) {
    pub in s.devices ==>
      && s.devices[pub].publicKey == pub
      && Pool(s).Some? && IsHost(Pool(s).value, s.devices[pub].ip)
      && (forall t :: t in s.devices[pub].advertised ==> CanonicalRoute(t))
      && (forall t :: t in s.devices[pub].approved ==> CanonicalRoute(t))
  }

  ghost predicate AddressesDistinct(s: StateFile) {
    forall a, b :: a in s.devices && b in s.devices && s.devices[a].ip == s.devices[b].ip ==> a == b
  }

  lemma NewAddress(s: StateFile)
    ensures NewIP(s).Ok? ==> Pool(s).Some? && IsHost(Pool(s).value, NewIP(s).value)
                             && forall pub :: pub in s.devices ==> s.devices[pub].ip != NewIP(s).value
  {
    if Pool(s).Some? {
      AllocateMeaning(Pool(s).value, UsedIPs(s.devices));
    }
  }

  lemma DevicesStep(s: StateFile, e: Event, pub: Pub)
    requires DeviceSound(s, pub)
    ensures DeviceSound(Next(s, e), pub)
  {
    hide Next, NewIP, ChangeBy;
    NewAddress(s);
    DevicesChange(s, e);
    var c := ChangeBy(s, e);
    if c.Put? && c.pub == pub {
      assert forall t :: t in c.d.advertised ==> CanonicalRoute(t);
      assert forall t :: t in c.d.approved ==> CanonicalRoute(t);
    }
  }

  lemma AddressesStep(s: StateFile, e: Event)
    requires AddressesDistinct(s)
    ensures AddressesDistinct(Next(s, e))
  {
    hide Next, NewIP, ChangeBy;
    NewAddress(s);
    DevicesChange(s, e);
  }

  /**
   * In every run devices are filed under their own key, their addresses are distinct host
   * addresses of the range (never the network or the broadcast address), and all their routes
   * are canonical IPv4 networks.
   */
  lemma {:induction false} DevicesAreSound(cidr: RouteText, r: Run)
    ensures AddressesDistinct(After(cidr, r)) && forall pub :: DeviceSound(After(cidr, r), pub)
    ensures KeyedByOwnKey(After(cidr, r))
  {
    if |r| > 0 {
      var s, e := After(cidr, Front(r)), r[|r| - 1];
      DevicesAreSound(cidr, Front(r));
      AddressesStep(s, e);
      forall pub ensures DeviceSound(Next(s, e), pub) {
        DevicesStep(s, e, pub);
      }
    }
    var t := After(cidr, r);
    assert forall pub :: pub in t.devices ==> DeviceSound(t, pub);
  }

  lemma {:induction false} NoMoreAddressesThanDevices(devices: map<Pub, Device>)
    ensures |UsedIPs(devices)| <= |devices|
    decreases |devices|
  {
    if |devices| > 0 {
      var pub :| pub in devices;
      var rest := devices - {pub};
      assert rest.Keys == devices.Keys - {pub};
      assert |rest| == |rest.Keys| && |devices| == |devices.Keys|;
      NoMoreAddressesThanDevices(rest);
      assert UsedIPs(devices) == UsedIPs(rest) + {devices[pub].ip};
    } else {
      assert UsedIPs(devices) == {};
    }
  }

  /** Enrolment finds an address whenever there are fewer devices than hosts in the range. */
  lemma RoomMeansAddress(s: StateFile)
    requires Pool(s).Some? && |s.devices| < Size(Pool(s).value) - 2
    ensures NewIP(s).Ok?
  {
    NoMoreAddressesThanDevices(s.devices);
    FewerThanHostsSucceeds(Pool(s).value, UsedIPs(s.devices));
  }

  /** Visibility is mutual: two machines are shown to each other or not at all. */
  lemma {:induction false} VisibilityIsMutual(cidr: RouteText, r: Run, a: Pub, b: Pub)
    requires a in After(cidr, r).devices && b in After(cidr, r).devices
    ensures var s := After(cidr, r);
            SeenBy(s, a, PeerView(s.cidr, s.devices[b])) <==> SeenBy(s, b, PeerView(s.cidr, s.devices[a]))
  {
    DevicesAreSound(cidr, r);
    var s := After(cidr, r);
    SeenByKey(s, a, b);
    SeenByKey(s, b, a);
  }

  lemma SeenByKey(s: StateFile, a: Pub, b: Pub)
    requires KeyedByOwnKey(s) && a in s.devices && b in s.devices
    ensures SeenBy(s, a, PeerView(s.cidr, s.devices[b])) <==>
              a != b && MaySee(s, s.devices[a], s.devices[b])
  {
    assert PeerView(s.cidr, s.devices[b]).publicKey == b;
    forall c | c in s.devices && PeerView(s.cidr, s.devices[c]) == PeerView(s.cidr, s.devices[b])
      ensures c == b
    {
      assert PeerView(s.cidr, s.devices[c]).publicKey == c;
    }
  }

  /**
   * Rule `i` allows traffic from `a` to `b`, spelled out: some entry of its source names the
   * one, and some entry of its destination the other.
   */
  ghost predicate RuleLets(s: StateFile, i: nat, a: Device, b: Device)
    requires s.acl.Some? && i < |s.acl.value.rules|
  {
    var rule := s.acl.value.rules[i];
    exists j, k :: 0 <= j < |rule.src| && 0 <= k < |rule.dst|
      && rule.src[j] in {Word("*"), a.hostname, AddressText(s.cidr, a.ip)}
      && rule.dst[k] in {Word("*"), b.hostname, AddressText(s.cidr, b.ip)}
  }

  /**
   * Whom a poll shows: every other machine as long as there are no rules; from the first rule
   * on, exactly those that some rule allows traffic to or from.
   */
  lemma {:induction false} ShownIff(cidr: RouteText, r: Run, a: Pub, b: Pub)
    requires var s := After(cidr, r); a in s.devices && b in s.devices && a != b
    ensures var s := After(cidr, r);
            (exists p :: SeenBy(s, a, p) && p.publicKey == b) <==>
              s.acl.None? || s.acl.value.rules == []
              || exists i :: 0 <= i < |s.acl.value.rules|
                   && (RuleLets(s, i, s.devices[a], s.devices[b]) || RuleLets(s, i, s.devices[b], s.devices[a]))
  {
    DevicesAreSound(cidr, r);
    var s := After(cidr, r);
    MaySeeIff(s, s.devices[a], s.devices[b]);
    if MaySee(s, s.devices[a], s.devices[b]) {
      assert SeenBy(s, a, PeerView(s.cidr, s.devices[b])) && PeerView(s.cidr, s.devices[b]).publicKey == b;
    }
  }

  lemma MaySeeIff(s: StateFile, a: Device, b: Device)
    ensures MaySee(s, a, b) <==>
              s.acl.None? || s.acl.value.rules == []
              || exists i :: 0 <= i < |s.acl.value.rules| && (RuleLets(s, i, a, b) || RuleLets(s, i, b, a))
  {
    if s.acl.Some? {
      forall i | 0 <= i < |s.acl.value.rules|
        ensures RuleLets(s, i, a, b) <==> AnyNames(s.acl.value.rules[i].src, MachineOf(s.cidr, a))
                                          && AnyNames(s.acl.value.rules[i].dst, MachineOf(s.cidr, b))
        ensures RuleLets(s, i, b, a) <==> AnyNames(s.acl.value.rules[i].src, MachineOf(s.cidr, b))
                                          && AnyNames(s.acl.value.rules[i].dst, MachineOf(s.cidr, a))
      {
        RuleLetsIff(s, i, a, b);
        RuleLetsIff(s, i, b, a);
      }
    }
  }

  lemma RuleLetsIff(s: StateFile, i: nat, a: Device, b: Device)
    requires s.acl.Some? && i < |s.acl.value.rules|
    ensures RuleLets(s, i, a, b) <==> AnyNames(s.acl.value.rules[i].src, MachineOf(s.cidr, a))
                                      && AnyNames(s.acl.value.rules[i].dst, MachineOf(s.cidr, b))
  {
    var rule := s.acl.value.rules[i];
    assert forall j :: 0 <= j < |rule.src| ==>
             (Names(rule.src[j], MachineOf(s.cidr, a)) <==> rule.src[j] in {Word("*"), a.hostname, AddressText(s.cidr, a.ip)});
    assert forall k :: 0 <= k < |rule.dst| ==>
             (Names(rule.dst[k], MachineOf(s.cidr, b)) <==> rule.dst[k] in {Word("*"), b.hostname, AddressText(s.cidr, b.ip)});
  }

  /** No entry of any rule names the machine. */
  ghost predicate Unnamed(s: StateFile, d: Device)
    requires s.acl.Some?
  {
    var rules := s.acl.value.rules;
    forall i :: 0 <= i < |rules| ==>
      && (forall j :: 0 <= j < |rules[i].src| ==> rules[i].src[j] !in {Word("*"), d.hostname, AddressText(s.cidr, d.ip)})
      && (forall k :: 0 <= k < |rules[i].dst| ==> rules[i].dst[k] !in {Word("*"), d.hostname, AddressText(s.cidr, d.ip)})
  }

  /** Under a policy with rules, a machine that no entry names sees nobody and is seen by nobody. */
  lemma {:induction false} UnnamedIsAlone(cidr: RouteText, r: Run, a: Pub, b: Pub)
    requires var s := After(cidr, r); a in s.devices && b in s.devices && a != b
    requires var s := After(cidr, r); s.acl.Some? && s.acl.value.rules != [] && Unnamed(s, s.devices[a])
    ensures var s := After(cidr, r); forall p: Peer :: p.publicKey == b ==> !SeenBy(s, a, p)
    ensures var s := After(cidr, r); forall p: Peer :: p.publicKey == a ==> !SeenBy(s, b, p)
  {
    hide SeenBy, After, Unnamed, RuleLets;
    var s := After(cidr, r);
    ShownIff(cidr, r, a, b);
    ShownIff(cidr, r, b, a);
    forall i | 0 <= i < |s.acl.value.rules|
      ensures !RuleLets(s, i, s.devices[a], s.devices[b]) && !RuleLets(s, i, s.devices[b], s.devices[a])
    {
      UnnamedIsNotLet(s, i, s.devices[a], s.devices[b]);
    }
  }

  lemma UnnamedIsNotLet(s: StateFile, i: nat, a: Device, b: Device)
    requires s.acl.Some? && i < |s.acl.value.rules| && Unnamed(s, a)
    ensures !RuleLets(s, i, a, b) && !RuleLets(s, i, b, a)
  {
  }

  /**
   * What designates a machine in an administrator's command: its host name, its id, and the
   * text of its address, which no other machine answers to unless it is named so.
   */
  lemma {:induction false} DesignatedBy(cidr: RouteText, r: Run, a: Pub, b: Pub)
    requires var s := After(cidr, r); a in s.devices && b in s.devices
    ensures var s := After(cidr, r);
            var d, text := s.devices[a], if cidr.Spelled? && !cidr.prefix.is4 then Colons(s.devices[a].ip, "")
                                         else Dotted(s.devices[a].ip);
            && Matches(cidr, d, d.hostname) && Matches(cidr, d, d.id) && Matches(cidr, d, text)
            && (Matches(cidr, s.devices[b], text) ==> b == a || text in {s.devices[b].hostname, s.devices[b].id})
  {
    DevicesAreSound(cidr, r);
    assert forall target, d :: Matches(cidr, d, target) ==> target in {d.hostname, d.id, AddressText(cidr, d.ip)};
  }

  // ---------------------------------------------------------------- enrolment keys

  /** The event enrols a new machine with key number i. */
  predicate EnrolsWith(s: StateFile, e: Event, i: nat) {
    e.Register? && e.pub !in s.devices && e.pub in Next(s, e).devices
    && UsableKey(s.authKeys, e.authKey, e.now) == Some(i)
  }

  function Enrolments(cidr: RouteText, r: Run, i: nat): nat {
    if |r| == 0 then 0
    else Enrolments(cidr, Front(r), i) + (if EnrolsWith(After(cidr, Front(r)), r[|r| - 1], i) then 1 else 0)
  }

  lemma KeyStep(s: StateFile, e: Event, i: nat)
    ensures |s.authKeys| <= |Next(s, e).authKeys| <= |s.authKeys| + 1
    ensures i == |s.authKeys| < |Next(s, e).authKeys| ==> !Next(s, e).authKeys[i].used
    ensures i < |s.authKeys| ==>
              var k, k' := s.authKeys[i], Next(s, e).authKeys[i];
              && k'.key == k.key && k'.reusable == k.reusable && k'.expiresAt == k.expiresAt
              && (k'.used <==> k.used || EnrolsWith(s, e, i))
    ensures EnrolsWith(s, e, i) ==> i < |s.authKeys| && (s.authKeys[i].reusable || !s.authKeys[i].used)
                                    && NotExpired(s.authKeys[i].expiresAt, e.now) && s.authKeys[i].key == e.authKey
  {
  }

  /**
   * A key that is not reusable enrols at most one machine in every run, saves failing or not:
   * exactly one once it is used, none before.
   */
  lemma {:induction false} SingleUseKeys(cidr: RouteText, r: Run, i: nat)
    ensures i >= |After(cidr, r).authKeys| ==> Enrolments(cidr, r, i) == 0
    ensures i < |After(cidr, r).authKeys| && !After(cidr, r).authKeys[i].reusable ==>
              Enrolments(cidr, r, i) == if After(cidr, r).authKeys[i].used then 1 else 0
  {
    hide Next, EnrolsWith;
    if |r| > 0 {
      SingleUseKeys(cidr, Front(r), i);
      KeyStep(After(cidr, Front(r)), r[|r| - 1], i);
    }
  }

  /**
   * No machine is enrolled but by a key of the right text, not expired, and not spent. An
   * enrolment spends the key, gives the machine the key's owner, the least free address and the
   * token drawn, and leaves every other machine as it was.
   */
  lemma EnrolmentNeedsUsableKey(s: StateFile, e: Event)
    requires e.Register? && e.pub !in s.devices && e.pub in Next(s, e).devices
    ensures exists i: nat :: EnrolsWith(s, e, i) && i < |s.authKeys| && Usable(s.authKeys[i], e.authKey, e.now)
                        && Next(s, e).authKeys[i].used
                        && Next(s, e).devices[e.pub].owner == s.authKeys[i].owner
    ensures var d := Next(s, e).devices[e.pub];
            && Pool(s).Some? && Allocate(Pool(s).value, UsedIPs(s.devices)) == Some(d.ip) && d.token == e.draw.token
            && d.prevToken == None && d.hostname == e.hostname
            && Next(s, e).devices - {e.pub} == s.devices
  {
  }

  /** Registering a known key again keeps its id, address and token, and spends nothing. */
  lemma ReRegisteringIsIdempotent(s: StateFile, authKey: Text, hostname: Text, pub: Pub, owner: string, now: int,
                                  draw: Draw, saveOk: bool)
    requires pub in s.devices
    ensures var (s', r) := RegisterStep(s, authKey, hostname, pub, now, draw, saveOk);
            && SameIdentity(s.devices[pub], s'.devices[pub]) && s'.authKeys == s.authKeys
            && s'.devices.Keys == s.devices.Keys
            && (r.Ok? ==> SameIdentity(s.devices[pub], r.value)) && (saveOk ==> r.Ok?)
            && s'.devices[pub].hostname == (if hostname == Word("") then s.devices[pub].hostname else hostname)
            && s'.devices[pub].owner == s.devices[pub].owner
    ensures var (s', r) := RegisterSSOStep(s, hostname, pub, owner, now, draw, saveOk);
            && SameIdentity(s.devices[pub], s'.devices[pub]) && s'.authKeys == s.authKeys
            && s'.devices.Keys == s.devices.Keys
            && (r.Ok? ==> SameIdentity(s.devices[pub], r.value)) && (saveOk ==> r.Ok?)
            && s'.devices[pub].hostname == (if hostname == Word("") then s.devices[pub].hostname else hostname)
            && s'.devices[pub].owner == (if owner == "" then s.devices[pub].owner else owner)
  {
    hide NewIP, UsableKey;
  }

  predicate SameIdentity(a: Device, b: Device) {
    a.id == b.id && a.ip == b.ip && a.token == b.token && a.prevToken == b.prevToken && a.publicKey == b.publicKey
  }

  // ---------------------------------------------------------------- invitations

  predicate JoinsByInvite(s: StateFile, e: Event) {
    e.SignUpEvent? && e.q.requireInvite && e.q.email !in s.users && e.q.email in Next(s, e).users
  }

  /** Accounts created while invitations were required. */
  function InvitedAccounts(cidr: RouteText, r: Run): nat {
    if |r| == 0 then 0
    else InvitedAccounts(cidr, Front(r)) + (if JoinsByInvite(After(cidr, Front(r)), r[|r| - 1]) then 1 else 0)
  }

  function UsedInvites(invites: seq<Invite>): nat {
    if |invites| == 0 then 0
    else UsedInvites(invites[..|invites| - 1]) + (if invites[|invites| - 1].used then 1 else 0)
  }

  lemma {:induction false} UsingOne(invites: seq<Invite>, i: nat)
    requires i < |invites| && !invites[i].used
    ensures UsedInvites(invites[i := invites[i].(used := true)]) == UsedInvites(invites) + 1
  {
    var n, after := |invites| - 1, invites[i := invites[i].(used := true)];
    if i < n {
      UsingOne(invites[..n], i);
      assert after[..n] == invites[..n][i := invites[i].(used := true)];
    } else {
      assert after[..n] == invites[..n];
    }
  }

  lemma InvitesStep(s: StateFile, e: Event)
    ensures UsedInvites(Next(s, e).invites) == UsedInvites(s.invites) + (if JoinsByInvite(s, e) then 1 else 0)
  {
    if JoinsByInvite(s, e) {
      UsingOne(s.invites, OpenInvite(s.invites, e.q.code, e.now).value);
    }
    if e.CreateInvite? {
      var after := Next(s, e).invites;
      assert after[..|after| - 1] == s.invites;
    }
  }

  /** In every run there are as many used invitations as accounts created by invitation. */
  lemma {:induction false} InvitesMatchAccounts(cidr: RouteText, r: Run)
    ensures UsedInvites(After(cidr, r).invites) == InvitedAccounts(cidr, r)
  {
    if |r| > 0 {
      InvitesMatchAccounts(cidr, Front(r));
      InvitesStep(After(cidr, Front(r)), r[|r| - 1]);
    }
  }

  // ---------------------------------------------------------------- tokens

  /** The token an event draws at random. */
  function DrawnBy(e: Event): Option<Token> {
    match e
    case Register(_, _, _, _, draw, _) => Some(draw.token)
    case RegisterSSO(_, _, _, _, draw, _) => Some(draw.token)
    case Rotate(_, _, _, token, _) => Some(token)
    case _ => None
  }

  function Drawn(r: Run): set<Token> {
    if |r| == 0 then {}
    else Drawn(Front(r)) + DrawnSet(r[|r| - 1])
  }

  /** Random draws do not repeat. */
  predicate FreshDraws(r: Run) {
    |r| == 0 || (FreshDraws(Front(r)) && (DrawnBy(r[|r| - 1]).Some? ==> DrawnBy(r[|r| - 1]).value !in Drawn(Front(r))))
  }

  function TokensOf(d: Device): set<Token> {
    {d.token} + (if d.prevToken.Some? then {d.prevToken.value} else {})
  }

  ghost predicate TokensApart(s: StateFile, drawn: set<Token>) {
    && (forall pub :: pub in s.devices ==> TokensOf(s.devices[pub]) <= drawn)
    && (forall a, b :: a in s.devices && b in s.devices && a != b ==> TokensOf(s.devices[a]) !! TokensOf(s.devices[b]))
  }

  lemma TokensStep(s: StateFile, e: Event, drawn: set<Token>)
    requires TokensApart(s, drawn) && (DrawnBy(e).Some? ==> DrawnBy(e).value !in drawn)
    ensures TokensApart(Next(s, e), drawn + DrawnSet(e))
  {
    hide Next, NewIP, ChangeBy, DrawnBy, TokensOf;
    DevicesChange(s, e);
  }

  /**
   * With draws that do not repeat, a token names at most one device at any time, so the lookup
   * by token does not depend on the order in which the devices are visited; a device never
   * has more than two tokens that could be accepted.
   */
  lemma {:induction false} TokensNameOneDevice(cidr: RouteText, r: Run)
    requires FreshDraws(r)
    ensures TokensApart(After(cidr, r), Drawn(r))
    ensures forall a, b, t, now :: var s := After(cidr, r);
              a in s.devices && b in s.devices && AcceptsToken(s.devices[a], t, now) && AcceptsToken(s.devices[b], t, now) ==>
                a == b
    ensures forall d: Device :: |TokensOf(d)| <= 2
  {
    if |r| > 0 {
      TokensNameOneDevice(cidr, Front(r));
      TokensStep(After(cidr, Front(r)), r[|r| - 1], Drawn(Front(r)));
    }
    var s := After(cidr, r);
    assert forall d: Device, t, now :: AcceptsToken(d, t, now) ==> t in TokensOf(d);
  }

  /** Only a rotation or a removal of the device itself touches its tokens. */
  lemma TokensAreFramed(s: StateFile, e: Event, pub: Pub)
    requires pub in s.devices && !(e.Rotate? && e.pub == pub) && !(e.Remove? && e.pub == pub)
    ensures pub in Next(s, e).devices && TokensKept(s.devices[pub], Next(s, e).devices[pub])
  {
    hide Next;
    DevicesChange(s, e);
  }
}
