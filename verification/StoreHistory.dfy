/**
 * The coordination store read off the events of its run: every field of a machine, every
 * enrolment key and invitation, and who is let in, without looking at the stored records.
 */
module StoreHistory {
  import opened Net
  import opened NetMap
  import opened Prefixes
  import opened IpPool
  import opened Control
  import opened ControlRuns

  // ---------------------------------------------------------------- the fields of a machine

  /** The value given by the last event of the run that `f` reads one from, or else `start`. */
  function LastGiven<T>(r: Run, f: Event -> Option<T>, start: T): T {
    if |r| == 0 then start
    else match f(Last(r))
      case Some(v) => v
      case None => LastGiven(Front(r), f, start)
  }

  ghost predicate GivesLast<T>(r: Run, f: Event -> Option<T>, n: nat) {
    n < |r| && f(r[n]).Some? && forall q :: n < q < |r| ==> f(r[q]).None?
  }

  lemma {:induction false} LastGivenMeaning<T>(r: Run, f: Event -> Option<T>, start: T)
    ensures forall n: nat :: GivesLast(r, f, n) ==> Some(LastGiven(r, f, start)) == f(r[n])
    ensures (forall n :: 0 <= n < |r| ==> f(r[n]).None?) ==> LastGiven(r, f, start) == start
  {
    if |r| > 0 {
      LastGivenMeaning(Front(r), f, start);
      forall n: nat | GivesLast(r, f, n)
        ensures Some(LastGiven(r, f, start)) == f(r[n])
      {
        if n < |r| - 1 {
          assert GivesLast(Front(r), f, n);
        }
      }
    }
  }

  function EndpointSeen(pub: Pub): Event -> Option<string> {
    (e: Event) => if e.Touch? && e.pub == pub && e.endpoint != "" then Some(e.endpoint) else None
  }

  function EndpointsReported(pub: Pub): Event -> Option<seq<string>> {
    (e: Event) => if e.Touch? && e.pub == pub then e.reported else None
  }

  function RoutesAdvertised(pub: Pub): Event -> Option<seq<RouteText>> {
    (e: Event) => if e.Touch? && e.pub == pub && e.advertised.Some? then Some(Normalized(e.advertised.value)) else None
  }

  function RoutesApproved(pub: Pub): Event -> Option<seq<RouteText>> {
    (e: Event) => if e.Approve? && e.pub == pub && forall u :: u in e.routes ==> NormalizeCidr(u).Some?
                  then Some(Normalized(e.routes)) else None
  }

  function SeenAt(pub: Pub): Event -> Option<Option<int>> {
    (e: Event) => if e.Touch? && e.pub == pub then Some(Some(e.now)) else None
  }

  function NameGiven(pub: Pub): Event -> Option<Text> {
    (e: Event) => if (e.Register? || e.RegisterSSO?) && e.pub == pub && e.hostname != Word("") then Some(e.hostname)
                    else None
  }

  function OwnerGiven(pub: Pub): Event -> Option<string> {
    (e: Event) => if e.RegisterSSO? && e.pub == pub && e.owner != "" then Some(e.owner) else None
  }

  /** A machine's token, when it was issued, and the one it replaced. */
  datatype Held = Held(token: Token, issuedAt: int, prev: Option<Token>)

  /** Each rotation asked for at least `rotateAfter` after the last one replaces the token. */
  function Holds(r: Run, pub: Pub, first: Held): Held {
    if |r| == 0 then first
    else
      var e, h := Last(r), Holds(Front(r), pub, first);
      if e.Rotate? && e.pub == pub && e.now >= h.issuedAt + e.rotateAfter then Held(e.token, e.now, Some(h.token)) else h
  }

  /** Event m enrolled the machine, and it has been there since. */
  ghost predicate EnrolledAt(cidr: RouteText, r: Run, pub: Pub, m: nat) {
    && m < |r| && pub !in After(cidr, r[..m]).devices
    && forall n :: m < n <= |r| ==> pub in After(cidr, r[..n]).devices
  }

  /** What a machine's record holds, given the event that enrolled it, its first owner, and the events since. */
  ghost predicate Recorded(d: Device, pub: Pub, e: Event, owner: string, since: Run)
    requires e.Register? || e.RegisterSSO?
  {
    && d.publicKey == pub && d.id == e.draw.id && d.createdAt == e.now
    && d.hostname == LastGiven(since, NameGiven(pub), e.hostname)
    && d.owner == LastGiven(since, OwnerGiven(pub), owner)
    && d.endpoint == LastGiven(since, EndpointSeen(pub), "")
    && d.endpoints == LastGiven(since, EndpointsReported(pub), [])
    && d.advertised == LastGiven(since, RoutesAdvertised(pub), [])
    && d.approved == LastGiven(since, RoutesApproved(pub), [])
    && d.lastSeen == LastGiven(since, SeenAt(pub), None)
    && var h := Holds(since, pub, Held(e.draw.token, e.now, None));
       && d.token == h.token && d.tokenIssuedAt == h.issuedAt && d.prevToken == h.prev
       && (h.prev.Some? ==> d.prevTokenUntil == h.issuedAt + 3_600_000_000_000)
  }

  lemma NewRecord(s: StateFile, e: Event, pub: Pub)
    requires pub !in s.devices && pub in Next(s, e).devices
    ensures (e.Register? || e.RegisterSSO?) && e.pub == pub
    ensures Recorded(Next(s, e).devices[pub], pub, e, Next(s, e).devices[pub].owner, [])
    ensures e.RegisterSSO? ==> Next(s, e).devices[pub].owner == e.owner
  {
    hide UsableKey, NewIP, Normalized, NormalizeCidr, OpenInvite;
  }

  /** `t` is the record `d` after event `e`. */
  ghost predicate Follows(d: Device, t: Device, pub: Pub, e: Event) {
    && t.publicKey == d.publicKey && t.id == d.id && t.createdAt == d.createdAt
    && t.hostname == (if NameGiven(pub)(e).Some? then NameGiven(pub)(e).value else d.hostname)
    && t.owner == (if OwnerGiven(pub)(e).Some? then OwnerGiven(pub)(e).value else d.owner)
    && t.endpoint == (if EndpointSeen(pub)(e).Some? then EndpointSeen(pub)(e).value else d.endpoint)
    && t.endpoints == (if EndpointsReported(pub)(e).Some? then EndpointsReported(pub)(e).value else d.endpoints)
    && t.advertised == (if RoutesAdvertised(pub)(e).Some? then RoutesAdvertised(pub)(e).value else d.advertised)
    && t.approved == (if RoutesApproved(pub)(e).Some? then RoutesApproved(pub)(e).value else d.approved)
    && t.lastSeen == (if SeenAt(pub)(e).Some? then SeenAt(pub)(e).value else d.lastSeen)
    && (if e.Rotate? && e.pub == pub && e.now >= d.tokenIssuedAt + e.rotateAfter
        then && t.token == e.token && t.tokenIssuedAt == e.now && t.prevToken == Some(d.token)
             && t.prevTokenUntil == e.now + 3_600_000_000_000
        else TokensKept(d, t))
  }

  /** The event is about this machine and may change its record. */
  predicate Concerns(e: Event, pub: Pub) {
    (e.Register? || e.RegisterSSO? || e.Touch? || e.Rotate? || e.Approve?) && e.pub == pub
  }

  lemma UnconcernedRecord(s: StateFile, e: Event, pub: Pub)
    requires pub in s.devices && pub in Next(s, e).devices && !Concerns(e, pub)
    ensures Follows(s.devices[pub], Next(s, e).devices[pub], pub, e)
  {
    hide Next, Normalized, NormalizeCidr;
    DevicesChange(s, e);
    assert Next(s, e).devices[pub] == s.devices[pub];
  }

  lemma RegisterRecord(s: StateFile, e: Event, pub: Pub)
    requires e.Register? && e.pub == pub && pub in s.devices
    ensures Follows(s.devices[pub], Next(s, e).devices[pub], pub, e)
  {
    hide RegisterSSOStep, TouchStep, RotateStep, SignUpStep, ApproveStep, Normalized, NormalizeCidr, UsableKey, NewIP;
  }

  lemma RegisterSSORecord(s: StateFile, e: Event, pub: Pub)
    requires e.RegisterSSO? && e.pub == pub && pub in s.devices
    ensures Follows(s.devices[pub], Next(s, e).devices[pub], pub, e)
  {
    hide RegisterStep, TouchStep, RotateStep, SignUpStep, ApproveStep, Normalized, NormalizeCidr, UsableKey, NewIP;
  }

  lemma TouchRecord(s: StateFile, e: Event, pub: Pub)
    requires e.Touch? && e.pub == pub && pub in s.devices
    ensures Follows(s.devices[pub], Next(s, e).devices[pub], pub, e)
  {
    hide RegisterStep, RegisterSSOStep, RotateStep, SignUpStep, ApproveStep, Normalized, NormalizeCidr;
  }

  lemma RotateRecord(s: StateFile, e: Event, pub: Pub)
    requires e.Rotate? && e.pub == pub && pub in s.devices
    ensures Follows(s.devices[pub], Next(s, e).devices[pub], pub, e)
  {
    hide RegisterStep, RegisterSSOStep, TouchStep, SignUpStep, ApproveStep, Normalized, NormalizeCidr;
  }

  lemma ApproveRecord(s: StateFile, e: Event, pub: Pub)
    requires e.Approve? && e.pub == pub && pub in s.devices
    ensures Follows(s.devices[pub], Next(s, e).devices[pub], pub, e)
  {
    hide RegisterStep, RegisterSSOStep, TouchStep, RotateStep, SignUpStep, Normalized, NormalizeCidr;
  }

  /** How one event changes the record of a machine that stays. */
  lemma RecordStep(s: StateFile, e: Event, pub: Pub)
    requires pub in s.devices && pub in Next(s, e).devices
    ensures Follows(s.devices[pub], Next(s, e).devices[pub], pub, e)
  {
    hide Follows, Next;
    if !Concerns(e, pub) {
      UnconcernedRecord(s, e, pub);
    } else if e.Register? {
      RegisterRecord(s, e, pub);
    } else if e.RegisterSSO? {
      RegisterSSORecord(s, e, pub);
    } else if e.Touch? {
      TouchRecord(s, e, pub);
    } else if e.Rotate? {
      RotateRecord(s, e, pub);
    } else {
      ApproveRecord(s, e, pub);
    }
  }

  /** What follows the last event of a history extends it. */
  lemma RecordedStep(d: Device, t: Device, pub: Pub, e: Event, owner: string, since: Run)
    requires (e.Register? || e.RegisterSSO?) && |since| > 0 && Recorded(d, pub, e, owner, Front(since))
    requires Follows(d, t, pub, Last(since))
    ensures Recorded(t, pub, e, owner, since)
  {
    hide NameGiven, OwnerGiven, EndpointSeen, EndpointsReported, RoutesAdvertised, RoutesApproved, SeenAt;
  }

  /**
   * Every field of a machine's record, in every run, saves failing or not: what the last event
   * that says anything about it says, since the event that enrolled the machine.
   */
  lemma {:induction false} RecordIsHistory(cidr: RouteText, r: Run, pub: Pub, m: nat)
    requires EnrolledAt(cidr, r, pub, m)
    ensures (r[m].Register? || r[m].RegisterSSO?) && r[m].pub == pub
    ensures pub in After(cidr, r).devices && pub in After(cidr, r[..m + 1]).devices
    ensures Recorded(After(cidr, r).devices[pub], pub, r[m], After(cidr, r[..m + 1]).devices[pub].owner, r[m + 1..])
    ensures r[m].RegisterSSO? ==> After(cidr, r[..m + 1]).devices[pub].owner == r[m].owner
    decreases |r|
  {
    hide Next;
    assert r[..|r|] == r;
    assert Front(r[..m + 1]) == r[..m] && Last(r[..m + 1]) == r[m];
    if |r| == m + 1 {
      assert r[..m + 1] == r && r[m + 1..] == [];
      NewRecord(After(cidr, r[..m]), r[m], pub);
    } else {
      var q := Front(r);
      assert forall n :: 0 <= n <= |q| ==> q[..n] == r[..n];
      RecordIsHistory(cidr, q, pub, m);
      assert Front(r[m + 1..]) == q[m + 1..] && Last(r[m + 1..]) == Last(r);
      assert pub in After(cidr, r[..|r|]).devices && pub in After(cidr, r[..|q|]).devices;
      RecordStep(After(cidr, q), Last(r), pub);
      RecordedStep(After(cidr, q).devices[pub], After(cidr, r).devices[pub], pub, r[m],
                   After(cidr, r[..m + 1]).devices[pub].owner, r[m + 1..]);
    }
  }

  /**
   * The token an agent may use: the last one issued, or the one it replaced during the hour
   * after the replacement.
   */
  lemma {:induction false} TokenAcceptedIff(cidr: RouteText, r: Run, pub: Pub, m: nat, token: Token, now: int)
    requires EnrolledAt(cidr, r, pub, m)
    ensures r[m].Register? || r[m].RegisterSSO?
    ensures pub in After(cidr, r).devices
    ensures var h := Holds(r[m + 1..], pub, Held(r[m].draw.token, r[m].now, None));
            AcceptsToken(After(cidr, r).devices[pub], token, now) <==>
              token == h.token || (h.prev == Some(token) && now < h.issuedAt + 3_600_000_000_000)
  {
    RecordIsHistory(cidr, r, pub, m);
  }

  /**
   * A poll is a touch, and when that is saved a request to rotate; its reply carries a token
   * exactly when it was replaced and saved.
   */
  lemma PollIsRun(s: StateFile, pub: Pub, q: PollRequest, env: PollEnv)
    requires pub in s.devices
    ensures var touch := Touch(pub, q.endpoint, q.endpoints, q.advertised, env.t1, env.touchSaved);
            var rotate := Rotate(pub, env.t1, env.rotateAfter, env.drawn, env.rotateSaved);
            var (s', t) := PollStep(s, pub, q, env);
            var due := env.t1 >= s.devices[pub].tokenIssuedAt + env.rotateAfter;
            && s' == (if env.touchSaved then Next(Next(s, touch), rotate) else Next(s, touch))
            && t == (if !env.touchSaved || (due && !env.rotateSaved) then Err(SaveFailed)
                     else Ok(if due then Some(env.drawn) else None))
            && (t.Ok? && t.value.Some? ==> s'.devices[pub].token == t.value.value)
  {
  }

  // ---------------------------------------------------------------- enrolment keys

  /** The creations of keys, in order. */
  function KeysMade(r: Run): (k: seq<Event>)
    ensures forall i :: 0 <= i < |k| ==> k[i].CreateKey?
  {
    if |r| == 0 then [] else KeysMade(Front(r)) + if Last(r).CreateKey? then [Last(r)] else []
  }

  /** Key number i has this text, has enrolled nobody or may enrol many, and its time is not up. */
  ghost predicate LetsIn(cidr: RouteText, r: Run, i: nat, text: Text, now: int) {
    && i < |KeysMade(r)|
    && var c := KeysMade(r)[i];
       c.text == text && (c.reusable || Enrolments(cidr, r, i) == 0) && (c.ttl <= 0 || now < c.now + c.ttl)
  }

  lemma {:induction false} KeysAreHistory(cidr: RouteText, r: Run)
    ensures var keys, made := After(cidr, r).authKeys, KeysMade(r);
            && |keys| == |made|
            && forall i :: 0 <= i < |keys| ==>
                 && keys[i].key == made[i].text && keys[i].owner == made[i].owner && keys[i].reusable == made[i].reusable
                 && (if made[i].ttl > 0 then keys[i].expiresAt == Some(made[i].now + made[i].ttl) else keys[i].expiresAt == None)
                 && (keys[i].used <==> Enrolments(cidr, r, i) > 0)
    ensures forall i: nat :: i >= |KeysMade(r)| ==> Enrolments(cidr, r, i) == 0
  {
    hide Next, EnrolsWith;
    if |r| > 0 {
      var s := After(cidr, Front(r));
      KeysAreHistory(cidr, Front(r));
      KeysStep(s, Last(r));
      forall i: nat {
        KeyStep(s, Last(r), i);
      }
    }
  }

  lemma KeysStep(s: StateFile, e: Event)
    ensures var keys := Next(s, e).authKeys;
            && |keys| == |s.authKeys| + (if e.CreateKey? then 1 else 0)
            && (forall i :: 0 <= i < |s.authKeys| ==> keys[i].owner == s.authKeys[i].owner)
            && (e.CreateKey? ==>
                  var k := keys[|s.authKeys|];
                  && k.key == e.text && k.owner == e.owner && k.reusable == e.reusable
                  && (if e.ttl > 0 then k.expiresAt == Some(e.now + e.ttl) else k.expiresAt == None))
  {
    hide UsableKey, NewIP, Normalized, NormalizeCidr, OpenInvite;
  }

  /** Some host address of the range is taken by no machine. */
  ghost predicate HasRoom(s: StateFile) {
    Pool(s).Some? && exists ip: nat :: IsHost(Pool(s).value, ip) && forall pub :: pub in s.devices ==> s.devices[pub].ip != ip
  }

  lemma RoomIff(s: StateFile)
    ensures NewIP(s).Ok? <==> HasRoom(s)
    ensures NewIP(s).Ok? ==>
              var ip := NewIP(s).value;
              && (forall pub :: pub in s.devices ==> s.devices[pub].ip != ip)
              && forall b: nat :: IsHost(Pool(s).value, b) && b < ip ==> exists pub :: pub in s.devices && s.devices[pub].ip == b
    ensures NewIP(s).Err? ==> NewIP(s).error == if Pool(s).None? then BadCidr else IPExhausted
  {
    if Pool(s).Some? {
      AllocateMeaning(Pool(s).value, UsedIPs(s.devices));
    }
  }

  /** `i` is the first key that lets in. */
  ghost predicate FirstKey(cidr: RouteText, r: Run, i: nat, text: Text, now: int) {
    LetsIn(cidr, r, i, text, now) && forall j :: 0 <= j < i ==> !LetsIn(cidr, r, j, text, now)
  }

  /** The store's first usable key is the first that lets in. */
  lemma {:induction false} UsableIff(cidr: RouteText, r: Run, authKey: Text, now: int)
    ensures var s := After(cidr, r);
            var k := UsableKey(s.authKeys, authKey, now);
            && (k.Some? <==> exists i: nat :: LetsIn(cidr, r, i, authKey, now))
            && (k.Some? ==> k.value < |KeysMade(r)| && s.authKeys[k.value].owner == KeysMade(r)[k.value].owner)
            && (forall i: nat :: FirstKey(cidr, r, i, authKey, now) ==> k == Some(i))
  {
    hide After, Enrolments;
    var s := After(cidr, r);
    KeysAreHistory(cidr, r);
    forall i: nat
      ensures LetsIn(cidr, r, i, authKey, now) <==> i < |s.authKeys| && Usable(s.authKeys[i], authKey, now)
    {
    }
    var k := UsableKey(s.authKeys, authKey, now);
    assert k.Some? ==> LetsIn(cidr, r, k.value, authKey, now);
  }

  lemma {:induction false} NewMachine(s: StateFile, authKey: Text, hostname: Text, pub: Pub, now: int, draw: Draw, saveOk: bool)
    requires pub !in s.devices
    ensures var (s', result) := RegisterStep(s, authKey, hostname, pub, now, draw, saveOk);
            var k := UsableKey(s.authKeys, authKey, now);
            && (pub in s'.devices <==> k.Some? && NewIP(s).Ok?)
            && (pub !in s'.devices ==> s' == s)
            && (pub in s'.devices ==> s'.devices[pub].owner == s.authKeys[k.value].owner)
            && (k.None? ==> result == Err(InvalidAuthKey))
            && (k.Some? && NewIP(s).Err? ==> result == Err(NewIP(s).error))
            && (k.Some? && NewIP(s).Ok? ==> result == if saveOk then Ok(s'.devices[pub]) else Err(SaveFailed))
  {
    hide NewIP, Usable;
  }

  /**
   * Who enrols: a machine not there is let in if and only if some key created with the text it
   * gives has time left and, unless it is reusable, has enrolled nobody, and there is an
   * address. It then belongs to the owner of the first such key. Otherwise nothing changes,
   * and the error says what was missing.
   */
  lemma {:induction false} EnrolmentIff(cidr: RouteText, r: Run, authKey: Text, hostname: Text, pub: Pub, now: int,
                                        draw: Draw, saveOk: bool)
    requires pub !in After(cidr, r).devices
    ensures var s := After(cidr, r);
            var (s', result) := RegisterStep(s, authKey, hostname, pub, now, draw, saveOk);
            var letIn := exists i: nat :: LetsIn(cidr, r, i, authKey, now);
            && (pub in s'.devices <==> letIn && HasRoom(s))
            && (forall i: nat :: pub in s'.devices && FirstKey(cidr, r, i, authKey, now) ==>
                  s'.devices[pub].owner == KeysMade(r)[i].owner)
            && (pub !in s'.devices ==> s' == s)
            && (!letIn ==> result == Err(InvalidAuthKey))
            && (letIn && !HasRoom(s) ==> result == Err(if Pool(s).None? then BadCidr else IPExhausted))
            && (letIn && HasRoom(s) ==> result == if saveOk then Ok(s'.devices[pub]) else Err(SaveFailed))
  {
    hide HasRoom, NewIP, Pool, RegisterStep, LetsIn, After;
    var s := After(cidr, r);
    RoomIff(s);
    UsableIff(cidr, r, authKey, now);
    NewMachine(s, authKey, hostname, pub, now, draw, saveOk);
  }

  /** A machine of an authenticated user is let in whenever there is an address, and belongs to that user. */
  lemma SSOEnrolmentIff(s: StateFile, hostname: Text, pub: Pub, owner: string, now: int, draw: Draw, saveOk: bool)
    requires pub !in s.devices
    ensures var (s', result) := RegisterSSOStep(s, hostname, pub, owner, now, draw, saveOk);
            && (pub in s'.devices <==> HasRoom(s)) && (!HasRoom(s) ==> s' == s)
            && (HasRoom(s) ==> s'.devices[pub].owner == owner && s'.devices - {pub} == s.devices)
            && (HasRoom(s) ==> result == if saveOk then Ok(s'.devices[pub]) else Err(SaveFailed))
  {
    hide HasRoom, NewIP, Pool;
    RoomIff(s);
  }

  // ---------------------------------------------------------------- invitations

  function InvitesMade(r: Run): (k: seq<Event>)
    ensures forall i :: 0 <= i < |k| ==> k[i].CreateInvite?
  {
    if |r| == 0 then [] else InvitesMade(Front(r)) + if Last(r).CreateInvite? then [Last(r)] else []
  }

  /** The event creates an account by invitation number i. */
  predicate JoinsWith(s: StateFile, e: Event, i: nat) {
    JoinsByInvite(s, e) && OpenInvite(s.invites, e.q.code, e.now) == Some(i)
  }

  function Joins(cidr: RouteText, r: Run, i: nat): nat {
    if |r| == 0 then 0 else Joins(cidr, Front(r), i) + (if JoinsWith(After(cidr, Front(r)), Last(r), i) then 1 else 0)
  }

  lemma InviteStep(s: StateFile, e: Event, i: nat)
    ensures var invites := Next(s, e).invites;
            && |invites| == |s.invites| + (if e.CreateInvite? then 1 else 0)
            && (i < |s.invites| ==>
                  && invites[i].code == s.invites[i].code && invites[i].expiresAt == s.invites[i].expiresAt
                  && (invites[i].used <==> s.invites[i].used || JoinsWith(s, e, i)))
            && (JoinsWith(s, e, i) ==> i < |s.invites| && !s.invites[i].used)
            && (e.CreateInvite? ==>
                  var v := invites[|s.invites|];
                  v.code == e.code && !v.used
                  && if e.ttl > 0 then v.expiresAt == Some(e.now + e.ttl) else v.expiresAt == None)
  {
    hide UsableKey, NewIP, Normalized, NormalizeCidr;
  }

  /** Each invitation is the one created, and is used exactly when an account has been created with it, once. */
  lemma {:induction false} InvitesAreHistory(cidr: RouteText, r: Run)
    ensures var invites, made := After(cidr, r).invites, InvitesMade(r);
            && |invites| == |made|
            && forall i :: 0 <= i < |invites| ==>
                 && invites[i].code == made[i].code
                 && (if made[i].ttl > 0 then invites[i].expiresAt == Some(made[i].now + made[i].ttl)
                     else invites[i].expiresAt == None)
                 && Joins(cidr, r, i) == if invites[i].used then 1 else 0
    ensures forall i: nat :: i >= |InvitesMade(r)| ==> Joins(cidr, r, i) == 0
  {
    hide Next, JoinsWith;
    if |r| > 0 {
      var s := After(cidr, Front(r));
      InvitesAreHistory(cidr, Front(r));
      var invites, made := After(cidr, r).invites, InvitesMade(r);
      InviteStep(s, Last(r), 0);
      forall i: nat
        ensures Joins(cidr, r, i) == Joins(cidr, Front(r), i) + (if JoinsWith(s, Last(r), i) then 1 else 0)
        ensures i < |s.invites| ==> invites[i].code == s.invites[i].code && invites[i].expiresAt == s.invites[i].expiresAt
                                    && (invites[i].used <==> s.invites[i].used || JoinsWith(s, Last(r), i))
        ensures JoinsWith(s, Last(r), i) ==> i < |s.invites| && !s.invites[i].used
      {
        InviteStep(s, Last(r), i);
      }
    }
  }

  /** Invitation number i has this code, time left, and no account. */
  ghost predicate Invites(cidr: RouteText, r: Run, i: nat, code: Text, now: int) {
    && i < |InvitesMade(r)|
    && var c := InvitesMade(r)[i];
       c.code == code && Joins(cidr, r, i) == 0 && (c.ttl <= 0 || now < c.now + c.ttl)
  }

  /**
   * Who gets an account: a request with an address holding '@', a password of eight or more
   * characters that can be hashed, an address not taken, and, where invitations are required,
   * the code of one created, unused and with time left.
   */
  lemma {:induction false} SignUpIff(cidr: RouteText, r: Run, q: SignUp, now: int, id: Text, saveOk: bool)
    requires q.email !in After(cidr, r).users
    ensures q.email in SignUpStep(After(cidr, r), q, now, id, saveOk).0.users <==>
              && '@' in q.email && |q.password| >= 8 && q.hash.Some?
              && (q.requireInvite ==> exists i: nat :: Invites(cidr, r, i, q.code, now))
  {
    var s := After(cidr, r);
    InvitesAreHistory(cidr, r);
    forall i: nat
      ensures Invites(cidr, r, i, q.code, now) <==> i < |s.invites| && Open(s.invites[i], q.code, now)
    {
    }
    var k := OpenInvite(s.invites, q.code, now);
    assert k.Some? ==> Invites(cidr, r, k.value, q.code, now);
  }
}
