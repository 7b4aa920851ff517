/**
 * Runs of the endpoint manager in which a pong may land anywhere inside the unlocked part of
 * `Probe`, and engine calls may fail.
 */
module EndpointRuns {
  import opened Net
  import opened Disco
  import opened NetMap
  import opened Endpoints

  /** Where the receive loop stands inside `onPong`. */
  datatype InPong = Idle | Taken(pub: Pub) | PushedDirect(pub: Pub)

  /**
   * The manager, the relay switches `Probe` has decided but not yet pushed, the pong being
   * handled, and the last endpoint pushed for each peer since it joined the map.
   */
  datatype Sys = Sys(m: Manager, todo: set<Pub>, inPong: InPong, pushed: map<Pub, Pushed>)

  const START := Sys(FRESH, {}, Idle, map[])

  datatype Event =
    | Observed(ps: seq<Peer>)
    | RelaySignal(ok: bool)
    | Decided(handshakes: map<Pub, int>, now: int)   // first critical section of Probe
    | RelayPush(pub: Pub, accepted: bool)            // its unlocked engine call
    | PingSent(id: ProbeID, probe: PendingProbe)            // and its last one
    | PongTaken(id: ProbeID)                         // first critical section of onPong
    | PongDropped                                    // already connected directly
    | DirectPush(from: AddrPort, accepted: bool)     // its unlocked engine call
    | PongCommit                                     // and its last critical section

  type Run = seq<Event>

  /** Observe and Probe run on one goroutine, pongs on another. */
  predicate Possible(s: Sys, e: Event) {
    match e
    case Observed(_) => s.todo == {}
    case RelaySignal(_) => s.todo == {}
    case Decided(_, _) => s.todo == {}
    case RelayPush(pub, _) => pub in s.todo
    case PingSent(_, _) => s.todo == {}
    case PongTaken(id) => s.inPong == Idle && id in s.m.pending
    case PongDropped => s.inPong.Taken?
    case DirectPush(_, _) => s.inPong.Taken?
    case PongCommit => s.inPong.PushedDirect?
  }

  function Next(s: Sys, e: Event): Sys {
    match e
    case Observed(ps) =>
      var m := ObserveStep(s.m, ps);
      s.(m := m, pushed := map pub | pub in s.pushed && pub in m.peers :: s.pushed[pub])
    case RelaySignal(ok) => s.(m := s.m.(relayOK := ok))
    case Decided(hs, now) =>
      s.(m := DecideStep(s.m, hs, now), todo := ToRelay(s.m, hs, now, s.m.peers.Keys))
    case RelayPush(pub, ok) =>
      s.(m := RelayPushedStep(s.m, pub, ok), todo := s.todo - {pub},
         pushed := if ok && pub in s.m.peers then s.pushed[pub := Relay] else s.pushed)
    case PingSent(id, probe) => s.(m := PingSentStep(s.m, id, probe))
    case PongTaken(id) =>
      if id in s.m.pending then s.(m := PongTakenStep(s.m, id), inPong := Taken(s.m.pending[id].publicKey)) else s
    case PongDropped => s.(inPong := Idle)
    case DirectPush(from, ok) =>
      if s.inPong.Taken? && ok then
        s.(inPong := PushedDirect(s.inPong.pub),
           pushed := if s.inPong.pub in s.m.peers then s.pushed[s.inPong.pub := Direct(from)] else s.pushed)
      else s.(inPong := Idle)
    case PongCommit =>
      if s.inPong.PushedDirect? then s.(m := PongCommittedStep(s.m, s.inPong.pub), inPong := Idle) else s
  }

  function After(r: Run): Sys {
    if |r| == 0 then START else Next(After(Front(r)), r[|r| - 1])
  }

  predicate Legal(r: Run) {
    |r| == 0 || (Legal(Front(r)) && Possible(After(Front(r)), r[|r| - 1]))
  }

  // ---------------------------------------------------------------- whole calls are runs

  function NextAll(s: Sys, r: Run): Sys {
    if |r| == 0 then s else Next(NextAll(s, Front(r)), r[|r| - 1])
  }

  predicate PossibleAll(s: Sys, r: Run) {
    |r| == 0 || (PossibleAll(s, Front(r)) && Possible(NextAll(s, Front(r)), r[|r| - 1]))
  }

  function Pushes(list: seq<Pub>, accepts: Pub -> bool): Run {
    if |list| == 0 then []
    else Pushes(list[..|list| - 1], accepts) + [RelayPush(list[|list| - 1], accepts(list[|list| - 1]))]
  }

  function Pings(toSend: seq<(Pub, AddrPort)>, ping: nat -> Option<Ping>): Run {
    if |toSend| == 0 then []
    else
      var k := |toSend| - 1;
      Pings(toSend[..k], ping) + if ping(k).Some? then [PingEvent(toSend, k, ping(k).value)] else []
  }

  lemma {:induction false} Append(s: Sys, r: Run, t: Run)
    ensures NextAll(s, r + t) == NextAll(NextAll(s, r), t)
    ensures PossibleAll(s, r + t) <==> PossibleAll(s, r) && PossibleAll(NextAll(s, r), t)
  {
    if |t| > 0 {
      assert Front(r + t) == r + Front(t);
      Append(s, r, Front(t));
    } else {
      assert r + t == r;
    }
  }

  lemma {:induction false} AppendOne(s: Sys, r: Run, e: Event)
    ensures NextAll(s, r + [e]) == Next(NextAll(s, r), e)
    ensures PossibleAll(s, r + [e]) <==> PossibleAll(s, r) && Possible(NextAll(s, r), e)
  {
  }

  function Elements(list: seq<Pub>): set<Pub> {
    set pub | pub in list
  }

  /** The system once the switches of the peers in `done` have been pushed. */
  function AfterPushes(s: Sys, done: set<Pub>, accepts: Pub -> bool): Sys {
    s.(m := s.m.(onRelay := s.m.onRelay - (set pub | pub in done && !accepts(pub))),
       todo := s.todo - done,
       pushed := Switched(s.pushed, done, accepts))
  }

  lemma PushOne(s: Sys, done: set<Pub>, pub: Pub, accepts: Pub -> bool)
    requires pub in s.todo && pub in s.m.peers && pub !in done
    ensures Possible(AfterPushes(s, done, accepts), RelayPush(pub, accepts(pub)))
    ensures Next(AfterPushes(s, done, accepts), RelayPush(pub, accepts(pub))) == AfterPushes(s, done + {pub}, accepts)
  {
  }

  lemma NoPushes(s: Sys, accepts: Pub -> bool)
    ensures AfterPushes(s, {}, accepts) == s
  {
  }

  lemma {:induction false} PushesRun(s: Sys, list: seq<Pub>, accepts: Pub -> bool)
    requires forall pub :: pub in list ==> pub in s.todo && pub in s.m.peers
    requires forall i, j :: 0 <= i < j < |list| ==> list[i] != list[j]
    ensures PossibleAll(s, Pushes(list, accepts))
    ensures NextAll(s, Pushes(list, accepts)) == AfterPushes(s, Elements(list), accepts)
  {
    hide Next, Possible, AfterPushes;
    if |list| > 0 {
      var init, pub := list[..|list| - 1], list[|list| - 1];
      PushesRun(s, init, accepts);
      AppendOne(s, Pushes(init, accepts), RelayPush(pub, accepts(pub)));
      assert forall p :: p in list <==> p in init || p == pub;
      assert Elements(list) == Elements(init) + {pub};
      PushOne(s, Elements(init), pub, accepts);
    } else {
      assert Elements(list) == {};
      NoPushes(s, accepts);
    }
  }

  /** The system once the probes of `toSend` have been sent. */
  function AfterPings(s: Sys, toSend: seq<(Pub, AddrPort)>, ping: nat -> Option<Ping>): Sys {
    s.(m := s.m.(pending := Pinged(s.m.pending, toSend, ping)))
  }

  function PingEvent(toSend: seq<(Pub, AddrPort)>, k: nat, p: Ping): Event
    requires k < |toSend|
  {
    PingSent(p.id, PendingProbe(toSend[k].0, toSend[k].1, p.at))
  }

  lemma PingOne(s: Sys, toSend: seq<(Pub, AddrPort)>, ping: nat -> Option<Ping>)
    requires s.todo == {} && |toSend| > 0
    ensures var k, before := |toSend| - 1, AfterPings(s, Front(toSend), ping);
            if ping(k).None? then AfterPings(s, toSend, ping) == before
            else Possible(before, PingEvent(toSend, k, ping(k).value))
                 && Next(before, PingEvent(toSend, k, ping(k).value)) == AfterPings(s, toSend, ping)
  {
  }

  lemma {:induction false} PingsRun(s: Sys, toSend: seq<(Pub, AddrPort)>, ping: nat -> Option<Ping>)
    requires s.todo == {}
    ensures PossibleAll(s, Pings(toSend, ping))
    ensures NextAll(s, Pings(toSend, ping)) == AfterPings(s, toSend, ping)
  {
    hide Next, Possible, AfterPings;
    if |toSend| > 0 {
      var k, front := |toSend| - 1, Front(toSend);
      PingsRun(s, front, ping);
      PingOne(s, toSend, ping);
      if ping(k).Some? {
        AppendOne(s, Pings(front, ping), PingEvent(toSend, k, ping(k).value));
      } else {
        assert Pings(front, ping) + [] == Pings(front, ping);
      }
    } else {
      NoPings(s, ping);
    }
  }

  lemma NoPings(s: Sys, ping: nat -> Option<Ping>)
    ensures AfterPings(s, [], ping) == s
  {
  }

  lemma DueArePeers(m: Manager, hs: map<Pub, int>, now: int)
    ensures ToRelay(m, hs, now, m.peers.Keys) <= m.peers.Keys
  {
  }

  /** A whole call of `Probe` is a run of its critical sections and engine calls. */
  lemma {:induction false} ProbeIsRun(s: Sys, hs: map<Pub, int>, now: int, accepts: Pub -> bool, ping: nat -> Option<Ping>,
                   list: seq<Pub>, toSend: seq<(Pub, AddrPort)>)
    requires s.todo == {} && Endpoints.Lists(list, ToRelay(s.m, hs, now, s.m.peers.Keys))
    ensures var r := [Decided(hs, now)] + Pushes(list, accepts) + Pings(toSend, ping);
            && PossibleAll(s, r)
            && NextAll(s, r) == s.(m := RoundStep(s.m, hs, now, accepts, ping, toSend),
                                   pushed := Switched(s.pushed, ToRelay(s.m, hs, now, s.m.peers.Keys), accepts))
  {
    hide Pushes, Pings, Pinged, Switched, Counted, Unexpired, ToRelay;
    var due := ToRelay(s.m, hs, now, s.m.peers.Keys);
    DueArePeers(s.m, hs, now);
    var s1 := Next(s, Decided(hs, now));
    AppendOne(s, [], Decided(hs, now));
    assert [] + [Decided(hs, now)] == [Decided(hs, now)];
    PushesRun(s1, list, accepts);
    var s2 := NextAll(s1, Pushes(list, accepts));
    assert Elements(list) == due;
    PingsRun(s2, toSend, ping);
    Append(s, [Decided(hs, now)], Pushes(list, accepts));
    Append(s, [Decided(hs, now)] + Pushes(list, accepts), Pings(toSend, ping));
  }

  /** The events of a whole call of `onPong` for a probe that is waiting. */
  function PongEvents(m: Manager, id: ProbeID, from: AddrPort, handshakes: Option<map<Pub, int>>, now: int, accepts: bool)
    : Run
    requires id in m.pending
  {
    if PongIgnored(m, m.pending[id].publicKey, handshakes, now) then [PongTaken(id), PongDropped]
    else [PongTaken(id), DirectPush(from, accepts)] + if accepts then [PongCommit] else []
  }

  /** A whole call of `onPong` is a run of its critical sections and its engine call. */
  lemma {:induction false} PongIsRun(s: Sys, id: ProbeID, from: AddrPort, handshakes: Option<map<Pub, int>>, now: int,
                                     accepts: bool)
    requires s.inPong == Idle && id in s.m.pending
    ensures var r, pub := PongEvents(s.m, id, from, handshakes, now, accepts), s.m.pending[id].publicKey;
            && PossibleAll(s, r)
            && NextAll(s, r) ==
                 if PongIgnored(s.m, pub, handshakes, now) || !accepts then s.(m := PongTakenStep(s.m, id))
                 else s.(m := PongCommittedStep(PongTakenStep(s.m, id), pub),
                         pushed := if pub in s.m.peers then s.pushed[pub := Direct(from)] else s.pushed)
  {
    hide NextAll, PossibleAll;
    TwoEvents(s, PongTaken(id), PongDropped);
    TwoEvents(s, PongTaken(id), DirectPush(from, accepts));
    AppendOne(s, [PongTaken(id), DirectPush(from, accepts)], PongCommit);
    assert [PongTaken(id), DirectPush(from, accepts)] + [] == [PongTaken(id), DirectPush(from, accepts)];
  }

  lemma {:induction false} TwoEvents(s: Sys, e: Event, f: Event)
    ensures NextAll(s, [e, f]) == Next(Next(s, e), f)
    ensures PossibleAll(s, [e, f]) <==> Possible(s, e) && Possible(Next(s, e), f)
  {
    AppendOne(s, [], e);
    assert [] + [e] == [e];
    AppendOne(s, [e], f);
    assert [e] + [f] == [e, f];
  }

  // ---------------------------------------------------------------- consecutive silent rounds

  /** The last event is the end of an accepted pong of `pub`. */
  predicate CommitsPong(r: Run, pub: Pub)
    requires |r| > 0
  {
    r[|r| - 1].PongCommit? && After(Front(r)).inPong == PushedDirect(pub)
  }

  /** The peer is in the last network map observed. */
  ghost predicate InLastMap(r: Run, pub: Pub) {
    |r| > 0 &&
    if Last(r).Observed? then exists p :: p in Last(r).ps && p.publicKey == pub
    else InLastMap(Front(r), pub)
  }

  /** The last word on the relay was that it is available. */
  predicate RelayUp(r: Run) {
    |r| > 0 && if Last(r).RelaySignal? then Last(r).ok else RelayUp(Front(r))
  }

  /** A handshake less than 135 s old. */
  predicate Shook(hs: map<Pub, int>, now: int, pub: Pub) {
    pub in hs && now - hs[pub] < 135_000_000_000
  }

  /**
   * The rounds that found `pub` listed and without such a handshake, since the last that found
   * it fresh and not marked as relayed, the last pong of it committed, and its joining the map.
   */
  ghost function SilentRounds(r: Run, pub: Pub): nat {
    if |r| == 0 then 0
    else
      var e, before, s := Last(r), SilentRounds(Front(r), pub), After(Front(r));
      if e.Observed? && !InLastMap(r, pub) then 0
      else if e.Decided? && InLastMap(r, pub) && !Shook(e.handshakes, e.now, pub) then before + 1
      else if e.Decided? && InLastMap(r, pub) && pub !in s.m.onRelay then 0
      else if CommitsPong(r, pub) then 0
      else before
  }

  /** The manager's count of a peer, and what it knows of the map and the relay. */
  lemma {:induction false} CountIsSilentRounds(r: Run, pub: Pub)
    requires Legal(r)
    ensures var m := After(r).m;
            && Count(m, pub) == SilentRounds(r, pub)
            && (pub in m.peers <==> InLastMap(r, pub)) && (m.relayOK <==> RelayUp(r))
  {
    hide Next, Possible, Shook;
    if |r| > 0 {
      var s, e := After(Front(r)), Last(r);
      CountIsSilentRounds(Front(r), pub);
      CountStep(s, e, pub);
    }
  }

  lemma CountStep(s: Sys, e: Event, pub: Pub)
    ensures var t := Next(s, e);
            && (pub in t.m.peers <==> if e.Observed? then exists p :: p in e.ps && p.publicKey == pub else pub in s.m.peers)
            && t.m.relayOK == (if e.RelaySignal? then e.ok else s.m.relayOK)
            && Count(t.m, pub) ==
                 if e.Observed? && pub !in t.m.peers then 0
                 else if e.Decided? && pub in s.m.peers && !Shook(e.handshakes, e.now, pub) then Count(s.m, pub) + 1
                 else if e.Decided? && pub in s.m.peers && pub !in s.m.onRelay then 0
                 else if e.PongCommit? && s.inPong == PushedDirect(pub) then 0
                 else Count(s.m, pub)
  {
    if e.Observed? {
      ObserveForgetsDeparted(s.m, e.ps, pub);
    }
  }

  /**
   * When a round falls back on the relay: it decides to switch a peer if and only if the relay
   * is available and the peer, listed, not marked and without a handshake of the last 135 s,
   * has at least two such rounds behind it with nothing heard of it in between.
   */
  lemma {:induction false} FallbackIff(r: Run, hs: map<Pub, int>, now: int, pub: Pub)
    requires Legal(r + [Decided(hs, now)])
    ensures pub in After(r + [Decided(hs, now)]).todo <==>
              RelayUp(r) && InLastMap(r, pub) && pub !in After(r).m.onRelay
              && !(pub in hs && now - hs[pub] < 135_000_000_000) && SilentRounds(r, pub) >= 2
  {
    assert Front(r + [Decided(hs, now)]) == r;
    CountIsSilentRounds(r, pub);
  }

  /** The probes a round owes: one to each address a listed peer offers, unless it is connected and not relayed. */
  lemma ProbesAreDue(m: Manager, parse: string -> Option<AddrPort>, hs: map<Pub, int>, now: int,
                     toSend: seq<(Pub, AddrPort)>, pub: Pub, ap: AddrPort)
    requires ProbesExactly(m, parse, hs, now, m.peers.Keys, toSend)
    ensures (pub, ap) in toSend <==>
              pub in m.peers && (pub in m.onRelay || !(pub in hs && now - hs[pub] < 135_000_000_000))
              && exists c :: c in m.peers[pub] && parse(c) == Some(ap)
  {
  }

  /** A pong is disregarded only when its peer is not marked and has a handshake of the last 135 s. */
  lemma PongIgnoredIff(m: Manager, pub: Pub, hs: Option<map<Pub, int>>, now: int)
    ensures PongIgnored(m, pub, hs, now) <==>
              pub !in m.onRelay && hs.Some? && pub in hs.value && now - hs.value[pub] < 135_000_000_000
  {
  }

  // ---------------------------------------------------------------- no flapping

  /** Successful switches of `pub` to the relay. */
  function Switches(r: Run, pub: Pub): nat {
    if |r| == 0 then 0
    else Switches(Front(r), pub) + (if r[|r| - 1] == RelayPush(pub, true) then 1 else 0)
  }

  /** Rounds that found `pub` listed and without a handshake of the last 135 s. */
  ghost function StaleRounds(r: Run, pub: Pub): nat {
    if |r| == 0 then 0
    else
      var e := Last(r);
      StaleRounds(Front(r), pub) + (if e.Decided? && InLastMap(r, pub) && !Shook(e.handshakes, e.now, pub) then 1 else 0)
  }

  /** The rounds not yet paid for by a switch cover the peer's count, or the switch under way. */
  ghost predicate Paid(s: Sys, pub: Pub, switches: nat, rounds: nat) {
    var cost := RELAY_AFTER_ROUNDS + 1;
    && cost * switches <= rounds
    && (pub !in s.m.onRelay && pub !in s.todo ==> cost * switches + Count(s.m, pub) <= rounds)
    && (pub in s.todo ==> cost * (switches + 1) <= rounds && cost * switches + Count(s.m, pub) <= rounds
                          && (pub !in s.m.onRelay ==> Count(s.m, pub) == 0))
  }

  lemma DecisionIsPaid(s: Sys, hs: map<Pub, int>, now: int, pub: Pub, switches: nat, rounds: nat)
    requires Paid(s, pub, switches, rounds) && s.todo == {}
    ensures Paid(Next(s, Decided(hs, now)), pub, switches, rounds + (if Stale(s.m, hs, now, pub) then 1 else 0))
  {
  }

  lemma StepIsPaid(s: Sys, e: Event, pub: Pub, switches: nat, rounds: nat)
    requires Paid(s, pub, switches, rounds) && Possible(s, e) && !e.Decided?
    ensures Paid(Next(s, e), pub, switches + (if e == RelayPush(pub, true) then 1 else 0), rounds)
  {
  }

  /**
   * Anti-flapping: in every run, even with failing engine calls and pongs landing inside
   * `Probe`, each successful switch of a peer to the relay is paid for by three rounds in
   * which that peer was seen without a fresh handshake.
   */
  lemma {:induction false} SwitchesArePaid(r: Run, pub: Pub)
    requires Legal(r)
    ensures (RELAY_AFTER_ROUNDS + 1) * Switches(r, pub) <= StaleRounds(r, pub)
    ensures Paid(After(r), pub, Switches(r, pub), StaleRounds(r, pub))
  {
    if |r| > 0 {
      var s, e := After(Front(r)), r[|r| - 1];
      SwitchesArePaid(Front(r), pub);
      CountIsSilentRounds(Front(r), pub);
      if e.Decided? {
        DecisionIsPaid(s, e.handshakes, e.now, pub, Switches(Front(r), pub), StaleRounds(Front(r), pub));
      } else {
        StepIsPaid(s, e, pub, Switches(Front(r), pub), StaleRounds(Front(r), pub));
      }
    }
  }

  // ---------------------------------------------------------------- onRelay tells the truth

  /** No manager call starts while another is under way. */
  predicate Whole(r: Run) {
    |r| == 0 ||
    var s, e := After(Front(r)), r[|r| - 1];
    && Whole(Front(r))
    && (e.PongTaken? ==> s.todo == {})
    && (e.Observed? || e.RelaySignal? || e.Decided? || e.PingSent? ==> s.inPong == Idle)
  }

  predicate LastPushedRelay(s: Sys, pub: Pub) {
    pub in s.pushed && s.pushed[pub] == Relay
  }

  /** Outside a call, a peer is marked as relayed exactly when the last endpoint pushed for it is the relay. */
  ghost predicate Truthful(s: Sys, pub: Pub) {
    && s.todo <= s.m.peers.Keys && (s.todo != {} ==> s.inPong == Idle)
    && (pub !in s.m.peers ==> pub !in s.m.onRelay && pub !in s.pushed)
    && (pub in s.todo ==> pub in s.m.onRelay && !LastPushedRelay(s, pub))
    && (s.inPong == PushedDirect(pub) ==> !LastPushedRelay(s, pub))
    && (pub !in s.todo && s.inPong != PushedDirect(pub) ==> (pub in s.m.onRelay <==> LastPushedRelay(s, pub)))
  }

  lemma TruthfulStep(s: Sys, e: Event, pub: Pub)
    requires Truthful(s, pub) && Possible(s, e)
    requires e.PongTaken? ==> s.todo == {}
    requires e.Observed? || e.RelaySignal? || e.Decided? || e.PingSent? ==> s.inPong == Idle
    ensures Truthful(Next(s, e), pub)
  {
  }

  /**
   * With each manager call taken whole, under any mix of rounds, pongs, map changes and engine
   * failures, `onRelay` holds for a peer exactly when the last endpoint pushed for it since it
   * joined the map is the relay.
   */
  lemma {:induction false} OnRelayIsLastPushed(r: Run, pub: Pub)
    requires Legal(r) && Whole(r)
    ensures Truthful(After(r), pub)
    ensures After(r).todo == {} && After(r).inPong == Idle ==>
              (pub in After(r).m.onRelay <==> LastPushedRelay(After(r), pub))
  {
    if |r| > 0 {
      OnRelayIsLastPushed(Front(r), pub);
      TruthfulStep(After(Front(r)), r[|r| - 1], pub);
    }
  }

  /** A pong of `pub` has been committed since the latest round of decisions. */
  predicate PongSinceDecision(r: Run, pub: Pub) {
    |r| > 0 && !r[|r| - 1].Decided? && (CommitsPong(r, pub) || PongSinceDecision(Front(r), pub))
  }

  /** A pong of `pub` has been committed since its latest accepted switch to the relay was decided. */
  predicate PongSinceSwitchDecided(r: Run, pub: Pub) {
    |r| > 0 &&
    if r[|r| - 1] == RelayPush(pub, true) then PongSinceDecision(Front(r), pub)
    else CommitsPong(r, pub) || PongSinceSwitchDecided(Front(r), pub)
  }

  /** The relay mark at any moment; `sinceDecision` and `sinceSwitch` tell of the pongs committed. */
  ghost predicate MarkExplained(s: Sys, pub: Pub, sinceDecision: bool, sinceSwitch: bool) {
    && s.todo <= s.m.peers.Keys
    && (pub !in s.m.peers ==> pub !in s.m.onRelay && pub !in s.pushed)
    && (pub in s.todo ==> (pub in s.m.onRelay <==> !sinceDecision) && (LastPushedRelay(s, pub) ==> sinceSwitch))
    && (pub !in s.todo && LastPushedRelay(s, pub) && !sinceSwitch ==> pub in s.m.onRelay)
    && (pub !in s.todo && s.inPong != PushedDirect(pub) && pub in s.m.onRelay ==>
          LastPushedRelay(s, pub) && !sinceSwitch)
  }

  lemma MarkStep(s: Sys, e: Event, pub: Pub, sinceDecision: bool, sinceSwitch: bool)
    requires MarkExplained(s, pub, sinceDecision, sinceSwitch) && Possible(s, e)
    ensures var commits := e.PongCommit? && s.inPong == PushedDirect(pub);
            MarkExplained(Next(s, e), pub, !e.Decided? && (commits || sinceDecision),
                          if e == RelayPush(pub, true) then sinceDecision else commits || sinceSwitch)
  {
  }

  lemma {:induction false} MarksAreExplained(r: Run, pub: Pub)
    requires Legal(r)
    ensures MarkExplained(After(r), pub, PongSinceDecision(r, pub), PongSinceSwitchDecided(r, pub))
  {
    if |r| > 0 {
      MarksAreExplained(Front(r), pub);
      MarkStep(After(Front(r)), r[|r| - 1], pub, PongSinceDecision(Front(r), pub), PongSinceSwitchDecided(Front(r), pub));
    }
  }

  /**
   * The mark in every run, with pongs landing anywhere inside `Probe`: between calls a peer is
   * marked exactly when the relay was the last endpoint pushed for it and no pong of it has
   * been committed since that switch was decided. So the mark lies exactly when such a pong
   * was: the peer is on the relay and not marked.
   */
  lemma {:induction false} OnRelayIffUndisturbed(r: Run, pub: Pub)
    requires Legal(r) && After(r).todo == {} && After(r).inPong == Idle
    ensures var s := After(r);
            && (pub in s.m.onRelay <==> LastPushedRelay(s, pub) && !PongSinceSwitchDecided(r, pub))
            && ((pub in s.m.onRelay <==> LastPushedRelay(s, pub)) <==>
                  !(LastPushedRelay(s, pub) && PongSinceSwitchDecided(r, pub)))
  {
    MarksAreExplained(r, pub);
  }

  /**
   * When calls overlap the mark can lie: whenever a pong for a peer is handled between the
   * decision to switch that peer and the switch, the peer ends on the relay unmarked.
   */
  lemma {:induction false} OverlapLies(r: Run, pub: Pub, id: ProbeID, a: AddrPort)
    requires Legal(r) && After(r).inPong == Idle
    requires pub in After(r).todo && pub in After(r).m.peers
    requires id in After(r).m.pending && After(r).m.pending[id].publicKey == pub
    ensures var t := r + [PongTaken(id)] + [DirectPush(a, true)] + [PongCommit] + [RelayPush(pub, true)];
            Legal(t) && LastPushedRelay(After(t), pub) && pub !in After(t).m.onRelay
  {
    Continue(r, PongTaken(id));
    Continue(r + [PongTaken(id)], DirectPush(a, true));
    Continue(r + [PongTaken(id)] + [DirectPush(a, true)], PongCommit);
    Continue(r + [PongTaken(id)] + [DirectPush(a, true)] + [PongCommit], RelayPush(pub, true));
  }

  /** Such a state is reached by any peer that stays silent for three rounds while being probed. */
  lemma OverlapIsReachable(pub: Pub, id: ProbeID, a: AddrPort)
    ensures exists r :: Legal(r) && After(r).inPong == Idle && pub in After(r).todo && pub in After(r).m.peers
                        && id in After(r).m.pending && After(r).m.pending[id].publicKey == pub
  {
    hide After, Legal, DecideStep, Next, Possible;
    var r1 := OnePeer(pub);
    SilentRound(r1, pub);
    var r2 := r1 + [Decided(map[], 0)];
    SilentRound(r2, pub);
    var r3 := r2 + [Decided(map[], 0)];
    var r4 := SendOne(r3, id, PendingProbe(pub, a, 0));
    SilentRound(r4, pub);
  }

  lemma OnePeer(pub: Pub) returns (r: Run)
    ensures Legal(r) && After(r).todo == {} && After(r).inPong == Idle
    ensures var m := After(r).m; m.peers.Keys == {pub} && m.relayOK && m.onRelay == {} && Count(m, pub) == 0
  {
    var peer := Peer(Word(""), pub, Word(""), "", [], []);
    Continue([], Observed([peer]));
    assert [peer][..0] == [];
    assert PeersOf([peer]) == PeersOf([])[pub := Candidates(peer)];
    Continue([] + [Observed([peer])], RelaySignal(true));
    r := [] + [Observed([peer])] + [RelaySignal(true)];
  }

  lemma SendOne(r: Run, id: ProbeID, probe: PendingProbe) returns (t: Run)
    requires Legal(r) && After(r).todo == {}
    ensures Legal(t) && After(t) == After(r).(m := PingSentStep(After(r).m, id, probe))
  {
    Continue(r, PingSent(id, probe));
    t := r + [PingSent(id, probe)];
  }

  lemma {:induction false} SilentRound(r: Run, pub: Pub)
    requires Legal(r) && After(r).todo == {} && After(r).inPong == Idle
    requires var m := After(r).m; m.peers.Keys == {pub} && m.relayOK && m.onRelay == {}
    ensures var s, t := After(r), After(r + [Decided(map[], 0)]);
            && Legal(r + [Decided(map[], 0)]) && t.inPong == Idle
            && t.m.peers == s.m.peers && t.m.relayOK && Count(t.m, pub) == Count(s.m, pub) + 1
            && (Count(t.m, pub) <= RELAY_AFTER_ROUNDS ==> t.todo == {} && t.m.onRelay == {})
            && (Count(t.m, pub) > RELAY_AFTER_ROUNDS ==> t.todo == {pub})
            && (forall id :: id in s.m.pending && s.m.pending[id].sentAt == 0 ==>
                  id in t.m.pending && t.m.pending[id] == s.m.pending[id])
  {
  }

  lemma {:induction false} Continue(r: Run, e: Event)
    ensures After(r + [e]) == Next(After(r), e)
    ensures Legal(r) && Possible(After(r), e) ==> Legal(r + [e])
  {
  }

  // ---------------------------------------------------------------- probes

  function Sends(r: Run, id: ProbeID): nat {
    if |r| == 0 then 0
    else Sends(Front(r), id) + (if r[|r| - 1].PingSent? && r[|r| - 1].id == id then 1 else 0)
  }

  function Takes(r: Run, id: ProbeID): nat {
    if |r| == 0 then 0 else Takes(Front(r), id) + (if r[|r| - 1] == PongTaken(id) then 1 else 0)
  }

  /** The latest probe sent under `id`. */
  function LastProbe(r: Run, id: ProbeID): Option<PendingProbe> {
    if |r| == 0 then None
    else if r[|r| - 1].PingSent? && r[|r| - 1].id == id then Some(r[|r| - 1].probe)
    else LastProbe(Front(r), id)
  }

  /** A probe starts to wait when it is sent and stops when it is taken; nothing else replaces it. */
  lemma PendingStep(s: Sys, e: Event, id: ProbeID)
    requires Possible(s, e)
    ensures var t := Next(s, e);
            && (e.PingSent? && e.id == id ==> id in t.m.pending && t.m.pending[id] == e.probe)
            && (e == PongTaken(id) ==> id in s.m.pending && id !in t.m.pending)
            && (!(e.PingSent? && e.id == id) && id in t.m.pending ==>
                  id in s.m.pending && t.m.pending[id] == s.m.pending[id])
  {
    hide Counted, ToRelay, PeersOf;
  }

  /** Every probe waiting is the latest sent under its id, and no id is taken more often than sent. */
  lemma {:induction false} PendingIsLastProbe(r: Run, id: ProbeID)
    requires Legal(r)
    ensures var s := After(r);
            && Takes(r, id) + (if id in s.m.pending then 1 else 0) <= Sends(r, id)
            && (id in s.m.pending ==> LastProbe(r, id) == Some(s.m.pending[id]))
  {
    hide Next, Possible;
    if |r| > 0 {
      PendingIsLastProbe(Front(r), id);
      PendingStep(After(Front(r)), r[|r| - 1], id);
    }
  }

  /** The probe under `id` that no pong has taken and no round more than 15 s after it has dropped. */
  function WaitingProbe(r: Run, id: ProbeID): Option<PendingProbe> {
    if |r| == 0 then None
    else
      var e, before := Last(r), WaitingProbe(Front(r), id);
      if e.PingSent? && e.id == id then Some(e.probe)
      else if e == PongTaken(id) then None
      else if e.Decided? && before.Some? && e.now - before.value.sentAt > 15_000_000_000 then None
      else before
  }

  /** Those are the probes waiting, in every run. */
  lemma {:induction false} PendingIsWaiting(r: Run, id: ProbeID)
    requires Legal(r)
    ensures var s := After(r);
            WaitingProbe(r, id) == if id in s.m.pending then Some(s.m.pending[id]) else None
  {
    hide Next, Possible;
    if |r| > 0 {
      PendingIsWaiting(Front(r), id);
      WaitingStep(After(Front(r)), Last(r), id);
    }
  }

  lemma WaitingStep(s: Sys, e: Event, id: ProbeID)
    requires Possible(s, e)
    ensures var before := if id in s.m.pending then Some(s.m.pending[id]) else None;
            var after := if id in Next(s, e).m.pending then Some(Next(s, e).m.pending[id]) else None;
            after == if e.PingSent? && e.id == id then Some(e.probe)
                     else if e == PongTaken(id) then None
                     else if e.Decided? && before.Some? && e.now - before.value.sentAt > 15_000_000_000 then None
                     else before
  {
    hide Counted, ToRelay, PeersOf;
  }

  /** Each probe sent is applied at most once, and to the peer it was sent for. */
  lemma {:induction false} PongGoesToItsPeer(r: Run, id: ProbeID)
    requires Legal(r + [PongTaken(id)])
    ensures Takes(r, id) < Sends(r, id)
    ensures LastProbe(r, id).Some? && After(r + [PongTaken(id)]).inPong == Taken(LastProbe(r, id).value.publicKey)
  {
    assert Front(r + [PongTaken(id)]) == r;
    PendingIsLastProbe(r, id);
  }
}
