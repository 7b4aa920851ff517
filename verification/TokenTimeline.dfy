/**
 * A lone agent polling the server while its token is rotated and replies are lost
 * (internal/control/store.go:290-328, internal/control/server.go:114-130,
 * internal/agent/agent.go:243-252).
 */
module TokenTimeline {
  import opened Net
  import opened NetMap
  import opened Control

  /** The server's device record and the token the agent holds. */
  datatype Link = Link(s: StateFile, pub: Pub, agent: Token)

  /** One poll: what the agent sends, how it goes on the server, and whether the reply arrives. */
  datatype Round = Round(q: PollRequest, env: PollEnv, delivered: bool)

  predicate Accepted(l: Link, r: Round) {
    l.pub in l.s.devices && AcceptsToken(l.s.devices[l.pub], l.agent, r.env.t0)
  }

  /** The poll makes the server rotate the token. */
  predicate Rotates(l: Link, r: Round) {
    Accepted(l, r) && r.env.touchSaved && RotationDue(l.s.devices[l.pub], r.env.t1, r.env.rotateAfter)
  }

  /** The poll rotates the token, but the agent does not learn the new one. */
  predicate Loses(l: Link, r: Round) {
    Rotates(l, r) && !(r.env.rotateSaved && r.delivered)
  }

  function Poll(l: Link, r: Round): Link {
    if !Accepted(l, r) then l
    else
      var (s', t) := PollStep(l.s, l.pub, r.q, r.env);
      l.(s := s', agent := if t.Ok? && t.value.Some? && r.delivered then t.value.value else l.agent)
  }

  function After(l: Link, rounds: seq<Round>): Link {
    if |rounds| == 0 then l else Poll(After(l, rounds[..|rounds| - 1]), rounds[|rounds| - 1])
  }

  /** Rotation is no sooner than the grace period, and a poll is shorter than the difference. */
  predicate Unhurried(r: Round) {
    r.env.t1 - r.env.t0 <= r.env.rotateAfter - TOKEN_GRACE
  }

  /** The draws are new to this device and this agent. */
  predicate Draws(l: Link, r: Round) {
    l.pub in l.s.devices ==> r.env.drawn != l.s.devices[l.pub].token && r.env.drawn != l.agent
  }

  predicate GoodRun(l: Link, rounds: seq<Round>) {
    |rounds| == 0 ||
    var r, before := rounds[|rounds| - 1], rounds[..|rounds| - 1];
    GoodRun(l, before) && Unhurried(r) && Draws(After(l, before), r)
  }

  predicate Current(l: Link) {
    l.pub in l.s.devices && l.agent == l.s.devices[l.pub].token
  }

  /** The agent's token was replaced by the rotation that started the running grace period. */
  predicate Behind(l: Link) {
    l.pub in l.s.devices && l.agent != l.s.devices[l.pub].token
    && l.s.devices[l.pub].prevToken == Some(l.agent)
    && l.s.devices[l.pub].prevTokenUntil == l.s.devices[l.pub].tokenIssuedAt + TOKEN_GRACE
  }

  /** A poll accepted on the previous token never rotates, so it changes no token on either side. */
  lemma PreviousNeverRotates(l: Link, r: Round)
    requires Behind(l) && Unhurried(r)
    ensures !Rotates(l, r) && Behind(Poll(l, r)) && TokensKept(l.s.devices[l.pub], Poll(l, r).s.devices[l.pub])
    ensures Accepted(l, r) <==> r.env.t0 < l.s.devices[l.pub].tokenIssuedAt + TOKEN_GRACE
  {
  }

  /** A poll on the current token is accepted, and leaves the agent behind exactly when it loses a rotation. */
  lemma CurrentStepsOn(l: Link, r: Round)
    requires Current(l) && Draws(l, r)
    ensures Accepted(l, r)
    ensures if Loses(l, r) then Behind(Poll(l, r)) && Poll(l, r).s.devices[l.pub].tokenIssuedAt == r.env.t1
            else Current(Poll(l, r))
  {
  }

  /** Some rotation of the run was lost. */
  predicate LostOne(l: Link, rounds: seq<Round>) {
    |rounds| > 0 &&
    (LostOne(l, rounds[..|rounds| - 1]) || Loses(After(l, rounds[..|rounds| - 1]), rounds[|rounds| - 1]))
  }

  /**
   * A lone agent's token is always the current or the previous one, across any lost replies
   * and failed saves; it is the current one exactly when no rotation has been lost.
   */
  lemma {:induction false} CurrentIffNothingLost(l: Link, rounds: seq<Round>)
    requires Current(l) && GoodRun(l, rounds)
    ensures Current(After(l, rounds)) || Behind(After(l, rounds))
    ensures Current(After(l, rounds)) <==> !LostOne(l, rounds)
  {
    if |rounds| > 0 {
      var before, r := rounds[..|rounds| - 1], rounds[|rounds| - 1];
      CurrentIffNothingLost(l, before);
      if Current(After(l, before)) {
        CurrentStepsOn(After(l, before), r);
      } else {
        PreviousNeverRotates(After(l, before), r);
      }
    }
  }

  /** Polls that follow a state in which the agent is behind. */
  lemma {:induction false} BehindForGood(l: Link, rounds: seq<Round>)
    requires Behind(l) && GoodRun(l, rounds)
    ensures Behind(After(l, rounds)) && After(l, rounds).agent == l.agent && After(l, rounds).pub == l.pub
            && TokensKept(l.s.devices[l.pub], After(l, rounds).s.devices[l.pub])
  {
    if |rounds| > 0 {
      BehindForGood(l, rounds[..|rounds| - 1]);
      PreviousNeverRotates(After(l, rounds[..|rounds| - 1]), rounds[|rounds| - 1]);
    }
  }

  /**
   * A lost rotation is never made good: after the poll that lost it, later polls are accepted
   * up to one grace period after the rotation and none from then on.
   */
  lemma {:induction false} LostRotationLocksOut(l: Link, lost: Round, rounds: seq<Round>, r: Round)
    requires Current(l) && Draws(l, lost) && Loses(l, lost)
    requires GoodRun(Poll(l, lost), rounds + [r])
    ensures Accepted(After(Poll(l, lost), rounds), r) <==> r.env.t0 < lost.env.t1 + TOKEN_GRACE
  {
    CurrentStepsOn(l, lost);
    assert (rounds + [r])[..|rounds|] == rounds;
    BehindForGood(Poll(l, lost), rounds);
    PreviousNeverRotates(After(Poll(l, lost), rounds), r);
  }
}
