/** The system's routes over runs of `SetRoutes`, whichever calls fail (internal/wgnet/wgnet.go:166-201). */
module RouteRuns {
  import opened NetMap
  import opened Wgnet

  /** A route update: what was desired, and what the system refused. */
  datatype RouteCall = RouteCall(desired: set<Prefix>, failing: set<Prefix>)

  function InstalledAfter(calls: seq<RouteCall>): set<Prefix> {
    if |calls| == 0 then {}
    else
      var c := calls[|calls| - 1];
      RoutesAfter(InstalledAfter(calls[..|calls| - 1]), c.desired, c.failing)
  }

  function KernelRun(calls: seq<RouteCall>): set<Prefix> {
    if |calls| == 0 then {}
    else
      var c, before := calls[|calls| - 1], calls[..|calls| - 1];
      KernelAfter(KernelRun(before), InstalledAfter(before), c.desired, c.failing)
  }

  /** The routes the system refused to remove and has not been asked to add since. */
  function Leaked(calls: seq<RouteCall>): set<Prefix> {
    if |calls| == 0 then {}
    else
      var c, before := calls[|calls| - 1], calls[..|calls| - 1];
      var installed := InstalledAfter(before);
      (Leaked(before) + ((installed - c.desired) * c.failing)) - ((c.desired - installed) - c.failing)
  }

  /** In every run the kernel has exactly the installed routes and the leaked ones. */
  lemma {:induction false} KernelIsInstalledAndLeaked(calls: seq<RouteCall>)
    ensures KernelRun(calls) == InstalledAfter(calls) + Leaked(calls)
    ensures InstalledAfter(calls) !! Leaked(calls)
  {
    if |calls| > 0 {
      KernelIsInstalledAndLeaked(calls[..|calls| - 1]);
    }
  }

  /** The kernel's routes are the desired ones exactly when nothing is leaked and no addition just failed. */
  lemma {:induction false} KernelIsDesiredIff(calls: seq<RouteCall>, c: RouteCall)
    ensures KernelRun(calls + [c]) == c.desired <==>
              Leaked(calls + [c]) <= c.desired
              && (c.desired - InstalledAfter(calls)) - Leaked(calls) !! c.failing
  {
    KernelIsInstalledAndLeaked(calls);
    KernelIsInstalledAndLeaked(calls + [c]);
    assert (calls + [c])[..|calls|] == calls;
  }

  /** Without failures the kernel follows the desired set, and repeating the call asks nothing of the system. */
  lemma {:induction false} CleanRunFollowsDesired(calls: seq<RouteCall>)
    requires forall i :: 0 <= i < |calls| ==> calls[i].failing == {}
    requires |calls| > 0
    ensures var c := calls[|calls| - 1];
            && KernelRun(calls) == c.desired && InstalledAfter(calls) == c.desired
            && Calls(InstalledAfter(calls), c.desired) == {}
  {
    KernelIsInstalledAndLeaked(calls);
    NothingLeaks(calls);
  }

  lemma {:induction false} NothingLeaks(calls: seq<RouteCall>)
    requires forall i :: 0 <= i < |calls| ==> calls[i].failing == {}
    ensures Leaked(calls) == {}
  {
    if |calls| > 0 {
      NothingLeaks(calls[..|calls| - 1]);
    }
  }

  /** A route whose addition failed is tried again by every call that still wants it. */
  lemma {:induction false} FailedAddIsRetried(calls: seq<RouteCall>, c: RouteCall, next: RouteCall, p: Prefix)
    requires p in c.desired && p in c.failing && p !in InstalledAfter(calls) && p in next.desired
    ensures p in Calls(InstalledAfter(calls + [c]), next.desired)
    ensures p in InstalledAfter(calls + [c] + [next]) <==> p !in next.failing
  {
    assert (calls + [c])[..|calls|] == calls;
    assert (calls + [c] + [next])[..|calls| + 1] == calls + [c];
  }
}
