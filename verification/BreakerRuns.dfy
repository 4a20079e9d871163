/**
 The breakers of internal/balancer/balancer.go over whole histories of calls: which requests the filter
 refuses because of which releases.
 */
module BreakerRuns {
  import opened Common
  import opened Balancer
  import Circuit

  /** What a breaker hears of: the filter asks for a name, a request is released. */
  datatype Call = Asks(name: string, now: int) | Releases(name: string, success: bool, now: int)

  function EventOf(call: Call): Circuit.Event {
    match call
    case Asks(_, now) => Circuit.Event(now, Circuit.Allow)
    case Releases(_, success, now) => Circuit.Event(now, Balancer.Verdict(success))
  }

  /** The board after a history of calls, one StepOn each as in SelectServer and ReleaseServer. */
  function BoardAfter(cfg: Circuit.Config, calls: seq<Call>): Board {
    if calls == [] then map[]
    else
      var last := calls[|calls| - 1];
      StepOn(Some(cfg), BoardAfter(cfg, calls[..|calls| - 1]), last.name, EventOf(last)).0
  }

  /** What the breaker of one name hears. */
  function Hears(calls: seq<Call>, n: string): seq<Circuit.Event> {
    if calls == [] then []
    else
      var last := calls[|calls| - 1];
      Hears(calls[..|calls| - 1], n) + if last.name == n then [EventOf(last)] else []
  }

  /** When a request on this server was last released as failed. */
  function LatestFailedRelease(calls: seq<Call>, n: string): Option<int> {
    if calls == [] then None
    else
      match calls[|calls| - 1]
      case Releases(m, false, now) => if m == n then Some(now) else LatestFailedRelease(calls[..|calls| - 1], n)
      case _ => LatestFailedRelease(calls[..|calls| - 1], n)
  }

  /** How many requests on this server in a row were released as failed, up to now. */
  function FailedInARow(calls: seq<Call>, n: string): nat {
    if calls == [] then 0
    else
      var before := FailedInARow(calls[..|calls| - 1], n);
      match calls[|calls| - 1]
      case Releases(m, success, _) => if m != n then before else if success then 0 else before + 1
      case _ => before
  }

  lemma HearsNext(calls: seq<Call>, n: string)
    requires calls != []
    ensures var init, last := Hears(calls[..|calls| - 1], n), calls[|calls| - 1];
            if last.name == n
            then Hears(calls, n) == init + [EventOf(last)] && Hears(calls, n)[..|Hears(calls, n)| - 1] == init
            else Hears(calls, n) == init
  {}

  lemma BoardNext(cfg: Circuit.Config, calls: seq<Call>, call: Call)
    ensures BoardAfter(cfg, calls + [call]) == StepOn(Some(cfg), BoardAfter(cfg, calls), call.name, EventOf(call)).0
  {
    assert (calls + [call])[..|calls|] == calls;
  }

  /** Breakers do not influence each other: each holds what a breaker alone would after its own events. */
  lemma {:induction false} BreakersAreSeparate(cfg: Circuit.Config, calls: seq<Call>, n: string)
    ensures StateOn(BoardAfter(cfg, calls), n) == Circuit.Run(cfg, Hears(calls, n))
  {
    if calls == [] {
    } else {
      BreakersAreSeparate(cfg, calls[..|calls| - 1], n);
      HearsNext(calls, n);
    }
  }

  lemma {:induction false} HearsOfFailures(calls: seq<Call>, n: string)
    ensures Circuit.LatestFailure(Hears(calls, n)) == LatestFailedRelease(calls, n)
    ensures Circuit.TrailingFailures(Hears(calls, n)) == FailedInARow(calls, n)
  {
    if calls == [] {
    } else {
      HearsOfFailures(calls[..|calls| - 1], n);
      HearsNext(calls, n);
    }
  }

  /** A server is refused exactly while its breaker is open and its latest failed release is short of `timeout` ago. */
  lemma RefusedIff(cfg: Circuit.Config, calls: seq<Call>, n: string, now: int)
    ensures var board, latest := BoardAfter(cfg, calls), LatestFailedRelease(calls, n);
            && (!Admits(Some(cfg), board, n, now) ==> latest.Some?)
            && (!Admits(Some(cfg), board, n, now) <==>
                  StateOn(board, n).status == Circuit.Open && !(latest.Some? && now - latest.value >= cfg.timeout))
  {
    BreakersAreSeparate(cfg, calls, n);
    HearsOfFailures(calls, n);
    Circuit.AllowRefusesIff(cfg, Hears(calls, n), now);
  }

  lemma {:induction false} ClosedWhileFewFail(cfg: Circuit.Config, calls: seq<Call>, n: string)
    requires cfg.threshold >= 1 && cfg.successThreshold >= 1
    requires forall k :: 0 <= k <= |calls| ==> FailedInARow(calls[..k], n) < cfg.threshold
    ensures StateOn(BoardAfter(cfg, calls), n).status == Circuit.Closed
  {
    if calls == [] {
    } else {
      var before := calls[..|calls| - 1];
      forall k | 0 <= k <= |before| ensures FailedInARow(before[..k], n) < cfg.threshold {
        assert before[..k] == calls[..k];
      }
      ClosedWhileFewFail(cfg, before, n);
      BreakersAreSeparate(cfg, before, n);
      BreakersAreSeparate(cfg, calls, n);
      assert calls[..|calls|] == calls;
      HearsOfFailures(calls, n);
      Circuit.OpensAtTheThreshold(cfg, Hears(before, n), EventOf(calls[|calls| - 1]));
    }
  }

  /** A server that never failed `threshold` requests in a row is always let through. */
  lemma SelectableWhileFewFail(cfg: Circuit.Config, calls: seq<Call>, n: string, now: int)
    requires cfg.threshold >= 1 && cfg.successThreshold >= 1
    requires forall k :: 0 <= k <= |calls| ==> FailedInARow(calls[..k], n) < cfg.threshold
    ensures Admits(Some(cfg), BoardAfter(cfg, calls), n, now)
  {
    ClosedWhileFewFail(cfg, calls, n);
    RefusedIff(cfg, calls, n, now);
  }

  /** A server released only with success is always let through, whatever the thresholds. */
  lemma {:induction false} SuccessKeepsSelectable(cfg: Circuit.Config, calls: seq<Call>, n: string, now: int)
    requires forall i :: 0 <= i < |calls| && calls[i].Releases? && calls[i].name == n ==> calls[i].success
    ensures Admits(Some(cfg), BoardAfter(cfg, calls), n, now)
  {
    NoFailedRelease(calls, n);
    RefusedIff(cfg, calls, n, now);
  }

  lemma {:induction false} NoFailedRelease(calls: seq<Call>, n: string)
    requires forall i :: 0 <= i < |calls| && calls[i].Releases? && calls[i].name == n ==> calls[i].success
    ensures LatestFailedRelease(calls, n) == None
  {
    if calls == [] {
    } else {
      NoFailedRelease(calls[..|calls| - 1], n);
    }
  }

  /** The failed release that completes a run of `threshold` shuts the server out until `timeout` has passed. */
  lemma ThresholdShutsOut(cfg: Circuit.Config, calls: seq<Call>, n: string, failed: int, now: int)
    requires cfg.threshold >= 1 && cfg.successThreshold >= 1
    requires StateOn(BoardAfter(cfg, calls), n).status == Circuit.Closed && FailedInARow(calls, n) + 1 == cfg.threshold
    ensures Admits(Some(cfg), BoardAfter(cfg, calls + [Releases(n, false, failed)]), n, now)
       <==> now - failed >= cfg.timeout
  {
    var all := calls + [Releases(n, false, failed)];
    assert all[..|calls|] == calls;
    BreakersAreSeparate(cfg, calls, n);
    BreakersAreSeparate(cfg, all, n);
    HearsOfFailures(all, n);
    Circuit.OpensAtTheThreshold(cfg, Hears(calls, n), EventOf(all[|calls|]));
    RefusedIff(cfg, all, n, now);
  }

  /** The questions the filter puts to the breakers, in order. */
  function Questions(group: seq<ServerState>, healthy: string -> bool, now: int): seq<Call> {
    if group == [] then []
    else
      var name := group[|group| - 1].server.name;
      Questions(group[..|group| - 1], healthy, now) + if healthy(name) then [Asks(name, now)] else []
  }

  lemma ScreenedNext(cfg: Option<Circuit.Config>, board: Board, group: seq<ServerState>,
                     healthy: string -> bool, now: int)
    requires group != []
    ensures var name := group[|group| - 1].server.name;
            var before := Screened(cfg, board, group[..|group| - 1], healthy, now).1;
            Screened(cfg, board, group, healthy, now).1
            == if healthy(name) then StepOn(cfg, before, name, EventOf(Asks(name, now))).0 else before
  {}

  /** Filtering a group is one question after another put to the breakers of its healthy servers. */
  lemma {:induction false} FilteringAsks(cfg: Circuit.Config, calls: seq<Call>, group: seq<ServerState>,
                                         healthy: string -> bool, now: int)
    ensures Screened(Some(cfg), BoardAfter(cfg, calls), group, healthy, now).1
         == BoardAfter(cfg, calls + Questions(group, healthy, now))
  {
    if group == [] {
      assert calls + [] == calls;
    } else {
      var init, name := group[..|group| - 1], group[|group| - 1].server.name;
      FilteringAsks(cfg, calls, init, healthy, now);
      ScreenedNext(Some(cfg), BoardAfter(cfg, calls), group, healthy, now);
      var asked := calls + Questions(init, healthy, now);
      if healthy(name) {
        assert Questions(group, healthy, now) == Questions(init, healthy, now) + [Asks(name, now)];
        assert calls + Questions(group, healthy, now) == asked + [Asks(name, now)];
        BoardNext(cfg, asked, Asks(name, now));
      } else {
        assert Questions(group, healthy, now) == Questions(init, healthy, now);
      }
    }
  }
}
