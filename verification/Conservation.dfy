/**
 The life of non-streaming chat requests against the balancer's counters, as in
 internal/proxy/proxy.go and internal/balancer/balancer.go: any number of requests, one atomic
 counter operation per step. What the cache, the deduplication, the provider and the choice of
 server decide is left open, so the results hold for every such decision.
 */
module Conservation {
  import opened Common

  /** Where a release in progress goes next. */
  datatype Next = Finish | Reselect(attempt: nat)

  datatype Pc =
    | Arrived
    | Selecting(server: string)                        // SelectServer: Connections added, TotalReqs not yet
    | Held(server: string)                             // before the cache lookup
    | Deduping(server: string)                         // before DeduplicatedCall, or waiting in it
    | Calling(server: string, attempt: nat)            // inside ChatCompletion
    | Backoff(server: string, attempt: nat)            // asleep after a retryable failure
    | Releasing(server: string, ok: bool, next: Next)  // ReleaseServer entered
    | Counting(server: string, ok: bool, next: Next)   // Connections subtracted, outcome not counted yet
    | Between(last: string, attempt: nat)              // retrying: the old server is released, none selected
    | Reselecting(server: string, attempt: nat)        // SelectServer of a retry, half done
    | ReleasingAgain(last: string)                     // reselection failed: the final release of the old server
    | Done

  datatype Server = Server(connections: int, totalReqs: int, errors: int, successes: int)

  datatype State = State(
    maxRetries: nat,
    servers: map<string, Server>,
    requests: map<nat, Pc>,
    failedReselections: map<string, nat>)              // how often each server was the last one of a failed retry

  datatype Step =
    | Arrive(r: nat)
    | Select(r: nat, choice: Option<string>)           // None: no server available
    | CountTotal(r: nat)
    | CacheHit(r: nat)
    | CacheMiss(r: nat)
    | Deduplicated(r: nat)
    | Lead(r: nat)
    | ProviderOk(r: nat)
    | ProviderFatal(r: nat)
    | ProviderRetryable(r: nat)
    | Cancelled(r: nat)                                // the context ended before the next attempt
    | NextAttempt(r: nat)
    | Subtract(r: nat)
    | CountOutcome(r: nat)

  /** What one step does to its request and to the counters of at most one server. */
  datatype Effect = Stay | Go(pc: Pc) | Charge(pc: Pc, server: string, delta: Server, failed: nat)

  function Initial(maxRetries: nat, names: set<string>): State {
    State(maxRetries, map n | n in names :: Server(0, 0, 0, 0), map[], map n | n in names :: 0)
  }

  function At(s: State, r: nat): Pc { if r in s.requests then s.requests[r] else Done }

  const ADD_CONNECTION := Server(1, 0, 0, 0)
  const ADD_TOTAL := Server(0, 1, 0, 0)
  const SUBTRACT_CONNECTION := Server(-1, 0, 0, 0)
  const ADD_ERROR := Server(0, 0, 1, 0)
  const ADD_SUCCESS := Server(0, 0, 0, 1)

  function After(next: Next, server: string): Pc {
    match next
    case Finish => Done
    case Reselect(attempt) => Between(server, attempt)
  }

  /** The code a request runs next, given where it is. */
  function EffectOf(maxRetries: nat, pc: Pc, step: Step): Effect {
    match step
    case Arrive(_) => Go(Arrived)
    case Select(_, choice) =>
      (match pc
       case Arrived =>
         (match choice
          case Some(n) => Charge(Selecting(n), n, ADD_CONNECTION, 0)
          case None => Go(Done))
       case Between(last, attempt) =>
         (match choice
          case Some(n) => Charge(Reselecting(n, attempt), n, ADD_CONNECTION, 0)
          case None => Go(ReleasingAgain(last)))
       case _ => Stay)
    case CountTotal(_) =>
      (match pc
       case Selecting(n) => Charge(Held(n), n, ADD_TOTAL, 0)
       case Reselecting(n, attempt) => Charge(Calling(n, attempt), n, ADD_TOTAL, 0)
       case _ => Stay)
    case CacheHit(_) => if pc.Held? then Go(Releasing(pc.server, true, Finish)) else Stay
    case CacheMiss(_) => if pc.Held? then Go(Deduping(pc.server)) else Stay
    case Deduplicated(_) => if pc.Deduping? then Go(Releasing(pc.server, true, Finish)) else Stay
    case Lead(_) => if pc.Deduping? then Go(Calling(pc.server, 0)) else Stay
    case ProviderOk(_) => if pc.Calling? then Go(Releasing(pc.server, true, Finish)) else Stay
    case ProviderFatal(_) => if pc.Calling? then Go(Releasing(pc.server, false, Finish)) else Stay
    case ProviderRetryable(_) =>
      if !pc.Calling? then Stay
      else if pc.attempt < maxRetries then Go(Backoff(pc.server, pc.attempt))
      else Go(Releasing(pc.server, false, Finish))
    case Cancelled(_) => if pc.Backoff? then Go(Releasing(pc.server, false, Finish)) else Stay
    case NextAttempt(_) => if pc.Backoff? then Go(Releasing(pc.server, false, Reselect(pc.attempt + 1))) else Stay
    case Subtract(_) =>
      (match pc
       case Releasing(n, ok, next) => Charge(Counting(n, ok, next), n, SUBTRACT_CONNECTION, 0)
       case ReleasingAgain(n) => Charge(Counting(n, false, Finish), n, SUBTRACT_CONNECTION, 1)
       case _ => Stay)
    case CountOutcome(_) =>
      if pc.Counting?
      then Charge(After(pc.next, pc.server), pc.server, if pc.ok then ADD_SUCCESS else ADD_ERROR, 0)
      else Stay
  }

  function Plus(v: Server, d: Server): Server {
    Server(v.connections + d.connections, v.totalReqs + d.totalReqs, v.errors + d.errors, v.successes + d.successes)
  }

  function Take(s: State, step: Step): State {
    if step.Arrive? && step.r in s.requests then s else
    match EffectOf(s.maxRetries, At(s, step.r), step)
    case Stay => s
    case Go(pc) => s.(requests := s.requests[step.r := pc])
    case Charge(pc, n, delta, failed) =>
      if n !in s.servers then s
      else s.(requests := s.requests[step.r := pc],
              servers := s.servers[n := Plus(s.servers[n], delta)],
              failedReselections := s.failedReselections[n := Failed(s, n) + failed])
  }

  function Failed(s: State, n: string): nat {
    if n in s.failedReselections then s.failedReselections[n] else 0
  }

  function Run(maxRetries: nat, names: set<string>, steps: seq<Step>): State {
    if steps == [] then Initial(maxRetries, names)
    else Take(Run(maxRetries, names, steps[..|steps| - 1]), steps[|steps| - 1])
  }

  // ---- who holds what ----

  /** The request has been given this server and has not given it back. */
  predicate Holds(pc: Pc, n: string) {
    match pc
    case Selecting(m) => m == n
    case Held(m) => m == n
    case Deduping(m) => m == n
    case Calling(m, _) => m == n
    case Backoff(m, _) => m == n
    case Releasing(m, _, _) => m == n
    case Reselecting(m, _) => m == n
    case _ => false
  }

  /** In the middle of SelectServer or of ReleaseServer on this server. */
  predicate HalfSelected(pc: Pc, n: string) { pc == Selecting(n) || (pc.Reselecting? && pc.server == n) }

  predicate HalfReleased(pc: Pc, n: string) { pc.Counting? && pc.server == n }

  function Where<V>(requests: map<nat, V>, p: V -> bool): set<nat> {
    set r | r in requests && p(requests[r])
  }

  function Count<V>(requests: map<nat, V>, p: V -> bool): nat { |Where(requests, p)| }

  lemma CountUpdate<V>(requests: map<nat, V>, r: nat, v: V, p: V -> bool)
    ensures Count(requests[r := v], p)
         == Count(requests, p) - (if r in requests && p(requests[r]) then 1 else 0) + (if p(v) then 1 else 0)
  {
    CountApart(requests[r := v], r, p);
    assert requests[r := v] - {r} == requests - {r};
    if r in requests { CountApart(requests, r, p); } else { assert requests - {r} == requests; }
  }

  /** One request counts for itself. */
  lemma CountApart<V>(requests: map<nat, V>, r: nat, p: V -> bool)
    requires r in requests
    ensures Count(requests, p) == Count(requests - {r}, p) + if p(requests[r]) then 1 else 0
  {
    var others := Where(requests - {r}, p);
    assert Where(requests, p) == if p(requests[r]) then others + {r} else others;
  }

  lemma CountEmpty(p: Pc -> bool)
    ensures Count(map[], p) == 0
  {
    assert Where(map[], p) == {};
  }

  function Holders(s: State, n: string): nat { Count(s.requests, pc => Holds(pc, n)) }

  function HalfIn(s: State, n: string): nat { Count(s.requests, pc => HalfSelected(pc, n)) }

  function HalfOut(s: State, n: string): nat { Count(s.requests, pc => HalfReleased(pc, n)) }

  /** Both accounts of one server balance. */
  predicate Balanced(s: State, n: string)
    requires n in s.servers
  {
    var v := s.servers[n];
    && v.connections == Holders(s, n) - Failed(s, n)
    && v.totalReqs + HalfIn(s, n) == v.connections + v.successes + v.errors + HalfOut(s, n)
  }

  function Bit(b: bool): nat { if b then 1 else 0 }

  /** Every charge is matched, on its own server and on no other, by the request's move. */
  lemma ChargeIsMatched(maxRetries: nat, pc: Pc, step: Step, n: string)
    requires step.Arrive? ==> pc.Done?
    ensures var e := EffectOf(maxRetries, pc, step);
            e != Stay ==>
              var hit := e.Charge? && e.server == n;
              var d := if hit then e.delta else Server(0, 0, 0, 0);
              && d.connections == Bit(Holds(e.pc, n)) - Bit(Holds(pc, n)) - (if hit then e.failed else 0)
              && d.totalReqs + Bit(HalfSelected(e.pc, n)) - Bit(HalfSelected(pc, n))
                 == d.connections + d.successes + d.errors + Bit(HalfReleased(e.pc, n)) - Bit(HalfReleased(pc, n))
  {}

  lemma GotoCounts(s: State, r: nat, pc: Pc, n: string)
    ensures var s', was := s.(requests := s.requests[r := pc]), At(s, r);
            && Holders(s', n) == Holders(s, n) - Bit(Holds(was, n)) + Bit(Holds(pc, n))
            && HalfIn(s', n) == HalfIn(s, n) - Bit(HalfSelected(was, n)) + Bit(HalfSelected(pc, n))
            && HalfOut(s', n) == HalfOut(s, n) - Bit(HalfReleased(was, n)) + Bit(HalfReleased(pc, n))
  {
    CountUpdate(s.requests, r, pc, x => Holds(x, n));
    CountUpdate(s.requests, r, pc, x => HalfSelected(x, n));
    CountUpdate(s.requests, r, pc, x => HalfReleased(x, n));
  }

  lemma CountsSeeOnlyRequests(s: State, s': State, n: string)
    requires s.requests == s'.requests
    ensures Holders(s, n) == Holders(s', n) && HalfIn(s, n) == HalfIn(s', n) && HalfOut(s, n) == HalfOut(s', n)
  {}

  lemma TakeBalances(s: State, step: Step, n: string)
    requires n in s.servers && Balanced(s, n)
    ensures n in Take(s, step).servers && Balanced(Take(s, step), n)
  {
    var s', was := Take(s, step), At(s, step.r);
    if s' != s {
      var e := EffectOf(s.maxRetries, was, step);
      ChargeIsMatched(s.maxRetries, was, step, n);
      GotoCounts(s, step.r, e.pc, n);
      CountsSeeOnlyRequests(s.(requests := s.requests[step.r := e.pc]), s', n);
    }
  }

  lemma {:induction false} RunBalances(maxRetries: nat, names: set<string>, steps: seq<Step>, n: string)
    requires n in names
    ensures var s := Run(maxRetries, names, steps); n in s.servers && Balanced(s, n)
  {
    if steps == [] {
      CountEmpty(x => Holds(x, n));
      CountEmpty(x => HalfSelected(x, n));
      CountEmpty(x => HalfReleased(x, n));
    } else {
      RunBalances(maxRetries, names, steps[..|steps| - 1], n);
      TakeBalances(Run(maxRetries, names, steps[..|steps| - 1]), steps[|steps| - 1], n);
    }
  }

  // ---- what is counted as success and what as error ----

  /** What an event means for the outcome its request will report on the server it holds. */
  function Says(step: Step): Option<bool> {
    match step
    case CacheHit(_) => Some(true)
    case Deduplicated(_) => Some(true)
    case ProviderOk(_) => Some(true)
    case ProviderFatal(_) => Some(false)
    case ProviderRetryable(_) => Some(false)
    case Cancelled(_) => Some(false)
    case NextAttempt(_) => Some(false)
    case Select(_, _) => Some(false)
    case _ => None
  }

  /** The latest thing that happened to the request was a success. */
  function Verdict(maxRetries: nat, names: set<string>, steps: seq<Step>, r: nat): bool {
    if steps == [] then false
    else
      var before, last := steps[..|steps| - 1], steps[|steps| - 1];
      Judged(Run(maxRetries, names, before), last, r, Verdict(maxRetries, names, before, r))
  }

  function Judged(s: State, step: Step, r: nat, before: bool): bool {
    if step.r == r && Take(s, step) != s && Says(step).Some? then Says(step).value else before
  }

  /** A release under way carries this verdict. */
  predicate Carries(pc: Pc, verdict: bool) {
    ((pc.Releasing? || pc.Counting?) ==> pc.ok == verdict) && (pc.ReleasingAgain? ==> !verdict)
  }

  lemma VerdictStep(s: State, step: Step, r: nat, verdict: bool)
    requires Carries(At(s, r), verdict)
    ensures Carries(At(Take(s, step), r), Judged(s, step, r, verdict))
  {
    if step.r == r && Take(s, step) != s && !step.Arrive? {
      var e := EffectOf(s.maxRetries, At(s, r), step);
      assert At(Take(s, step), r) == e.pc;
    }
  }

  /** In every reachable state a release reports what last happened to its request. */
  lemma {:induction false} ReleaseCarriesTheVerdict(maxRetries: nat, names: set<string>, steps: seq<Step>, r: nat)
    ensures Carries(At(Run(maxRetries, names, steps), r), Verdict(maxRetries, names, steps, r))
  {
    if steps == [] {
    } else {
      var before := steps[..|steps| - 1];
      ReleaseCarriesTheVerdict(maxRetries, names, before, r);
      VerdictStep(Run(maxRetries, names, before), steps[|steps| - 1], r, Verdict(maxRetries, names, before, r));
    }
  }

  /** The step counts the outcome of a request that was on server n. */
  predicate CountsOn(s: State, step: Step, n: string) { step.CountOutcome? && HalfReleased(At(s, step.r), n) }

  /** How many requests counted an outcome on server n after such a verdict. */
  function Outcomes(maxRetries: nat, names: set<string>, steps: seq<Step>, n: string, verdict: bool): nat {
    if steps == [] then 0
    else
      var before, last := steps[..|steps| - 1], steps[|steps| - 1];
      Outcomes(maxRetries, names, before, n, verdict)
      + Bit(CountsOn(Run(maxRetries, names, before), last, n)
            && Verdict(maxRetries, names, before, last.r) == verdict)
  }

  lemma OutcomeStep(s: State, step: Step, n: string)
    requires n in s.servers
    ensures var v, w := s.servers[n], Take(s, step).servers;
            && n in w
            && (CountsOn(s, step, n) ==>
                  && w[n].errors == v.errors + Bit(!At(s, step.r).ok)
                  && w[n].successes == v.successes + Bit(At(s, step.r).ok))
            && (!CountsOn(s, step, n) ==> w[n].errors == v.errors && w[n].successes == v.successes)
  {}

  /** In every interleaving Errors counts exactly the outcomes after a failure, and the rest after a success. */
  lemma {:induction false} OutcomesAreVerdicts(maxRetries: nat, names: set<string>, steps: seq<Step>, n: string)
    requires n in names
    ensures var s := Run(maxRetries, names, steps);
            && n in s.servers
            && s.servers[n].errors == Outcomes(maxRetries, names, steps, n, false)
            && s.servers[n].successes == Outcomes(maxRetries, names, steps, n, true)
  {
    if steps == [] {
    } else {
      var before, last := steps[..|steps| - 1], steps[|steps| - 1];
      OutcomesAreVerdicts(maxRetries, names, before, n);
      OutcomeStep(Run(maxRetries, names, before), last, n);
      ReleaseCarriesTheVerdict(maxRetries, names, before, last.r);
    }
  }

  /** The attempt a request is on, or going to. */
  function AttemptOf(pc: Pc): nat {
    match pc
    case Calling(_, attempt) => attempt
    case Backoff(_, attempt) => attempt + 1
    case Releasing(_, _, Reselect(attempt)) => attempt
    case Counting(_, _, Reselect(attempt)) => attempt
    case Between(_, attempt) => attempt
    case Reselecting(_, attempt) => attempt
    case _ => 0
  }

  lemma AttemptStep(s: State, step: Step, r: nat)
    requires AttemptOf(At(s, r)) <= s.maxRetries
    ensures AttemptOf(At(Take(s, step), r)) <= s.maxRetries && Take(s, step).maxRetries == s.maxRetries
  {
    if step.r == r && Take(s, step) != s && !step.Arrive? {
      assert At(Take(s, step), r) == EffectOf(s.maxRetries, At(s, r), step).pc;
    }
  }

  /** No request ever goes beyond attempt MaxRetries. */
  lemma {:induction false} AttemptsAreLimited(maxRetries: nat, names: set<string>, steps: seq<Step>, r: nat)
    ensures var s := Run(maxRetries, names, steps); s.maxRetries == maxRetries && AttemptOf(At(s, r)) <= maxRetries
  {
    if steps == [] {
    } else {
      AttemptsAreLimited(maxRetries, names, steps[..|steps| - 1], r);
      AttemptStep(Run(maxRetries, names, steps[..|steps| - 1]), steps[|steps| - 1], r);
    }
  }

  // ---- the promises ----

  /** No step of the run ends a retry for want of a server. */
  ghost predicate NoFailedReselection(maxRetries: nat, names: set<string>, steps: seq<Step>, n: string) {
    forall i :: 0 <= i < |steps| ==> !SubtractsAgain(maxRetries, names, steps, n, i)
  }

  /** Step i is the second release of server n after a failed reselection. */
  ghost predicate SubtractsAgain(maxRetries: nat, names: set<string>, steps: seq<Step>, n: string, i: nat)
    requires i < |steps|
  {
    steps[i].Subtract? && At(Run(maxRetries, names, steps[..i]), steps[i].r) == ReleasingAgain(n)
  }

  lemma FailedStep(s: State, step: Step, n: string)
    requires n in s.servers
    ensures Failed(Take(s, step), n) == Failed(s, n) + Bit(step.Subtract? && At(s, step.r) == ReleasingAgain(n))
  {}

  /** The steps of the run that are second releases of server n. */
  ghost function Seconds(maxRetries: nat, names: set<string>, steps: seq<Step>, n: string): set<nat> {
    set i: nat | i < |steps| && SubtractsAgain(maxRetries, names, steps, n, i)
  }

  ghost function SecondReleases(maxRetries: nat, names: set<string>, steps: seq<Step>, n: string): nat {
    |Seconds(maxRetries, names, steps, n)|
  }

  lemma SecondsNext(maxRetries: nat, names: set<string>, steps: seq<Step>, n: string)
    requires steps != []
    ensures var before, last := steps[..|steps| - 1], |steps| - 1;
            Seconds(maxRetries, names, steps, n)
            == Seconds(maxRetries, names, before, n)
               + if SubtractsAgain(maxRetries, names, steps, n, last) then {last} else {}
  {
    var before := steps[..|steps| - 1];
    forall i: nat | i < |before|
      ensures SubtractsAgain(maxRetries, names, steps, n, i) <==> SubtractsAgain(maxRetries, names, before, n, i)
    {
      assert before[..i] == steps[..i];
    }
  }

  lemma SecondReleasesNext(maxRetries: nat, names: set<string>, steps: seq<Step>, n: string)
    requires steps != []
    ensures var before, last := steps[..|steps| - 1], |steps| - 1;
            SecondReleases(maxRetries, names, steps, n)
            == SecondReleases(maxRetries, names, before, n) + Bit(SubtractsAgain(maxRetries, names, steps, n, last))
  {
    SecondsNext(maxRetries, names, steps, n);
    assert |steps| - 1 !in Seconds(maxRetries, names, steps[..|steps| - 1], n);
  }

  /** The correction term is read off the history. */
  lemma {:induction false} FailedIsTheCount(maxRetries: nat, names: set<string>, steps: seq<Step>, n: string)
    requires n in names
    ensures Failed(Run(maxRetries, names, steps), n) == SecondReleases(maxRetries, names, steps, n)
  {
    if steps == [] {
      assert forall i :: i !in Seconds(maxRetries, names, steps, n);
      assert Seconds(maxRetries, names, steps, n) == {};
    } else {
      var before, last := steps[..|steps| - 1], |steps| - 1;
      FailedIsTheCount(maxRetries, names, before, n);
      RunBalances(maxRetries, names, before, n);
      FailedStep(Run(maxRetries, names, before), steps[last], n);
      SecondReleasesNext(maxRetries, names, steps, n);
      assert SubtractsAgain(maxRetries, names, steps, n, last)
        <==> steps[last].Subtract? && At(Run(maxRetries, names, before), steps[last].r) == ReleasingAgain(n);
    }
  }

  lemma NoneIsZero(maxRetries: nat, names: set<string>, steps: seq<Step>, n: string)
    ensures SecondReleases(maxRetries, names, steps, n) == 0 <==> NoFailedReselection(maxRetries, names, steps, n)
  {
    var second := Seconds(maxRetries, names, steps, n);
    assert |second| == 0 <==> second == {};
    assert forall i: nat :: i < |steps| ==> (i in second <==> SubtractsAgain(maxRetries, names, steps, n, i));
  }

  /**
   In every reachable state of every interleaving a server's Connections is the number of requests
   holding it, less the number of steps so far that released it a second time.
   */
  lemma ConnectionsAreHolders(maxRetries: nat, names: set<string>, steps: seq<Step>, n: string)
    requires n in names
    ensures var s := Run(maxRetries, names, steps);
            n in s.servers
            && s.servers[n].connections == Holders(s, n) - SecondReleases(maxRetries, names, steps, n)
  {
    RunBalances(maxRetries, names, steps, n);
    FailedIsTheCount(maxRetries, names, steps, n);
  }

  /** A step between places that hold nothing leaves every server's holders as they were. */
  lemma NothingHeld(s: State, step: Step, n: string)
    requires var e := EffectOf(s.maxRetries, At(s, step.r), step);
             && !step.Arrive? && e != Stay && !Holds(At(s, step.r), n) && !Holds(e.pc, n)
             && (e.Charge? ==> e.server in s.servers)
    ensures Holders(Take(s, step), n) == Holders(s, n)
    ensures At(Take(s, step), step.r) == EffectOf(s.maxRetries, At(s, step.r), step).pc
  {
    var e := EffectOf(s.maxRetries, At(s, step.r), step);
    GotoCounts(s, step.r, e.pc, n);
    CountsSeeOnlyRequests(s.(requests := s.requests[step.r := e.pc]), Take(s, step), n);
  }

  /**
   How the account is lost: a request that holds nothing, because its old server was released before
   the retry, releases that server once more when reselection fails.
   */
  lemma FailedReselectionReleasesTwice(s: State, r: nat, last: string, attempt: nat)
    requires At(s, r) == Between(last, attempt) && last in s.servers
    ensures var s' := Take(Take(Take(s, Select(r, None)), Subtract(r)), CountOutcome(r));
            && At(s', r) == Done && Holders(s', last) == Holders(s, last)
            && s'.servers[last] == Plus(s.servers[last], Server(-1, 0, 1, 0))
  {
    NothingHeld(s, Select(r, None), last);
    var s1 := Take(s, Select(r, None));
    NothingHeld(s1, Subtract(r), last);
    var s2 := Take(s1, Subtract(r));
    NothingHeld(s2, CountOutcome(r), last);
  }

  /** Connections equals the holders exactly when no failed reselection has released the server twice. */
  lemma ConservedIffNoFailedReselection(maxRetries: nat, names: set<string>, steps: seq<Step>, n: string)
    requires n in names
    ensures var s := Run(maxRetries, names, steps);
            n in s.servers
            && (s.servers[n].connections == Holders(s, n) <==> NoFailedReselection(maxRetries, names, steps, n))
  {
    ConnectionsAreHolders(maxRetries, names, steps, n);
    NoneIsZero(maxRetries, names, steps, n);
  }

  /** With no request inside SelectServer or ReleaseServer on n, TotalReqs is accounted for, double release or not. */
  lemma TotalsAddUp(maxRetries: nat, names: set<string>, steps: seq<Step>, n: string)
    requires n in names
    requires var s := Run(maxRetries, names, steps);
             forall r :: r in s.requests ==> !HalfSelected(s.requests[r], n) && !HalfReleased(s.requests[r], n)
    ensures var s := Run(maxRetries, names, steps);
            n in s.servers
            && s.servers[n].totalReqs == s.servers[n].connections + s.servers[n].successes + s.servers[n].errors
  {
    var s := Run(maxRetries, names, steps);
    RunBalances(maxRetries, names, steps, n);
    assert Where(s.requests, pc => HalfSelected(pc, n)) == {};
    assert Where(s.requests, pc => HalfReleased(pc, n)) == {};
  }

  /** When every request is done a server is idle, except that each failed reselection shows as -1. */
  lemma IdleAtTheEnd(maxRetries: nat, names: set<string>, steps: seq<Step>, n: string)
    requires n in names
    requires var s := Run(maxRetries, names, steps); forall r :: r in s.requests ==> s.requests[r] == Done
    ensures var s := Run(maxRetries, names, steps);
            n in s.servers && s.servers[n].connections == 0 - SecondReleases(maxRetries, names, steps, n)
  {
    var s := Run(maxRetries, names, steps);
    ConnectionsAreHolders(maxRetries, names, steps, n);
    assert Where(s.requests, pc => Holds(pc, n)) == {};
  }

  // ---- a run that loses a connection ----

  /** One server and one request. */
  function Lone(maxRetries: nat, n: string, pc: Pc, v: Server, failed: nat): State {
    State(maxRetries, map[n := v], map[0 := pc], map[n := failed])
  }

  function LoneAfter(maxRetries: nat, n: string, pc: Pc, v: Server, failed: nat, e: Effect): State {
    match e
    case Stay => Lone(maxRetries, n, pc, v, failed)
    case Go(to) => Lone(maxRetries, n, to, v, failed)
    case Charge(to, m, delta, more) =>
      if m != n then Lone(maxRetries, n, pc, v, failed) else Lone(maxRetries, n, to, Plus(v, delta), failed + more)
  }

  lemma SameKeys(n: string, v: Server, w: Server, failed: nat, more: nat, pc: Pc, to: Pc)
    ensures map[n := v][n := w] == map[n := w]
    ensures map[n := failed][n := failed + more] == map[n := failed + more]
    ensures var was: map<nat, Pc> := map[0 := pc]; was[0 := to] == map[0 := to]
  {}

  lemma LoneTakes(maxRetries: nat, n: string, step: Step, pc: Pc, v: Server, failed: nat)
    requires step.r == 0 && !step.Arrive?
    ensures Take(Lone(maxRetries, n, pc, v, failed), step)
         == LoneAfter(maxRetries, n, pc, v, failed, EffectOf(maxRetries, pc, step))
  {
    match EffectOf(maxRetries, pc, step)
    case Stay =>
    case Go(to) => SameKeys(n, v, v, failed, 0, pc, to);
    case Charge(to, _, delta, more) => SameKeys(n, v, Plus(v, delta), failed, more, pc, to);
  }

  lemma LoneStep(maxRetries: nat, n: string, steps: seq<Step>, step: Step, pc: Pc, v: Server, failed: nat)
    requires Run(maxRetries, {n}, steps) == Lone(maxRetries, n, pc, v, failed) && step.r == 0 && !step.Arrive?
    ensures Run(maxRetries, {n}, steps + [step])
         == LoneAfter(maxRetries, n, pc, v, failed, EffectOf(maxRetries, pc, step))
  {
    assert (steps + [step])[..|steps|] == steps;
    LoneTakes(maxRetries, n, step, pc, v, failed);
  }

  lemma LoneArrives(maxRetries: nat, n: string)
    ensures Run(maxRetries, {n}, [Arrive(0)]) == Lone(maxRetries, n, Arrived, Server(0, 0, 0, 0), 0)
  {
    assert [Arrive(0)][..0] == [];
  }

  lemma LoneHolds(maxRetries: nat, n: string) returns (steps: seq<Step>)
    ensures |steps| == 3 && Run(maxRetries, {n}, steps) == Lone(maxRetries, n, Held(n), Server(1, 1, 0, 0), 0)
  {
    var s1 := [Arrive(0)];
    LoneArrives(maxRetries, n);
    assert EffectOf(maxRetries, Arrived, Select(0, Some(n))) == Charge(Selecting(n), n, ADD_CONNECTION, 0);
    LoneStep(maxRetries, n, s1, Select(0, Some(n)), Arrived, Server(0, 0, 0, 0), 0);
    var s2 := s1 + [Select(0, Some(n))];
    LoneStep(maxRetries, n, s2, CountTotal(0), Selecting(n), Server(1, 0, 0, 0), 0);
    steps := s2 + [CountTotal(0)];
  }

  lemma LoneCalls(maxRetries: nat, n: string) returns (steps: seq<Step>)
    ensures |steps| == 5 && Run(maxRetries, {n}, steps) == Lone(maxRetries, n, Calling(n, 0), Server(1, 1, 0, 0), 0)
  {
    steps := LoneHolds(maxRetries, n);
    LoneStep(maxRetries, n, steps, CacheMiss(0), Held(n), Server(1, 1, 0, 0), 0);
    steps := steps + [CacheMiss(0)];
    LoneStep(maxRetries, n, steps, Lead(0), Deduping(n), Server(1, 1, 0, 0), 0);
    steps := steps + [Lead(0)];
  }

  /** The first attempt fails, and its server has been given back for a retry. */
  lemma LoneRetries(maxRetries: nat, n: string) returns (steps: seq<Step>)
    requires maxRetries > 0
    ensures |steps| == 9 && Run(maxRetries, {n}, steps) == Lone(maxRetries, n, Between(n, 1), Server(0, 1, 1, 0), 0)
  {
    steps := LoneCalls(maxRetries, n);
    LoneStep(maxRetries, n, steps, ProviderRetryable(0), Calling(n, 0), Server(1, 1, 0, 0), 0);
    steps := steps + [ProviderRetryable(0)];
    LoneStep(maxRetries, n, steps, NextAttempt(0), Backoff(n, 0), Server(1, 1, 0, 0), 0);
    steps := steps + [NextAttempt(0)];
    LoneStep(maxRetries, n, steps, Subtract(0), Releasing(n, false, Reselect(1)), Server(1, 1, 0, 0), 0);
    steps := steps + [Subtract(0)];
    LoneStep(maxRetries, n, steps, CountOutcome(0), Counting(n, false, Reselect(1)), Server(0, 1, 0, 0), 0);
    steps := steps + [CountOutcome(0)];
  }

  /** Whenever retries are allowed some run loses a connection: all its requests are done and the count stands at -1. */
  lemma DoubleReleaseHappens(maxRetries: nat, n: string) returns (steps: seq<Step>)
    requires maxRetries > 0
    ensures |steps| == 12 && Run(maxRetries, {n}, steps) == Lone(maxRetries, n, Done, Server(-1, 1, 2, 0), 1)
    ensures !NoFailedReselection(maxRetries, {n}, steps, n)
  {
    steps := LoneRetries(maxRetries, n);
    LoneStep(maxRetries, n, steps, Select(0, None), Between(n, 1), Server(0, 1, 1, 0), 0);
    steps := steps + [Select(0, None)];
    LoneStep(maxRetries, n, steps, Subtract(0), ReleasingAgain(n), Server(0, 1, 1, 0), 0);
    steps := steps + [Subtract(0)];
    LoneStep(maxRetries, n, steps, CountOutcome(0), Counting(n, false, Finish), Server(-1, 1, 1, 0), 1);
    steps := steps + [CountOutcome(0)];
    FailedIsTheCount(maxRetries, {n}, steps, n);
    NoneIsZero(maxRetries, {n}, steps, n);
  }
}
