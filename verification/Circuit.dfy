/** The circuit breaker of internal/circuit/circuit.go. The clock is a parameter of every operation. */
module Circuit {
  import opened Common

  datatype Status = Closed | Open | HalfOpen

  /** `lastFailure` is None while it is still the zero time. */
  datatype State = State(status: Status, failures: int, successes: int, lastFailure: Option<int>)

  datatype Config = Config(threshold: int, successThreshold: int, timeout: int)

  datatype Op = Allow | Success | Failure | Reset

  datatype Event = Event(now: int, op: Op)

  const FRESH := State(Closed, 0, 0, None)

  /** time.Since(lastFailure) >= timeout */
  function Elapsed(cfg: Config, st: State, now: int): bool {
    st.lastFailure.None? || now - st.lastFailure.value >= cfg.timeout
  }

  /** One operation; the flag is what Allow returns. */
  function Step(cfg: Config, st: State, ev: Event): (State, bool) {
    match ev.op
    case Allow =>
      (match st.status
       case Closed => (st, true)
       case Open =>
         if Elapsed(cfg, st, ev.now) then (st.(status := HalfOpen, successes := 0), true) else (st, false)
       case HalfOpen => (st, true))
    case Success =>
      (match st.status
       case Closed => (st.(failures := 0), false)
       case Open => (st, false)
       case HalfOpen =>
         if st.successes + 1 >= cfg.successThreshold
         then (st.(status := Closed, failures := 0, successes := 0), false)
         else (st.(successes := st.successes + 1), false))
    case Failure =>
      var hit := st.(failures := st.failures + 1, lastFailure := Some(ev.now));
      (match st.status
       case Closed => (if hit.failures >= cfg.threshold then hit.(status := Open) else hit, false)
       case Open => (hit, false)
       case HalfOpen => (hit.(status := Open), false))
    case Reset => (st.(status := Closed, failures := 0, successes := 0), false)
  }

  function Run(cfg: Config, h: seq<Event>): State {
    if h == [] then FRESH else Step(cfg, Run(cfg, h[..|h| - 1]), h[|h| - 1]).0
  }

  // ---- readings of a history that know nothing of the breaker ----

  /** How many Failures there are since the latest Success or Reset. */
  function TrailingFailures(h: seq<Event>): nat {
    if h == [] then 0
    else
      var before := h[..|h| - 1];
      match h[|h| - 1].op
      case Allow => TrailingFailures(before)
      case Failure => TrailingFailures(before) + 1
      case _ => 0
  }

  function LatestFailure(h: seq<Event>): Option<int> {
    if h == [] then None
    else if h[|h| - 1].op.Failure? then Some(h[|h| - 1].now)
    else LatestFailure(h[..|h| - 1])
  }

  /** `timeout` has passed since the latest failure. */
  predicate Rested(cfg: Config, h: seq<Event>, now: int) {
    LatestFailure(h).Some? && now - LatestFailure(h).value >= cfg.timeout
  }

  function Failures(h: seq<Event>): nat {
    if h == [] then 0 else Failures(h[..|h| - 1]) + if h[|h| - 1].op.Failure? then 1 else 0
  }

  function Successes(h: seq<Event>): nat {
    if h == [] then 0 else Successes(h[..|h| - 1]) + if h[|h| - 1].op.Success? then 1 else 0
  }

  ghost predicate Lacks(h: seq<Event>, op: Op) { forall i :: 0 <= i < |h| ==> h[i].op != op }

  // ---- counters ----

  /** lastFailure is always the latest recorded failure, wherever it was recorded. */
  lemma {:induction false} LastFailureIsLatest(cfg: Config, h: seq<Event>)
    ensures Run(cfg, h).lastFailure == LatestFailure(h)
    ensures Run(cfg, h).status != Closed ==> LatestFailure(h).Some?
  {
    if h == [] {
    } else {
      LastFailureIsLatest(cfg, h[..|h| - 1]);
    }
  }

  /** In Closed the counter is the trailing run of failures, and that run is shorter than the threshold. */
  lemma {:induction false} ClosedCountsTrailingFailures(cfg: Config, h: seq<Event>)
    requires cfg.threshold >= 1 && cfg.successThreshold >= 1 && Run(cfg, h).status == Closed
    ensures Run(cfg, h).failures == TrailingFailures(h) < cfg.threshold
  {
    if h == [] {
    } else {
      var before := h[..|h| - 1];
      if Run(cfg, before).status == Closed { ClosedCountsTrailingFailures(cfg, before); }
    }
  }

  /** A closed breaker opens exactly at the failure that completes a run of `threshold`. */
  lemma OpensAtTheThreshold(cfg: Config, h: seq<Event>, ev: Event)
    requires cfg.threshold >= 1 && cfg.successThreshold >= 1 && Run(cfg, h).status == Closed
    ensures Run(cfg, h + [ev]).status == if TrailingFailures(h + [ev]) == cfg.threshold then Open else Closed
  {
    assert (h + [ev])[..|h|] == h;
    ClosedCountsTrailingFailures(cfg, h);
  }

  /** An open breaker admits exactly when `timeout` has passed since the latest failure, even one met while open. */
  lemma {:induction false} OpenAdmitsOnlyAfterTimeout(cfg: Config, h: seq<Event>, now: int)
    requires Run(cfg, h).status == Open
    ensures LatestFailure(h).Some?
    ensures Step(cfg, Run(cfg, h), Event(now, Allow)).1 <==> now - LatestFailure(h).value >= cfg.timeout
  {
    LastFailureIsLatest(cfg, h);
  }

  /** In every history Allow refuses exactly while the breaker is open and its latest failure is not `timeout` ago. */
  lemma AllowRefusesIff(cfg: Config, h: seq<Event>, now: int)
    ensures var refused := !Step(cfg, Run(cfg, h), Event(now, Allow)).1;
            && (refused ==> LatestFailure(h).Some?)
            && (refused <==> Run(cfg, h).status == Open && !Rested(cfg, h, now))
  {
    LastFailureIsLatest(cfg, h);
  }

  /** A breaker that never met `threshold` failures in a row is closed, and lets everything through. */
  lemma {:induction false} ClosedUntilTheThreshold(cfg: Config, h: seq<Event>, now: int)
    requires cfg.threshold >= 1 && cfg.successThreshold >= 1
    requires forall k :: 0 <= k <= |h| ==> TrailingFailures(h[..k]) < cfg.threshold
    ensures Run(cfg, h).status == Closed && Step(cfg, Run(cfg, h), Event(now, Allow)).1
  {
    if h == [] {
    } else {
      var before, last := h[..|h| - 1], h[|h| - 1];
      assert h[..|h|] == h == before + [last];
      forall k | 0 <= k <= |before| ensures TrailingFailures(before[..k]) < cfg.threshold {
        assert before[..k] == h[..k];
      }
      ClosedUntilTheThreshold(cfg, before, now);
      OpensAtTheThreshold(cfg, before, last);
    }
  }

  /** Without a failure there is nothing to refuse, whatever the thresholds. */
  lemma {:induction false} WithoutFailureAlwaysAdmits(cfg: Config, h: seq<Event>, now: int)
    requires Lacks(h, Failure)
    ensures Run(cfg, h).status == Closed && Step(cfg, Run(cfg, h), Event(now, Allow)).1
  {
    if h == [] {
    } else {
      WithoutFailureAlwaysAdmits(cfg, h[..|h| - 1], now);
    }
  }

  /** The breaker has been away from Closed since the Failure at index p completed a run of `threshold`. */
  ghost predicate OpenedBy(cfg: Config, h: seq<Event>, p: nat) {
    && p < |h| && h[p].op == Failure
    && Run(cfg, h[..p]).status == Closed && TrailingFailures(h[..p + 1]) == cfg.threshold
    && (forall k :: p < k <= |h| ==> Run(cfg, h[..k]).status != Closed)
  }

  lemma OpenedStill(cfg: Config, h: seq<Event>, p: nat)
    requires h != [] && OpenedBy(cfg, h[..|h| - 1], p) && Run(cfg, h).status != Closed
    ensures OpenedBy(cfg, h, p)
  {
    var before := h[..|h| - 1];
    assert before[..p] == h[..p] && before[..p + 1] == h[..p + 1];
    forall k | p < k <= |h| ensures Run(cfg, h[..k]).status != Closed {
      if k < |h| { assert before[..k] == h[..k]; } else { assert h[..k] == h; }
    }
  }

  lemma OpenedNow(cfg: Config, h: seq<Event>)
    requires cfg.threshold >= 1 && cfg.successThreshold >= 1
    requires h != [] && Run(cfg, h[..|h| - 1]).status == Closed && Run(cfg, h).status != Closed
    ensures OpenedBy(cfg, h, |h| - 1) && Run(cfg, h).failures == cfg.threshold
  {
    var before, ev := h[..|h| - 1], h[|h| - 1];
    assert h == before + [ev] && h[..|h|] == h;
    OpensAtTheThreshold(cfg, before, ev);
    ClosedCountsTrailingFailures(cfg, before);
  }

  /** Outside Closed the counter is the threshold that was reached plus every Failure since. */
  lemma {:induction false} OpenCountsOn(cfg: Config, h: seq<Event>) returns (p: nat)
    requires cfg.threshold >= 1 && cfg.successThreshold >= 1 && Run(cfg, h).status != Closed
    ensures OpenedBy(cfg, h, p) && Run(cfg, h).failures == cfg.threshold + Failures(h[p + 1..])
  {
    var before, ev := h[..|h| - 1], h[|h| - 1];
    if Run(cfg, before).status == Closed {
      p := |h| - 1;
      OpenedNow(cfg, h);
    } else {
      p := OpenCountsOn(cfg, before);
      OpenedStill(cfg, h, p);
      assert h[p + 1..] == before[p + 1..] + [ev];
      assert h[p + 1..][..|h| - p - 2] == before[p + 1..];
    }
  }

  // ---- the counters event by event, given the breaker's status ----

  /** Failures since the count was last cleared, by a Reset or by a Success that found or left the breaker closed. */
  function FailuresSinceCleared(cfg: Config, h: seq<Event>): nat {
    if h == [] then 0
    else
      var before := FailuresSinceCleared(cfg, h[..|h| - 1]);
      match h[|h| - 1].op
      case Allow => before
      case Failure => before + 1
      case Success => if Run(cfg, h).status == Closed then 0 else before
      case Reset => 0
  }

  /** Successes met half-open since the last probe began; closing and Reset forget them, reopening does not. */
  function SuccessesSinceProbe(cfg: Config, h: seq<Event>): nat {
    if h == [] then 0
    else
      var before := SuccessesSinceProbe(cfg, h[..|h| - 1]);
      var wasOpen := Run(cfg, h[..|h| - 1]).status == Open;
      match h[|h| - 1].op
      case Allow => if wasOpen && Run(cfg, h).status == HalfOpen then 0 else before
      case Failure => before
      case Success => if Run(cfg, h).status == Closed then 0 else if wasOpen then before else before + 1
      case Reset => 0
  }

  /** In every state both counters are folds over the whole history. */
  lemma {:induction false} CountersAreFolds(cfg: Config, h: seq<Event>)
    ensures Run(cfg, h).failures == FailuresSinceCleared(cfg, h)
    ensures Run(cfg, h).successes == SuccessesSinceProbe(cfg, h)
    ensures Run(cfg, h).status == Closed ==> Run(cfg, h).successes == 0
  {
    if h == [] {
    } else {
      CountersAreFolds(cfg, h[..|h| - 1]);
    }
  }

  // ---- recovery ----

  /** The half-open phase that is under way began with the Allow at index m. */
  ghost predicate Probing(cfg: Config, h: seq<Event>, m: nat) {
    && m < |h| && h[m].op == Allow && Run(cfg, h[..m]).status == Open
    && Rested(cfg, h[..m], h[m].now)
    && (forall k :: m < k <= |h| ==> Run(cfg, h[..k]).status == HalfOpen)
    && Lacks(h[m + 1..], Failure) && Lacks(h[m + 1..], Reset)
    && Run(cfg, h).successes == Successes(h[m + 1..])
  }

  lemma ProbingGoesOn(cfg: Config, h: seq<Event>, m: nat)
    requires h != [] && Probing(cfg, h[..|h| - 1], m) && Run(cfg, h).status == HalfOpen
    ensures Probing(cfg, h, m)
  {
    var before, ev := h[..|h| - 1], h[|h| - 1];
    assert before[..m] == h[..m] && before[..|before|] == before;
    SinceGrows(h, m + 1);
    forall k | m < k <= |h| ensures Run(cfg, h[..k]).status == HalfOpen {
      if k < |h| { assert before[..k] == h[..k]; } else { assert h[..k] == h; }
    }
  }

  lemma SinceGrows(h: seq<Event>, m: nat)
    requires m < |h|
    ensures h[m..] == h[..|h| - 1][m..] + [h[|h| - 1]]
    ensures h[m..][..|h[m..]| - 1] == h[..|h| - 1][m..]
  {}

  /** Every half-open state has such a phase behind it. */
  lemma {:induction false} HalfOpenPhase(cfg: Config, h: seq<Event>) returns (m: nat)
    requires Run(cfg, h).status == HalfOpen
    ensures Probing(cfg, h, m)
  {
    var before, ev := h[..|h| - 1], h[|h| - 1];
    if Run(cfg, before).status == HalfOpen {
      m := HalfOpenPhase(cfg, before);
      ProbingGoesOn(cfg, h, m);
    } else {
      m := |h| - 1;
      LastFailureIsLatest(cfg, before);
      assert h[..|h|] == h && h[m + 1..] == [];
    }
  }

  /**
   The way back: if the breaker is open after i events and closed after j, with no Reset between,
   then some stretch of events [m, n) inside opens with an Allow at least `timeout` after the latest
   failure, contains exactly successThreshold successes and no failure, and ends by closing.
   */
  ghost predicate Recovery(cfg: Config, h: seq<Event>, m: nat, n: nat) {
    && m < n <= |h| && h[m].op == Allow && Run(cfg, h[..m]).status == Open
    && Rested(cfg, h[..m], h[m].now)
    && (forall k :: m < k < n ==> Run(cfg, h[..k]).status == HalfOpen)
    && Lacks(h[m + 1..n], Failure) && Successes(h[m + 1..n]) == cfg.successThreshold
    && Run(cfg, h[..n]).status == Closed
  }

  /** Only the last success of a half-open phase closes. */
  lemma LastSuccessCloses(cfg: Config, h: seq<Event>)
    requires cfg.threshold >= 1 && cfg.successThreshold >= 1
    requires h != [] && h[|h| - 1].op != Reset
    requires Run(cfg, h).status == Closed && Run(cfg, h[..|h| - 1]).status != Closed
    ensures h[|h| - 1].op == Success && Run(cfg, h[..|h| - 1]).status == HalfOpen
    ensures Run(cfg, h[..|h| - 1]).successes + 1 == cfg.successThreshold
  {
    HalfOpenStep(cfg, h);
    if Run(cfg, h[..|h| - 1]).status == HalfOpen { HalfOpenBelowThreshold(cfg, h[..|h| - 1]); }
  }

  lemma HalfOpenStep(cfg: Config, h: seq<Event>)
    requires h != [] && h[|h| - 1].op != Reset
    requires Run(cfg, h).status == Closed && Run(cfg, h[..|h| - 1]).status != Closed
    ensures h[|h| - 1].op == Success && Run(cfg, h[..|h| - 1]).status == HalfOpen
    ensures Run(cfg, h[..|h| - 1]).successes + 1 >= cfg.successThreshold
  {}

  lemma SuccessesSnoc(h: seq<Event>, ev: Event)
    requires ev.op == Success
    ensures Successes(h + [ev]) == Successes(h) + 1
    ensures Lacks(h, Failure) ==> Lacks(h + [ev], Failure)
  {
    assert (h + [ev])[..|h|] == h;
  }

  lemma ClosingCompletesRecovery(cfg: Config, h: seq<Event>) returns (m: nat)
    requires cfg.threshold >= 1 && cfg.successThreshold >= 1
    requires h != [] && h[|h| - 1].op != Reset
    requires Run(cfg, h).status == Closed && Run(cfg, h[..|h| - 1]).status != Closed
    ensures Recovery(cfg, h, m, |h|)
  {
    var before, ev := h[..|h| - 1], h[|h| - 1];
    LastSuccessCloses(cfg, h);
    m := HalfOpenPhase(cfg, before);
    SuccessesSnoc(before[m + 1..], ev);
    assert h[m + 1..|h|] == before[m + 1..] + [ev];
    assert before[..m] == h[..m] && h[..|h|] == h;
    forall k | m < k < |h| ensures Run(cfg, h[..k]).status == HalfOpen { assert before[..k] == h[..k]; }
  }

  lemma {:induction false} HalfOpenBelowThreshold(cfg: Config, h: seq<Event>)
    requires cfg.successThreshold >= 1 && Run(cfg, h).status == HalfOpen
    ensures 0 <= Run(cfg, h).successes < cfg.successThreshold
  {
    if h != [] && Run(cfg, h[..|h| - 1]).status == HalfOpen { HalfOpenBelowThreshold(cfg, h[..|h| - 1]); }
  }

  lemma {:induction false} ClosingNeedsRecovery(cfg: Config, h: seq<Event>, i: nat) returns (m: nat, n: nat)
    requires cfg.threshold >= 1 && cfg.successThreshold >= 1 && i <= |h|
    requires Run(cfg, h[..i]).status == Open && Run(cfg, h).status == Closed && Lacks(h[i..], Reset)
    ensures i <= m && Recovery(cfg, h, m, n)
    decreases |h|
  {
    assert h[..|h|] == h;
    var before := h[..|h| - 1];
    assert before[..i] == h[..i];
    if Run(cfg, before).status == Closed {
      assert before[i..] == h[i..][..|h| - 1 - i];
      m, n := ClosingNeedsRecovery(cfg, before, i);
      assert before[..m] == h[..m] && before[m + 1..n] == h[m + 1..n] && before[..n] == h[..n];
      forall k | m < k < n ensures Run(cfg, h[..k]).status == HalfOpen { assert before[..k] == h[..k]; }
    } else {
      assert h[|h| - 1] == h[i..][|h| - 1 - i];
      m := ClosingCompletesRecovery(cfg, h);
      n := |h|;
      assert Run(cfg, h[..i]).status == Open && i != |h|;
    }
  }

  /** The way back is open too: a probe admitted after the timeout, then successes alone, closes at the last one due. */
  lemma {:induction false} RecoveryCloses(cfg: Config, h: seq<Event>, now: int, g: seq<Event>)
    requires cfg.successThreshold >= 1 && Run(cfg, h).status == Open
    requires Rested(cfg, h, now)
    requires Lacks(g, Failure) && Lacks(g, Reset)
    ensures var s := Run(cfg, h + [Event(now, Allow)] + g);
            if Successes(g) < cfg.successThreshold then s.status == HalfOpen && s.successes == Successes(g)
            else s.status == Closed
    decreases |g|
  {
    var probe := h + [Event(now, Allow)];
    if g == [] {
      LastFailureIsLatest(cfg, h);
      assert probe + g == probe && probe[..|h|] == h;
    } else {
      RecoveryCloses(cfg, h, now, g[..|g| - 1]);
      assert (probe + g)[..|probe + g| - 1] == probe + g[..|g| - 1];
    }
  }

  /** One failure on that way, before the last success due, opens the breaker again. */
  lemma ProbeFailureReopens(cfg: Config, h: seq<Event>, now: int, g: seq<Event>, fail: int)
    requires cfg.successThreshold >= 1 && Run(cfg, h).status == Open
    requires Rested(cfg, h, now)
    requires Lacks(g, Failure) && Lacks(g, Reset) && Successes(g) < cfg.successThreshold
    ensures var again := h + [Event(now, Allow)] + g + [Event(fail, Failure)];
            Run(cfg, again).status == Open && LatestFailure(again) == Some(fail)
  {
    RecoveryCloses(cfg, h, now, g);
    var before := h + [Event(now, Allow)] + g;
    assert (before + [Event(fail, Failure)])[..|before|] == before;
  }

  /** Reset closes the breaker and forgets both counts, but not when the latest failure was. */
  lemma ResetCloses(cfg: Config, h: seq<Event>, now: int)
    ensures Run(cfg, h + [Event(now, Reset)]) == State(Closed, 0, 0, LatestFailure(h))
  {
    assert (h + [Event(now, Reset)])[..|h|] == h;
    LastFailureIsLatest(cfg, h);
  }

  // ---- the objects ----

  class Breaker {
    const name: string
    const cfg: Config
    var status: Status
    var failures: int
    var successes: int
    var lastFailure: Option<int>

    function View(): State
      reads this
    {
      State(status, failures, successes, lastFailure)
    }

    constructor (name: string, cfg: Config)
      ensures this.name == name && this.cfg == cfg && View() == FRESH
    {
      this.name, this.cfg := name, cfg;
      status, failures, successes, lastFailure := Closed, 0, 0, None;
    }

    method Allow(now: int) returns (ok: bool)
      modifies this
      ensures (View(), ok) == Step(cfg, old(View()), Event(now, Op.Allow))
      ensures ok ==> status != Open
    {
      match status
      case Closed => ok := true;
      case Open =>
        if lastFailure.None? || now - lastFailure.value >= cfg.timeout {
          status, successes := HalfOpen, 0;
          ok := true;
        } else {
          ok := false;
        }
      case HalfOpen => ok := true;
    }

    method RecordSuccess(now: int)
      modifies this
      ensures View() == Step(cfg, old(View()), Event(now, Success)).0
    {
      match status
      case Closed => failures := 0;
      case Open =>
      case HalfOpen =>
        successes := successes + 1;
        if successes >= cfg.successThreshold {
          status, failures, successes := Closed, 0, 0;
        }
    }

    method RecordFailure(now: int)
      modifies this
      ensures View() == Step(cfg, old(View()), Event(now, Failure)).0
    {
      failures, lastFailure := failures + 1, Some(now);
      match status
      case Closed => if failures >= cfg.threshold { status := Open; }
      case Open =>
      case HalfOpen => status := Open;
    }

    method ResetBreaker(now: int)
      modifies this
      ensures View() == Step(cfg, old(View()), Event(now, Reset)).0
    {
      status, failures, successes := Closed, 0, 0;
    }

    method Do(ev: Event) returns (ok: bool)
      modifies this
      ensures (View(), ok) == Step(cfg, old(View()), ev)
    {
      ok := false;
      match ev.op
      case Allow => ok := Allow(ev.now);
      case Success => RecordSuccess(ev.now);
      case Failure => RecordFailure(ev.now);
      case Reset => ResetBreaker(ev.now);
    }
  }

  class Manager {
    const cfg: Config
    var breakers: map<string, Breaker>
    ghost var States: map<string, State>
    ghost var Repr: set<Breaker>

    /** Each breaker carries the name and configuration it was made with; `States` shows what they hold. */
    ghost predicate Valid()
      reads this, Repr
    {
      && States.Keys == breakers.Keys
      && (forall n :: n in breakers ==>
            && breakers[n] in Repr && breakers[n].name == n && breakers[n].cfg == cfg
            && breakers[n].View() == States[n])
    }

    constructor (cfg: Config)
      ensures Valid() && this.cfg == cfg && breakers == map[] && Repr == {}
    {
      this.cfg, breakers, States, Repr := cfg, map[], map[], {};
    }

    /** The state a name is in, whether or not it has been asked for yet. */
    ghost function StateOf(n: string): State
      reads this
    {
      if n in States then States[n] else FRESH
    }

    method Get(name: string) returns (b: Breaker)
      requires Valid()
      modifies this
      ensures Valid() && name in breakers && breakers[name] == b
      ensures fresh(Repr - old(Repr)) && (name !in old(breakers) ==> fresh(b))
      ensures breakers == old(breakers)[name := b] && States == old(States)[name := old(StateOf(name))]
    {
      if name in breakers { return breakers[name]; }
      b := new Breaker(name, cfg);
      breakers, States, Repr := breakers[name := b], States[name := FRESH], Repr + {b};
    }

    method Advance(name: string, ev: Event) returns (ok: bool)
      requires Valid() && name in breakers
      modifies this`States, breakers[name]
      ensures Valid() && ok == Step(cfg, old(States[name]), ev).1
      ensures States == old(States)[name := Step(cfg, old(States[name]), ev).0]
    {
      var b := breakers[name];
      assert forall n :: n in breakers && n != name ==> breakers[n] != b;
      ok := b.Do(ev);
      States := States[name := b.View()];
    }

    // circuits.Get(name) followed by one call on what it returns.
    method Apply(name: string, ev: Event) returns (ok: bool)
      requires Valid()
      modifies this, Repr
      ensures Valid() && fresh(Repr - old(Repr))
      ensures ok == Step(cfg, old(StateOf(name)), ev).1
      ensures States == old(States)[name := Step(cfg, old(StateOf(name)), ev).0]
    {
      var b := Get(name);
      ok := Advance(name, ev);
    }
  }
}
