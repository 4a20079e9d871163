/**
 DeduplicatedCall of internal/cache/cache.go as a protocol: any number of callers, one atomic
 step per channel, sync.Map or field operation. A list of steps is a schedule; a step that is not
 enabled when its turn comes does nothing, so every interleaving is some list.
 */
module SingleFlight {
  import opened Common

  /** The ([]byte, error) that fn returns; None stands for nil. */
  datatype Result = Result(bytes: Option<Bytes>, err: Option<string>)

  datatype Pc =
    | Started                                          // before the cfg.Enabled check
    | Entering                                         // enabled: before LoadOrStore
    | Bypassing                                        // disabled: inside fn, without a flight
    | Leading                                          // inside fn, owning a flight
    | StoringResult(got: Result)                       // fn returned
    | StoringErr(got: Result)                          // flight.result written
    | Closing(got: Result)                             // flight.err written
    | Spawning(got: Result)                            // done closed
    | Waiting(flight: nat)                             // blocked on <-flight.done
    | Returned(got: Result, deduplicated: bool, flight: nat)

  datatype Call = Call(key: string, pc: Pc)

  /** An `inflight` record. It is named by the caller that allocated it. */
  datatype Flight = Flight(result: Option<Bytes>, err: Option<string>, done: bool)

  datatype State = State(
    enabled: bool,
    calls: map<nat, Call>,
    inflight: map<string, nat>,
    flights: map<nat, Flight>,
    deleters: set<nat>)                                // goroutines sleeping before their Delete

  datatype Step =
    | Arrive(c: nat, key: string)
    | Check(c: nat)
    | LoadOrStore(c: nat)
    | FnReturns(c: nat, got: Result)
    | Write(c: nat)                                    // the leader's next assignment or close
    | Wake(c: nat)
    | Delete(c: nat)                                   // the delayed delete spawned by caller c
    | SetEnabled(on: bool)

  function Initial(): State { State(true, map[], map[], map[], {}) }

  function Goto(s: State, c: nat, pc: Pc): State
    requires c in s.calls
  {
    s.(calls := s.calls[c := s.calls[c].(pc := pc)])
  }

  function At(s: State, c: nat): Option<Pc> {
    if c in s.calls then Some(s.calls[c].pc) else None
  }

  function Take(s: State, step: Step): State {
    match step
    case Arrive(c, key) => if c in s.calls then s else s.(calls := s.calls[c := Call(key, Started)])
    case Check(c) => if At(s, c) != Some(Started) then s else Goto(s, c, if s.enabled then Entering else Bypassing)
    case LoadOrStore(c) => if At(s, c) != Some(Entering) then s else Enter(s, c)
    case FnReturns(c, got) =>
      if At(s, c) == Some(Leading) then Goto(s, c, StoringResult(got))
      else if At(s, c) == Some(Bypassing) then Goto(s, c, Returned(got, false, c))
      else s
    case Write(c) => if At(s, c).Some? then Advance(s, c) else s
    case Wake(c) =>
      if At(s, c).Some? && s.calls[c].pc.Waiting? then Join(s, c, s.calls[c].pc.flight) else s
    case Delete(c) =>
      if c in s.deleters && c in s.calls
      then s.(inflight := s.inflight - {s.calls[c].key}, deleters := s.deleters - {c})
      else s
    case SetEnabled(on) => s.(enabled := on)
  }

  /** LoadOrStore(key, newFlight) and the branch on `loaded`. */
  function Enter(s: State, c: nat): State
    requires c in s.calls
  {
    var key := s.calls[c].key;
    if key in s.inflight then Goto(s, c, Waiting(s.inflight[key]))
    else Goto(s, c, Leading).(inflight := s.inflight[key := c], flights := s.flights[c := Flight(None, None, false)])
  }

  /** The leader's assignments: flight.result, flight.err, close(done), then the go statement. */
  function Advance(s: State, c: nat): State
    requires c in s.calls
  {
    if c !in s.flights then s else
    match s.calls[c].pc
    case StoringResult(got) =>
      Goto(s, c, StoringErr(got)).(flights := s.flights[c := s.flights[c].(result := got.bytes)])
    case StoringErr(got) =>
      Goto(s, c, Closing(got)).(flights := s.flights[c := s.flights[c].(err := got.err)])
    case Closing(got) =>
      Goto(s, c, Spawning(got)).(flights := s.flights[c := s.flights[c].(done := true)])
    case Spawning(got) => Goto(s, c, Returned(got, false, c)).(deleters := s.deleters + {c})
    case _ => s
  }

  /** A follower leaves <-flight.done once it is closed and returns the flight's fields. */
  function Join(s: State, c: nat, f: nat): State
    requires c in s.calls
  {
    if f in s.flights && s.flights[f].done
    then Goto(s, c, Returned(Result(s.flights[f].result, s.flights[f].err), true, f))
    else s
  }

  function Run(steps: seq<Step>): State {
    if steps == [] then Initial() else Take(Run(steps[..|steps| - 1]), steps[|steps| - 1])
  }

  // ---- what every step keeps ----

  predicate InFn(pc: Pc) { pc.Leading? || pc.Bypassing? }

  /** From LoadOrStore to the go statement a leader owns the slot of its key. */
  predicate Owning(pc: Pc) {
    pc.Leading? || pc.StoringResult? || pc.StoringErr? || pc.Closing? || pc.Spawning?
  }

  /** The flight's fields agree with how far its leader has come. */
  predicate FlightMatches(f: Flight, pc: Pc) {
    match pc
    case Leading => !f.done
    case StoringResult(_) => !f.done
    case StoringErr(got) => !f.done && f.result == got.bytes
    case Closing(got) => !f.done && f.result == got.bytes && f.err == got.err
    case Spawning(got) => f.done && f.result == got.bytes && f.err == got.err
    case Returned(got, deduplicated, _) => !deduplicated && f.done && f.result == got.bytes && f.err == got.err
    case _ => false
  }

  /** A follower's leader, and what it came away with. */
  ghost predicate Follows(s: State, c: nat) {
    c in s.calls &&
    match s.calls[c].pc
    case Waiting(f) => f in s.flights && f in s.calls && s.calls[f].key == s.calls[c].key
    case Returned(got, true, f) =>
      && f in s.flights && f in s.calls && s.flights[f].done && s.calls[f].key == s.calls[c].key
      && got == Result(s.flights[f].result, s.flights[f].err)
    case _ => true
  }

  ghost predicate Inv(s: State) {
    && s.flights.Keys <= s.calls.Keys
    && (forall f :: f in s.flights ==> FlightMatches(s.flights[f], s.calls[f].pc))
    && (forall c :: c in s.calls && Owning(s.calls[c].pc) ==> c in s.flights && Slot(s, c))
    && (forall c :: c in s.deleters ==> c in s.flights && s.calls[c].pc.Returned? && Slot(s, c))
    && (forall key :: key in s.inflight ==> Occupant(s, key))
    && (forall c :: c in s.calls ==> Follows(s, c))
  }

  /** Caller c's flight is the one in the in-flight map under c's key. */
  ghost predicate Slot(s: State, c: nat)
    requires c in s.calls
  {
    s.calls[c].key in s.inflight && s.inflight[s.calls[c].key] == c
  }

  /** Whatever the map holds belongs to a leader still at work or to a delete still to come. */
  ghost predicate Occupant(s: State, key: string)
    requires key in s.inflight
  {
    var f := s.inflight[key];
    f in s.flights && f in s.calls && s.calls[f].key == key && (Owning(s.calls[f].pc) || f in s.deleters)
  }

  /** A call without a flight of its own moves on; nobody else can tell. */
  lemma CallMoves(s: State, c: nat, pc: Pc)
    requires Inv(s) && c in s.calls && !Owning(s.calls[c].pc) && !Owning(pc) && c !in s.flights
    requires Follows(Goto(s, c, pc), c)
    ensures Inv(Goto(s, c, pc))
  {
    var s' := Goto(s, c, pc);
    forall d | d in s'.calls ensures Follows(s', d) { assert Follows(s, d); }
    forall d | d in s'.calls && Owning(s'.calls[d].pc) ensures d in s'.flights && Slot(s', d) { assert Slot(s, d); }
    forall d | d in s.deleters ensures Slot(s', d) { assert Slot(s, d); }
    forall key | key in s'.inflight ensures Occupant(s', key) { assert Occupant(s, key); }
  }

  lemma LeaderEnters(s: State, c: nat)
    requires Inv(s) && At(s, c) == Some(Entering) && s.calls[c].key !in s.inflight
    ensures Inv(Enter(s, c))
  {
    var s' := Enter(s, c);
    assert c !in s.flights;
    forall d | d in s'.calls ensures Follows(s', d) { assert Follows(s, d); }
    forall d | d in s'.calls && Owning(s'.calls[d].pc) ensures d in s'.flights && Slot(s', d) {
      if d != c { assert Slot(s, d); }
    }
    forall d | d in s.deleters ensures Slot(s', d) { assert Slot(s, d); }
    forall key | key in s'.inflight ensures Occupant(s', key) {
      if key in s.inflight { assert Occupant(s, key); }
    }
  }

  lemma EnterKeeps(s: State, c: nat)
    requires Inv(s) && At(s, c) == Some(Entering)
    ensures Inv(Enter(s, c))
  {
    var key := s.calls[c].key;
    if key in s.inflight {
      assert Occupant(s, key);
      CallMoves(s, c, Waiting(s.inflight[key]));
    } else {
      LeaderEnters(s, c);
    }
  }

  /** An owner moves on and rewrites its own flight; a closed flight is never rewritten. */
  lemma OwnerMoves(s: State, c: nat, pc: Pc, flight: Flight, deleters: set<nat>)
    requires Inv(s) && c in s.calls && Owning(s.calls[c].pc)
    requires FlightMatches(flight, pc) && (s.flights[c].done ==> flight == s.flights[c])
    requires if Owning(pc) then deleters == s.deleters else pc.Returned? && deleters == s.deleters + {c}
    ensures Inv(Goto(s, c, pc).(flights := s.flights[c := flight], deleters := deleters))
  {
    var s' := Goto(s, c, pc).(flights := s.flights[c := flight], deleters := deleters);
    assert Slot(s, c);
    forall d | d in s'.calls ensures Follows(s', d) { assert Follows(s, d); }
    forall d | d in s'.calls && Owning(s'.calls[d].pc) ensures d in s'.flights && Slot(s', d) { assert Slot(s, d); }
    forall d | d in s'.deleters ensures d in s'.flights && s'.calls[d].pc.Returned? && Slot(s', d) {
      assert Slot(s, d);
    }
    forall key | key in s'.inflight ensures Occupant(s', key) { assert Occupant(s, key); }
  }

  lemma AdvanceKeeps(s: State, c: nat)
    requires Inv(s) && c in s.calls
    ensures Inv(Advance(s, c))
  {
    if c in s.flights {
      var f, pc := s.flights[c], s.calls[c].pc;
      assert FlightMatches(f, pc);
      match pc
      case StoringResult(got) => OwnerMoves(s, c, StoringErr(got), f.(result := got.bytes), s.deleters);
      case StoringErr(got) => OwnerMoves(s, c, Closing(got), f.(err := got.err), s.deleters);
      case Closing(got) => OwnerMoves(s, c, Spawning(got), f.(done := true), s.deleters);
      case Spawning(got) =>
        OwnerMoves(s, c, Returned(got, false, c), f, s.deleters + {c});
        assert s.flights[c := f] == s.flights;
      case _ =>
    }
  }

  lemma JoinKeeps(s: State, c: nat, f: nat)
    requires Inv(s) && At(s, c) == Some(Waiting(f))
    ensures Inv(Join(s, c, f))
  {
    assert Follows(s, c) && c !in s.flights;
    if f in s.flights && s.flights[f].done {
      CallMoves(s, c, Returned(Result(s.flights[f].result, s.flights[f].err), true, f));
    }
  }

  lemma FnReturnsKeeps(s: State, c: nat, got: Result)
    requires Inv(s)
    ensures Inv(Take(s, FnReturns(c, got)))
  {
    if At(s, c) == Some(Leading) {
      assert Slot(s, c) && FlightMatches(s.flights[c], Leading);
      OwnerMoves(s, c, StoringResult(got), s.flights[c], s.deleters);
      assert s.flights[c := s.flights[c]] == s.flights;
    } else if At(s, c) == Some(Bypassing) {
      assert c !in s.flights;
      CallMoves(s, c, Returned(got, false, c));
    }
  }

  lemma ArriveKeeps(s: State, c: nat, key: string)
    requires Inv(s) && c !in s.calls
    ensures Inv(Take(s, Arrive(c, key)))
  {
    var s' := Take(s, Arrive(c, key));
    forall d | d in s'.calls ensures Follows(s', d) { assert d in s.calls ==> Follows(s, d); }
    forall d | d in s'.calls && Owning(s'.calls[d].pc) ensures d in s'.flights && Slot(s', d) { assert Slot(s, d); }
    forall d | d in s.deleters ensures Slot(s', d) { assert Slot(s, d); }
    forall k | k in s'.inflight ensures Occupant(s', k) { assert Occupant(s, k); }
  }

  lemma DeleteKeeps(s: State, c: nat)
    requires Inv(s) && c in s.deleters
    ensures Inv(Take(s, Delete(c)))
  {
    var s' := Take(s, Delete(c));
    assert Slot(s, c);
    forall d | d in s'.calls ensures Follows(s', d) { assert Follows(s, d); }
    forall key | key in s'.inflight ensures Occupant(s', key) { assert Occupant(s, key); }
  }

  lemma TakeKeeps(s: State, step: Step)
    requires Inv(s)
    ensures Inv(Take(s, step))
  {
    match step
    case Arrive(c, key) => if c !in s.calls { ArriveKeeps(s, c, key); }
    case Check(c) =>
      if At(s, c) == Some(Started) {
        assert c !in s.flights;
        CallMoves(s, c, if s.enabled then Entering else Bypassing);
      }
    case LoadOrStore(c) => if At(s, c) == Some(Entering) { EnterKeeps(s, c); }
    case FnReturns(c, got) => FnReturnsKeeps(s, c, got);
    case Write(c) => if c in s.calls { AdvanceKeeps(s, c); }
    case Wake(c) => if c in s.calls && s.calls[c].pc.Waiting? { JoinKeeps(s, c, s.calls[c].pc.flight); }
    case Delete(c) => if c in s.deleters { DeleteKeeps(s, c); }
    case SetEnabled(on) =>
      var s' := s.(enabled := on);
      forall d | d in s'.calls ensures Follows(s', d) { assert Follows(s, d); }
      forall key | key in s'.inflight ensures Occupant(s', key) { assert Occupant(s, key); }
  }

  lemma {:induction false} RunKeeps(steps: seq<Step>)
    ensures Inv(Run(steps))
  {
    if steps == [] {
    } else {
      RunKeeps(steps[..|steps| - 1]);
      TakeKeeps(Run(steps[..|steps| - 1]), steps[|steps| - 1]);
    }
  }

  // ---- the promises ----

  /** In every schedule two callers inside fn for one key are one caller, unless one found caching disabled. */
  lemma AtMostOneFnPerKey(steps: seq<Step>, c: nat, d: nat)
    requires var s := Run(steps);
             && c in s.calls && d in s.calls && s.calls[c].key == s.calls[d].key
             && InFn(s.calls[c].pc) && InFn(s.calls[d].pc)
    ensures c == d || Run(steps).calls[c].pc.Bypassing? || Run(steps).calls[d].pc.Bypassing?
  {
    RunKeeps(steps);
  }

  ghost predicate StaysEnabled(steps: seq<Step>) { forall n :: 0 <= n < |steps| ==> steps[n] != SetEnabled(false) }

  ghost predicate NoneBypassing(s: State) {
    s.enabled && forall c :: c in s.calls ==> !s.calls[c].pc.Bypassing?
  }

  lemma TakeBypassesOnlyWhenDisabled(s: State, step: Step)
    requires NoneBypassing(s) && step != SetEnabled(false)
    ensures NoneBypassing(Take(s, step))
  {}

  /** While caching stays enabled nobody bypasses, so at most one fn runs per key. */
  lemma {:induction false} NobodyBypasses(steps: seq<Step>)
    requires StaysEnabled(steps)
    ensures NoneBypassing(Run(steps))
  {
    if steps == [] {
    } else {
      var before := steps[..|steps| - 1];
      NobodyBypasses(before);
      TakeBypassesOnlyWhenDisabled(Run(before), steps[|steps| - 1]);
    }
  }

  lemma SingleFlightWhileEnabled(steps: seq<Step>, c: nat, d: nat)
    requires StaysEnabled(steps)
    requires var s := Run(steps);
             && c in s.calls && d in s.calls && s.calls[c].key == s.calls[d].key
             && InFn(s.calls[c].pc) && InFn(s.calls[d].pc)
    ensures c == d
  {
    NobodyBypasses(steps);
    AtMostOneFnPerKey(steps, c, d);
  }

  // ---- exactly when single flight holds ----

  /** Some call is inside fn for the key. */
  ghost predicate Busy(s: State, key: string) {
    exists c :: c in s.calls && s.calls[c].key == key && InFn(s.calls[c].pc)
  }

  ghost predicate BothInside(s: State, c: nat, d: nat) {
    && c in s.calls && d in s.calls && s.calls[c].key == s.calls[d].key
    && InFn(s.calls[c].pc) && InFn(s.calls[d].pc)
  }

  /** Two calls inside fn for one key are one call. */
  ghost predicate Exclusive(s: State) { forall c: nat, d: nat :: BothInside(s, c, d) ==> c == d }

  /**
   The step takes a call into fn while another is there for its key: it finds caching off, or it finds
   caching on and no flight for the key, because the other call found caching off.
   */
  ghost predicate Joins(s: State, step: Step) {
    match step
    case Check(d) => At(s, d) == Some(Started) && !s.enabled && Busy(s, s.calls[d].key)
    case LoadOrStore(d) =>
      At(s, d) == Some(Entering) && s.calls[d].key !in s.inflight && Busy(s, s.calls[d].key)
    case _ => false
  }

  /** The call a step takes into fn, if any. */
  function Newcomer(s: State, step: Step): Option<nat> {
    match step
    case Check(d) => if At(s, d) == Some(Started) && !s.enabled then Some(d) else None
    case LoadOrStore(d) => if At(s, d) == Some(Entering) && s.calls[d].key !in s.inflight then Some(d) else None
    case _ => None
  }

  /** Nobody else gets into fn, and calls keep their keys. */
  lemma OnlyTheNewcomerGetsIn(s: State, step: Step, c: nat)
    requires c in Take(s, step).calls && InFn(Take(s, step).calls[c].pc)
    ensures Newcomer(s, step) == Some(c)
         || (c in s.calls && InFn(s.calls[c].pc) && s.calls[c].key == Take(s, step).calls[c].key)
  {}

  lemma NewcomerGetsIn(s: State, step: Step, d: nat)
    requires Newcomer(s, step) == Some(d)
    ensures d in s.calls && !InFn(s.calls[d].pc)
    ensures d in Take(s, step).calls && InFn(Take(s, step).calls[d].pc)
    ensures Take(s, step).calls[d].key == s.calls[d].key
    ensures forall c :: c in s.calls && c != d ==> c in Take(s, step).calls && Take(s, step).calls[c] == s.calls[c]
  {}

  lemma StaysExclusiveIff(s: State, step: Step)
    requires Exclusive(s)
    ensures Exclusive(Take(s, step)) <==> !Joins(s, step)
  {
    var s' := Take(s, step);
    if Joins(s, step) {
      var d := Newcomer(s, step).value;
      NewcomerGetsIn(s, step, d);
      var c :| c in s.calls && s.calls[c].key == s.calls[d].key && InFn(s.calls[c].pc);
      assert c != d && BothInside(s', c, d);
    } else {
      forall c: nat, d: nat | BothInside(s', c, d) ensures c == d {
        OnlyTheNewcomerGetsIn(s, step, c);
        OnlyTheNewcomerGetsIn(s, step, d);
        assert Newcomer(s, step) != Some(c) && Newcomer(s, step) != Some(d) ==> BothInside(s, c, d);
        if Newcomer(s, step) == Some(c) { NewcomerGetsIn(s, step, c); }
        if Newcomer(s, step) == Some(d) { NewcomerGetsIn(s, step, d); }
      }
    }
  }

  /** In every state the schedule passes through. */
  ghost predicate Throughout(steps: seq<Step>, p: State -> bool) {
    forall n :: 0 <= n <= |steps| ==> p(Run(steps[..n]))
  }

  ghost predicate NeverJoins(steps: seq<Step>) {
    forall n :: 0 <= n < |steps| ==> !Joins(Run(steps[..n]), steps[n])
  }

  lemma ThroughoutNext(steps: seq<Step>, p: State -> bool)
    requires steps != []
    ensures Throughout(steps, p) <==> Throughout(steps[..|steps| - 1], p) && p(Run(steps))
  {
    var before := steps[..|steps| - 1];
    assert steps[..|steps|] == steps;
    forall n | 0 <= n <= |before| ensures before[..n] == steps[..n] {}
    if Throughout(before, p) && p(Run(steps)) {
      forall n | 0 <= n <= |steps| ensures p(Run(steps[..n])) {
        if n < |steps| { assert p(Run(before[..n])); }
      }
    }
    if Throughout(steps, p) {
      forall n | 0 <= n <= |before| ensures p(Run(before[..n])) { assert p(Run(steps[..n])); }
    }
  }

  lemma NeverJoinsNext(steps: seq<Step>)
    requires steps != []
    ensures var before, last := steps[..|steps| - 1], |steps| - 1;
            NeverJoins(steps) <==> NeverJoins(before) && !Joins(Run(before), steps[last])
  {
    var before := steps[..|steps| - 1];
    forall n | 0 <= n < |before| ensures before[n] == steps[n] && Run(before[..n]) == Run(steps[..n]) {
      assert before[..n] == steps[..n];
    }
  }

  lemma ThroughoutNow(steps: seq<Step>, p: State -> bool)
    requires Throughout(steps, p)
    ensures p(Run(steps))
  {
    assert steps[..|steps|] == steps;
  }

  /** Single flight holds all through a schedule if and only if no step of it joins. */
  lemma {:induction false} SingleFlightIff(steps: seq<Step>)
    ensures Throughout(steps, s => Exclusive(s)) <==> NeverJoins(steps)
  {
    var p := (s: State) => Exclusive(s);
    if steps == [] {
      assert Throughout(steps, p);
    } else {
      var before, last := steps[..|steps| - 1], |steps| - 1;
      SingleFlightIff(before);
      ThroughoutNext(steps, p);
      NeverJoinsNext(steps);
      if Throughout(before, p) {
        ThroughoutNow(before, p);
        StaysExclusiveIff(Run(before), steps[last]);
      }
    }
  }

  /** A new caller's way as far as LoadOrStore. */
  function Call3(d: nat, key: string): seq<Step> { [Arrive(d, key), Check(d), LoadOrStore(d)] }

  lemma RunThree(steps: seq<Step>, a: Step, b: Step, c: Step)
    ensures Run(steps + [a, b, c]) == Take(Take(Take(Run(steps), a), b), c)
  {
    assert steps + [a, b, c] == steps + [a] + [b] + [c];
    RunSnoc(steps, a);
    RunSnoc(steps + [a], b);
    RunSnoc(steps + [a] + [b], c);
  }

  /**
   While c is inside fn, a new caller for the key gets inside too if and only if caching is off, or c
   found it off and the key has no flight.
   */
  lemma NewCallerJoinsIff(steps: seq<Step>, c: nat, d: nat)
    requires var s := Run(steps); c in s.calls && InFn(s.calls[c].pc) && d !in s.calls
    ensures var s := Run(steps);
            var key := s.calls[c].key;
            var s' := Run(steps + Call3(d, key));
            && c in s'.calls && s'.calls[c] == s.calls[c] && d in s'.calls && s'.calls[d].key == key
            && (InFn(s'.calls[d].pc) <==> !s.enabled || (s.calls[c].pc.Bypassing? && key !in s.inflight))
  {
    var s := Run(steps);
    var key := s.calls[c].key;
    RunThree(steps, Arrive(d, key), Check(d), LoadOrStore(d));
    RunKeeps(steps);
    assert s.calls[c].pc.Leading? ==> Slot(s, c);
  }

  /** One way to fail: disable the cache while any fn runs, and the next caller runs a second one. */
  lemma DisablingBreaksSingleFlight(steps: seq<Step>, c: nat, d: nat)
    requires var s := Run(steps); c in s.calls && InFn(s.calls[c].pc) && d !in s.calls
    ensures var key := Run(steps).calls[c].key;
            var s := Run(steps + [SetEnabled(false)] + Call3(d, key));
            c != d && BothInside(s, c, d)
  {
    RunSnoc(steps, SetEnabled(false));
    NewCallerJoinsIff(steps + [SetEnabled(false)], c, d);
  }

  /** The other: enable it while a call that found it off runs fn, and the next caller leads a flight beside it. */
  lemma EnablingBreaksSingleFlight(steps: seq<Step>, c: nat, d: nat)
    requires var s := Run(steps);
             c in s.calls && s.calls[c].pc.Bypassing? && s.calls[c].key !in s.inflight && d !in s.calls
    ensures var key := Run(steps).calls[c].key;
            var s := Run(steps + [SetEnabled(true)] + Call3(d, key));
            && c != d && BothInside(s, c, d) && s.calls[c].key == key && s.enabled
            && s.calls[c].pc.Bypassing? && s.calls[d].pc.Leading?
  {
    var key := Run(steps).calls[c].key;
    RunSnoc(steps, SetEnabled(true));
    NewCallerJoinsIff(steps + [SetEnabled(true)], c, d);
    RunThree(steps + [SetEnabled(true)], Arrive(d, key), Check(d), LoadOrStore(d));
  }

  /** Off, one caller, on, another caller: two calls of fn for one key with the cache on. */
  lemma SecondFnWithTheCacheOn(key: string)
    ensures var s := Run([SetEnabled(false)] + Call3(0, key) + [SetEnabled(true)] + Call3(1, key));
            && BothInside(s, 0, 1) && s.calls[0].key == key && s.enabled
            && s.calls[0].pc == Bypassing && s.calls[1].pc == Leading
  {
    var steps := [SetEnabled(false)] + Call3(0, key);
    assert [] + [SetEnabled(false)] == [SetEnabled(false)];
    RunSnoc([], SetEnabled(false));
    RunThree([SetEnabled(false)], Arrive(0, key), Check(0), LoadOrStore(0));
    EnablingBreaksSingleFlight(steps, 0, 1);
  }

  lemma RunSnoc(steps: seq<Step>, step: Step)
    ensures Run(steps + [step]) == Take(Run(steps), step)
  {
    assert (steps + [step])[..|steps|] == steps;
  }

  /** A delayed delete removes its own leader's flight and nothing else, even if later calls came and went. */
  lemma DeleteTakesItsOwnFlight(steps: seq<Step>, c: nat)
    requires c in Run(steps).deleters
    ensures var s, s' := Run(steps), Run(steps + [Delete(c)]);
            && c in s.calls && s.calls[c].key in s.inflight && s.inflight[s.calls[c].key] == c
            && s'.inflight == s.inflight - {s.calls[c].key}
            && forall key :: key in s.inflight && s.inflight[key] != c ==>
                 key in s'.inflight && s'.inflight[key] == s.inflight[key]
  {
    RunKeeps(steps);
    assert (steps + [Delete(c)])[..|steps|] == steps;
    assert Slot(Run(steps), c);
  }

  // ---- whose result a call returns ----

  /** What a caller that ran fn itself holds of it, once it is past fn. */
  function Got(pc: Pc): Option<Result> {
    match pc
    case StoringResult(got) => Some(got)
    case StoringErr(got) => Some(got)
    case Closing(got) => Some(got)
    case Spawning(got) => Some(got)
    case Returned(got, deduplicated, _) => if deduplicated then None else Some(got)
    case _ => None
  }

  ghost predicate Inside(s: State, c: nat) { c in s.calls && InFn(s.calls[c].pc) }

  /** The n-th step of the schedule is fn returning `got` to caller c, which is inside it. */
  ghost predicate FnGave(steps: seq<Step>, n: nat, c: nat, got: Result) {
    n < |steps| && steps[n] == FnReturns(c, got) && Inside(Run(steps[..n]), c)
  }

  lemma FnGaveStill(steps: seq<Step>, n: nat, c: nat, got: Result)
    requires steps != [] && FnGave(steps[..|steps| - 1], n, c, got)
    ensures FnGave(steps, n, c, got)
  {
    assert steps[..|steps| - 1][..n] == steps[..n];
  }

  /** A caller comes to hold a result only when fn returns it, and holds on to it. */
  lemma HoldsWhatFnGave(s: State, step: Step, c: nat)
    requires var s' := Take(s, step); c in s'.calls && Got(s'.calls[c].pc).Some?
    ensures var got := Got(Take(s, step).calls[c].pc);
            || (step == FnReturns(c, got.value) && Inside(s, c))
            || (c in s.calls && Got(s.calls[c].pc) == got)
  {}

  /** In every schedule a caller that is past fn holds the very bytes and error that fn returned to it. */
  lemma {:induction false} ResultComesFromFn(steps: seq<Step>, c: nat) returns (n: nat)
    requires var s := Run(steps); c in s.calls && Got(s.calls[c].pc).Some?
    ensures FnGave(steps, n, c, Got(Run(steps).calls[c].pc).value)
  {
    if steps == [] {
    } else {
      var before, last := steps[..|steps| - 1], steps[|steps| - 1];
      HoldsWhatFnGave(Run(before), last, c);
      var got := Got(Run(steps).calls[c].pc).value;
      if last == FnReturns(c, got) && Inside(Run(before), c) {
        n := |before|;
      } else {
        n := ResultComesFromFn(before, c);
        FnGaveStill(steps, n, c, got);
      }
    }
  }

  /** The places a call can be in without ever having been inside fn. */
  predicate Outside(pc: Pc) { pc.Started? || pc.Entering? || pc.Waiting? || (pc.Returned? && pc.deduplicated) }

  /** Past fn, or never to enter it. */
  predicate Done(pc: Pc) { pc.Waiting? || pc.Returned? || Got(pc).Some? }

  lemma ComesFromOutside(s: State, step: Step, c: nat)
    requires c in Take(s, step).calls ==> Outside(Take(s, step).calls[c].pc)
    ensures c in s.calls ==> Outside(s.calls[c].pc)
  {
    if c in s.calls && InFn(s.calls[c].pc) {
      assert c in Take(s, step).calls;
    }
  }

  lemma StaysDone(s: State, step: Step, c: nat)
    requires c in s.calls && Done(s.calls[c].pc)
    ensures c in Take(s, step).calls && Done(Take(s, step).calls[c].pc)
  {
    match step
    case Write(d) => if d == c { assert Take(s, step) == Advance(s, c); }
    case Wake(d) => if d == c && s.calls[c].pc.Waiting? { assert Take(s, step) == Join(s, c, s.calls[c].pc.flight); }
    case _ =>
  }

  /** A caller that was deduplicated has never been inside fn. */
  lemma {:induction false} FollowersNeverRunFn(steps: seq<Step>, c: nat, n: nat)
    requires n <= |steps| && (c in Run(steps).calls ==> Outside(Run(steps).calls[c].pc))
    ensures !Inside(Run(steps[..n]), c)
  {
    if n == |steps| {
      assert steps[..n] == steps;
    } else {
      var before := steps[..|steps| - 1];
      ComesFromOutside(Run(before), steps[|steps| - 1], c);
      FollowersNeverRunFn(before, c, n);
      assert before[..n] == steps[..n];
    }
  }

  lemma {:induction false} OnceDone(steps: seq<Step>, n: nat, c: nat)
    requires n <= |steps| && var s := Run(steps[..n]); c in s.calls && Done(s.calls[c].pc)
    ensures !Inside(Run(steps), c)
    ensures c in Run(steps).calls && Done(Run(steps).calls[c].pc)
  {
    if n == |steps| {
      assert steps[..n] == steps;
    } else {
      var before := steps[..|steps| - 1];
      assert before[..n] == steps[..n];
      OnceDone(before, n, c);
      StaysDone(Run(before), steps[|steps| - 1], c);
    }
  }

  /** fn returns to a caller once at most. */
  lemma FnReturnsOnce(steps: seq<Step>, c: nat, m: nat, n: nat, a: Result, b: Result)
    requires FnGave(steps, m, c, a) && FnGave(steps, n, c, b)
    ensures m == n && a == b
  {
    if m < n {
      NotInsideAgain(steps, c, m, n, a);
    } else if n < m {
      NotInsideAgain(steps, c, n, m, b);
    }
  }

  lemma NotInsideAgain(steps: seq<Step>, c: nat, m: nat, n: nat, got: Result)
    requires FnGave(steps, m, c, got) && m < n <= |steps|
    ensures !Inside(Run(steps[..n]), c)
  {
    assert steps[..m + 1][..m] == steps[..m] && steps[..n][..m + 1] == steps[..m + 1];
    OnceDone(steps[..n], m + 1, c);
  }

  /** Every follower returns exactly what fn returned to the leader of its key's flight. */
  lemma FollowersShareTheLeadersResult(steps: seq<Step>, c: nat) returns (n: nat)
    requires var s := Run(steps); c in s.calls && s.calls[c].pc.Returned? && s.calls[c].pc.deduplicated
    ensures var s := Run(steps);
            var f := s.calls[c].pc.flight;
            && f in s.calls && f != c && s.calls[f].key == s.calls[c].key
            && (s.calls[f].pc.Spawning? || (s.calls[f].pc.Returned? && !s.calls[f].pc.deduplicated))
            && Got(s.calls[f].pc) == Some(s.calls[c].pc.got)
            && FnGave(steps, n, f, s.calls[c].pc.got)
  {
    RunKeeps(steps);
    assert Follows(Run(steps), c);
    n := ResultComesFromFn(steps, Run(steps).calls[c].pc.flight);
  }

  /** The leader's state and flight after its next move. */
  function Moved(s: State, c: nat, pc: Pc, flight: Flight): State
    requires c in s.calls
  {
    Goto(s, c, pc).(flights := s.flights[c := flight])
  }

  lemma StoresBytes(s: State, c: nat, got: Result, f: Flight)
    requires c in s.calls
    ensures Take(Moved(s, c, StoringResult(got), f), Write(c)) == Moved(s, c, StoringErr(got), f.(result := got.bytes))
  {}

  lemma StoresErr(s: State, c: nat, got: Result, f: Flight)
    requires c in s.calls
    ensures Take(Moved(s, c, StoringErr(got), f), Write(c)) == Moved(s, c, Closing(got), f.(err := got.err))
  {}

  lemma Closes(s: State, c: nat, got: Result, f: Flight)
    requires c in s.calls
    ensures Take(Moved(s, c, Closing(got), f), Write(c)) == Moved(s, c, Spawning(got), f.(done := true))
  {}

  lemma Spawns(s: State, c: nat, got: Result, f: Flight)
    requires c in s.calls
    ensures var s' := Moved(s, c, Returned(got, false, c), f);
            Take(Moved(s, c, Spawning(got), f), Write(c)) == s'.(deleters := s.deleters + {c})
  {}

  /** fn returns to a leader, which stores the bytes, then the error, closes the flight and returns them. */
  function Finished(s: State, c: nat, got: Result): State
    requires c in s.calls
  {
    s.(calls := s.calls[c := Call(s.calls[c].key, Returned(got, false, c))],
       flights := s.flights[c := Flight(got.bytes, got.err, true)], deleters := s.deleters + {c})
  }

  function FinishingSteps(c: nat, got: Result): seq<Step> {
    [FnReturns(c, got), Write(c), Write(c)] + [Write(c), Write(c)]
  }

  lemma LeaderFinishes(steps: seq<Step>, c: nat, got: Result)
    requires At(Run(steps), c) == Some(Leading)
    ensures Run(steps + FinishingSteps(c, got)) == Finished(Run(steps), c, got)
  {
    var s := Run(steps);
    RunKeeps(steps);
    var f := s.flights[c];
    assert FlightMatches(f, Leading);
    assert Take(s, FnReturns(c, got)) == Moved(s, c, StoringResult(got), f);
    StoresBytes(s, c, got, f);
    StoresErr(s, c, got, f.(result := got.bytes));
    RunThree(steps, FnReturns(c, got), Write(c), Write(c));
    LeaderCloses(steps + [FnReturns(c, got), Write(c), Write(c)], s, c, got);
    assert steps + FinishingSteps(c, got) == steps + [FnReturns(c, got), Write(c), Write(c)] + [Write(c), Write(c)];
  }

  lemma LeaderCloses(steps: seq<Step>, s: State, c: nat, got: Result)
    requires c in s.calls && Run(steps) == Moved(s, c, Closing(got), Flight(got.bytes, got.err, false))
    ensures Run(steps + [Write(c), Write(c)]) == Finished(s, c, got)
  {
    Closes(s, c, got, Flight(got.bytes, got.err, false));
    Spawns(s, c, got, Flight(got.bytes, got.err, true));
    RunSnoc(steps, Write(c));
    RunSnoc(steps + [Write(c)], Write(c));
    assert steps + [Write(c), Write(c)] == steps + [Write(c)] + [Write(c)];
  }

  /** Once the delayed delete has run, the next caller of the key runs fn again. */
  lemma DeleteLetsTheNextCallerLead(steps: seq<Step>, c: nat, d: nat)
    requires c in Run(steps).deleters && d !in Run(steps).calls && Run(steps).enabled
    ensures var s := Run(steps);
            && c in s.calls
            && At(Run(steps + [Delete(c)] + Call3(d, s.calls[c].key)), d) == Some(Leading)
  {
    RunKeeps(steps);
    var key := Run(steps).calls[c].key;
    DeleteTakesItsOwnFlight(steps, c);
    RunThree(steps + [Delete(c)], Arrive(d, key), Check(d), LoadOrStore(d));
    RunSnoc(steps, Delete(c));
  }

  /** No waiter is ever stranded: its leader is still on the way to close(done), or done is closed. */
  lemma WaitersAreNeverStranded(steps: seq<Step>, c: nat)
    requires var s := Run(steps); c in s.calls && s.calls[c].pc.Waiting?
    ensures var s := Run(steps);
            var f := s.calls[c].pc.flight;
            && f in s.flights && f in s.calls && f != c
            && (s.flights[f].done <==> Run(steps + [Wake(c)]).calls[c].pc.Returned?)
            && (!s.flights[f].done ==> s.calls[f].pc.Leading? || Advance(s, f) != s)
  {
    RunKeeps(steps);
    var s := Run(steps);
    assert Follows(s, c);
    assert (steps + [Wake(c)])[..|steps|] == steps;
    var f := s.calls[c].pc.flight;
    assert FlightMatches(s.flights[f], s.calls[f].pc);
    assert !s.flights[f].done && !s.calls[f].pc.Leading? ==> Advance(s, f).calls[f].pc != s.calls[f].pc;
  }
}
