/**
 Server selection and release as internal/balancer/balancer.go writes them: counters on server
 objects, breakers consulted while filtering, a counter per hostgroup. Each method runs as one
 atomic step; the interleaving of the individual counter operations is the subject of Conservation.
 */
module Balancer {
  import opened Common
  import Circuit
  import Fairness

  datatype Status = Online | Offline | Shunned

  datatype Server = Server(name: string, hostgroup: int, weight: nat, status: Status)

  datatype Algorithm = WeightedRoundRobin | LeastConnections | Random | LatencyBased | Unknown

  const MAX_INT64 := 0x7fff_ffff_ffff_ffff

  /** 100 ms, the latency assumed of a server that has none yet. */
  const UNKNOWN_LATENCY := 100_000_000

  class ServerState {
    const server: Server
    var connections: int
    var totalReqs: int
    var errors: int
    var avgLatency: int

    ghost predicate Untouched()
      reads this
    {
      connections == totalReqs == errors == avgLatency == 0
    }

    // ReleaseServer's atomic updates of one server.
    method Settle(success: bool)
      modifies this`connections, this`errors
      ensures connections == old(connections) - 1 && errors == old(errors) + if success then 0 else 1
    {
      connections := connections - 1;
      if !success { errors := errors + 1; }
    }

    // The exponential moving average with alpha 0.3, over the rationals.
    method Smooth(latency: int)
      modifies this`avgLatency
      ensures avgLatency == Smoothed(old(avgLatency), latency)
    {
      avgLatency := if avgLatency == 0 then latency else TruncDiv(avgLatency * 7 + latency * 3, 10);
    }

    constructor (server: Server)
      ensures this.server == server && Untouched()
      ensures connections == 0 && totalReqs == 0 && errors == 0 && avgLatency == 0
    {
      this.server := server;
      connections, totalReqs, errors, avgLatency := 0, 0, 0, 0;
    }
  }

  /** NilCounter: the nil counter of a hostgroup that never had a server is dereferenced. */
  datatype Outcome = Selected(state: ServerState) | NoServers | NilCounter

  // ---- the moving average of latencies ----

  function Smoothed(avg: int, latency: int): int {
    if avg == 0 then latency else TruncDiv(avg * 7 + latency * 3, 10)
  }

  /** The average after these latencies were released in turn. */
  function Average(latencies: seq<nat>): int {
    if latencies == [] then 0 else Smoothed(Average(latencies[..|latencies| - 1]), latencies[|latencies| - 1])
  }

  /** One more latency leaves seven tenths of the distance between the average and it, rounded down. */
  lemma DistanceShrinks(avg: nat, latency: nat)
    requires avg > 0
    ensures var before, after := avg - latency, Smoothed(avg, latency) - latency;
            7 * before - 10 < 10 * after <= 7 * before
  {}

  /** The average never leaves the range of the latencies behind it. */
  lemma {:induction false} AverageIsWithin(latencies: seq<nat>, lo: nat, hi: nat)
    requires latencies != [] && forall i :: 0 <= i < |latencies| ==> lo <= latencies[i] <= hi
    ensures lo <= Average(latencies) <= hi
  {
    var before := latencies[..|latencies| - 1];
    if before != [] { AverageIsWithin(before, lo, hi); }
  }

  // ---- what a candidate list yields ----

  function Weights(servers: seq<ServerState>): (w: seq<nat>)
    ensures |w| == |servers| && forall i :: 0 <= i < |w| ==> w[i] == servers[i].server.weight
  {
    seq(|servers|, i requires 0 <= i < |servers| => servers[i].server.weight)
  }

  function Adjusted(value: int, weight: nat): int { if weight > 0 then TruncDiv(value, weight) else value }

  function Latency(avg: int): int { if avg == 0 then UNKNOWN_LATENCY else avg }

  /** Index i holds the first of the smallest costs, and that cost is below the starting minimum. */
  ghost predicate FirstMinimum(costs: seq<int>, i: nat) {
    && i < |costs| && costs[i] < MAX_INT64
    && (forall j :: 0 <= j < |costs| ==> costs[i] <= costs[j])
    && (forall j :: 0 <= j < i ==> costs[i] < costs[j])
  }

  /** What a weight divides by: a server of weight zero is taken at its plain value. */
  function Divisor(weight: nat): (d: nat)
    ensures d > 0
  {
    if weight > 0 then weight else 1
  }

  /** Fewer than q for each unit of weight, said by multiplication; and -q or less for each unit. */
  predicate Under(value: int, weight: nat, q: nat) { value < q * Divisor(weight) }

  predicate Below(value: int, weight: nat, q: nat) { value + q * Divisor(weight) <= 0 }

  /**
   The i-th value is least for its weight, in whole units: it is under every bound per unit of weight
   that any other is under, and each earlier one misses a bound that it meets.
   */
  ghost predicate LeastPerWeight(values: seq<int>, w: seq<nat>, i: nat) {
    && i < |values| == |w|
    && (forall j, q: nat :: 0 <= j < |w| && q >= 1 && Under(values[j], w[j], q) ==> Under(values[i], w[i], q))
    && (forall j, q: nat :: 0 <= j < |w| && q >= 1 && Below(values[j], w[j], q) ==> Below(values[i], w[i], q))
    && (values[i] >= 0 ==> forall j :: 0 <= j < i ==> Beaten(values, w, i, j))
  }

  ghost predicate Beaten(values: seq<int>, w: seq<nat>, i: nat, j: nat)
    requires i < |values| == |w| && j < |w|
  {
    exists q: nat :: Under(values[i], w[i], q) && !Under(values[j], w[j], q)
  }

  lemma AdjustedUnder(value: int, weight: nat, q: nat)
    requires q >= 1
    ensures Adjusted(value, weight) < q <==> Under(value, weight, q)
    ensures Adjusted(value, weight) + q <= 0 <==> Below(value, weight, q)
  {
    var x: nat, d := if value >= 0 then value else -value, Divisor(weight);
    QuotientBelow(x, d, q);
    var bound, quotient := q * d, x / d;
    assert Adjusted(value, weight) == if value >= 0 then quotient else -quotient;
    assert bound > 0 && quotient >= 0;
  }

  lemma QuotientBelow(x: nat, d: nat, q: nat)
    requires d > 0 && q > 0
    ensures x / d < q <==> x < q * d
    ensures q * d > 0 && x / d >= 0
  {
    Product(q, d);
    var k, r := x / d, x % d;
    assert x == k * d + r;
    if k < q { Scaled(k, q - 1, d); } else { Scaled(q, k, d); }
  }

  lemma Product(q: nat, d: nat)
    requires d > 0 && q > 0
    ensures q * d > 0 && q * d == (q - 1) * d + d
  {}

  lemma Scaled(a: nat, b: nat, d: nat)
    requires a <= b
    ensures a * d <= b * d
  {}

  lemma FirstMinimumIsLeastPerWeight(values: seq<int>, w: seq<nat>, costs: seq<int>, i: nat)
    requires |values| == |w| == |costs| && forall j :: 0 <= j < |w| ==> costs[j] == Adjusted(values[j], w[j])
    requires FirstMinimum(costs, i)
    ensures LeastPerWeight(values, w, i)
  {
    forall j, q: nat | 0 <= j < |w| && q >= 1
      ensures Under(values[j], w[j], q) ==> Under(values[i], w[i], q)
      ensures Below(values[j], w[j], q) ==> Below(values[i], w[i], q)
    {
      AdjustedUnder(values[j], w[j], q);
      AdjustedUnder(values[i], w[i], q);
    }
    if values[i] >= 0 {
      NotNegative(values[i], w[i]);
      forall j | 0 <= j < i ensures Beaten(values, w, i, j) {
        AdjustedUnder(values[i], w[i], costs[i] + 1);
        AdjustedUnder(values[j], w[j], costs[i] + 1);
      }
    }
  }

  lemma NotNegative(value: int, weight: nat)
    requires value >= 0
    ensures Adjusted(value, weight) >= 0
  {}

  ghost function Connections(servers: seq<ServerState>): (c: seq<int>)
    reads servers
    ensures |c| == |servers| && forall i :: 0 <= i < |c| ==> c[i] == servers[i].connections
  {
    seq(|servers|, i requires 0 <= i < |servers| reads servers => servers[i].connections)
  }

  /** The latencies compared: 100 ms for a server that has none yet. */
  ghost function Latencies(servers: seq<ServerState>): (c: seq<int>)
    reads servers
    ensures |c| == |servers|
    ensures forall i :: 0 <= i < |c| ==>
              c[i] == if servers[i].avgLatency == 0 then 100_000_000 else servers[i].avgLatency
  {
    seq(|servers|, i requires 0 <= i < |servers| reads servers => Latency(servers[i].avgLatency))
  }

  ghost function ConnectionCosts(servers: seq<ServerState>): (c: seq<int>)
    reads servers
    ensures |c| == |servers|
    ensures forall i :: 0 <= i < |c| ==> c[i] == Adjusted(servers[i].connections, servers[i].server.weight)
  {
    seq(|servers|, i requires 0 <= i < |servers| reads servers =>
      Adjusted(servers[i].connections, servers[i].server.weight))
  }

  ghost function LatencyCosts(servers: seq<ServerState>): (c: seq<int>)
    reads servers
    ensures |c| == |servers|
    ensures forall i :: 0 <= i < |c| ==> c[i] == Adjusted(Latency(servers[i].avgLatency), servers[i].server.weight)
  {
    seq(|servers|, i requires 0 <= i < |servers| reads servers =>
      Adjusted(Latency(servers[i].avgLatency), servers[i].server.weight))
  }

  method SelectLeastConnections(servers: seq<ServerState>) returns (selected: ServerState?, ghost at: nat)
    ensures selected != null ==> FirstMinimum(ConnectionCosts(servers), at) && selected == servers[at]
    ensures selected == null <==> forall i :: 0 <= i < |servers| ==> ConnectionCosts(servers)[i] >= MAX_INT64
    ensures selected != null ==> LeastPerWeight(Connections(servers), Weights(servers), at)
  {
    ghost var costs := ConnectionCosts(servers);
    selected, at := null, 0;
    var minConns := MAX_INT64;
    for i := 0 to |servers|
      invariant selected == null ==> minConns == MAX_INT64
      invariant selected == null <==> forall j :: 0 <= j < i ==> costs[j] >= MAX_INT64
      invariant selected != null ==>
                  at < i && selected == servers[at] && minConns == costs[at] < MAX_INT64
      invariant forall j :: 0 <= j < i ==> minConns <= costs[j]
      invariant selected != null ==> forall j :: 0 <= j < at ==> minConns < costs[j]
    {
      var s := servers[i];
      var adjusted := s.connections;
      if s.server.weight > 0 { adjusted := TruncDiv(s.connections, s.server.weight); }
      if adjusted < minConns { minConns, selected, at := adjusted, s, i; }
    }
    if selected != null {
      FirstMinimumIsLeastPerWeight(Connections(servers), Weights(servers), costs, at);
    }
  }

  method SelectLatencyBased(servers: seq<ServerState>) returns (selected: ServerState?, ghost at: nat)
    ensures selected != null ==> FirstMinimum(LatencyCosts(servers), at) && selected == servers[at]
    ensures selected == null <==> forall i :: 0 <= i < |servers| ==> LatencyCosts(servers)[i] >= MAX_INT64
    ensures selected != null ==> LeastPerWeight(Latencies(servers), Weights(servers), at)
  {
    ghost var costs := LatencyCosts(servers);
    selected, at := null, 0;
    var minLatency := MAX_INT64;
    for i := 0 to |servers|
      invariant selected == null ==> minLatency == MAX_INT64
      invariant selected == null <==> forall j :: 0 <= j < i ==> costs[j] >= MAX_INT64
      invariant selected != null ==>
                  at < i && selected == servers[at] && minLatency == costs[at] < MAX_INT64
      invariant forall j :: 0 <= j < i ==> minLatency <= costs[j]
      invariant selected != null ==> forall j :: 0 <= j < at ==> minLatency < costs[j]
    {
      var s := servers[i];
      var latency := s.avgLatency;
      if latency == 0 { latency := UNKNOWN_LATENCY; }
      if s.server.weight > 0 { latency := TruncDiv(latency, s.server.weight); }
      if latency < minLatency { minLatency, selected, at := latency, s, i; }
    }
    if selected != null {
      FirstMinimumIsLeastPerWeight(Latencies(servers), Weights(servers), costs, at);
    }
  }

  /** The two loops shared by weighted round robin and weighted random. */
  method TotalWeight(servers: seq<ServerState>) returns (total: nat)
    ensures total == Fairness.Total(Weights(servers))
  {
    total := 0;
    for i := 0 to |servers|
      invariant total == Fairness.Total(Weights(servers)[..i])
    {
      Fairness.TotalSnoc(Weights(servers), i);
      total := total + servers[i].server.weight;
    }
    assert Weights(servers)[..|servers|] == Weights(servers);
  }

  method AtPosition(servers: seq<ServerState>, pos: nat) returns (s: ServerState)
    requires pos < Fairness.Total(Weights(servers))
    ensures s == servers[Fairness.Slot(Weights(servers), pos)]
  {
    s := servers[0];
    var cumulative := 0;
    for i := 0 to |servers|
      invariant cumulative == Fairness.Total(Weights(servers)[..i]) <= pos
    {
      Fairness.TotalSnoc(Weights(servers), i);
      Fairness.SlotIsStretch(Weights(servers), pos, i);
      cumulative := cumulative + servers[i].server.weight;
      if pos < cumulative { return servers[i]; }
    }
    // With weights that are not negative the loop always returns.
    Fairness.WholePrefix(Weights(servers));
    assert false;
  }

  // ---- what LoadServers builds ----

  /** The names of a list that are not offline. */
  function Names(list: seq<Server>): set<string> {
    if list == [] then {}
    else
      var last := list[|list| - 1];
      Names(list[..|list| - 1]) + if last.status != Offline then {last.name} else {}
  }

  lemma {:induction false} NamesAreListed(list: seq<Server>, name: string)
    ensures name in Names(list) <==> exists i :: 0 <= i < |list| && list[i].name == name && list[i].status != Offline
  {
    if list == [] {
    } else {
      var init := list[..|list| - 1];
      NamesAreListed(init, name);
      if name in Names(init) {
        var i :| 0 <= i < |init| && init[i].name == name && init[i].status != Offline;
        assert list[i] == init[i];
      }
    }
  }

  /** The servers of one group of a loaded list, in order. */
  function InGroup(list: seq<Server>, g: int): seq<Server> {
    if list == [] then []
    else
      var last := list[|list| - 1];
      InGroup(list[..|list| - 1], g) + if last.status != Offline && last.hostgroup == g then [last] else []
  }

  type Index = map<string, ServerState>
  type Groups = map<int, seq<ServerState>>

  ghost predicate NamesDiffer(group: seq<ServerState>) {
    forall i, j :: 0 <= i < j < |group| ==> group[i].server.name != group[j].server.name
  }

  ghost predicate Filed(servers: Index, g: int, s: ServerState) {
    s.server.name in servers && servers[s.server.name] == s && s.server.hostgroup == g
  }

  /** Every state is filed once, under its own name and its own hostgroup. */
  ghost predicate Indexed(servers: Index, groups: Groups) {
    && (forall n :: n in servers ==> servers[n].server.name == n)
    && (forall g, i :: g in groups && 0 <= i < |groups[g]| ==> Filed(servers, g, groups[g][i]))
    && (forall g :: g in groups ==> NamesDiffer(groups[g]))
  }

  function GroupOf(groups: Groups, g: int): seq<ServerState> { if g in groups then groups[g] else [] }

  function Records(group: seq<ServerState>): (r: seq<Server>)
    ensures |r| == |group| && forall i :: 0 <= i < |r| ==> r[i] == group[i].server
  {
    seq(|group|, i requires 0 <= i < |group| => group[i].server)
  }

  /** The indexes hold exactly the servers of a list that are not offline: by name, and by group in list order. */
  ghost predicate Loaded(list: seq<Server>, servers: Index, groups: Groups) {
    && servers.Keys == Names(list)
    && (forall g :: InGroup(list, g) == Records(GroupOf(groups, g)))
    && (forall g :: g in groups ==> groups[g] != [])
  }

  /** Every group has a counter; old counters are kept, new ones start at 0. */
  ghost predicate Counted(before: map<int, nat>, groups: Groups, counters: map<int, nat>) {
    && groups.Keys <= counters.Keys == before.Keys + groups.Keys
    && (forall g :: g in counters ==> counters[g] == if g in before then before[g] else 0)
  }

  /** The list has a server for the hostgroup that is not offline. */
  ghost predicate Listed(list: seq<Server>, g: int) {
    exists i :: 0 <= i < |list| && list[i].hostgroup == g && list[i].status != Offline
  }

  lemma {:induction false} InGroupMembers(list: seq<Server>, g: int, srv: Server)
    ensures srv in InGroup(list, g) <==> srv in list && srv.status != Offline && srv.hostgroup == g
  {
    if list == [] {
    } else {
      var init, last := list[..|list| - 1], list[|list| - 1];
      assert list == init + [last];
      InGroupMembers(init, g, srv);
    }
  }

  /** A hostgroup has a counter exactly when it had one before or the list has a server for it that is not offline. */
  lemma {:induction false} CounterWhenListed(list: seq<Server>, servers: Index, groups: Groups,
                                             before: map<int, nat>, counters: map<int, nat>, g: int)
    requires Loaded(list, servers, groups) && Counted(before, groups, counters)
    ensures g in counters <==>
            g in before || Listed(list, g)
  {
    InGroupListed(list, g);
    assert InGroup(list, g) == Records(GroupOf(groups, g));
    assert g in groups <==> InGroup(list, g) != [];
  }

  lemma {:induction false} InGroupListed(list: seq<Server>, g: int)
    ensures InGroup(list, g) != [] <==> Listed(list, g)
  {
    if list == [] {
    } else {
      var init := list[..|list| - 1];
      InGroupListed(init, g);
      if InGroup(init, g) != [] {
        var i :| 0 <= i < |init| && init[i].hostgroup == g && init[i].status != Offline;
        assert list[i] == init[i];
      }
    }
  }

  function Appended(groups: Groups, s: ServerState): Groups {
    groups[s.server.hostgroup := GroupOf(groups, s.server.hostgroup) + [s]]
  }

  lemma AppendedIndexed(servers: Index, groups: Groups, s: ServerState)
    requires Indexed(servers, groups) && s.server.name !in servers
    ensures Indexed(servers[s.server.name := s], Appended(groups, s))
  {
    var servers', groups' := servers[s.server.name := s], Appended(groups, s);
    forall g, i | g in groups && 0 <= i < |groups[g]|
      ensures Filed(servers', g, groups[g][i]) && groups[g][i].server.name != s.server.name
    {
      assert Filed(servers, g, groups[g][i]);
    }
    forall g, i | g in groups' && 0 <= i < |groups'[g]| ensures Filed(servers', g, groups'[g][i]) {
      if i < |GroupOf(groups, g)| { assert groups'[g][i] == groups[g][i]; }
    }
  }

  lemma AppendedLoaded(list: seq<Server>, servers: Index, groups: Groups, s: ServerState)
    requires Loaded(list, servers, groups) && s.server.status != Offline
    ensures Loaded(list + [s.server], servers[s.server.name := s], Appended(groups, s))
  {
    assert (list + [s.server])[..|list|] == list;
    forall g ensures InGroup(list + [s.server], g) == Records(GroupOf(Appended(groups, s), g)) {
      assert Records(GroupOf(groups, g) + [s]) == Records(GroupOf(groups, g)) + [s.server];
    }
  }

  // ---- breakers, as values ----

  /** What the breakers hold, by name; cfg is None when the balancer has no breakers. */
  type Board = map<string, Circuit.State>

  function StateOn(board: Board, n: string): Circuit.State { if n in board then board[n] else Circuit.FRESH }

  /** One breaker takes one step; the flag is what Allow returns, true when there are no breakers. */
  function StepOn(cfg: Option<Circuit.Config>, board: Board, n: string, ev: Circuit.Event): (Board, bool) {
    if cfg.None? then (board, true)
    else
      var r := Circuit.Step(cfg.value, StateOn(board, n), ev);
      (board[n := r.0], r.1)
  }

  predicate Admits(cfg: Option<Circuit.Config>, board: Board, n: string, now: int) {
    StepOn(cfg, board, n, Circuit.Event(now, Circuit.Allow)).1
  }

  /** The filter as it runs: one server after the other, asking the breaker of each healthy one. */
  ghost function Screened(cfg: Option<Circuit.Config>, board: Board, group: seq<ServerState>,
                          healthy: string -> bool, now: int)
    : (seq<ServerState>, Board)
  {
    if group == [] then ([], board)
    else
      var (passed, before) := Screened(cfg, board, group[..|group| - 1], healthy, now);
      var s := group[|group| - 1].server;
      if !healthy(s.name) then (passed, before)
      else
        var (after, ok) := StepOn(cfg, before, s.name, Circuit.Event(now, Circuit.Allow));
        (if ok && s.status == Online then passed + [group[|group| - 1]] else passed, after)
  }

  /** The breaker of this name is asked: it belongs to a healthy server of the group. */
  ghost predicate Asked(group: seq<ServerState>, healthy: string -> bool, n: string) {
    healthy(n) && exists i :: 0 <= i < |group| && group[i].server.name == n
  }

  ghost predicate Eligible(s: ServerState, cfg: Option<Circuit.Config>, board: Board,
                           healthy: string -> bool, now: int)
  {
    healthy(s.server.name) && s.server.status == Online && Admits(cfg, board, s.server.name, now)
  }

  /**
   Sound and complete: exactly the eligible members of the group pass, judged by the breakers as they
   stood before the call, although every breaker asked has moved by the time the list is complete.
   */
  lemma {:induction false} ScreenedAreTheEligible(cfg: Option<Circuit.Config>, board: Board, group: seq<ServerState>,
                                                  healthy: string -> bool, now: int)
    requires NamesDiffer(group)
    ensures forall s :: s in Screened(cfg, board, group, healthy, now).0
                   <==> s in group && Eligible(s, cfg, board, healthy, now)
  {
    if group == [] {
    } else {
      var init, last := group[..|group| - 1], group[|group| - 1];
      assert group == init + [last];
      ScreenedAreTheEligible(cfg, board, init, healthy, now);
      BreakersMoveByTheirOwnAllow(cfg, board, init, healthy, now);
      assert !Asked(init, healthy, last.server.name);
    }
  }

  /** Breakers move only by their own Allow step, and only those of the names asked. */
  lemma {:induction false} BreakersMoveByTheirOwnAllow(
      cfg: Option<Circuit.Config>, board: Board, group: seq<ServerState>, healthy: string -> bool, now: int)
    requires NamesDiffer(group)
    ensures forall n :: StateOn(Screened(cfg, board, group, healthy, now).1, n)
                     == if Asked(group, healthy, n)
                        then StateOn(StepOn(cfg, board, n, Circuit.Event(now, Circuit.Allow)).0, n)
                        else StateOn(board, n)
  {
    if group == [] {
    } else {
      var init, last := group[..|group| - 1], group[|group| - 1];
      BreakersMoveByTheirOwnAllow(cfg, board, init, healthy, now);
      forall n ensures Asked(group, healthy, n)
                  <==> Asked(init, healthy, n) || (n == last.server.name && healthy(n)) {
        AskedSnoc(group, healthy, n);
      }
      assert !Asked(init, healthy, last.server.name);
    }
  }

  lemma AskedSnoc(group: seq<ServerState>, healthy: string -> bool, n: string)
    requires group != []
    ensures Asked(group, healthy, n)
       <==> Asked(group[..|group| - 1], healthy, n) || (n == group[|group| - 1].server.name && healthy(n))
  {
    var init := group[..|group| - 1];
    assert forall j :: 0 <= j < |init| ==> init[j] == group[j];
    if Asked(group, healthy, n) && n != group[|group| - 1].server.name {
      var j :| 0 <= j < |group| && group[j].server.name == n;
      assert init[j].server.name == n;
    }
  }

  /** The caller's view of a server that passed: its breaker is not open once the filter has run. */
  lemma {:induction false} ScreenedAreUsable(cfg: Option<Circuit.Config>, board: Board, group: seq<ServerState>,
                          healthy: string -> bool, now: int, s: ServerState)
    requires NamesDiffer(group) && cfg.Some? && s in Screened(cfg, board, group, healthy, now).0
    ensures s in group && healthy(s.server.name) && s.server.status == Online
    ensures StateOn(Screened(cfg, board, group, healthy, now).1, s.server.name).status != Circuit.Open
  {
    ScreenedAreTheEligible(cfg, board, group, healthy, now);
    BreakersMoveByTheirOwnAllow(cfg, board, group, healthy, now);
    var i :| 0 <= i < |group| && group[i] == s;
    assert group[i].server.name == s.server.name;
  }

  class Balancer {
    var algorithm: Algorithm
    var servers: map<string, ServerState>
    var hostgroups: map<int, seq<ServerState>>
    var rrCounters: map<int, nat>
    const circuits: Circuit.Manager?

    /** The two indexes agree: every state is filed once, under its own name and its own hostgroup. */
    ghost predicate Valid()
      reads this, circuits, Breakers()
    {
      && (circuits != null ==> circuits.Valid())
      && Indexed(servers, hostgroups)
    }

    /** The requested hostgroup, or hostgroup 0 when that one is empty. */
    function Group(hostgroup: int): seq<ServerState>
      reads this
    {
      var own := GroupOf(hostgroups, hostgroup);
      if own == [] then GroupOf(hostgroups, 0) else own
    }

    /** The breaker objects in use. */
    ghost function Breakers(): set<Circuit.Breaker>
      reads circuits
    {
      if circuits == null then {} else circuits.Repr
    }

    /** A breaker in use was in use before or is new. */
    twostate predicate OnlyNewBreakers()
      reads circuits
    {
      circuits != null ==> forall o :: o in circuits.Repr ==> o in old(circuits.Repr) || fresh(o)
    }

    ghost function BreakerConfig(): Option<Circuit.Config> {
      if circuits == null then None else Some(circuits.cfg)
    }

    ghost function BoardNow(): Board
      reads circuits
    {
      if circuits == null then map[] else circuits.States
    }

    // One call on the breaker of a name, if the balancer has breakers at all.
    method StepBreaker(name: string, ev: Circuit.Event) returns (ok: bool)
      requires circuits != null ==> circuits.Valid()
      modifies circuits, Breakers()
      ensures circuits != null ==> circuits.Valid()
      ensures OnlyNewBreakers()
      ensures (BoardNow(), ok) == StepOn(BreakerConfig(), old(BoardNow()), name, ev)
    {
      ok := true;
      if circuits != null { ok := circuits.Apply(name, ev); }
    }

    method Filter(group: seq<ServerState>, healthy: string -> bool, now: int) returns (available: seq<ServerState>)
      requires circuits != null ==> circuits.Valid()
      modifies circuits, Breakers()
      ensures circuits != null ==> circuits.Valid()
      ensures OnlyNewBreakers()
      ensures (available, BoardNow()) == Screened(BreakerConfig(), old(BoardNow()), group, healthy, now)
    {
      available := [];
      for i := 0 to |group|
        invariant circuits != null ==> circuits.Valid()
        invariant OnlyNewBreakers()
        invariant (available, BoardNow()) == Screened(BreakerConfig(), old(BoardNow()), group[..i], healthy, now)
      {
        var s := group[i];
        assert group[..i + 1][..i] == group[..i];
        if healthy(s.server.name) {
          var ok := StepBreaker(s.server.name, Circuit.Event(now, Circuit.Allow));
          if ok && s.server.status == Online { available := available + [s]; }
        }
      }
      assert group[..|group|] == group;
    }

    constructor (circuits: Circuit.Manager?)
      requires circuits != null ==> circuits.Valid()
      ensures Valid() && this.circuits == circuits && servers == map[] && hostgroups == map[] && rrCounters == map[]
      ensures algorithm == WeightedRoundRobin
    {
      this.circuits := circuits;
      algorithm, servers, hostgroups, rrCounters := WeightedRoundRobin, map[], map[], map[];
    }

    method SelectWeightedRoundRobin(available: seq<ServerState>, hostgroup: int) returns (selected: ServerState)
      requires available != [] && hostgroup in rrCounters
      modifies this`rrCounters
      ensures rrCounters == old(rrCounters)[hostgroup := Fairness.Counter(old(rrCounters)[hostgroup], 1)]
      ensures selected == available[Fairness.RoundRobin(Weights(available), rrCounters[hostgroup])]
    {
      var totalWeight := TotalWeight(available);
      rrCounters := rrCounters[hostgroup := (rrCounters[hostgroup] + 1) % Fairness.TWO_TO_THE_64];
      if totalWeight == 0 {
        selected := available[rrCounters[hostgroup] % |available|];
      } else {
        selected := AtPosition(available, rrCounters[hostgroup] % totalWeight);
      }
    }

    /** n selections in a row from one list, and how many of them picked the server at index i. */
    method Tally(available: seq<ServerState>, hostgroup: int, i: nat, n: nat) returns (tally: nat)
      requires i < |available| && hostgroup in rrCounters
      requires forall j :: 0 <= j < |available| && available[j] == available[i] ==> j == i
      modifies this`rrCounters
      ensures tally == Fairness.Picks(Weights(available), old(rrCounters[hostgroup]), n, i)
      ensures var w, c := Weights(available), old(rrCounters[hostgroup]);
              n == Fairness.Total(w) > 0 && c + n < Fairness.TWO_TO_THE_64 ==> tally == available[i].server.weight
    {
      ghost var w, c := Weights(available), rrCounters[hostgroup];
      tally := 0;
      for k := 0 to n
        invariant hostgroup in rrCounters && rrCounters[hostgroup] == if k == 0 then c else Fairness.Counter(c, k)
        invariant tally == Fairness.Picks(w, c, k, i)
      {
        Fairness.CounterNext(c, k);
        var selected := SelectWeightedRoundRobin(available, hostgroup);
        assert rrCounters[hostgroup] == Fairness.Counter(c, k + 1);
        if selected == available[i] { tally := tally + 1; }
      }
      if n == Fairness.Total(w) > 0 && c + n < Fairness.TWO_TO_THE_64 { Fairness.FairOverAWindow(w, c, i); }
    }

    /** `draw(n)` is what rand.Intn(n) returns. */
    method SelectRandom(available: seq<ServerState>, draw: nat -> nat) returns (selected: ServerState)
      requires available != [] && forall n :: n > 0 ==> draw(n) < n
      ensures selected == available[Drawn(Weights(available), draw)]
    {
      var totalWeight := TotalWeight(available);
      if totalWeight == 0 {
        selected := available[draw(|available|)];
      } else {
        selected := AtPosition(available, draw(totalWeight));
      }
    }

    static function Drawn(w: seq<nat>, draw: nat -> nat): (i: nat)
      requires w != [] && forall n :: n > 0 ==> draw(n) < n
      ensures i < |w|
    {
      if Fairness.Total(w) == 0 then draw(|w|) else Fairness.Slot(w, draw(Fairness.Total(w)))
    }

    /** The index each algorithm owes the caller, given the costs and the counter it saw. */
    static ghost predicate Owed(algorithm: Algorithm, w: seq<nat>, connections: seq<int>, latencies: seq<int>,
                                counter: nat, draw: nat -> nat, i: nat)
      requires w != [] && forall n :: n > 0 ==> draw(n) < n
    {
      match algorithm
      case LeastConnections => FirstMinimum(connections, i)
      case LatencyBased => FirstMinimum(latencies, i)
      case Random => i == Drawn(w, draw)
      case _ => i == Fairness.RoundRobin(w, counter)
    }

    /** The counter this request draws on, after it has drawn. */
    ghost function Drew(hostgroup: int): nat
      reads this
    {
      if hostgroup in rrCounters then rrCounters[hostgroup] else 0
    }

    predicate UsesCounter()
      reads this
    {
      algorithm == WeightedRoundRobin || algorithm == Unknown
    }

    /** No candidate costs less than the largest int64, which is where both minimum searches start. */
    static ghost predicate TooDear(algorithm: Algorithm, connections: seq<int>, latencies: seq<int>) {
      || (algorithm == LeastConnections && forall i :: 0 <= i < |connections| ==> connections[i] >= MAX_INT64)
      || (algorithm == LatencyBased && forall i :: 0 <= i < |latencies| ==> latencies[i] >= MAX_INT64)
    }

    method Pick(available: seq<ServerState>, hostgroup: int, draw: nat -> nat)
      returns (selected: ServerState?, ghost i: nat)
      requires available != [] && forall n :: n > 0 ==> draw(n) < n
      requires UsesCounter() ==> hostgroup in rrCounters
      modifies this`rrCounters
      ensures selected == null <==> TooDear(algorithm, ConnectionCosts(available), LatencyCosts(available))
      ensures selected != null ==>
                && i < |available| && selected == available[i]
                && Owed(algorithm, Weights(available), ConnectionCosts(available), LatencyCosts(available),
                        Drew(hostgroup), draw, i)
      ensures rrCounters == if UsesCounter()
                            then old(rrCounters)[hostgroup := Fairness.Counter(old(rrCounters)[hostgroup], 1)]
                            else old(rrCounters)
    {
      match algorithm
      case LeastConnections => selected, i := SelectLeastConnections(available);
      case LatencyBased => selected, i := SelectLatencyBased(available);
      case Random =>
        selected := SelectRandom(available, draw);
        i := Drawn(Weights(available), draw);
      case _ =>
        selected := SelectWeightedRoundRobin(available, hostgroup);
        i := Fairness.RoundRobin(Weights(available), rrCounters[hostgroup]);
    }

    /** Only the chosen server's Connections and TotalReqs change, each by one. */
    twostate predicate OnlyCounts(group: seq<ServerState>, new chosen: ServerState?)
      reads group
    {
      forall s :: s in group ==>
        && s.connections == old(s.connections) + (if s == chosen then 1 else 0)
        && s.totalReqs == old(s.totalReqs) + (if s == chosen then 1 else 0)
    }

    method SelectServer(hostgroup: int, healthy: string -> bool, now: int, draw: nat -> nat)
      returns (out: Outcome, ghost eligible: seq<ServerState>, ghost i: nat)
      requires Valid() && forall n :: n > 0 ==> draw(n) < n
      modifies this`rrCounters, circuits, Breakers()
      modifies (set s | s in Group(hostgroup))`connections, (set s | s in Group(hostgroup))`totalReqs
      ensures circuits != null ==> circuits.Valid()
      ensures OnlyNewBreakers()
      ensures (eligible, BoardNow()) == Screened(BreakerConfig(), old(BoardNow()), old(Group(hostgroup)), healthy, now)
      ensures forall k :: 0 <= k < |eligible| ==> eligible[k] in old(Group(hostgroup))
      ensures out == NoServers <==>
              eligible == [] || TooDear(algorithm, old(ConnectionCosts(eligible)), old(LatencyCosts(eligible)))
      ensures out == NilCounter <==> eligible != [] && UsesCounter() && hostgroup !in old(rrCounters)
      ensures out.Selected? ==> i < |eligible| && out.state == eligible[i]
                                && Owed(algorithm, Weights(eligible), old(ConnectionCosts(eligible)),
                                        old(LatencyCosts(eligible)), Drew(hostgroup), draw, i)
      ensures OnlyCounts(old(Group(hostgroup)), if out.Selected? then out.state else null)
      ensures rrCounters == if out.Selected? && UsesCounter()
                            then old(rrCounters)[hostgroup := Fairness.Counter(old(rrCounters)[hostgroup], 1)]
                            else old(rrCounters)
    {
      var group := Group(hostgroup);
      GroupNamesDiffer(hostgroup);
      var available := Candidates(group, healthy, now);
      eligible := available;
      out, i := SelectFrom(available, group, hostgroup, draw);
    }

    // The filter, with what selection needs to know of its result.
    method Candidates(group: seq<ServerState>, healthy: string -> bool, now: int) returns (available: seq<ServerState>)
      requires NamesDiffer(group) && (circuits != null ==> circuits.Valid())
      modifies circuits, Breakers()
      ensures circuits != null ==> circuits.Valid()
      ensures OnlyNewBreakers()
      ensures (available, BoardNow()) == Screened(BreakerConfig(), old(BoardNow()), group, healthy, now)
      ensures forall k :: 0 <= k < |available| ==> available[k] in group
      ensures ConnectionCosts(available) == old(ConnectionCosts(available))
      ensures LatencyCosts(available) == old(LatencyCosts(available))
    {
      available := Filter(group, healthy, now);
      ScreenedAreTheEligible(BreakerConfig(), old(BoardNow()), group, healthy, now);
      forall k | 0 <= k < |available| ensures available[k] in group { assert available[k] in available; }
    }

    /** The candidates all belong to the requested hostgroup, or all to hostgroup 0 if that one is empty. */
    lemma GroupIsOwnOrDefault(hostgroup: int, i: nat)
      requires Valid() && i < |Group(hostgroup)|
      ensures Group(hostgroup)[i].server.hostgroup == if GroupOf(hostgroups, hostgroup) != [] then hostgroup else 0
    {
      assert Filed(servers, if GroupOf(hostgroups, hostgroup) != [] then hostgroup else 0, Group(hostgroup)[i]);
    }

    /** What SelectServer does once the filter has run; an empty group leaves an empty list. */
    method SelectFrom(available: seq<ServerState>, ghost group: seq<ServerState>, hostgroup: int, draw: nat -> nat)
      returns (out: Outcome, ghost i: nat)
      requires forall k :: 0 <= k < |available| ==> available[k] in group
      requires forall n :: n > 0 ==> draw(n) < n
      modifies this`rrCounters
      modifies (set s | s in available)`connections, (set s | s in available)`totalReqs
      ensures out == NoServers <==>
              available == [] || TooDear(algorithm, old(ConnectionCosts(available)), old(LatencyCosts(available)))
      ensures out == NilCounter <==> available != [] && UsesCounter() && hostgroup !in old(rrCounters)
      ensures out.Selected? ==> i < |available| && out.state == available[i]
                                && Owed(algorithm, Weights(available), old(ConnectionCosts(available)),
                                        old(LatencyCosts(available)), Drew(hostgroup), draw, i)
      ensures OnlyCounts(group, if out.Selected? then out.state else null)
      ensures rrCounters == if out.Selected? && UsesCounter()
                            then old(rrCounters)[hostgroup := Fairness.Counter(old(rrCounters)[hostgroup], 1)]
                            else old(rrCounters)
    {
      i := 0;
      if available == [] { return NoServers, 0; }
      if UsesCounter() && hostgroup !in rrCounters { return NilCounter, 0; }
      var selected: ServerState?;
      selected, i := Pick(available, hostgroup, draw);
      if selected == null { return NoServers, 0; }
      selected.connections := selected.connections + 1;
      selected.totalReqs := selected.totalReqs + 1;
      out := Selected(selected);
    }

    lemma GroupNamesDiffer(hostgroup: int)
      requires Valid()
      ensures NamesDiffer(Group(hostgroup))
    {}

    /** The breaker has heard of a failure now, or of a success. */
    static predicate Heard(before: Circuit.State, after: Circuit.State, success: bool, now: int) {
      if success then
        && after.lastFailure == before.lastFailure
        && (after.failures == before.failures || after.failures == 0)
        && (before.status == Circuit.Closed ==> after.failures == 0)
        && (after.status == Circuit.Open ==> before.status == Circuit.Open)
      else
        && after.lastFailure == Some(now) && after.failures == before.failures + 1
        && (before.status != Circuit.Closed ==> after.status == Circuit.Open)
    }

    static function Verdict(success: bool): Circuit.Op { if success then Circuit.Success else Circuit.Failure }

    static lemma ReleaseIsHeard(cfg: Circuit.Config, before: Circuit.State, success: bool, now: int)
      ensures Heard(before, Circuit.Step(cfg, before, Circuit.Event(now, Verdict(success))).0, success, now)
    {}

    /** `now` stands for both time.Now() readings; float rounding of the moving average is left out. */
    method ReleaseServer(name: string, latency: int, success: bool, now: int)
      requires Valid()
      modifies if name in servers then {servers[name]} else {}, circuits, Breakers()
      ensures Valid()
      ensures name in servers ==>
                var s := servers[name];
                && s.connections == old(s.connections) - 1 && s.totalReqs == old(s.totalReqs)
                && s.errors == old(s.errors) + (if success then 0 else 1)
                && s.avgLatency == Smoothed(old(s.avgLatency), latency)
      ensures OnlyNewBreakers()
      ensures BoardNow() == if name in servers
                            then StepOn(BreakerConfig(), old(BoardNow()), name, Circuit.Event(now, Verdict(success))).0
                            else old(BoardNow())
      ensures name in servers && circuits != null ==>
                Heard(old(StateOn(BoardNow(), name)), StateOn(BoardNow(), name), success, now)
      ensures forall n :: n != name ==> StateOn(BoardNow(), n) == old(StateOn(BoardNow(), n))
    {
      if name !in servers { return; }
      var state := servers[name];
      if circuits != null { ReleaseIsHeard(circuits.cfg, StateOn(BoardNow(), name), success, now); }
      state.Settle(success);
      var _ := StepBreaker(name, Circuit.Event(now, Verdict(success)));
      state.Smooth(latency);
    }

    /** storage keeps server names unique. */
    method LoadServers(list: seq<Server>)
      requires Valid() && forall i, j :: 0 <= i < j < |list| ==> list[i].name != list[j].name
      modifies this`servers, this`hostgroups, this`rrCounters
      ensures Indexed(servers, hostgroups) && Loaded(list, servers, hostgroups)
      ensures Counted(old(rrCounters), hostgroups, rrCounters)
      ensures forall g :: g in rrCounters && g !in old(rrCounters) ==> rrCounters[g] == 0
      ensures forall n :: n in servers ==> fresh(servers[n]) && servers[n].Untouched()
    {
      servers, hostgroups := map[], map[];
      for i := 0 to |list|
        invariant Indexed(servers, hostgroups) && Loaded(list[..i], servers, hostgroups)
        invariant Counted(old(rrCounters), hostgroups, rrCounters)
        invariant forall n :: n in servers ==> fresh(servers[n]) && servers[n].Untouched()
      {
        assert list[..i + 1][..i] == list[..i] && list[..i + 1] == list[..i] + [list[i]];
        NamesAreListed(list[..i], list[i].name);
        if list[i].status != Offline { FileServer(list[i], list[..i]); }
      }
      assert list[..|list|] == list;
    }

    // One turn of the loop of LoadServers.
    method FileServer(srv: Server, ghost before: seq<Server>)
      requires srv.status != Offline && srv.name !in servers
      requires Indexed(servers, hostgroups) && Loaded(before, servers, hostgroups)
      modifies this`servers, this`hostgroups, this`rrCounters
      ensures Indexed(servers, hostgroups) && Loaded(before + [srv], servers, hostgroups)
      ensures forall was :: Counted(was, old(hostgroups), old(rrCounters)) ==> Counted(was, hostgroups, rrCounters)
      ensures srv.name in servers && fresh(servers[srv.name]) && servers[srv.name].Untouched()
      ensures servers == old(servers)[srv.name := servers[srv.name]]
    {
      var state := new ServerState(srv);
      AppendedIndexed(servers, hostgroups, state);
      AppendedLoaded(before, servers, hostgroups, state);
      servers := servers[srv.name := state];
      hostgroups := Appended(hostgroups, state);
      if srv.hostgroup !in rrCounters { rrCounters := rrCounters[srv.hostgroup := 0]; }
    }
  }

  // ---- what weighted random yields ----

  /** rand.Intn when it returns d wherever it may. */
  function Returning(d: nat): nat -> nat { (n: nat) => if d < n then d else 0 }

  /** How many of the draws 0, ..., n - 1 pick index i. */
  function Chances(w: seq<nat>, i: nat, n: nat): nat
    requires w != []
  {
    if n == 0 then 0 else Chances(w, i, n - 1) + if Balancer.Drawn(w, Returning(n - 1)) == i then 1 else 0
  }

  lemma {:induction false} ChancesAreAStretch(w: seq<nat>, i: nat, n: nat)
    requires i < |w| && n <= Fairness.Total(w) && Fairness.Total(w) > 0
    ensures var lo := Fairness.Total(w[..i]); Chances(w, i, n) == Max(0, Min(n, lo + w[i]) - lo)
  {
    if n == 0 {
    } else {
      ChancesAreAStretch(w, i, n - 1);
      OneDraw(w, n - 1);
      Fairness.SlotIsStretch(w, n - 1, i);
    }
  }

  lemma OneDraw(w: seq<nat>, d: nat)
    requires d < Fairness.Total(w)
    ensures Balancer.Drawn(w, Returning(d)) == Fairness.Slot(w, d)
  {}

  lemma {:induction false} ChancesOfEach(w: seq<nat>, i: nat, n: nat)
    requires i < |w| && n <= |w| && Fairness.Total(w) == 0
    ensures Chances(w, i, n) == if i < n then 1 else 0
  {
    if n == 0 {
    } else {
      ChancesOfEach(w, i, n - 1);
    }
  }

  /** Of all draws there can be exactly weight_i pick server i; without weights each server has one. */
  lemma RandomIsWeighted(w: seq<nat>, i: nat)
    requires i < |w|
    ensures if Fairness.Total(w) > 0 then Chances(w, i, Fairness.Total(w)) == w[i] else Chances(w, i, |w|) == 1
  {
    if Fairness.Total(w) > 0 {
      ChancesAreAStretch(w, i, Fairness.Total(w));
      Fairness.TotalSnoc(w, i);
    } else {
      ChancesOfEach(w, i, |w|);
    }
  }

  // ---- the missing counter ----

  /** Some healthy server that is online, and whose breaker admits, was listed for hostgroup 0. */
  ghost predicate Fallback(list: seq<Server>, cfg: Option<Circuit.Config>, board: Board,
                           healthy: string -> bool, now: int)
  {
    exists srv :: srv in list && srv.hostgroup == 0 && Usable(srv, cfg, board, healthy, now)
  }

  predicate Usable(srv: Server, cfg: Option<Circuit.Config>, board: Board, healthy: string -> bool, now: int) {
    healthy(srv.name) && srv.status == Online && Admits(cfg, board, srv.name, now)
  }

  lemma {:induction false} PassedAreEligible(cfg: Option<Circuit.Config>, board: Board, group: seq<ServerState>,
                                             healthy: string -> bool, now: int, k: nat)
    requires NamesDiffer(group) && k < |Screened(cfg, board, group, healthy, now).0|
    ensures var s := Screened(cfg, board, group, healthy, now).0[k];
            s in group && Eligible(s, cfg, board, healthy, now)
  {
    var init, last := group[..|group| - 1], group[|group| - 1];
    assert group == init + [last];
    if k < |Screened(cfg, board, init, healthy, now).0| {
      PassedAreEligible(cfg, board, init, healthy, now, k);
    } else {
      BreakersMoveByTheirOwnAllow(cfg, board, init, healthy, now);
      assert !Asked(init, healthy, last.server.name);
    }
  }

  /** The filter passes something exactly if some member is usable. */
  lemma SomePasses(cfg: Option<Circuit.Config>, board: Board, group: seq<ServerState>,
                   healthy: string -> bool, now: int)
    requires NamesDiffer(group)
    ensures Screened(cfg, board, group, healthy, now).0 != []
       <==> exists i :: 0 <= i < |group| && Usable(group[i].server, cfg, board, healthy, now)
  {
    var passed := Screened(cfg, board, group, healthy, now).0;
    ScreenedAreTheEligible(cfg, board, group, healthy, now);
    if passed != [] {
      PassedAreEligible(cfg, board, group, healthy, now, 0);
      var i :| 0 <= i < |group| && group[i] == passed[0];
      assert Usable(group[i].server, cfg, board, healthy, now);
    }
    forall i | 0 <= i < |group| && Usable(group[i].server, cfg, board, healthy, now) ensures passed != [] {
      assert Eligible(group[i], cfg, board, healthy, now) && group[i] in group;
      assert group[i] in Screened(cfg, board, group, healthy, now).0;
    }
  }

  lemma FallbackIsEligible(list: seq<Server>, servers: Index, groups: Groups, cfg: Option<Circuit.Config>, board: Board,
                           group: seq<ServerState>, healthy: string -> bool, now: int)
    requires Indexed(servers, groups) && Loaded(list, servers, groups) && group == GroupOf(groups, 0)
    ensures Screened(cfg, board, group, healthy, now).0 != [] <==> Fallback(list, cfg, board, healthy, now)
  {
    SomePasses(cfg, board, group, healthy, now);
    assert InGroup(list, 0) == Records(group);
    forall i | 0 <= i < |group| ensures group[i].server in list && group[i].server.hostgroup == 0 {
      assert Records(group)[i] in InGroup(list, 0);
      InGroupMembers(list, 0, group[i].server);
    }
    if Fallback(list, cfg, board, healthy, now) {
      var srv :| srv in list && srv.hostgroup == 0 && Usable(srv, cfg, board, healthy, now);
      InGroupMembers(list, 0, srv);
      var i :| 0 <= i < |group| && Records(group)[i] == srv;
    }
  }

  lemma CounterIsMissing(list: seq<Server>, servers: Index, groups: Groups,
                         before: map<int, nat>, counters: map<int, nat>, cfg: Option<Circuit.Config>, board: Board,
                         hostgroup: int, group: seq<ServerState>, healthy: string -> bool, now: int)
    requires Indexed(servers, groups) && Loaded(list, servers, groups) && Counted(before, groups, counters)
    requires group == if GroupOf(groups, hostgroup) == [] then GroupOf(groups, 0) else GroupOf(groups, hostgroup)
    ensures hostgroup !in counters && Screened(cfg, board, group, healthy, now).0 != []
       <==> hostgroup !in before && !Listed(list, hostgroup) && Fallback(list, cfg, board, healthy, now)
  {
    CounterWhenListed(list, servers, groups, before, counters, hostgroup);
    InGroupListed(list, hostgroup);
    assert InGroup(list, hostgroup) == Records(GroupOf(groups, hostgroup));
    if hostgroup !in counters { FallbackIsEligible(list, servers, groups, cfg, board, group, healthy, now); }
  }

  /**
   After any load a request meets a nil counter if and only if the algorithm uses counters, the
   hostgroup had none before, no server was listed for it, and one of hostgroup 0 can take the request.
   */
  method SelectAfterLoading(b: Balancer, list: seq<Server>, hostgroup: int, healthy: string -> bool, now: int,
                            draw: nat -> nat)
    returns (out: Outcome)
    requires b.Valid() && forall i, j :: 0 <= i < j < |list| ==> list[i].name != list[j].name
    requires forall n :: n > 0 ==> draw(n) < n
    modifies b`servers, b`hostgroups, b`rrCounters, b.circuits, b.Breakers()
    ensures out == NilCounter <==>
              && b.UsesCounter() && hostgroup !in old(b.rrCounters) && !Listed(list, hostgroup)
              && Fallback(list, b.BreakerConfig(), old(b.BoardNow()), healthy, now)
  {
    ghost var cfg, board, before := b.BreakerConfig(), b.BoardNow(), b.rrCounters;
    b.LoadServers(list);
    ghost var group := b.Group(hostgroup);
    CounterIsMissing(list, b.servers, b.hostgroups, before, b.rrCounters, cfg, board, hostgroup, group, healthy, now);
    GroupIsFiled(b, hostgroup);
    ghost var eligible, i;
    out, eligible, i := b.SelectServer(hostgroup, healthy, now, draw);
  }

  lemma GroupIsFiled(b: Balancer, hostgroup: int)
    requires Indexed(b.servers, b.hostgroups)
    ensures forall i :: 0 <= i < |b.Group(hostgroup)| ==>
              var s := b.Group(hostgroup)[i]; s.server.name in b.servers && b.servers[s.server.name] == s
  {
    var g := if GroupOf(b.hostgroups, hostgroup) == [] then 0 else hostgroup;
    forall i | 0 <= i < |b.Group(hostgroup)|
      ensures var s := b.Group(hostgroup)[i]; s.server.name in b.servers && b.servers[s.server.name] == s
    {
      assert Filed(b.servers, g, b.hostgroups[g][i]);
    }
  }

  /** For instance with one server, in hostgroup 0, and a request for hostgroup 5. */
  method NilCounterHappens() returns (out: Outcome)
    ensures out == NilCounter
  {
    var list := [Server("a", 0, 1, Online)];
    var b := new Balancer(null);
    assert list[0] in list && Usable(list[0], None, map[], _ => true, 0);
    out := SelectAfterLoading(b, list, 5, _ => true, 0, (n: nat) => 0);
  }
}
