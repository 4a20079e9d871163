/**
 executeChatCompletion of internal/proxy/proxy.go: the retry loop that releases and reselects
 servers, run on the balancer object. Requests that overlap are the subject of Conservation.
 */
module Proxy {
  import opened Common
  import opened Balancer
  import Circuit
  import Retry

  // ---- the accounts of all servers ----

  datatype Account = Account(connections: int, totalReqs: int, errors: int)

  datatype Move = Acquire(server: string) | Release(server: string, ok: bool)

  type Ledger = map<string, Account>

  function Moved(a: Account, m: Move): Account {
    match m
    case Acquire(_) => Account(a.connections + 1, a.totalReqs + 1, a.errors)
    case Release(_, ok) => Account(a.connections - 1, a.totalReqs, a.errors + if ok then 0 else 1)
  }

  function Book(l: Ledger, m: Move): Ledger { if m.server in l then l[m.server := Moved(l[m.server], m)] else l }

  /** The ledger of a request that has used these servers in turn: each switch releases one and acquires the next. */
  function Switched(l: Ledger, path: seq<string>): Ledger {
    if |path| <= 1 then l
    else Book(Book(Switched(l, path[..|path| - 1]), Release(path[|path| - 2], false)), Acquire(path[|path| - 1]))
  }

  /** The ledger it leaves: the last server is released, twice over if a switch away from it found no other. */
  function Finished(l: Ledger, path: seq<string>, ok: bool, failed: bool): Ledger
    requires path != []
  {
    var last, held := path[|path| - 1], Switched(l, path);
    if failed then Book(Book(held, Release(last, false)), Release(last, false)) else Book(held, Release(last, ok))
  }

  ghost function AccountOf(s: ServerState): Account
    reads s
  {
    Account(s.connections, s.totalReqs, s.errors)
  }

  /** The balancer's servers are all in the pool and have these accounts. */
  ghost predicate Shows(b: Balancer, pool: set<ServerState>, l: Ledger)
    reads b, pool
  {
    && l.Keys == b.servers.Keys
    && forall n :: n in b.servers ==>
         b.servers[n] in pool && AccountOf(b.servers[n]) == l[n]
  }

  /** Whom the filter passes. */
  ghost function Passed(cfg: Option<Circuit.Config>, board: Board, group: seq<ServerState>,
                        healthy: string -> bool, now: int): seq<ServerState>
  {
    Screened(cfg, board, group, healthy, now).0
  }

  /** Only these two algorithms may find nobody cheap enough among those who pass. */
  predicate SearchesMinimum(b: Balancer)
    reads b
  {
    b.algorithm == LeastConnections || b.algorithm == LatencyBased
  }

  method SelectFor(b: Balancer, ghost pool: set<ServerState>, ghost l: Ledger,
                   hostgroup: int, healthy: string -> bool, now: int, draw: nat -> nat)
    returns (name: Option<string>, ghost l': Ledger, ghost passed: seq<ServerState>, ghost dear: bool)
    requires b.Valid() && Shows(b, pool, l)
    requires b.UsesCounter() ==> hostgroup in b.rrCounters
    requires forall n :: n > 0 ==> draw(n) < n
    modifies b`rrCounters, b.circuits, b.Breakers(), pool`connections, pool`totalReqs
    ensures b.Valid() && b.OnlyNewBreakers()
    ensures old(b.rrCounters).Keys <= b.rrCounters.Keys
    ensures passed == Passed(b.BreakerConfig(), old(b.BoardNow()), old(b.Group(hostgroup)), healthy, now)
    ensures (name.None? <==> passed == [] || dear) && (dear ==> SearchesMinimum(b))
    ensures name.Some? ==> name.value in b.servers
    ensures Shows(b, pool, l') && l' == if name.Some? then Book(l, Acquire(name.value)) else l
  {
    ghost var group := b.Group(hostgroup);
    GroupIsFiled(b, hostgroup);
    var state;
    state, passed, dear := Reserve(b, hostgroup, healthy, now, draw);
    name := if state != null then Some(state.server.name) else None;
    l' := if name.Some? then Book(l, Acquire(name.value)) else l;
    forall n | n in b.servers ensures AccountOf(b.servers[n]) == l'[n] {
      var s := b.servers[n];
      assert old(AccountOf(s)) == l[n];
      assert s == state <==> name == Some(n);
      assert AccountOf(s) == if s == state then Moved(l[n], Acquire(n)) else l[n] by {
        if s !in group { assert unchanged(s); }
      }
    }
  }

  // What the proxy relies on when it selects.
  method Reserve(b: Balancer, hostgroup: int, healthy: string -> bool, now: int, draw: nat -> nat)
    returns (state: ServerState?, ghost passed: seq<ServerState>, ghost dear: bool)
    requires b.Valid() && (b.UsesCounter() ==> hostgroup in b.rrCounters)
    requires forall n :: n > 0 ==> draw(n) < n
    modifies b`rrCounters, b.circuits, b.Breakers()
    modifies (set s | s in b.Group(hostgroup))`connections, (set s | s in b.Group(hostgroup))`totalReqs
    ensures b.Valid() && b.OnlyNewBreakers()
    ensures old(b.rrCounters).Keys <= b.rrCounters.Keys
    ensures passed == Passed(b.BreakerConfig(), old(b.BoardNow()), old(b.Group(hostgroup)), healthy, now)
    ensures forall k :: 0 <= k < |passed| ==> passed[k] in old(b.Group(hostgroup))
    ensures dear == Balancer.TooDear(b.algorithm, old(ConnectionCosts(passed)), old(LatencyCosts(passed)))
    ensures state == null <==> passed == [] || dear
    ensures state != null ==> state in old(b.Group(hostgroup))
    ensures b.OnlyCounts(old(b.Group(hostgroup)), state)
  {
    ghost var i;
    var out;
    out, passed, i := b.SelectServer(hostgroup, healthy, now, draw);
    dear := Balancer.TooDear(b.algorithm, old(ConnectionCosts(passed)), old(LatencyCosts(passed)));
    state := if out.Selected? then out.state else null;
  }

  /** The breakers after a release has reported its outcome. */
  function Told(cfg: Option<Circuit.Config>, board: Board, name: string, success: bool, now: int): Board {
    StepOn(cfg, board, name, Circuit.Event(now, Balancer.Verdict(success))).0
  }

  method ReleaseFor(b: Balancer, ghost pool: set<ServerState>, ghost l: Ledger,
                    name: string, latency: int, success: bool, now: int)
    returns (ghost l': Ledger)
    requires b.Valid() && name in b.servers && Shows(b, pool, l)
    modifies pool, b.circuits, b.Breakers()
    ensures b.Valid() && b.OnlyNewBreakers()
    ensures Shows(b, pool, l') && l' == Book(l, Release(name, success))
    ensures b.BoardNow() == Told(b.BreakerConfig(), old(b.BoardNow()), name, success, now)
  {
    assert forall n :: n in b.servers && n != name ==> b.servers[n] != b.servers[name];
    b.ReleaseServer(name, latency, success, now);
    l' := Book(l, Release(name, success));
  }

  // ---- one request ----

  datatype Reply = Success | Fatal | Retryable

  datatype Error = Upstream(retryable: bool) | NoServer | ContextEnded

  /** What attempt k meets; `reply` may depend on the server called. */
  datatype World = World(
    reply: (nat, string) -> Reply, ended: nat -> bool, interrupted: nat -> bool,
    hostgroup: nat -> int, healthy: nat -> (string -> bool), now: nat -> int, latency: nat -> int,
    draw: nat -> (nat -> nat))

  /** What the error returned says about the attempt that ended the loop. */
  ghost predicate Ended(w: World, maxRetries: nat, k: nat, used: string, err: Option<Error>) {
    match err
    case None => !w.ended(k) && w.reply(k, used) == Success
    case Some(Upstream(false)) => !w.ended(k) && w.reply(k, used) == Fatal
    case Some(Upstream(true)) => !w.ended(k) && w.reply(k, used) == Retryable && k == maxRetries
    case Some(NoServer) => k > 0 && !w.ended(k)
    case Some(ContextEnded) => w.ended(k) || (k < maxRetries && w.interrupted(k) && w.reply(k, used) == Retryable)
  }

  /** Attempt j called the server at its place in the path and was followed by another. */
  predicate Retried(w: World, path: seq<string>, j: nat) {
    j < |path| && !w.ended(j) && w.reply(j, path[j]) == Retryable && !w.interrupted(j)
  }

  /** Attempt k begins: all attempts before it were retried, each on the server at its place in the path. */
  ghost predicate Begins(w: World, path: seq<string>, k: nat) {
    |path| == (if k == 0 then 1 else k) && forall j :: 0 <= j < k ==> Retried(w, path, j)
  }

  /** The loop is over: all attempts before k were retried, and every attempt that called a server is in the path. */
  ghost predicate History(w: World, maxRetries: nat, path: seq<string>, k: nat, err: Option<Error>) {
    && path != [] && k <= maxRetries && Ended(w, maxRetries, k, path[|path| - 1], err)
    && (forall j :: 0 <= j < k ==> Retried(w, path, j))
    && |path| == if k > 0 && (w.ended(k) || err == Some(NoServer)) then k else k + 1
  }

  /** One turn of the loop, from `path` to `path'`; `err` is the last error met. */
  ghost predicate Tried(w: World, maxRetries: nat, k: nat, path: seq<string>, path': seq<string>,
                        done: bool, err: Option<Error>)
    requires path != []
  {
    if w.ended(k) then done && path' == path && err == Some(ContextEnded)
    else if k > 0 && err == Some(NoServer) then done && path' == path
    else
      && path' == (if k == 0 || path' == [] then path else path + [path'[|path'| - 1]])
      && match w.reply(k, path'[|path'| - 1])
         case Success => done && err == None
         case Fatal => done && err == Some(Upstream(false))
         case Retryable =>
           if k < maxRetries && w.interrupted(k) then done && err == Some(ContextEnded)
           else done == (k == maxRetries) && err == Some(Upstream(true))
  }

  lemma TriedNext(w: World, maxRetries: nat, k: nat, path: seq<string>, path': seq<string>,
                  done: bool, err: Option<Error>)
    requires k <= maxRetries && Begins(w, path, k) && Tried(w, maxRetries, k, path, path', done, err)
    ensures if done then History(w, maxRetries, path', k, err) else k < maxRetries && Begins(w, path', k + 1)
  {
    forall j | 0 <= j < k ensures Retried(w, path', j) { assert Retried(w, path, j) && path'[j] == path[j]; }
  }

  /** Requests go to these hostgroups, and random draws are in range. */
  ghost predicate Proper(w: World, hostgroups: set<int>) {
    && (forall k: nat, n: nat {:trigger w.draw(k)(n)} :: n > 0 ==> w.draw(k)(n) < n)
    && (forall k: nat :: w.hostgroup(k) in hostgroups)
  }

  /** Round robin has a counter for each of the hostgroups. */
  ghost predicate Counts(b: Balancer, hostgroups: set<int>)
    reads b
  {
    b.UsesCounter() ==> hostgroups <= b.rrCounters.Keys
  }

  function One(b: bool): int { if b then 1 else 0 }

  /** One switch: the server used is released, and another acquired if there is one. */
  function Given(l: Ledger, used: string, next: Option<string>): Ledger {
    var released := Book(l, Release(used, false));
    if next.Some? then Book(released, Acquire(next.value)) else released
  }

  predicate PathFor(path: seq<string>, first: string, last: string) {
    path != [] && path[0] == first && path[|path| - 1] == last
  }

  lemma SwitchedNext(l: Ledger, path: seq<string>)
    requires path != []
    ensures forall next :: Switched(l, path + [next]) == Given(Switched(l, path), path[|path| - 1], Some(next))
  {
    forall next ensures Switched(l, path + [next]) == Given(Switched(l, path), path[|path| - 1], Some(next)) {
      assert (path + [next])[..|path|] == path;
    }
  }

  /** While it runs, a request has moved one connection from its first server to the one it holds now. */
  lemma {:induction false} SwitchedNet(l: Ledger, path: seq<string>, n: string)
    requires path != [] && n in l
    ensures n in Switched(l, path)
    ensures var before, after := l[n], Switched(l, path)[n];
            && after.connections == before.connections - One(n == path[0]) + One(n == path[|path| - 1])
            && after.totalReqs - after.connections - after.errors
               == before.totalReqs - before.connections - before.errors
  {
    if |path| > 1 { SwitchedNet(l, path[..|path| - 1], n); }
  }

  /**
   What a finished request leaves behind on every server: the connection it came with is given back,
   and one more is taken off the last server if a switch found no server. Totals are accounted for.
   */
  lemma FinishedNet(l: Ledger, path: seq<string>, ok: bool, failed: bool, n: string)
    requires path != [] && n in l && (failed ==> !ok)
    ensures n in Finished(l, path, ok, failed)
    ensures var before, after := l[n], Finished(l, path, ok, failed)[n];
            && after.connections == before.connections - One(n == path[0]) - One(failed && n == path[|path| - 1])
            && after.totalReqs - after.connections - after.errors
               == before.totalReqs - before.connections - before.errors + One(ok && n == path[|path| - 1])
  {
    SwitchedNet(l, path, n);
  }

  // On a retry the server in use is given up before another one is asked for.
  method Switch(b: Balancer, ghost pool: set<ServerState>, ghost l: Ledger, used: string, attempt: nat,
                w: World, ghost hostgroups: set<int>)
    returns (next: Option<string>, ghost l': Ledger, ghost passed: seq<ServerState>, ghost dear: bool)
    requires b.Valid() && Proper(w, hostgroups) && Counts(b, hostgroups)
    requires Shows(b, pool, l) && used in b.servers
    modifies b`rrCounters, b.circuits, b.Breakers(), pool
    ensures b.Valid() && Counts(b, hostgroups) && b.OnlyNewBreakers()
    ensures passed == Passed(b.BreakerConfig(), Told(b.BreakerConfig(), old(b.BoardNow()), used, false, w.now(attempt)),
                             b.Group(w.hostgroup(attempt)), w.healthy(attempt), w.now(attempt))
    ensures (next.None? <==> passed == [] || dear) && (dear ==> SearchesMinimum(b))
    ensures next.Some? ==> next.value in b.servers
    ensures Shows(b, pool, l') && l' == Given(l, used, next)
  {
    l' := ReleaseFor(b, pool, l, used, w.latency(attempt), false, w.now(attempt));
    next, l', passed, dear :=
      SelectFor(b, pool, l', w.hostgroup(attempt), w.healthy(attempt), w.now(attempt), w.draw(attempt));
  }

  /**
   Attempt k, which found the breakers at `board`, found no other server: nobody passed the filter
   after the release of `used`, unless the algorithm found those who passed too dear.
   */
  ghost predicate Refused(b: Balancer, w: World, k: nat, board: Board, used: string)
    reads b
  {
    var cfg := b.BreakerConfig();
    SearchesMinimum(b)
    || Passed(cfg, Told(cfg, board, used, false, w.now(k)), b.Group(w.hostgroup(k)), w.healthy(k), w.now(k)) == []
  }

  // One turn of the loop of retry.Do with the closure in it; `done` says that the loop ends.
  method Attempt(b: Balancer, ghost pool: set<ServerState>, ghost before: Ledger, ghost l: Ledger,
                 ghost path: seq<string>, used: string, attempt: nat, maxRetries: nat,
                 w: World, ghost hostgroups: set<int>)
    returns (done: bool, err: Option<Error>, next: string, ghost path': seq<string>, ghost l': Ledger)
    requires b.Valid() && Proper(w, hostgroups) && Counts(b, hostgroups)
    requires Shows(b, pool, l) && used in b.servers && attempt <= maxRetries
    requires path != [] && path[|path| - 1] == used && l == Switched(before, path)
    modifies b`rrCounters, b.circuits, b.Breakers(), pool
    ensures b.Valid() && Counts(b, hostgroups) && b.OnlyNewBreakers()
    ensures Shows(b, pool, l') && next in b.servers
    ensures path' != [] && path'[0] == path[0] && path'[|path'| - 1] == next
    ensures Tried(w, maxRetries, attempt, path, path', done, err)
    ensures err == Some(NoServer) ==> next == used && Refused(b, w, attempt, old(b.BoardNow()), used)
    ensures l' == if err == Some(NoServer) then Given(Switched(before, path'), next, None) else Switched(before, path')
  {
    next, path', l' := used, path, l;
    if w.ended(attempt) { return true, Some(ContextEnded), used, path, l; }
    if attempt > 0 {
      SwitchedNext(before, path);
      var other;
      ghost var passed, dear;
      other, l', passed, dear := Switch(b, pool, l, used, attempt, w, hostgroups);
      if other.None? { return true, Some(NoServer), used, path, l'; }
      next, path' := other.value, path + [other.value];
    }
    done, err := Judge(w, attempt, maxRetries, next);
  }

  method Judge(w: World, attempt: nat, maxRetries: nat, server: string) returns (done: bool, err: Option<Error>)
    requires attempt <= maxRetries
    ensures match w.reply(attempt, server)
            case Success => done && err == None
            case Fatal => done && err == Some(Upstream(false))
            case Retryable =>
              if attempt < maxRetries && w.interrupted(attempt) then done && err == Some(ContextEnded)
              else done == (attempt == maxRetries) && err == Some(Upstream(true))
  {
    match w.reply(attempt, server)
    case Success => return true, None;
    case Fatal => return true, Some(Upstream(false));
    case Retryable =>
      if attempt < maxRetries && w.interrupted(attempt) { return true, Some(ContextEnded); }
      return attempt == maxRetries, Some(Upstream(true));
  }

  // k is the attempt that ended the loop.
  method Attempts(b: Balancer, ghost pool: set<ServerState>, ghost before: Ledger,
                  server: string, maxRetries: nat, w: World, ghost hostgroups: set<int>)
    returns (err: Option<Error>, usedServer: string,
             ghost path: seq<string>, ghost k: nat, ghost l: Ledger, ghost board: Board)
    requires b.Valid() && Proper(w, hostgroups) && Counts(b, hostgroups)
    requires Shows(b, pool, before) && server in b.servers
    modifies b`rrCounters, b.circuits, b.Breakers(), pool
    ensures b.Valid() && Shows(b, pool, l) && b.OnlyNewBreakers()
    ensures PathFor(path, server, usedServer) && usedServer in b.servers
    ensures l == if err == Some(NoServer) then Given(Switched(before, path), usedServer, None)
                 else Switched(before, path)
    ensures History(w, maxRetries, path, k, err)
    ensures err == Some(NoServer) ==> Refused(b, w, k, board, usedServer)
  {
    usedServer, path, k, err, l, board := server, [server], 0, None, before, b.BoardNow();
    var attempt, done := 0, false;
    while !done
      invariant b.Valid() && Counts(b, hostgroups) && b.OnlyNewBreakers()
      invariant Shows(b, pool, l) && usedServer in b.servers && PathFor(path, server, usedServer)
      invariant l == if done && err == Some(NoServer) then Given(Switched(before, path), usedServer, None)
                     else Switched(before, path)
      invariant done && err == Some(NoServer) ==> Refused(b, w, k, board, usedServer)
      invariant if done then History(w, maxRetries, path, k, err)
                else attempt <= maxRetries && Begins(w, path, attempt)
      decreases !done, maxRetries - attempt
    {
      k, board := attempt, b.BoardNow();
      ghost var was := path;
      done, err, usedServer, path, l :=
        Attempt(b, pool, before, l, path, usedServer, attempt, maxRetries, w, hostgroups);
      TriedNext(w, maxRetries, k, was, path, done, err);
      attempt := attempt + 1;
    }
  }

  // ---- the loop is that of retry.Do ----

  /** What the closure handed to retry.Do returns, attempt by attempt, on this path. */
  function Closure(w: World, path: seq<string>): Retry.World<()> {
    Retry.World(
      (j: nat) => if j < |path| then ReplyTo(w.reply(j, path[j])) else Retry.Fail(NO_SERVER),
      w.ended, w.interrupted, (j: nat) => 0.0)
  }

  const NO_SERVER := Retry.Failure(2, false)

  function ReplyTo(r: Reply): Retry.Reply<()> {
    match r
    case Success => Retry.Value(())
    case Fatal => Retry.Fail(Retry.Failure(0, false))
    case Retryable => Retry.Fail(Retry.Failure(1, true))
  }

  function ResultOf(k: nat, err: Option<Error>): Retry.Result<()> {
    match err
    case None => Retry.Result(Some(()), k + 1, None)
    case Some(Upstream(retryable)) =>
      Retry.Result(None, k + 1, Some(Retry.Failure(if retryable then 1 else 0, retryable)))
    case Some(NoServer) => Retry.Result(None, k + 1, Some(NO_SERVER))
    case Some(ContextEnded) => Retry.Result(None, k + 1, Some(Retry.ContextEnded))
  }

  /** Given the path, the loop stops where Do stops and with the result of Do. */
  lemma FollowsDo(cfg: Retry.Config, w: World, path: seq<string>, k: nat, err: Option<Error>)
    requires cfg.maxRetries >= 0 && History(w, cfg.maxRetries, path, k, err)
    ensures Retry.StopsAt(cfg, Closure(w, path), k)
    ensures Retry.Verdict(cfg, Closure(w, path), k) == ResultOf(k, err)
  {
    var c := Closure(w, path);
    forall j | 0 <= j < k ensures Retry.GoesOn(cfg, c, j) { assert Retried(w, path, j); }
    assert k < |path| ==> c.reply(k) == ReplyTo(w.reply(k, path[|path| - 1]));
  }

  /** `server` was selected for the request before. */
  method ExecuteChatCompletion(b: Balancer, ghost pool: set<ServerState>, ghost before: Ledger,
                               server: string, maxRetries: nat, w: World, ghost hostgroups: set<int>)
    returns (err: Option<Error>, usedServer: string,
             ghost path: seq<string>, ghost k: nat, ghost after: Ledger, ghost board: Board)
    requires b.Valid() && Proper(w, hostgroups) && Counts(b, hostgroups)
    requires Shows(b, pool, before) && server in b.servers
    modifies b`rrCounters, b.circuits, b.Breakers(), pool
    ensures b.Valid() && Shows(b, pool, after)
    ensures PathFor(path, server, usedServer) && after == Finished(before, path, err.None?, err == Some(NoServer))
    ensures History(w, maxRetries, path, k, err)
    ensures err == Some(NoServer) ==> Refused(b, w, k, board, usedServer)
  {
    err, usedServer, path, k, after, board := Attempts(b, pool, before, server, maxRetries, w, hostgroups);
    after := ReleaseFor(b, pool, after, usedServer, w.latency(maxRetries + 1), err.None?, w.now(maxRetries + 1));
  }
}
