/**
 The fixed-window rate limiter of internal/ratelimit/ratelimit.go: what its steps do, that its
 garbage collector cannot be observed, and the bound it gives on every sliding interval.
 */
module RateLimitSpec {
  import opened Common

  /** In nanoseconds. */
  const MINUTE := 60_000_000_000

  datatype Limits = Limits(requests: int, tokens: int)

  datatype Window = Window(requests: int, tokens: int, start: int)

  datatype State = State(enabled: bool, windows: map<string, Window>)

  /** `limits` is what getUserLimits returns; None stands for its error. */
  datatype Op =
    | Allow(user: string, limits: Option<Limits>)
    | RecordTokens(user: string, tokens: int)
    | CheckTokens(user: string, tokens: int, limits: Option<Limits>)
    | Reset(user: string)
    | ResetAll
    | SetEnabled(enabled: bool)
    | Cleanup

  datatype Event = Event(now: int, op: Op)

  /** Fields a call leaves unset are 0 or None, as in the Go struct. */
  datatype Answer =
    | Nothing
    | Failed
    | Checked(allowed: bool, remainingRequests: int, remainingTokens: int, resetAt: Option<int>, retryAfter: int)

  const UNLIMITED := Checked(true, 0, 0, None, 0)

  const INITIAL := State(true, map[])

  function Expired(w: Window, now: int): bool { now - w.start >= MINUTE }

  /** The window a request is counted in: the user's own, or a new one. */
  function Current(s: State, user: string, now: int): Window {
    if user !in s.windows || Expired(s.windows[user], now) then Window(0, 0, now) else s.windows[user]
  }

  /** A request meets its window. */
  function Counted(w: Window, limits: Limits, now: int): (Window, Answer) {
    var left, resetAt := limits.tokens - w.tokens, w.start + MINUTE;
    if w.requests >= limits.requests
    then (w, Checked(false, 0, left, Some(resetAt), resetAt - now))
    else (w.(requests := w.requests + 1), Checked(true, limits.requests - (w.requests + 1), left, Some(resetAt), 0))
  }

  function Step(s: State, ev: Event): (State, Answer) {
    match ev.op
    case Allow(user, limits) =>
      if !s.enabled then (s, UNLIMITED)
      else if limits.None? then (s, Failed)
      else
        var (w, answer) := Counted(Current(s, user, ev.now), limits.value, ev.now);
        (s.(windows := s.windows[user := w]), answer)
    case RecordTokens(user, tokens) =>
      if !s.enabled || user !in s.windows then (s, Nothing)
      else (s.(windows := s.windows[user := Charged(s.windows[user], tokens)]), Nothing)
    case CheckTokens(user, tokens, limits) =>
      (s, if !s.enabled then UNLIMITED
          else if limits.None? then Failed
          else TokenCheck(s, user, tokens, limits.value, ev.now))
    case Reset(user) => (s.(windows := s.windows - {user}), Nothing)
    case ResetAll => (s.(windows := map[]), Nothing)
    case SetEnabled(enabled) => (s.(enabled := enabled), Nothing)
    case Cleanup => (s.(windows := Swept(s.windows, ev.now)), Nothing)
  }

  function Charged(w: Window, tokens: int): Window { w.(tokens := w.tokens + tokens) }

  function TokenCheck(s: State, user: string, tokens: int, limits: Limits, now: int): Answer {
    if user !in s.windows || Expired(s.windows[user], now) then Checked(true, 0, limits.tokens, None, 0)
    else
      var w := s.windows[user];
      if w.tokens + tokens > limits.tokens
      then Checked(false, 0, limits.tokens - w.tokens, Some(w.start + MINUTE), w.start + MINUTE - now)
      else Checked(true, 0, limits.tokens - w.tokens - tokens, None, 0)
  }

  function Swept(windows: map<string, Window>, now: int): map<string, Window> {
    map u | u in windows && now - windows[u].start < 5 * MINUTE :: windows[u]
  }

  /** Cleanup under way: the users in `todo` have not been looked at yet. */
  function SweptBut(windows: map<string, Window>, now: int, todo: set<string>): map<string, Window> {
    map u | u in windows && (u in todo || now - windows[u].start < 5 * MINUTE) :: windows[u]
  }

  function Run(h: seq<Event>): State {
    if h == [] then INITIAL else Step(Run(h[..|h| - 1]), h[|h| - 1]).0
  }

  /** What the callers hear, in order; Cleanup has no caller. */
  function Answers(h: seq<Event>): seq<Answer> {
    if h == [] then []
    else
      var before, ev := h[..|h| - 1], h[|h| - 1];
      Answers(before) + if ev.op.Cleanup? then [] else [Step(Run(before), ev).1]
  }

  /** Time does not go back. */
  ghost predicate Ordered(h: seq<Event>) {
    |h| >= 2 ==> Ordered(h[..|h| - 1]) && h[|h| - 2].now <= h[|h| - 1].now
  }

  // ---- cleanup ----

  function WithoutCleanup(h: seq<Event>): seq<Event> {
    if h == [] then []
    else WithoutCleanup(h[..|h| - 1]) + if h[|h| - 1].op.Cleanup? then [] else [h[|h| - 1]]
  }

  function Unexpired(s: State, user: string, now: int): Option<Window> {
    if user in s.windows && !Expired(s.windows[user], now) then Some(s.windows[user]) else None
  }

  /** From `now` on no caller can tell the two states apart. */
  ghost predicate Alike(s: State, t: State, now: int) {
    s.enabled == t.enabled && forall u :: Unexpired(s, u, now) == Unexpired(t, u, now)
  }

  lemma AlikeLater(s: State, t: State, now: int, later: int)
    requires Alike(s, t, now) && now <= later
    ensures Alike(s, t, later)
  {
    forall u ensures Unexpired(s, u, later) == Unexpired(t, u, later) {
      assert Unexpired(s, u, now) == Unexpired(t, u, now);
    }
  }

  lemma AlikeAnswer(s: State, t: State, ev: Event)
    requires Alike(s, t, ev.now)
    ensures Step(s, ev).1 == Step(t, ev).1
  {
    match ev.op
    case Allow(user, _) => assert Unexpired(s, user, ev.now) == Unexpired(t, user, ev.now);
    case CheckTokens(user, _, _) => assert Unexpired(s, user, ev.now) == Unexpired(t, user, ev.now);
    case _ =>
  }

  lemma AlikeStep(s: State, t: State, ev: Event)
    requires Alike(s, t, ev.now)
    ensures Alike(Step(s, ev).0, Step(t, ev).0, ev.now)
  {
    forall u ensures Unexpired(Step(s, ev).0, u, ev.now) == Unexpired(Step(t, ev).0, u, ev.now) {
      assert Unexpired(s, u, ev.now) == Unexpired(t, u, ev.now);
    }
  }

  lemma CleanupIsAlike(s: State, now: int)
    ensures Alike(Step(s, Event(now, Cleanup)).0, s, now)
  {}

  /** Cleanup takes the windows that opened five minutes ago or earlier, and no others. */
  lemma CleanupTakesTheOld(s: State, now: int)
    ensures var kept := Step(s, Event(now, Cleanup)).0.windows;
            forall u :: (u in kept <==> u in s.windows && s.windows[u].start + 300_000_000_000 > now)
                        && (u in kept ==> kept[u] == s.windows[u])
  {}

  lemma AlikeChain(s: State, t: State, r: State, now: int)
    requires Alike(s, t, now) && Alike(t, r, now)
    ensures Alike(s, r, now)
  {
    forall u ensures Unexpired(s, u, now) == Unexpired(r, u, now) {
      assert Unexpired(s, u, now) == Unexpired(t, u, now);
    }
  }

  lemma {:induction false} CleanupLeavesAlike(h: seq<Event>, now: int)
    requires Ordered(h) && (h != [] ==> h[|h| - 1].now <= now)
    ensures Alike(Run(h), Run(WithoutCleanup(h)), now)
    ensures Answers(h) == Answers(WithoutCleanup(h))
  {
    if h == [] {
    } else {
      var before, ev := h[..|h| - 1], h[|h| - 1];
      CleanupLeavesAlike(before, ev.now);
      if ev.op.Cleanup? {
        assert WithoutCleanup(h) == WithoutCleanup(before);
        CleanupIsAlike(Run(before), ev.now);
        AlikeChain(Run(h), Run(before), Run(WithoutCleanup(h)), ev.now);
      } else {
        var rest := WithoutCleanup(before);
        assert (rest + [ev])[..|rest|] == rest;
        AlikeStep(Run(before), Run(rest), ev);
        AlikeAnswer(Run(before), Run(rest), ev);
      }
      AlikeLater(Run(h), Run(WithoutCleanup(h)), ev.now, now);
    }
  }

  /**
   Cleanup is unobservable: two runs that differ only in where Cleanup happens, and when, give every
   caller the same answers, although RecordTokens may hit a stale window in one and none in the other.
   */
  lemma CleanupIsUnobservable(h: seq<Event>, h': seq<Event>)
    requires Ordered(h) && Ordered(h') && WithoutCleanup(h) == WithoutCleanup(h')
    ensures Answers(h) == Answers(h')
  {
    CleanupLeavesAlike(h, if h == [] then 0 else h[|h| - 1].now);
    CleanupLeavesAlike(h', if h' == [] then 0 else h'[|h'| - 1].now);
  }

  // ---- what a caller is told, from the history alone ----

  function Enabled(h: seq<Event>): bool {
    if h == [] then true
    else if h[|h| - 1].op.SetEnabled? then h[|h| - 1].op.enabled
    else Enabled(h[..|h| - 1])
  }

  /** The latest event makes the limiter look at the user's window. */
  predicate Looks(h: seq<Event>, user: string)
    requires h != []
  {
    var op := h[|h| - 1].op;
    op.Allow? && op.user == user && op.limits.Some? && Enabled(h[..|h| - 1])
  }

  /** The request that opened the user's window: the first after a reset, or a minute or more after the one before. */
  function OpenedBy(h: seq<Event>, user: string): (n: Option<nat>)
    ensures n.Some? ==> n.value < |h|
  {
    if h == [] then None
    else
      var n, ev := OpenedBy(h[..|h| - 1], user), h[|h| - 1];
      if ev.op == Reset(user) || ev.op.ResetAll? then None
      else if Looks(h, user) && (n.None? || ev.now - h[n.value].now >= MINUTE) then Some(|h| - 1)
      else n
  }

  /** That request, as long as its minute lasts. */
  function Opener(h: seq<Event>, user: string, now: int): (n: Option<nat>)
    ensures n.Some? ==> n.value < |h|
  {
    var n := OpenedBy(h, user);
    if n.Some? && now - h[n.value].now < MINUTE then n else None
  }

  /** The user's requests admitted from the event at index `from` on. */
  function AdmittedSince(h: seq<Event>, from: nat, user: string): nat {
    if |h| <= from then 0
    else
      var before, ev := h[..|h| - 1], h[|h| - 1];
      AdmittedSince(before, from, user) + if Looks(h, user) && Admits(Run(before), ev) then 1 else 0
  }

  /** The user's tokens recorded from the event at index `from` on. */
  function RecordedSince(h: seq<Event>, from: nat, user: string): int {
    if |h| <= from then 0
    else
      var before, op := h[..|h| - 1], h[|h| - 1].op;
      RecordedSince(before, from, user)
      + if op.RecordTokens? && op.user == user && Enabled(before) then op.tokens else 0
  }

  /** A user's window as long as it lasts: what was admitted and recorded since the request that opened it. */
  function Account(h: seq<Event>, user: string, now: int): Option<Window> {
    match Opener(h, user, now)
    case None => None
    case Some(n) => Some(Window(AdmittedSince(h, n, user), RecordedSince(h, n, user), h[n].now))
  }

  lemma {:induction false} EnabledIsTheLastWord(h: seq<Event>)
    ensures Run(h).enabled == Enabled(h)
  {
    if h == [] {
    } else {
      EnabledIsTheLastWord(h[..|h| - 1]);
    }
  }

  lemma UnexpiredLater(s: State, user: string, now: int, later: int)
    requires now <= later
    ensures Unexpired(s, user, later)
         == if Unexpired(s, user, now).Some? && !Expired(Unexpired(s, user, now).value, later)
            then Unexpired(s, user, now) else None
  {}

  lemma {:induction false} NothingSinceTheEnd(h: seq<Event>, user: string)
    ensures AdmittedSince(h, |h|, user) == 0 && RecordedSince(h, |h|, user) == 0
  {}

  /** In every history a window that still counts is that account, whatever Cleanup and stale windows did. */
  lemma {:induction false} WindowIsTheAccount(h: seq<Event>, user: string, now: int)
    requires Ordered(h) && (h != [] ==> h[|h| - 1].now <= now)
    ensures Unexpired(Run(h), user, now) == Account(h, user, now)
  {
    if h == [] {
    } else {
      var before, ev := h[..|h| - 1], h[|h| - 1];
      WindowIsTheAccount(before, user, ev.now);
      EnabledIsTheLastWord(before);
      if Looks(h, user) {
        LookingOnTheWindow(Run(before), ev, user);
        LookingOnTheAccount(h, user);
      } else {
        OthersOnTheWindow(Run(before), ev, user);
        OthersOnTheAccount(h, user);
      }
      UnexpiredLater(Run(h), user, ev.now, now);
    }
  }

  /** The window a request is counted in. */
  function OrNew(w: Option<Window>, now: int): Window { if w.Some? then w.value else Window(0, 0, now) }

  function Bumped(w: Window, admitted: bool): Window { if admitted then w.(requests := w.requests + 1) else w }

  lemma LookingOnTheWindow(s: State, ev: Event, user: string)
    requires s.enabled && ev.op.Allow? && ev.op.user == user && ev.op.limits.Some?
    ensures var w := OrNew(Unexpired(s, user, ev.now), ev.now);
            Unexpired(Step(s, ev).0, user, ev.now) == Some(Bumped(w, Admits(s, ev)))
  {}

  /** The request finds the account, or opens a new one. */
  lemma LookingOnTheAccount(h: seq<Event>, user: string)
    requires h != [] && Looks(h, user)
    ensures var before, ev := h[..|h| - 1], h[|h| - 1];
            Account(h, user, ev.now)
            == Some(Bumped(OrNew(Account(before, user, ev.now), ev.now), Admits(Run(before), ev)))
  {
    var before, ev := h[..|h| - 1], h[|h| - 1];
    NothingSinceTheEnd(before, user);
    match Opener(before, user, ev.now)
    case None => assert Opener(h, user, ev.now) == Some(|h| - 1);
    case Some(n) => assert Opener(h, user, ev.now) == Some(n) && h[n] == before[n];
  }

  predicate Resets(op: Op, user: string) { op == Reset(user) || op.ResetAll? }

  /** What an event that does not look at the user's window adds to its tokens. */
  function Charge(enabled: bool, op: Op, user: string): int {
    if enabled && op.RecordTokens? && op.user == user then op.tokens else 0
  }

  lemma OthersOnTheWindow(s: State, ev: Event, user: string)
    requires !(s.enabled && ev.op.Allow? && ev.op.user == user && ev.op.limits.Some?)
    ensures Unexpired(Step(s, ev).0, user, ev.now)
         == match Unexpired(s, user, ev.now)
            case None => None
            case Some(w) => if Resets(ev.op, user) then None else Some(Charged(w, Charge(s.enabled, ev.op, user)))
  {}

  lemma OthersOnTheAccount(h: seq<Event>, user: string)
    requires h != [] && !Looks(h, user)
    ensures var before, ev := h[..|h| - 1], h[|h| - 1];
            Account(h, user, ev.now)
            == match Account(before, user, ev.now)
               case None => None
               case Some(w) =>
                 if Resets(ev.op, user) then None else Some(Charged(w, Charge(Enabled(before), ev.op, user)))
  {
    var before, ev := h[..|h| - 1], h[|h| - 1];
    assert OpenedBy(h, user) == if Resets(ev.op, user) then None else OpenedBy(before, user);
  }

  /** A token check is refused exactly when the tokens recorded since the window opened and those asked are too many. */
  lemma TokensRefusedIff(h: seq<Event>, user: string, tokens: int, limits: Limits, now: int)
    requires Ordered(h) && (h != [] ==> h[|h| - 1].now <= now)
    ensures var a := Step(Run(h), Event(now, CheckTokens(user, tokens, Some(limits)))).1;
            var n := Opener(h, user, now);
            var refused := Enabled(h) && n.Some? && RecordedSince(h, n.value, user) + tokens > limits.tokens;
            && a.Checked? && (a.allowed <==> !refused) && a.remainingRequests == 0
            && (refused ==> a.remainingTokens == limits.tokens - RecordedSince(h, n.value, user)
                            && a.resetAt == Some(h[n.value].now + MINUTE)
                            && 0 < a.retryAfter == h[n.value].now + MINUTE - now)
            && (!refused ==> a.resetAt == None && a.retryAfter == 0
                             && a.remainingTokens == if !Enabled(h) then 0
                                                     else if n.None? then limits.tokens
                                                     else limits.tokens - RecordedSince(h, n.value, user) - tokens)
  {
    EnabledIsTheLastWord(h);
    WindowIsTheAccount(h, user, now);
  }

  /** A request is refused exactly when as many were admitted since the window opened as the limit allows. */
  lemma RequestRefusedIff(h: seq<Event>, user: string, limits: Limits, now: int)
    requires Ordered(h) && (h != [] ==> h[|h| - 1].now <= now)
    ensures var a := Step(Run(h), Event(now, Allow(user, Some(limits)))).1;
            var n := Opener(h, user, now);
            var admitted := if n.Some? then AdmittedSince(h, n.value, user) else 0;
            var recorded := if n.Some? then RecordedSince(h, n.value, user) else 0;
            && a.Checked? && (!a.allowed <==> Enabled(h) && admitted >= limits.requests)
            && (Enabled(h) && a.allowed ==> a.remainingRequests == limits.requests - admitted - 1)
            && (Enabled(h) ==> a.resetAt == Some((if n.Some? then h[n.value].now else now) + MINUTE))
            && (Enabled(h) ==> a.remainingTokens == limits.tokens - recorded)
            && (!a.allowed ==> a.remainingRequests == 0 && now + a.retryAfter == a.resetAt.value)
  {
    EnabledIsTheLastWord(h);
    WindowIsTheAccount(h, user, now);
  }

  // ---- the sliding bound ----

  /** How many requests of the user are allowed at a time in [from, to). */
  function Admitted(h: seq<Event>, user: string, from: int, to: int): nat {
    if h == [] then 0
    else
      var before, ev := h[..|h| - 1], h[|h| - 1];
      Admitted(before, user, from, to)
      + if from <= ev.now < to && ev.op.Allow? && ev.op.user == user && Admits(Run(before), ev) then 1 else 0
  }

  predicate Admits(s: State, ev: Event) {
    var a := Step(s, ev).1;
    a.Checked? && a.allowed
  }

  /** The user's limit is L throughout, limiting stays on and nobody resets the user. */
  ghost predicate Steady(h: seq<Event>, user: string, L: int) {
    forall i :: 0 <= i < |h| ==> SteadyOp(h[i].op, user, L)
  }

  predicate SteadyOp(op: Op, user: string, L: int) {
    && !op.SetEnabled? && !op.ResetAll? && op != Reset(user)
    && (op.Allow? && op.user == user && op.limits.Some? ==> op.limits.value.requests == L)
  }

  /** The window last opened for the user, kept even after it has been collected. */
  function LastWindow(h: seq<Event>, user: string): Option<Window> {
    if h == [] then None
    else
      var s := Run(h);
      if user in s.windows then Some(s.windows[user]) else LastWindow(h[..|h| - 1], user)
  }

  /** The most a user with limit L can have been allowed since `from` when the last window is this one. */
  function MostSince(w: Option<Window>, L: nat, from: int): int {
    if w.None? then 0
    else if w.value.start < from then if L == 0 then 0 else w.value.requests - 1
    else L * ((w.value.start - from) / MINUTE + 1) + w.value.requests - if L == 0 then 0 else 1
  }

  ghost predicate WindowFits(h: seq<Event>, user: string, L: nat) {
    var w := LastWindow(h, user);
    && Run(h).enabled
    && (w.Some? ==> h != [] && w.value.start <= h[|h| - 1].now
                    && (if L == 0 then w.value.requests == 0 else 1 <= w.value.requests <= L)
                    && (user in Run(h).windows || Expired(w.value, h[|h| - 1].now)))
  }

  lemma WindowsAreAMinuteApart(s: int, s': int, from: int)
    requires from <= s && s + MINUTE <= s'
    ensures (s - from) / MINUTE + 1 <= (s' - from) / MINUTE
  {}

  lemma MoreWindows(L: nat, a: int, b: int)
    requires a <= b
    ensures L * a <= L * b
  {}

  /** A window opened at `now`, a minute or more after the last one, leaves room for everything admitted so far. */
  lemma NewWindowHasRoom(w: Option<Window>, L: nat, from: int, now: int)
    requires w.Some? ==> w.value.start + MINUTE <= now
                         && if L == 0 then w.value.requests == 0 else 1 <= w.value.requests <= L
    requires from <= now
    ensures MostSince(w, L, from) <= L * ((now - from) / MINUTE + 1) - if L == 0 then 0 else 1
  {
    MoreWindows(L, 1, (now - from) / MINUTE + 1);
    if w.Some? && w.value.start >= from {
      WindowsAreAMinuteApart(w.value.start, now, from);
      MoreWindows(L, (w.value.start - from) / MINUTE + 1 + 1, (now - from) / MINUTE + 1);
      assert L * ((w.value.start - from) / MINUTE + 1 + 1) == L * ((w.value.start - from) / MINUTE + 1) + L;
    }
  }

  lemma OneMore(h: seq<Event>, ev: Event, user: string)
    ensures Run(h + [ev]) == Step(Run(h), ev).0
    ensures LastWindow(h + [ev], user)
         == if user in Run(h + [ev]).windows then Some(Run(h + [ev]).windows[user]) else LastWindow(h, user)
  {
    assert (h + [ev])[..|h|] == h;
  }

  /** The account of one user: what `from` on has been admitted fits the windows opened. */
  ghost predicate Accounted(h: seq<Event>, user: string, L: nat, from: int, to: int) {
    && WindowFits(h, user, L)
    && (h == [] || h[|h| - 1].now < from ==> Admitted(h, user, from, to) == 0)
    && (h != [] && h[|h| - 1].now >= from ==> Admitted(h, user, from, to) <= MostSince(LastWindow(h, user), L, from))
  }

  /** The request opens a window. */
  lemma OpeningIsAccounted(h: seq<Event>, ev: Event, user: string, L: int, from: int, to: int)
    requires Accounted(h, user, Max(L, 0), from, to) && (h != [] ==> h[|h| - 1].now <= ev.now)
    requires ev.op.Allow? && ev.op.user == user && ev.op.limits.Some? && ev.op.limits.value.requests == L
    requires user !in Run(h).windows || Expired(Run(h).windows[user], ev.now)
    ensures Accounted(h + [ev], user, Max(L, 0), from, to)
  {
    OneMore(h, ev, user);
    assert (h + [ev])[..|h|] == h;
    if ev.now >= from { NewWindowHasRoom(LastWindow(h, user), Max(L, 0), from, ev.now); }
  }

  /** The request is counted in the window already open. */
  lemma CountingIsAccounted(h: seq<Event>, ev: Event, user: string, L: int, from: int, to: int)
    requires Accounted(h, user, Max(L, 0), from, to) && h != [] && h[|h| - 1].now <= ev.now
    requires ev.op.Allow? && ev.op.user == user && ev.op.limits.Some? && ev.op.limits.value.requests == L
    requires user in Run(h).windows && !Expired(Run(h).windows[user], ev.now)
    ensures Accounted(h + [ev], user, Max(L, 0), from, to)
  {
    OneMore(h, ev, user);
    assert (h + [ev])[..|h|] == h;
  }

  /** Nothing else opens windows, counts requests or forgets a window that is still good. */
  lemma OthersAreAccounted(h: seq<Event>, ev: Event, user: string, L: int, from: int, to: int)
    requires Accounted(h, user, Max(L, 0), from, to) && (h != [] ==> h[|h| - 1].now <= ev.now)
    requires SteadyOp(ev.op, user, L) && !(ev.op.Allow? && ev.op.user == user && ev.op.limits.Some?)
    ensures Accounted(h + [ev], user, Max(L, 0), from, to)
  {
    OneMore(h, ev, user);
    assert (h + [ev])[..|h|] == h;
  }

  lemma {:induction false} EveryRunIsAccounted(h: seq<Event>, user: string, L: int, from: int, to: int)
    requires Ordered(h) && Steady(h, user, L)
    ensures Accounted(h, user, Max(L, 0), from, to)
  {
    if h == [] {
    } else {
      var before, ev := h[..|h| - 1], h[|h| - 1];
      EveryRunIsAccounted(before, user, L, from, to);
      assert before + [ev] == h && SteadyOp(ev.op, user, L);
      if !(ev.op.Allow? && ev.op.user == user && ev.op.limits.Some?) {
        OthersAreAccounted(before, ev, user, L, from, to);
      } else if user !in Run(before).windows || Expired(Run(before).windows[user], ev.now) {
        OpeningIsAccounted(before, ev, user, L, from, to);
      } else {
        CountingIsAccounted(before, ev, user, L, from, to);
      }
    }
  }

  /** In k minutes from `from`, at most k windows open. */
  lemma MostInKMinutes(w: Option<Window>, L: nat, from: int, k: nat)
    requires w.Some? ==> w.value.start < from + k * MINUTE
                         && if L == 0 then w.value.requests == 0 else w.value.requests <= L
    ensures MostSince(w, L, from) <= if L == 0 then 0 else (k + 1) * L - 1
  {
    assert (k + 1) * L == L * k + L;
    if w.Some? && w.value.start >= from {
      var n := (w.value.start - from) / MINUTE;
      assert n < k;
      MoreWindows(L, n + 1, k);
    }
  }

  /**
   The sliding bound: with limiting on, a constant limit L and no reset, any k consecutive minutes
   hold fewer than (k + 1) * L admissions of a user, wherever they begin and wherever Cleanup happens;
   none at all if L is not positive.
   */
  lemma {:induction false} SlidingBound(h: seq<Event>, user: string, L: int, from: int, k: nat)
    requires Ordered(h) && Steady(h, user, L)
    ensures Admitted(h, user, from, from + k * MINUTE) <= if L <= 0 then 0 else (k + 1) * L - 1
  {
    if h == [] {
    } else {
      var to := from + k * MINUTE;
      if h[|h| - 1].now >= to {
        SlidingBound(h[..|h| - 1], user, L, from, k);
      } else {
        EveryRunIsAccounted(h, user, L, from, to);
        MostInKMinutes(LastWindow(h, user), Max(L, 0), from, k);
      }
    }
  }

  // ---- the bound is reached ----

  function Ask(user: string, now: int, L: int): Event { Event(now, Allow(user, Some(Limits(L, 0)))) }

  /** n requests of one user at one moment. */
  function Burst(h: seq<Event>, user: string, now: int, n: nat, L: int): seq<Event> {
    if n == 0 then h else Burst(h, user, now, n - 1, L) + [Ask(user, now, L)]
  }

  /** The history meets the bound's conditions and may go on at `now`. */
  ghost predicate Ready(h: seq<Event>, user: string, L: int, now: int) {
    Ordered(h) && Steady(h, user, L) && Run(h).enabled && (h != [] ==> h[|h| - 1].now <= now)
  }

  lemma OneAsk(h: seq<Event>, user: string, L: int, now: int, from: int, to: int)
    requires Ready(h, user, L, now) && Current(Run(h), user, now).requests < L
    ensures var h', w := h + [Ask(user, now, L)], Current(Run(h), user, now);
            && Ready(h', user, L, now)
            && user in Run(h').windows && Run(h').windows[user] == w.(requests := w.requests + 1)
            && Admitted(h', user, from, to) == Admitted(h, user, from, to) + if from <= now < to then 1 else 0
  {
    var h' := h + [Ask(user, now, L)];
    assert h'[..|h|] == h;
  }

  /** The user's window is this one, still open, and so many requests were admitted at a time in [from, to). */
  ghost predicate Stands(h: seq<Event>, user: string, now: int, L: int, w: Window, from: int, to: int, admitted: int) {
    && h != [] && Ready(h, user, L, now) && Admitted(h, user, from, to) == admitted
    && user in Run(h).windows && Run(h).windows[user] == w && !Expired(w, now)
  }

  function Many(from: int, now: int, to: int, n: nat): int { if from <= now < to then n else 0 }

  lemma AskStands(h: seq<Event>, user: string, now: int, L: int, w: Window, from: int, to: int, admitted: int)
    requires Stands(h, user, now, L, w, from, to, admitted) && w.requests < L
    ensures Stands(h + [Ask(user, now, L)], user, now, L, w.(requests := w.requests + 1),
                   from, to, admitted + Many(from, now, to, 1))
  {
    OneAsk(h, user, L, now, from, to);
  }

  lemma FirstStands(h: seq<Event>, user: string, now: int, L: int, from: int, to: int)
    requires Ready(h, user, L, now) && Current(Run(h), user, now).requests < L
    ensures var w := Current(Run(h), user, now);
            Stands(h + [Ask(user, now, L)], user, now, L, w.(requests := w.requests + 1),
                   from, to, Admitted(h, user, from, to) + Many(from, now, to, 1))
  {
    OneAsk(h, user, L, now, from, to);
  }

  /** A burst that fits the window is admitted as a whole. */
  lemma {:induction false} BurstIsAdmitted(h: seq<Event>, user: string, now: int, n: nat, L: nat, w: Window,
                                           from: int, to: int, admitted: int)
    requires n > 0 && Ready(h, user, L, now) && Current(Run(h), user, now) == w && w.requests + n <= L
    requires Admitted(h, user, from, to) == admitted
    ensures Stands(Burst(h, user, now, n, L), user, now, L, w.(requests := w.requests + n),
                   from, to, admitted + Many(from, now, to, n))
  {
    if n == 1 {
      FirstStands(h, user, now, L, from, to);
      assert Burst(h, user, now, 1, L) == h + [Ask(user, now, L)];
    } else {
      var before, w', a' := Burst(h, user, now, n - 1, L), w.(requests := w.requests + n - 1),
                            admitted + Many(from, now, to, n - 1);
      assert Burst(h, user, now, n, L) == before + [Ask(user, now, L)];
      assert w'.(requests := w'.requests + 1) == w.(requests := w.requests + n);
      assert a' + Many(from, now, to, 1) == admitted + Many(from, now, to, n);
      BurstIsAdmitted(h, user, now, n - 1, L, w, from, to, admitted);
      AskStands(before, user, now, L, w', from, to, a');
    }
  }

  /** k minutes and (k + 1) * L - 1, step by step. */
  function Minutes(k: nat): nat { if k == 0 then 0 else Minutes(k - 1) + MINUTE }

  function Most(L: nat, k: nat): int { if k == 0 then L - 1 else Most(L, k - 1) + L }

  lemma {:induction false} MinutesAreAProduct(k: nat)
    ensures Minutes(k) == k * MINUTE
  {
    if k == 0 {
    } else {
      MinutesAreAProduct(k - 1);
    }
  }

  lemma {:induction false} MostIsAProduct(L: nat, k: nat)
    ensures Most(L, k) == (k + 1) * L - 1
  {
    if k == 0 {
    } else {
      MostIsAProduct(L, k - 1);
      assert (k + 1) * L == k * L + L;
    }
  }

  /** One request just before time 0, the rest of its window at 0, then a full burst each time a window ends. */
  function Busy(user: string, L: nat, k: nat): seq<Event>
    requires L > 0
  {
    if k == 0 then Burst([Ask(user, -1, L)], user, 0, L - 1, L)
    else Burst(Busy(user, L, k - 1), user, Minutes(k) - 1, L, L)
  }

  ghost predicate Reaches(h: seq<Event>, user: string, L: nat, last: int, to: int, admitted: int) {
    && Ready(h, user, L, Max(0, last))
    && user in Run(h).windows && Run(h).windows[user] == Window(L, 0, last)
    && Admitted(h, user, 0, to) == admitted
  }

  lemma BusyBegins(user: string, L: nat, to: int)
    requires L > 0 && to > 0
    ensures Reaches(Busy(user, L, 0), user, L, -1, to, L - 1)
  {
    var first := [Ask(user, -1, L)];
    assert first == [] + first;
    OneAsk([], user, L, -1, 0, to);
    if L > 1 { BurstIsAdmitted(first, user, 0, L - 1, L, Window(1, 0, -1), 0, to, 0); }
  }

  lemma BusyGoesOn(h: seq<Event>, user: string, L: nat, last: int, next: int, to: int, admitted: int)
    requires L > 0 && -1 <= last && next == last + MINUTE < to && Reaches(h, user, L, last, to, admitted)
    ensures Reaches(Burst(h, user, next, L, L), user, L, next, to, admitted + L)
  {
    BurstIsAdmitted(h, user, next, L, L, Window(0, 0, next), 0, to, admitted);
  }

  ghost predicate FillsUp(user: string, L: nat, k: nat, to: int)
    requires L > 0
  {
    Reaches(Busy(user, L, k), user, L, Minutes(k) - 1, to, Most(L, k))
  }

  lemma BusyNext(user: string, L: nat, k: nat, to: int)
    requires L > 0 && k > 0 && to >= Minutes(k) && FillsUp(user, L, k - 1, to)
    ensures FillsUp(user, L, k, to)
  {
    var h, last, admitted := Busy(user, L, k - 1), Minutes(k - 1) - 1, Most(L, k - 1);
    BusyGoesOn(h, user, L, last, last + MINUTE, to, admitted);
    assert Busy(user, L, k) == Burst(h, user, last + MINUTE, L, L);
  }

  lemma {:induction false} BusyReaches(user: string, L: nat, k: nat, to: int)
    requires L > 0 && to >= Minutes(k) && to > 0
    ensures FillsUp(user, L, k, to)
  {
    if k == 0 {
      BusyBegins(user, L, to);
    } else {
      BusyReaches(user, L, k - 1, to);
      BusyNext(user, L, k, to);
    }
  }

  /** No smaller bound holds: for every L and k there is a run with (k + 1) * L - 1 admissions in k minutes. */
  lemma SlidingBoundIsReached(user: string, L: nat, k: nat)
    requires L > 0 && k > 0
    ensures var h := Busy(user, L, k);
            Ordered(h) && Steady(h, user, L) && Admitted(h, user, 0, k * MINUTE) == (k + 1) * L - 1
  {
    MinutesAreAProduct(k);
    MostIsAProduct(L, k);
    BusyReaches(user, L, k, Minutes(k));
  }
}

/** The limiter object. */
module RateLimit {
  import opened Common
  import Spec = RateLimitSpec

  class Window {
    ghost const user: string
    var requests: int
    var tokens: int
    var start: int

    constructor (ghost user: string, now: int)
      ensures this.user == user && View() == Spec.Window(0, 0, now)
    {
      this.user := user;
      requests, tokens, start := 0, 0, now;
    }

    ghost function View(): Spec.Window
      reads this
    {
      Spec.Window(requests, tokens, start)
    }
  }

  /** What storage says about a user. */
  datatype User = StorageError | Unknown | Known(active: bool, limits: Spec.Limits)

  class Limiter {
    const defaults: Spec.Limits
    var enabled: bool
    var windows: map<string, Window>
    ghost var Table: map<string, Spec.Window>
    ghost var Repr: set<Window>

    ghost predicate Valid()
      reads this, Repr
    {
      && Table.Keys == windows.Keys
      && (forall u :: u in windows ==>
            windows[u] in Repr && windows[u].user == u && windows[u].View() == Table[u])
    }

    ghost function State(): Spec.State
      reads this
    {
      Spec.State(enabled, Table)
    }

    constructor (enabled: bool, defaults: Spec.Limits)
      ensures Valid() && fresh(Repr) && State() == Spec.State(enabled, map[]) && this.defaults == defaults
    {
      this.enabled, this.defaults := enabled, defaults;
      windows, Table, Repr := map[], map[], {};
    }

    function UserLimits(user: User): (limits: Option<Spec.Limits>)
      ensures limits.None? <==> user.StorageError?
      ensures limits.Some? ==> limits.value == if user.Known? && user.active then user.limits else defaults
    {
      match user
      case StorageError => None
      case Known(true, limits) => Some(limits)
      case _ => Some(defaults)
    }

    method Allow(username: string, user: User, now: int) returns (r: Spec.Answer)
      requires Valid()
      modifies this, Repr
      ensures Valid() && fresh(Repr - old(Repr))
      ensures (State(), r) == Spec.Step(old(State()), Spec.Event(now, Spec.Allow(username, UserLimits(user))))
    {
      if !enabled { return Spec.UNLIMITED; }
      var limits := UserLimits(user);
      if limits.None? { return Spec.Failed; }
      r := CountRequest(username, limits.value, now);
    }

    // The part of Allow that holds the lock.
    method CountRequest(username: string, limits: Spec.Limits, now: int) returns (r: Spec.Answer)
      requires Valid() && enabled
      modifies this`windows, this`Table, this`Repr, Repr
      ensures Valid() && fresh(Repr - old(Repr))
      ensures (State(), r) == Spec.Step(old(State()), Spec.Event(now, Spec.Allow(username, Some(limits))))
    {
      Open(username, now);
      r := CountInWindow(username, limits, now);
      assert Table == old(Table)[username := Table[username]];
    }

    method CountInWindow(username: string, limits: Spec.Limits, now: int) returns (r: Spec.Answer)
      requires Valid() && username in windows
      modifies this`Table, windows[username]
      ensures Valid() && Table == old(Table)[username := Spec.Counted(old(Table)[username], limits, now).0]
      ensures r == Spec.Counted(old(Table)[username], limits, now).1
    {
      var window := windows[username];
      if window.requests >= limits.requests {
        var resetAt := window.start + Spec.MINUTE;
        return Spec.Checked(false, 0, limits.tokens - window.tokens, Some(resetAt), resetAt - now);
      }
      Bump(username, 1, 0);
      r := Spec.Checked(true, limits.requests - window.requests, limits.tokens - window.tokens,
                        Some(window.start + Spec.MINUTE), 0);
    }

    // The user's window, replaced by a new one if it is missing or expired.
    method Open(username: string, now: int)
      requires Valid()
      modifies this`windows, this`Table, this`Repr
      ensures Valid() && fresh(Repr - old(Repr)) && username in windows
      ensures windows[username] in old(Repr) || fresh(windows[username])
      ensures Table == old(Table)[username := Spec.Current(old(State()), username, now)]
    {
      if username !in windows || now - windows[username].start >= Spec.MINUTE {
        var window := new Window(username, now);
        windows, Table, Repr := windows[username := window], Table[username := window.View()], Repr + {window};
      }
    }

    // window.Requests and window.Tokens are incremented in place.
    method Bump(username: string, requests: int, tokens: int)
      requires Valid() && username in windows
      modifies this`Table, windows[username]
      ensures Valid()
      ensures var w := old(Table[username]);
              Table == old(Table)[username := Spec.Window(w.requests + requests, w.tokens + tokens, w.start)]
    {
      var window := windows[username];
      assert forall u :: u in windows && u != username ==> windows[u] != window;
      window.requests := window.requests + requests;
      window.tokens := window.tokens + tokens;
      Table := Table[username := window.View()];
    }

    method RecordTokens(username: string, tokens: int, now: int)
      requires Valid()
      modifies this`Table, Repr
      ensures Valid()
      ensures State() == Spec.Step(old(State()), Spec.Event(now, Spec.RecordTokens(username, tokens))).0
    {
      if enabled && username in windows { Bump(username, 0, tokens); }
    }

    method CheckTokens(username: string, tokens: int, user: User, now: int) returns (r: Spec.Answer)
      requires Valid()
      ensures (State(), r) == Spec.Step(State(), Spec.Event(now, Spec.CheckTokens(username, tokens, UserLimits(user))))
    {
      if !enabled { return Spec.UNLIMITED; }
      var limits := UserLimits(user);
      if limits.None? { return Spec.Failed; }
      var most := limits.value.tokens;
      if username !in windows { return Spec.Checked(true, 0, most, None, 0); }
      var window := windows[username];
      if now - window.start >= Spec.MINUTE { return Spec.Checked(true, 0, most, None, 0); }
      if window.tokens + tokens > most {
        var resetAt := window.start + Spec.MINUTE;
        return Spec.Checked(false, 0, most - window.tokens, Some(resetAt), resetAt - now);
      }
      r := Spec.Checked(true, 0, most - window.tokens - tokens, None, 0);
    }

    method Reset(username: string, now: int)
      requires Valid()
      modifies this`windows, this`Table
      ensures Valid() && State() == Spec.Step(old(State()), Spec.Event(now, Spec.Reset(username))).0
    {
      windows, Table := windows - {username}, Table - {username};
    }

    method ResetAll(now: int)
      requires Valid()
      modifies this`windows, this`Table
      ensures Valid() && State() == Spec.Step(old(State()), Spec.Event(now, Spec.ResetAll)).0
    {
      windows, Table := map[], map[];
    }

    method SetEnabled(on: bool, now: int)
      requires Valid()
      modifies this`enabled
      ensures Valid() && State() == Spec.Step(old(State()), Spec.Event(now, Spec.SetEnabled(on))).0
    {
      enabled := on;
    }

    method Cleanup(now: int)
      requires Valid()
      modifies this`windows, this`Table
      ensures Valid() && State() == Spec.Step(old(State()), Spec.Event(now, Spec.Cleanup)).0
    {
      var todo := windows.Keys;
      while todo != {}
        invariant Valid() && todo <= windows.Keys
        invariant Table == Spec.SweptBut(old(Table), now, todo)
        decreases todo
      {
        var username :| username in todo;
        todo := todo - {username};
        if now - windows[username].start >= 5 * Spec.MINUTE {
          windows, Table := windows - {username}, Table - {username};
        }
      }
    }
  }

  /** The requests a minute a user is held to, given what storage says of them; none while it cannot say. */
  function HeldTo(who: User, defaults: Spec.Limits): int {
    match who
    case StorageError => 0
    case Known(true, own) => own.requests
    case _ => defaults.requests
  }

  /** The user keeps the same standing throughout, limiting stays on and nobody resets the user. */
  ghost predicate Standing(l: Limiter, who: User, h: seq<Spec.Event>, user: string) {
    forall i :: 0 <= i < |h| ==>
      && !h[i].op.SetEnabled? && !h[i].op.ResetAll? && h[i].op != Spec.Reset(user)
      && (h[i].op.Allow? && h[i].op.user == user ==> h[i].op.limits == l.UserLimits(who))
  }

  /**
   The limits looked up are the limits enforced: over any k minutes an active user is bound by their own
   limit, an inactive or unknown one by the defaults, and nobody gets in while storage fails.
   */
  lemma UsersAreHeldToTheirLimits(l: Limiter, who: User, h: seq<Spec.Event>, user: string, from: int, k: nat)
    requires Spec.Ordered(h) && Standing(l, who, h, user)
    ensures var L := HeldTo(who, l.defaults);
            Spec.Admitted(h, user, from, from + k * Spec.MINUTE) <= if L <= 0 then 0 else (k + 1) * L - 1
  {
    var L := HeldTo(who, l.defaults);
    forall i | 0 <= i < |h| ensures Spec.SteadyOp(h[i].op, user, L) {}
    Spec.SlidingBound(h, user, L, from, k);
  }
}
