/**
 What the cache of internal/cache/cache.go keeps: which events leave a key alone, and how long a key that
 was set is sure to stay.
 */
module Retention {
  import opened Common
  import opened Lru
  import opened CacheSpec

  // ---- places in a list ----

  /** The keys in front of k. */
  ghost function Ahead(l: List, k: string): set<string> {
    if l == [] || l[0].key == k then {} else {l[0].key} + Ahead(l[1..], k)
  }

  lemma {:induction false} LookupWithout(l: List, k: string, other: string)
    requires k != other
    ensures Lookup(Without(l, k), other) == Lookup(l, other)
    ensures Ahead(Without(l, k), other) <= Ahead(l, other)
  {
    if l == [] {
    } else {
      LookupWithout(l[1..], k, other);
      assert l[0].key != k ==> Without(l, k)[0] == l[0] && Without(l, k)[1..] == Without(l[1..], k);
    }
  }

  lemma {:induction false} LookupLive(l: List, now: int, k: string)
    requires Distinct(l)
    ensures Lookup(Live(l, now), k)
         == if HasKey(l, k) && Expired(Lookup(l, k).value, now) then None else Lookup(l, k)
  {
    if l == [] {
    } else {
      LookupLive(l[1..], now, k);
      assert !Expired(l[0], now) ==> Live(l, now)[0] == l[0] && Live(l, now)[1..] == Live(l[1..], now);
    }
  }

  lemma {:induction false} AheadLive(l: List, now: int, k: string)
    requires HasKey(l, k) && !Expired(Lookup(l, k).value, now)
    ensures Ahead(Live(l, now), k) <= Ahead(l, k)
  {
    if l[0].key != k { AheadLive(l[1..], now, k); }
    assert !Expired(l[0], now) ==> Live(l, now)[0] == l[0] && Live(l, now)[1..] == Live(l[1..], now);
  }

  lemma PushedAhead(l: List, e: Entry, k: string)
    ensures Lookup([e] + l, k) == if e.key == k then Some(e) else Lookup(l, k)
    ensures Ahead([e] + l, k) == if e.key == k then {} else {e.key} + Ahead(l, k)
  {
    assert ([e] + l)[1..] == l;
  }

  lemma {:induction false} AheadAreThere(l: List, k: string, other: string)
    ensures other in Ahead(l, k) ==> HasKey(l, other)
  {
    if l == [] {
    } else {
      AheadAreThere(l[1..], k, other);
    }
  }

  /** A prefix has the key exactly if it reaches beyond all that is in front of it. */
  lemma {:induction false} PrefixReaches(l: List, k: string, n: nat)
    requires Distinct(l) && HasKey(l, k) && n <= |l|
    ensures |Ahead(l, k)| < |l|
    ensures HasKey(l[..n], k) <==> |Ahead(l, k)| < n
    ensures HasKey(l[..n], k) ==> Lookup(l[..n], k) == Lookup(l, k) && Ahead(l[..n], k) == Ahead(l, k)
  {
    if l[0].key == k {
    } else {
      AheadAreThere(l[1..], k, l[0].key);
      if n > 0 {
        assert l[..n][1..] == l[1..][..n - 1];
        PrefixReaches(l[1..], k, n - 1);
      } else {
        PrefixReaches(l[1..], k, 0);
      }
    }
  }

  // ---- one event ----

  /** A new key pushes an old one out if and only if it, what is in front of it and the new one do not fit together. */
  lemma EvictedIff(cfg: Config, l: List, e: Entry, k: string)
    requires cfg.numShards > 0 && Distinct(l) && HasKey(l, k) && !HasKey(l, e.key)
    ensures var place := |Ahead(l, k)| + 1;
            && place <= |l|
            && (HasKey(Store(cfg, l, e), k) <==>
                place < Cap(cfg) && (cfg.maxMemoryMB <= 0 || Total(l[..place]) + e.storedSize <= Budget(cfg)))
            && (HasKey(Store(cfg, l, e), k) ==> Lookup(Store(cfg, l, e), k) == Lookup(l, k)
                                                && Ahead(Store(cfg, l, e), k) == {e.key} + Ahead(l, k))
  {
    var rest := MakeRoom(cfg, l, e.storedSize);
    var place := |Ahead(l, k)| + 1;
    MakeRoomPrefix(cfg, l, e.storedSize);
    assert rest == l[..|rest|];
    PrefixReaches(l, k, |rest|);
    PushedAhead(rest, e, k);
    if |rest| < place {
      MakeRoomEvictsOnlyWhatItMust(cfg, l, e.storedSize, place);
    } else {
      TotalPrefix(l[..place], rest);
    }
  }

  /** The outcome of a Get depends on nothing but the entry under its key. */
  lemma SameEntrySameAnswer(env: Env, l: List, l': List, key: string, now: int)
    requires Lookup(l, key) == Lookup(l', key)
    ensures Fetch(env, l, key, now).1 == Fetch(env, l', key, now).1
  {}

  /** Nothing about this key: a Get or Delete of another, or a cleanup no later than `now`. */
  predicate Unrelated(ev: Event, key: string, now: int) {
    match ev.op
    case Get(k) => k != key
    case Delete(k) => k != key
    case CleanupShard(_) => ev.now <= now
    case _ => false
  }

  /** Reading or deleting another key, or cleaning up, changes no answer. */
  lemma UnrelatedEventsDoNotShow(env: Env, st: State, ev: Event, key: string, now: int)
    requires Sound(st) && Unrelated(ev, key, now)
    requires Distinct(st.shards[ShardOf(env, st.cfg, key)])
    ensures var get := Event(now, Get(key));
            Apply(env, Apply(env, st, ev).0, get).1 == Apply(env, st, get).1
  {
    var i := ShardOf(env, st.cfg, key);
    var l, l' := st.shards[i], Apply(env, st, ev).0.shards[i];
    match ev.op
    case Get(k) =>
      LookupWithout(l, k, key);
      if HasKey(l, k) {
        var at := LookupFinds(l, k);
        PushedAhead(Without(l, k), l[at], key);
      }
      SameEntrySameAnswer(env, l, l', key, now);
    case Delete(k) =>
      LookupWithout(l, k, key);
      SameEntrySameAnswer(env, l, l', key, now);
    case CleanupShard(_) => LookupLive(l, ev.now, key);
  }

  /** A Delete takes its own key and no other: that one misses at once, the rest answer as before. */
  lemma DeleteTakesOneKey(env: Env, cfg: Config, h: seq<Event>, t: int, key: string, other: string, now: int)
    requires cfg.numShards > 0
    ensures var st := Run(env, cfg, h);
            var get := Event(now, Get(other));
            Apply(env, Run(env, cfg, h + [Event(t, Delete(key))]), get).1
            == if other == key then Miss else Apply(env, st, get).1
  {
    var i := ShardOf(env, cfg, other);
    RunDistinct(env, cfg, h, i);
    RunSnoc(env, cfg, h, Event(t, Delete(key)));
    if other == key {
      WithoutMembers(Run(env, cfg, h).shards[i], key);
    } else {
      UnrelatedEventsDoNotShow(env, Run(env, cfg, h), Event(t, Delete(key)), other, now);
    }
  }

  // ---- whole runs ----

  /** The event does not take the key away by name, by clearing its shard, or by finding it expired. */
  ghost predicate Spares(env: Env, cfg: Config, ev: Event, key: string, expiresAt: int)
    requires cfg.numShards > 0
  {
    match ev.op
    case Get(k) => k == key ==> ev.now <= expiresAt
    case Set(k, value, _) => k == key ==> !Accepts(cfg, value)
    case Delete(k) => k != key
    case ClearShard(i) => i != ShardOf(env, cfg, key)
    case CleanupShard(i) => i == ShardOf(env, cfg, key) ==> ev.now <= expiresAt
    case _ => true
  }

  /** The other key of the same shard that an event reads or sets, if any. */
  ghost function Named(env: Env, cfg: Config, ev: Event, key: string): set<string>
    requires cfg.numShards > 0
  {
    var k := match ev.op case Get(k) => k case Set(k, _, _) => k case _ => key;
    if k != key && ShardOf(env, cfg, k) == ShardOf(env, cfg, key) then {k} else {}
  }

  /** The other keys of its shard that were read or set since the first `from` events. */
  ghost function Rivals(env: Env, cfg: Config, h: seq<Event>, from: nat, key: string): set<string>
    requires cfg.numShards > 0
  {
    if |h| <= from then {}
    else Rivals(env, cfg, h[..|h| - 1], from, key) + Named(env, cfg, h[|h| - 1], key)
  }

  /** An entry, t entries in front of it and one more fit, if none is larger than `limit`. */
  ghost predicate Roomy(cfg: Config, t: nat, limit: nat)
    requires cfg.numShards > 0
  {
    t < Cap(cfg) && (cfg.maxMemoryMB <= 0 || (t + 1) * limit <= Budget(cfg))
  }

  ghost predicate Holds(env: Env, st: State, e: Entry, ahead: set<string>)
    requires Sound(st)
  {
    var l := st.shards[ShardOf(env, st.cfg, e.key)];
    Lookup(l, e.key) == Some(e) && Ahead(l, e.key) <= ahead
  }

  lemma BytesFit(l: List, n: nat, t: nat, size: nat, limit: nat)
    requires n <= |l| && n <= t && size <= limit && forall x :: x in l ==> x.storedSize <= limit
    ensures Total(l[..n]) + size <= (t + 1) * limit
  {
    TotalAtMost(l[..n], limit);
    MulMonotone(n + 1, t + 1, limit);
    assert (n + 1) * limit == n * limit + limit;
  }

  lemma FewAhead(l: List, k: string, newcomer: string, ahead: set<string>)
    requires HasKey(l, k) && !HasKey(l, newcomer) && Ahead(l, k) <= ahead && newcomer in ahead
    ensures |Ahead(l, k)| + 1 <= |ahead|
  {
    AheadAreThere(l, k, newcomer);
    Cardinality(Ahead(l, k) + {newcomer}, ahead);
  }

  lemma InsertHolds(cfg: Config, l: List, e: Entry, made: Entry, ahead: set<string>, limit: nat)
    requires cfg.numShards > 0 && Distinct(l) && Lookup(l, e.key) == Some(e) && !HasKey(l, made.key)
    requires Ahead(l, e.key) <= ahead && made.key in ahead && Roomy(cfg, |ahead|, limit)
    requires made.storedSize <= limit && forall x :: x in l ==> x.storedSize <= limit
    ensures Lookup(Store(cfg, l, made), e.key) == Some(e) && Ahead(Store(cfg, l, made), e.key) <= ahead
  {
    EvictedIff(cfg, l, made, e.key);
    FewAhead(l, e.key, made.key, ahead);
    BytesFit(l, |Ahead(l, e.key)| + 1, |ahead|, made.storedSize, limit);
  }

  lemma {:induction false} Cardinality(a: set<string>, b: set<string>)
    requires a <= b
    ensures |a| <= |b|
  {
    if a != {} {
      var x :| x in a;
      Cardinality(a - {x}, b - {x});
    }
  }

  lemma SetHolds(env: Env, st: State, ev: Event, e: Entry, ahead: set<string>, limit: nat)
    requires Sound(st) && Distinct(st.shards[ShardOf(env, st.cfg, e.key)]) && Holds(env, st, e, ahead)
    requires ev.op.Set? && Spares(env, st.cfg, ev, e.key, e.expiresAt) && Named(env, st.cfg, ev, e.key) <= ahead
    requires Roomy(st.cfg, |ahead|, limit)
    requires forall x :: x in st.shards[ShardOf(env, st.cfg, e.key)] ==> x.storedSize <= limit
    requires Accepts(st.cfg, ev.op.value) ==> |ev.op.value| <= limit
    ensures Holds(env, Apply(env, st, ev).0, e, ahead)
  {
    var i := ShardOf(env, st.cfg, e.key);
    var l := st.shards[i];
    if Accepts(st.cfg, ev.op.value) && ShardOf(env, st.cfg, ev.op.key) == i {
      var made := MakeEntry(env, st.cfg, ev.op.key, ev.op.value, ev.now + ev.op.ttl);
      assert ev.op.key in Named(env, st.cfg, ev, e.key);
      if HasKey(l, made.key) {
        LookupWithout(l, made.key, e.key);
        PushedAhead(Without(l, made.key), made, e.key);
      } else {
        InsertHolds(st.cfg, l, e, made, ahead, limit);
      }
    }
  }

  lemma GetHolds(env: Env, st: State, ev: Event, e: Entry, ahead: set<string>)
    requires Sound(st) && Distinct(st.shards[ShardOf(env, st.cfg, e.key)]) && Holds(env, st, e, ahead)
    requires ev.op.Get? && Spares(env, st.cfg, ev, e.key, e.expiresAt) && Named(env, st.cfg, ev, e.key) <= ahead
    requires Unpack(env, e).Some?
    ensures Holds(env, Apply(env, st, ev).0, e, ahead)
  {
    var i := ShardOf(env, st.cfg, e.key);
    var l, k := st.shards[i], ev.op.key;
    if st.cfg.enabled && ShardOf(env, st.cfg, k) == i {
      if k != e.key { LookupWithout(l, k, e.key); }
      if HasKey(l, k) {
        var at := LookupFinds(l, k);
        PushedAhead(Without(l, k), l[at], e.key);
      }
    }
  }

  /** One event that spares an entry leaves it where it is but for those it names, as long as all of them fit. */
  lemma StepHolds(env: Env, st: State, ev: Event, e: Entry, ahead: set<string>, limit: nat)
    requires Sound(st) && Distinct(st.shards[ShardOf(env, st.cfg, e.key)]) && Holds(env, st, e, ahead)
    requires Spares(env, st.cfg, ev, e.key, e.expiresAt) && Named(env, st.cfg, ev, e.key) <= ahead
    requires Unpack(env, e).Some? && Roomy(st.cfg, |ahead|, limit)
    requires forall x :: x in st.shards[ShardOf(env, st.cfg, e.key)] ==> x.storedSize <= limit
    requires ev.op.Set? && Accepts(st.cfg, ev.op.value) ==> |ev.op.value| <= limit
    ensures Holds(env, Apply(env, st, ev).0, e, ahead)
  {
    var l := st.shards[ShardOf(env, st.cfg, e.key)];
    match ev.op
    case Get(_) => GetHolds(env, st, ev, e, ahead);
    case Set(_, _, _) => SetHolds(env, st, ev, e, ahead, limit);
    case Delete(k) => LookupWithout(l, k, e.key);
    case CleanupShard(_) =>
      if !Expired(e, ev.now) {
        LookupLive(l, ev.now, e.key);
        AheadLive(l, ev.now, e.key);
      }
    case _ =>
  }

  /** The largest value that was ever accepted. */
  ghost function LargestValue(cfg: Config, h: seq<Event>): nat {
    if h == [] then 0
    else
      var before, op := LargestValue(cfg, h[..|h| - 1]), h[|h| - 1].op;
      if op.Set? && Accepts(ConfigAfter(cfg, h[..|h| - 1]), op.value) then Max(before, |op.value|) else before
  }

  lemma {:induction false} EntriesAreNoLarger(env: Env, cfg: Config, h: seq<Event>, i: nat, e: Entry)
    requires cfg.numShards > 0 && i < cfg.numShards && e in Run(env, cfg, h).shards[i]
    ensures e.storedSize <= LargestValue(cfg, h)
  {
    if h == [] {
    } else {
      var before := h[..|h| - 1];
      ConfigIsAfter(env, cfg, before);
      RunDistinct(env, cfg, before, i);
      if e in Run(env, cfg, before).shards[i] {
        EntriesAreNoLarger(env, cfg, before, i, e);
      } else {
        NewcomerIsTheSet(env, Run(env, cfg, before), h[|h| - 1], i, e);
      }
    }
  }

  lemma {:induction false} LargestGrows(cfg: Config, h: seq<Event>, n: nat)
    requires n <= |h|
    ensures LargestValue(cfg, h[..n]) <= LargestValue(cfg, h)
  {
    if n == |h| {
      assert h[..n] == h;
    } else {
      LargestGrows(cfg, h[..|h| - 1], n);
      assert h[..|h| - 1][..n] == h[..n];
    }
  }

  /** The event at index p stores this entry. */
  ghost predicate StoredAt(env: Env, cfg: Config, h: seq<Event>, p: nat, e: Entry)
    requires cfg.numShards > 0
  {
    p < |h| && StoredBy(env, Run(env, cfg, h[..p]), h[p]) == Some(e)
  }

  /** Everything after the event at index p spares the key, with room for `t` others and values up to `limit`. */
  ghost predicate SparedSince(env: Env, cfg: Config, h: seq<Event>, p: nat, key: string, expiresAt: int,
                              t: nat, limit: nat)
    requires cfg.numShards > 0
  {
    |h| <= p + 1 ||
    var before := h[..|h| - 1];
    && SparedSince(env, cfg, before, p, key, expiresAt, t, limit)
    && Spares(env, ConfigAfter(cfg, before), h[|before|], key, expiresAt)
    && Roomy(ConfigAfter(cfg, before), t, limit)
  }

  lemma {:induction false} HoldsAfter(env: Env, cfg: Config, h: seq<Event>, p: nat, e: Entry,
                                      ahead: set<string>, limit: nat)
    requires cfg.numShards > 0 && Unpack(env, e).Some? && StoredAt(env, cfg, h, p, e)
    requires SparedSince(env, cfg, h, p, e.key, e.expiresAt, |ahead|, limit)
    requires Rivals(env, cfg, h, p + 1, e.key) <= ahead && LargestValue(cfg, h) <= limit
    ensures Holds(env, Run(env, cfg, h), e, ahead)
  {
    var before := h[..|h| - 1];
    var st, i := Run(env, cfg, before), ShardOf(env, cfg, e.key);
    ConfigIsAfter(env, cfg, before);
    if p == |before| {
      StoreInFront(st.cfg, st.shards[i], e);
    } else {
      assert before[..p] == h[..p];
      LargestGrows(cfg, h, |before|);
      HoldsAfter(env, cfg, before, p, e, ahead, limit);
      RunDistinct(env, cfg, before, i);
      forall x | x in st.shards[i] ensures x.storedSize <= limit { EntriesAreNoLarger(env, cfg, before, i, x); }
      StepHolds(env, st, h[|before|], e, ahead, limit);
    }
  }

  lemma StoreInFront(cfg: Config, l: List, e: Entry)
    requires cfg.numShards > 0
    ensures Lookup(Store(cfg, l, e), e.key) == Some(e) && Ahead(Store(cfg, l, e), e.key) == {}
  {}

  lemma UnpacksToTheValue(env: Env, cfg: Config, key: string, value: Bytes, expiresAt: int)
    requires Lossless(env.gzip)
    ensures Unpack(env, MakeEntry(env, cfg, key, value, expiresAt)) == Some(value)
  {}

  lemma HeldIsAnswered(env: Env, st: State, e: Entry, ahead: set<string>, value: Bytes, now: int)
    requires Sound(st) && st.cfg.enabled && Holds(env, st, e, ahead)
    requires Unpack(env, e) == Some(value) && now <= e.expiresAt
    ensures Apply(env, st, Event(now, Get(e.key))).1 == Hit(value)
  {}

  lemma SparedIsAnswered(env: Env, cfg: Config, h: seq<Event>, p: nat, e: Entry, value: Bytes, now: int)
    requires cfg.numShards > 0 && StoredAt(env, cfg, h, p, e) && Unpack(env, e) == Some(value)
    requires now <= e.expiresAt && ConfigAfter(cfg, h).enabled
    requires var t := |Rivals(env, cfg, h, p + 1, e.key)|;
             SparedSince(env, cfg, h, p, e.key, e.expiresAt, t, LargestValue(cfg, h))
    ensures Apply(env, Run(env, cfg, h), Event(now, Get(e.key))).1 == Hit(value)
  {
    var rivals := Rivals(env, cfg, h, p + 1, e.key);
    ConfigIsAfter(env, cfg, h);
    HoldsAfter(env, cfg, h, p, e, rivals, LargestValue(cfg, h));
    HeldIsAnswered(env, Run(env, cfg, h), e, rivals, value, now);
  }

  lemma AcceptedIsStored(env: Env, st: State, ev: Event)
    requires ev.op.Set? && Accepts(st.cfg, ev.op.value)
    ensures StoredBy(env, st, ev) == Some(MakeEntry(env, st.cfg, ev.op.key, ev.op.value, ev.now + ev.op.ttl))
  {}

  /**
   What LRU promises: a key that was set is still answered, with the value and until the time given then,
   unless it was set or deleted itself, or its shard cleared, since; or so many other keys of its shard
   were read or set since that they and it no longer fit.
   */
  lemma RecentKeysStay(env: Env, cfg: Config, h: seq<Event>, p: nat, now: int)
    requires cfg.numShards > 0 && Lossless(env.gzip) && p < |h| && h[p].op.Set?
    requires Accepts(ConfigAfter(cfg, h[..p]), h[p].op.value)
    requires var key, expiresAt := h[p].op.key, h[p].now + h[p].op.ttl;
             && now <= expiresAt && ConfigAfter(cfg, h).enabled
             && SparedSince(env, cfg, h, p, key, expiresAt, |Rivals(env, cfg, h, p + 1, key)|, LargestValue(cfg, h))
    ensures Apply(env, Run(env, cfg, h), Event(now, Get(h[p].op.key))).1 == Hit(h[p].op.value)
  {
    var ev, was := h[p], ConfigAfter(cfg, h[..p]);
    var e := MakeEntry(env, was, ev.op.key, ev.op.value, ev.now + ev.op.ttl);
    UnpacksToTheValue(env, was, ev.op.key, ev.op.value, ev.now + ev.op.ttl);
    ConfigIsAfter(env, cfg, h[..p]);
    AcceptedIsStored(env, Run(env, cfg, h[..p]), ev);
    SparedIsAnswered(env, cfg, h, p, e, ev.op.value, now);
  }

  // ---- one key written and read ----

  /**
   Written, then read: while caching is on, a value no longer than the item limit is answered until its
   time is over, and a longer one changes nothing; while it is off nothing is stored or answered.
   */
  lemma SetIsAnswered(env: Env, cfg: Config, h: seq<Event>, t: int, key: string, value: Bytes, ttl: int, now: int)
    requires cfg.numShards > 0 && Lossless(env.gzip)
    ensures var st := Run(env, cfg, h);
            var st' := Run(env, cfg, h + [Event(t, Set(key, value, ttl))]);
            && (!st.cfg.enabled || |value| > st.cfg.maxItemSize ==> st' == st)
            && Apply(env, st', Event(now, Get(key))).1
               == if !st.cfg.enabled then Miss
                  else if |value| > st.cfg.maxItemSize then Apply(env, st, Event(now, Get(key))).1
                  else if now <= t + ttl then Hit(value) else Miss
  {
    RunSnoc(env, cfg, h, Event(t, Set(key, value, ttl)));
    var st := Run(env, cfg, h);
    var e := MakeEntry(env, st.cfg, key, value, t + ttl);
    StoreInFront(st.cfg, st.shards[ShardOf(env, cfg, key)], e);
  }

  /** No event from index `from` on is one of these. */
  ghost predicate LacksSince(h: seq<Event>, from: nat, p: Op -> bool) {
    forall n :: from <= n < |h| ==> !p(h[n].op)
  }

  /** A new configuration holds until the next one; SetEnabled overrules its switch and nothing else. */
  lemma {:induction false} SettingsHold(cfg: Config, h: seq<Event>, p: nat)
    requires p < |h| && h[p].op.UpdateConfig? && LacksSince(h, p + 1, (op: Op) => op.UpdateConfig?)
    ensures var now, op := ConfigAfter(cfg, h), h[p].op;
            && now.maxItemSize == op.maxItemSize && now.maxMemoryMB == op.maxMemoryMB
            && now.compressionEnabled == op.compressionEnabled
            && now.compressionMinSize == cfg.compressionMinSize
            && (LacksSince(h, p + 1, (op: Op) => op.SetEnabled?) ==> now.enabled == op.enabled)
            && (h[|h| - 1].op.SetEnabled? ==> now.enabled == h[|h| - 1].op.enabled)
  {
    var before := h[..|h| - 1];
    MinSizeStays(cfg, h);
    if p < |before| {
      assert before[p] == h[p];
      assert forall n :: p < n < |before| ==> before[n] == h[n];
      SettingsHold(cfg, before, p);
    }
  }

  lemma {:induction false} MinSizeStays(cfg: Config, h: seq<Event>)
    ensures ConfigAfter(cfg, h).compressionMinSize == cfg.compressionMinSize
  {
    if h == [] {
    } else {
      MinSizeStays(cfg, h[..|h| - 1]);
    }
  }
}
