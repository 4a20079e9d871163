/**
 What the sharded cache of internal/cache/cache.go does, as one atomic step per shard lock.
 `Clear` and `cleanup` take the shard locks one after another, so they appear here as one
 event per shard and may be interleaved with anything.
 */
module CacheSpec {
  import opened Common
  import opened Lru

  datatype Config = Config(
    enabled: bool,
    maxSize: int,
    maxMemoryMB: int,
    maxItemSize: int,
    numShards: int,
    compressionEnabled: bool,
    compressionMinSize: int)

  /** gzip as an oracle; None stands for a returned error. */
  datatype Gzip = Gzip(compress: Bytes -> Option<Bytes>, decompress: Bytes -> Option<Bytes>)

  /** `hash` stands for 32-bit FNV-1a. */
  datatype Env = Env(hash: string -> nat, gzip: Gzip)

  datatype Op =
    | Get(key: string)
    | Set(key: string, value: Bytes, ttl: int)
    | Delete(key: string)
    | ClearShard(shard: nat)
    | CleanupShard(shard: nat)
    | UpdateConfig(enabled: bool, maxItemSize: int, maxMemoryMB: int, compressionEnabled: bool)
    | SetEnabled(enabled: bool)

  datatype Event = Event(now: int, op: Op)

  datatype Outcome = Done | Miss | Hit(value: Bytes)

  datatype State = State(cfg: Config, shards: seq<List>)

  /** decompress(compress(v)) = v, the one thing assumed of gzip. */
  ghost predicate Lossless(gzip: Gzip) {
    forall v :: gzip.compress(v).Some? ==> gzip.decompress(gzip.compress(v).value) == Some(v)
  }

  // ---- configuration arithmetic ----

  function Cap(cfg: Config): (cap: nat)
    requires cfg.numShards > 0
    ensures cap >= 10
  {
    Max(10, TruncDiv(cfg.maxSize, cfg.numShards))
  }

  function Budget(cfg: Config): int
    requires cfg.numShards > 0
  {
    TruncDiv(cfg.maxMemoryMB * 1024 * 1024, cfg.numShards)
  }

  function ShardOf(env: Env, cfg: Config, key: string): nat
    requires cfg.numShards > 0
  {
    env.hash(key) % cfg.numShards
  }

  predicate Accepts(cfg: Config, value: Bytes) { cfg.enabled && |value| <= cfg.maxItemSize }

  function Reconfigure(cfg: Config, op: Op): Config {
    match op
    case UpdateConfig(enabled, maxItemSize, maxMemoryMB, compressionEnabled) =>
      cfg.(enabled := enabled, maxItemSize := maxItemSize, maxMemoryMB := maxMemoryMB,
           compressionEnabled := compressionEnabled)
    case SetEnabled(enabled) => cfg.(enabled := enabled)
    case _ => cfg
  }

  // ---- one shard ----

  function Pack(env: Env, cfg: Config, value: Bytes): (Bytes, bool) {
    if cfg.compressionEnabled && |value| >= cfg.compressionMinSize then
      match env.gzip.compress(value)
      case Some(small) => if |small| < |value| then (small, true) else (value, false)
      case None => (value, false)
    else (value, false)
  }

  function MakeEntry(env: Env, cfg: Config, key: string, value: Bytes, expiresAt: int): Entry {
    var (stored, compressed) := Pack(env, cfg, value);
    Entry(key, stored, expiresAt, |stored|, compressed)
  }

  function Unpack(env: Env, e: Entry): Option<Bytes> {
    if e.compressed then env.gzip.decompress(e.value) else Some(e.value)
  }

  /** A value is kept compressed exactly when that is on, it is long enough, and gzip makes it shorter. */
  lemma CompressedIff(env: Env, cfg: Config, key: string, value: Bytes, expiresAt: int)
    ensures var e, small := MakeEntry(env, cfg, key, value, expiresAt), env.gzip.compress(value);
            && (e.compressed <==> cfg.compressionEnabled && |value| >= cfg.compressionMinSize
                                  && small.Some? && |small.value| < |value|)
            && (if e.compressed then small == Some(e.value) else e.value == value)
            && e.storedSize == |e.value| <= |value| && e.key == key && e.expiresAt == expiresAt
  {}

  ghost function Fetch(env: Env, l: List, key: string, now: int): (List, Outcome) {
    match Lookup(l, key)
    case None => (l, Miss)
    case Some(e) =>
      if Expired(e, now) then (Without(l, key), Miss)
      else
        match Unpack(env, e)
        case None => (Without(l, key), Miss)
        case Some(v) => ([e] + Without(l, key), Hit(v))
  }

  /** What the two eviction loops leave before a new entry is pushed. */
  ghost function MakeRoom(cfg: Config, l: List, incoming: nat): List
    requires cfg.numShards > 0
  {
    EvictCount(if cfg.maxMemoryMB <= 0 then l else EvictBytes(l, incoming, Budget(cfg)), Cap(cfg))
  }

  ghost function Store(cfg: Config, l: List, e: Entry): List
    requires cfg.numShards > 0
  {
    if Lookup(l, e.key).Some? then [e] + Without(l, e.key) else [e] + MakeRoom(cfg, l, e.storedSize)
  }

  // ---- the whole cache ----

  ghost predicate Sound(st: State) {
    st.cfg.numShards > 0 && |st.shards| == st.cfg.numShards
  }

  ghost function StoreAt(env: Env, st: State, key: string, e: Entry): State
    requires Sound(st)
  {
    var i := ShardOf(env, st.cfg, key);
    st.(shards := st.shards[i := Store(st.cfg, st.shards[i], e)])
  }

  ghost function SetAt(env: Env, st: State, key: string, value: Bytes, expiresAt: int): State
    requires Sound(st)
  {
    if Accepts(st.cfg, value) then StoreAt(env, st, key, MakeEntry(env, st.cfg, key, value, expiresAt)) else st
  }

  ghost function Apply(env: Env, st: State, ev: Event): (r: (State, Outcome))
    requires Sound(st)
    ensures Sound(r.0) && r.0.cfg == Reconfigure(st.cfg, ev.op)
  {
    match ev.op
    case Get(key) =>
      if !st.cfg.enabled then (st, Miss)
      else
        var i := ShardOf(env, st.cfg, key);
        var (l, out) := Fetch(env, st.shards[i], key, ev.now);
        (st.(shards := st.shards[i := l]), out)
    case Set(key, value, ttl) =>
      (SetAt(env, st, key, value, ev.now + ttl), Done)
    case Delete(key) =>
      var i := ShardOf(env, st.cfg, key);
      (st.(shards := st.shards[i := Without(st.shards[i], key)]), Done)
    case ClearShard(i) =>
      if i < |st.shards| then (st.(shards := st.shards[i := []]), Done) else (st, Done)
    case CleanupShard(i) =>
      if i < |st.shards| then (st.(shards := st.shards[i := Live(st.shards[i], ev.now)]), Done) else (st, Done)
    case UpdateConfig(_, _, _, _) => (st.(cfg := Reconfigure(st.cfg, ev.op)), Done)
    case SetEnabled(_) => (st.(cfg := Reconfigure(st.cfg, ev.op)), Done)
  }

  ghost predicate Fresh(l: List, key: string, now: int) {
    HasKey(l, key) && !Expired(Lookup(l, key).value, now)
  }

  /** The cache is on and holds the key unexpired. */
  ghost predicate Resident(env: Env, st: State, key: string, now: int)
    requires Sound(st)
  {
    st.cfg.enabled && Fresh(st.shards[ShardOf(env, st.cfg, key)], key, now)
  }

  ghost function TotalBytes(shards: seq<List>): int {
    if shards == [] then 0 else TotalBytes(shards[..|shards| - 1]) + Total(shards[|shards| - 1])
  }

  ghost function TotalCount(shards: seq<List>): int {
    if shards == [] then 0 else TotalCount(shards[..|shards| - 1]) + |shards[|shards| - 1]|
  }

  ghost function Initial(cfg: Config): State
    requires cfg.numShards > 0
  {
    State(cfg, seq(cfg.numShards, _ => []))
  }

  /** The state after a whole history of events, in the order the locks were taken. */
  ghost function Run(env: Env, cfg: Config, h: seq<Event>): (st: State)
    requires cfg.numShards > 0
    ensures Sound(st) && st.cfg.numShards == cfg.numShards && st.cfg.maxSize == cfg.maxSize
  {
    if h == [] then Initial(cfg) else Apply(env, Run(env, cfg, h[..|h| - 1]), h[|h| - 1]).0
  }

  // ---- the shape of a step ----

  /** The key an event moves to the front of its shard. */
  ghost function Touched(env: Env, st: State, ev: Event): Option<string>
    requires Sound(st)
  {
    match ev.op
    case Get(key) => if Apply(env, st, ev).1.Hit? then Some(key) else None
    case Set(key, value, _) => if Accepts(st.cfg, value) then Some(key) else None
    case _ => None
  }

  /** A list is some touched entry followed by part of the old list, in the old order. */
  ghost predicate Fronted(l': List, l: List, key: string) {
    |l'| > 0 && l'[0].key == key && Subseq(l'[1..], l) && !HasKey(l'[1..], key)
  }

  lemma MakeRoomPrefix(cfg: Config, l: List, incoming: nat)
    requires cfg.numShards > 0
    ensures MakeRoom(cfg, l, incoming) <= l && |MakeRoom(cfg, l, incoming)| < Cap(cfg)
    ensures cfg.maxMemoryMB > 0 ==>
              MakeRoom(cfg, l, incoming) == [] || Total(MakeRoom(cfg, l, incoming)) + incoming <= Budget(cfg)
    ensures cfg.maxMemoryMB <= 0 ==> MakeRoom(cfg, l, incoming) == if |l| < Cap(cfg) then l else l[..Cap(cfg) - 1]
  {
    var r := if cfg.maxMemoryMB <= 0 then l else EvictBytes(l, incoming, Budget(cfg));
    EvictBytesPrefix(l, incoming, Budget(cfg));
    EvictCountPrefix(r, Cap(cfg));
    TotalPrefix(EvictCount(r, Cap(cfg)), r);
  }

  /** No insert evicts more than it must: one entry more and the new one would not fit, by count or by bytes. */
  lemma MakeRoomEvictsOnlyWhatItMust(cfg: Config, l: List, incoming: nat, n: nat)
    requires cfg.numShards > 0 && |MakeRoom(cfg, l, incoming)| < n <= |l|
    ensures n >= Cap(cfg) || (cfg.maxMemoryMB > 0 && Total(l[..n]) + incoming > Budget(cfg))
  {
    var r := if cfg.maxMemoryMB <= 0 then l else EvictBytes(l, incoming, Budget(cfg));
    EvictCountLength(r, Cap(cfg));
    if cfg.maxMemoryMB > 0 && |r| < n { EvictBytesKeepsTheLongest(l, incoming, Budget(cfg), n); }
  }

  lemma StoreShape(cfg: Config, l: List, e: Entry)
    requires cfg.numShards > 0 && Distinct(l)
    ensures Fronted(Store(cfg, l, e), l, e.key)
  {
    SubseqRefl(l);
    var rest := Store(cfg, l, e)[1..];
    if HasKey(l, e.key) {
      assert rest == Without(l, e.key);
      WithoutMembers(l, e.key);
      WithoutSubseq(l, e.key);
    } else {
      assert rest == MakeRoom(cfg, l, e.storedSize);
      MakeRoomPrefix(cfg, l, e.storedSize);
      SubseqPrefix(l, l, |rest|);
      assert rest == l[..|rest|];
      if HasKey(rest, e.key) { SubseqHasKey(rest, l, e.key); }
    }
  }

  lemma FetchShape(env: Env, l: List, key: string, now: int)
    requires Distinct(l)
    ensures var (l', out) := Fetch(env, l, key, now);
            if out.Hit? then Fronted(l', l, key) else Subseq(l', l)
  {
    SubseqRefl(l);
    WithoutSubseq(l, key);
    WithoutMembers(l, key);
    if Lookup(l, key).Some? {
      assert ([Lookup(l, key).value] + Without(l, key))[1..] == Without(l, key);
    }
  }

  /** Every step leaves each shard a subsequence of what it was, behind the entry it touched, if any. */
  ghost predicate StepShaped(env: Env, st: State, ev: Event, i: nat)
    requires Sound(st) && i < |st.shards|
  {
    var l, l' := st.shards[i], Apply(env, st, ev).0.shards[i];
    match Touched(env, st, ev)
    case Some(key) => if ShardOf(env, st.cfg, key) == i then Fronted(l', l, key) else l' == l
    case None => Subseq(l', l)
  }

  lemma StepShape(env: Env, st: State, ev: Event, i: nat)
    requires Sound(st) && i < |st.shards| && Distinct(st.shards[i])
    ensures StepShaped(env, st, ev, i)
  {
    var l := st.shards[i];
    match ev.op
    case Get(key) => SubseqRefl(l); FetchShape(env, l, key, ev.now);
    case Set(key, value, ttl) =>
      SubseqRefl(l);
      StoreShape(st.cfg, l, MakeEntry(env, st.cfg, key, value, ev.now + ttl));
    case Delete(key) => SubseqRefl(l); WithoutSubseq(l, key);
    case CleanupShard(_) => SubseqRefl(l); LiveMembers(l, ev.now);
    case _ => SubseqRefl(l);
  }

  lemma FrontedDistinct(l': List, l: List, key: string)
    requires Distinct(l) && Fronted(l', l, key)
    ensures Distinct(l')
  {
    SubseqDistinct(l'[1..], l);
  }

  /** In every reachable state each shard holds a key at most once. */
  lemma {:induction false} RunDistinct(env: Env, cfg: Config, h: seq<Event>, i: nat)
    requires cfg.numShards > 0 && i < cfg.numShards
    ensures Distinct(Run(env, cfg, h).shards[i])
  {
    if h == [] {
    } else {
      var st, ev := Run(env, cfg, h[..|h| - 1]), h[|h| - 1];
      RunDistinct(env, cfg, h[..|h| - 1], i);
      StepShape(env, st, ev, i);
      var l, l' := st.shards[i], Apply(env, st, ev).0.shards[i];
      match Touched(env, st, ev)
      case Some(key) => if ShardOf(env, st.cfg, key) == i { FrontedDistinct(l', l, key); }
      case None => SubseqDistinct(l', l);
    }
  }

  /** Every entry of a list hashes to shard `i`. */
  ghost predicate AtHome(env: Env, cfg: Config, i: nat, l: List)
    requires cfg.numShards > 0
  {
    forall j :: 0 <= j < |l| ==> ShardOf(env, cfg, l[j].key) == i
  }

  lemma StoreAtHome(env: Env, cfg: Config, i: nat, l: List, e: Entry)
    requires cfg.numShards > 0 && Distinct(l) && AtHome(env, cfg, i, l) && ShardOf(env, cfg, e.key) == i
    ensures AtHome(env, cfg, i, Store(cfg, l, e))
  {
    var l' := Store(cfg, l, e);
    StoreShape(cfg, l, e);
    SubseqMembers(l'[1..], l);
    forall j | 0 <= j < |l'| ensures ShardOf(env, cfg, l'[j].key) == i {
      if j > 0 {
        assert l'[j] == l'[1..][j - 1];
        var m :| 0 <= m < |l| && l[m] == l'[j];
      }
    }
  }

  // ---- refinement of one abstract map ----

  datatype Write = Write(value: Bytes, expiresAt: int)

  /** The configuration after a history, which no cache content can influence. */
  ghost function ConfigAfter(cfg: Config, h: seq<Event>): (after: Config)
    ensures after.numShards == cfg.numShards && after.maxSize == cfg.maxSize
  {
    if h == [] then cfg else Reconfigure(ConfigAfter(cfg, h[..|h| - 1]), h[|h| - 1].op)
  }

  /**
   The plain "last value set" map: the latest accepted Set of a key with no later Delete or Clear.
   It knows nothing of shards, order, capacity, compression or cleanup.
   */
  ghost function LastWrite(env: Env, cfg: Config, h: seq<Event>, key: string): Option<Write>
    requires cfg.numShards > 0
  {
    if h == [] then None
    else
      var before, ev := h[..|h| - 1], h[|h| - 1];
      match ev.op
      case Set(k, value, ttl) =>
        if k == key && Accepts(ConfigAfter(cfg, before), value) then Some(Write(value, ev.now + ttl))
        else LastWrite(env, cfg, before, key)
      case Delete(k) => if k == key then None else LastWrite(env, cfg, before, key)
      case ClearShard(i) => if i == ShardOf(env, cfg, key) then None else LastWrite(env, cfg, before, key)
      case _ => LastWrite(env, cfg, before, key)
  }

  /** An entry at rest in shard `i` is the abstract map's current value for its key. */
  ghost predicate Current(env: Env, cfg: Config, h: seq<Event>, i: nat, e: Entry)
    requires cfg.numShards > 0
  {
    ShardOf(env, cfg, e.key) == i && Unpack(env, e).Some?
    && LastWrite(env, cfg, h, e.key) == Some(Write(Unpack(env, e).value, e.expiresAt))
  }

  lemma {:induction false} ConfigIsAfter(env: Env, cfg: Config, h: seq<Event>)
    requires cfg.numShards > 0
    ensures Run(env, cfg, h).cfg == ConfigAfter(cfg, h)
  {
    if h == [] {
    } else {
      ConfigIsAfter(env, cfg, h[..|h| - 1]);
    }
  }

  /** In every reachable state every entry at rest is the current value of its key. */
  lemma {:induction false} EntriesAreCurrent(env: Env, cfg: Config, h: seq<Event>, i: nat, e: Entry)
    requires cfg.numShards > 0 && Lossless(env.gzip) && i < cfg.numShards
    requires e in Run(env, cfg, h).shards[i]
    ensures Current(env, cfg, h, i, e)
  {
    if h == [] {
    } else {
      var before, ev := h[..|h| - 1], h[|h| - 1];
      var st := Run(env, cfg, before);
      ConfigIsAfter(env, cfg, before);
      RunDistinct(env, cfg, before, i);
      if ev.op.Set? && Accepts(st.cfg, ev.op.value) && ev.op.key == e.key {
        SetEntryIsTheValue(env, st, ev, i, e);
        if e in st.shards[i] { EntriesAreCurrent(env, cfg, before, i, e); }
      } else if e in st.shards[i] {
        EntriesAreCurrent(env, cfg, before, i, e);
        if ev.op.Delete? { WithoutMembers(st.shards[i], ev.op.key); }
      } else {
        NewcomerIsTheSet(env, st, ev, i, e);
      }
    }
  }

  /** After an accepted Set the only entry under its key is the one it made, or the key lives elsewhere. */
  lemma SetEntryIsTheValue(env: Env, st: State, ev: Event, i: nat, e: Entry)
    requires Sound(st) && i < |st.shards| && Distinct(st.shards[i])
    requires ev.op.Set? && Accepts(st.cfg, ev.op.value) && ev.op.key == e.key
    requires e in Apply(env, st, ev).0.shards[i]
    ensures i == ShardOf(env, st.cfg, e.key) ==>
              e == MakeEntry(env, st.cfg, e.key, ev.op.value, ev.now + ev.op.ttl)
    ensures i != ShardOf(env, st.cfg, e.key) ==> e in st.shards[i]
  {
    if i == ShardOf(env, st.cfg, e.key) {
      var made := MakeEntry(env, st.cfg, e.key, ev.op.value, ev.now + ev.op.ttl);
      var l, l' := st.shards[i], Store(st.cfg, st.shards[i], made);
      StoreShape(st.cfg, l, made);
      FrontedDistinct(l', l, e.key);
      LookupOf(l', e);
    }
  }

  /** Only an accepted Set brings in an entry that was not there before. */
  lemma NewcomerIsTheSet(env: Env, st: State, ev: Event, i: nat, e: Entry)
    requires Sound(st) && i < |st.shards| && Distinct(st.shards[i])
    requires e in Apply(env, st, ev).0.shards[i] && e !in st.shards[i]
    ensures ev.op.Set? && Accepts(st.cfg, ev.op.value) && i == ShardOf(env, st.cfg, ev.op.key)
    ensures e == MakeEntry(env, st.cfg, ev.op.key, ev.op.value, ev.now + ev.op.ttl)
  {
    var l, l' := st.shards[i], Apply(env, st, ev).0.shards[i];
    StepShape(env, st, ev, i);
    var j :| 0 <= j < |l'| && l'[j] == e;
    match Touched(env, st, ev)
    case None => SubseqMembers(l', l);
    case Some(key) =>
      if ShardOf(env, st.cfg, key) == i {
        SubseqMembers(l'[1..], l);
        if ev.op.Get? { var at := LookupFinds(l, key); }
      }
  }

  /**
   Refinement: a Get answers exactly as the abstract map would when the key is resident in its
   shard, and misses otherwise. Sharding, eviction, compression and cleanup can only lose hits.
   */
  lemma GetRefinesLastWrite(env: Env, cfg: Config, h: seq<Event>, key: string, now: int)
    requires cfg.numShards > 0 && Lossless(env.gzip)
    ensures var st := Run(env, cfg, h);
            var out := Apply(env, st, Event(now, Get(key))).1;
            var write := LastWrite(env, cfg, h, key);
            && (out == Miss || (write.Some? && out == Hit(write.value.value) && now <= write.value.expiresAt))
            && (out.Hit? <==> ConfigAfter(cfg, h).enabled && HasKey(st.shards[ShardOf(env, cfg, key)], key)
                              && write.Some? && now <= write.value.expiresAt)
  {
    var st := Run(env, cfg, h);
    var i := ShardOf(env, cfg, key);
    var l := st.shards[i];
    ConfigIsAfter(env, cfg, h);
    if HasKey(l, key) {
      var at := LookupFinds(l, key);
      EntriesAreCurrent(env, cfg, h, i, l[at]);
    }
  }

  /** What the hit counter counts: exactly the Gets that are answered, as gzip loses nothing. */
  lemma ResidentMeansAnswered(env: Env, cfg: Config, h: seq<Event>, key: string, now: int)
    requires cfg.numShards > 0 && Lossless(env.gzip)
    ensures var st := Run(env, cfg, h);
            Resident(env, st, key, now) <==> Apply(env, st, Event(now, Get(key))).1.Hit?
  {
    var st := Run(env, cfg, h);
    var l := st.shards[ShardOf(env, cfg, key)];
    if HasKey(l, key) {
      var at := LookupFinds(l, key);
      EntriesAreCurrent(env, cfg, h, ShardOf(env, cfg, key), l[at]);
    }
  }

  // ---- recency ----

  /** When a key was last hit or set: the position of that event, or 0. */
  ghost function LastTouch(env: Env, cfg: Config, h: seq<Event>, key: string): int
    requires cfg.numShards > 0
  {
    if h == [] then 0
    else if Touched(env, Run(env, cfg, h[..|h| - 1]), h[|h| - 1]) == Some(key) then |h|
    else LastTouch(env, cfg, h[..|h| - 1], key)
  }

  ghost function TouchRank(env: Env, cfg: Config, h: seq<Event>): string -> int
    requires cfg.numShards > 0
  {
    key => LastTouch(env, cfg, h, key)
  }

  lemma {:induction false} LastTouchAtMost(env: Env, cfg: Config, h: seq<Event>, key: string)
    requires cfg.numShards > 0
    ensures 0 <= LastTouch(env, cfg, h, key) <= |h|
  {
    if h == [] {
    } else {
      LastTouchAtMost(env, cfg, h[..|h| - 1], key);
    }
  }

  /** In every reachable state every shard is strictly ordered by last touch, latest first. */
  lemma {:induction false} RecencyOrder(env: Env, cfg: Config, h: seq<Event>, i: nat)
    requires cfg.numShards > 0 && i < cfg.numShards
    ensures Descending(Run(env, cfg, h).shards[i], TouchRank(env, cfg, h))
  {
    if h == [] {
    } else {
      var before, ev := h[..|h| - 1], h[|h| - 1];
      var st := Run(env, cfg, before);
      var l, l' := st.shards[i], Apply(env, st, ev).0.shards[i];
      var rank, rank' := TouchRank(env, cfg, before), TouchRank(env, cfg, h);
      RecencyOrder(env, cfg, before, i);
      RunDistinct(env, cfg, before, i);
      StepShape(env, st, ev, i);
      RunKeysHome(env, cfg, before, i);
      match Touched(env, st, ev)
      case None =>
        SubseqDescending(l', l, rank);
        DescendingAgrees(l', rank, rank');
      case Some(key) =>
        if ShardOf(env, st.cfg, key) == i {
          FrontDescending(env, cfg, h, l', l, key);
        } else {
          DescendingAgrees(l, rank, rank');
        }
    }
  }

  /** A touched entry in front of what was in order is in order. */
  lemma FrontDescending(env: Env, cfg: Config, h: seq<Event>, l': List, l: List, key: string)
    requires cfg.numShards > 0 && h != []
    requires Touched(env, Run(env, cfg, h[..|h| - 1]), h[|h| - 1]) == Some(key)
    requires Fronted(l', l, key) && Descending(l, TouchRank(env, cfg, h[..|h| - 1]))
    ensures Descending(l', TouchRank(env, cfg, h))
  {
    var rank, rank', rest := TouchRank(env, cfg, h[..|h| - 1]), TouchRank(env, cfg, h), l'[1..];
    SubseqDescending(rest, l, rank);
    forall j | 0 <= j < |rest| ensures rank'(rest[j].key) == rank(rest[j].key) < |h| {
      HasKeyAt(rest, j);
      LastTouchAtMost(env, cfg, h[..|h| - 1], rest[j].key);
    }
    DescendingAgrees(rest, rank, rank');
  }

  /** Every entry lives in the shard its key hashes to. */
  lemma {:induction false} RunKeysHome(env: Env, cfg: Config, h: seq<Event>, i: nat)
    requires cfg.numShards > 0 && i < cfg.numShards
    ensures AtHome(env, cfg, i, Run(env, cfg, h).shards[i])
  {
    if h == [] {
    } else {
      var before, ev := h[..|h| - 1], h[|h| - 1];
      var st := Run(env, cfg, before);
      var l, l' := st.shards[i], Apply(env, st, ev).0.shards[i];
      RunKeysHome(env, cfg, before, i);
      RunDistinct(env, cfg, before, i);
      forall j | 0 <= j < |l'| ensures ShardOf(env, cfg, l'[j].key) == i {
        if l'[j] in l {
          var m :| 0 <= m < |l| && l[m] == l'[j];
        } else {
          NewcomerIsTheSet(env, st, ev, i, l'[j]);
        }
      }
    }
  }

  /**
   Capacity and byte evictions take the least recently touched: every entry a Set throws out was
   last touched before every entry it keeps.
   */
  lemma EvictionTakesTheOldest(env: Env, cfg: Config, h: seq<Event>, ev: Event, victim: Entry, kept: Entry)
    requires cfg.numShards > 0 && ev.op.Set?
    requires var st := Run(env, cfg, h);
             var i := ShardOf(env, cfg, ev.op.key);
             var l, l' := st.shards[i], Apply(env, st, ev).0.shards[i];
             victim in l && victim.key != ev.op.key && victim !in l' && kept in l && kept in l'
    ensures LastTouch(env, cfg, h, victim.key) < LastTouch(env, cfg, h, kept.key)
  {
    var st := Run(env, cfg, h);
    var i := ShardOf(env, cfg, ev.op.key);
    var l := st.shards[i];
    RecencyOrder(env, cfg, h, i);
    RunDistinct(env, cfg, h, i);
    var e := MakeEntry(env, st.cfg, ev.op.key, ev.op.value, ev.now + ev.op.ttl);
    assert Apply(env, st, ev).0.shards[i] == Store(st.cfg, l, e);
    VictimMeansInsert(st.cfg, l, e, victim);
    var m, v := StoreEvictsBehind(st.cfg, l, e, victim, kept);
    DescendingPlaces(l, TouchRank(env, cfg, h), m, v);
  }

  /** A Set that throws an entry out is storing a new key. */
  lemma VictimMeansInsert(cfg: Config, l: List, e: Entry, victim: Entry)
    requires cfg.numShards > 0 && Distinct(l)
    requires victim in l && victim.key != e.key && victim !in Store(cfg, l, e)
    ensures Lookup(l, e.key).None?
  {
    WithoutMembers(l, e.key);
    assert victim in Without(l, e.key);
  }

  lemma StoreEvictsBehind(cfg: Config, l: List, e: Entry, victim: Entry, kept: Entry) returns (m: nat, v: nat)
    requires cfg.numShards > 0 && Lookup(l, e.key).None?
    requires victim in l && victim !in Store(cfg, l, e)
    requires kept in l && kept in Store(cfg, l, e)
    ensures m < v < |l| && l[m] == kept && l[v] == victim
  {
    var rest := MakeRoom(cfg, l, e.storedSize);
    MakeRoomPrefix(cfg, l, e.storedSize);
    if e in l { HasKeyOf(l, e); }
    assert kept in rest;
    m :| 0 <= m < |rest| && rest[m] == kept;
    v :| 0 <= v < |l| && l[v] == victim;
    assert forall j :: 0 <= j < |rest| ==> l[j] == rest[j] && rest[j] in Store(cfg, l, e);
  }

  // ---- bounds ----

  ghost predicate KeepsItemLimit(h: seq<Event>, limit: int) {
    forall n :: 0 <= n < |h| && h[n].op.UpdateConfig? ==> h[n].op.maxItemSize == limit
  }

  lemma {:induction false} ItemLimitHolds(env: Env, cfg: Config, h: seq<Event>)
    requires cfg.numShards > 0 && KeepsItemLimit(h, cfg.maxItemSize)
    ensures Run(env, cfg, h).cfg.maxItemSize == cfg.maxItemSize
  {
    if h == [] {
    } else {
      assert forall n :: 0 <= n < |h| - 1 ==> h[..|h| - 1][n] == h[n];
      ItemLimitHolds(env, cfg, h[..|h| - 1]);
    }
  }

  /** No shard ever holds more entries than its count bound. */
  lemma {:induction false} CountBound(env: Env, cfg: Config, h: seq<Event>, i: nat)
    requires cfg.numShards > 0 && i < cfg.numShards
    ensures |Run(env, cfg, h).shards[i]| <= Cap(cfg)
  {
    if h == [] {
    } else {
      var st, ev := Run(env, cfg, h[..|h| - 1]), h[|h| - 1];
      var l, l' := st.shards[i], Apply(env, st, ev).0.shards[i];
      CountBound(env, cfg, h[..|h| - 1], i);
      RunDistinct(env, cfg, h[..|h| - 1], i);
      match ev.op
      case Get(key) => WithoutSizes(l, key);
      case Set(key, value, ttl) =>
        WithoutSizes(l, key);
        MakeRoomPrefix(st.cfg, l, MakeEntry(env, st.cfg, key, value, ev.now + ttl).storedSize);
      case Delete(key) => WithoutSizes(l, key);
      case CleanupShard(_) => LiveMembers(l, ev.now);
      case _ =>
    }
  }

  lemma {:induction false} ItemBound(env: Env, cfg: Config, h: seq<Event>, i: nat, e: Entry)
    requires cfg.numShards > 0 && i < cfg.numShards && KeepsItemLimit(h, cfg.maxItemSize)
    requires e in Run(env, cfg, h).shards[i]
    ensures e.storedSize <= cfg.maxItemSize
  {
    if h == [] {
    } else {
      var before, ev := h[..|h| - 1], h[|h| - 1];
      assert forall n :: 0 <= n < |before| ==> before[n] == h[n];
      ItemLimitHolds(env, cfg, before);
      RunDistinct(env, cfg, before, i);
      if e in Run(env, cfg, before).shards[i] {
        ItemBound(env, cfg, before, i, e);
      } else {
        NewcomerIsTheSet(env, Run(env, cfg, before), ev, i, e);
      }
    }
  }

  /** With a constant item limit a shard's bytes stay within count bound times item limit. */
  lemma ByteBound(env: Env, cfg: Config, h: seq<Event>, i: nat)
    requires cfg.numShards > 0 && i < cfg.numShards && KeepsItemLimit(h, cfg.maxItemSize)
    ensures Total(Run(env, cfg, h).shards[i]) <= Cap(cfg) * Max(0, cfg.maxItemSize)
  {
    var l := Run(env, cfg, h).shards[i];
    var limit := Max(0, cfg.maxItemSize);
    CountBound(env, cfg, h, i);
    forall e | e in l ensures e.storedSize <= limit { ItemBound(env, cfg, h, i, e); }
    TotalAtMost(l, limit);
    MulMonotone(|l|, Cap(cfg), limit);
  }

  lemma {:induction false} TotalCountAtMost(shards: seq<List>, most: nat)
    requires forall i :: 0 <= i < |shards| ==> |shards[i]| <= most
    ensures TotalCount(shards) <= |shards| * most
  {
    if shards == [] {
    } else {
      TotalCountAtMost(shards[..|shards| - 1], most);
      assert |shards| * most == (|shards| - 1) * most + most;
    }
  }

  lemma {:induction false} TotalBytesAtMost(shards: seq<List>, limit: nat)
    requires forall i, e: Entry :: 0 <= i < |shards| && e in shards[i] ==> e.storedSize <= limit
    ensures 0 <= TotalCount(shards) && TotalBytes(shards) <= TotalCount(shards) * limit
  {
    if shards == [] {
    } else {
      var init, last := shards[..|shards| - 1], shards[|shards| - 1];
      assert forall i :: 0 <= i < |init| ==> init[i] == shards[i];
      TotalBytesAtMost(init, limit);
      TotalAtMost(last, limit);
      assert TotalCount(shards) * limit == TotalCount(init) * limit + |last| * limit;
    }
  }

  lemma ShareTimesShards(whole: int, shards: nat)
    requires shards > 0
    ensures shards * Max(10, TruncDiv(whole, shards)) <= Max(whole, 10 * shards)
  {
    if whole >= 0 { assert whole == shards * (whole / shards) + whole % shards; }
  }

  /** The whole cache never holds more than MaxSize entries, or ten for each shard if that is more. */
  lemma WholeCountBound(env: Env, cfg: Config, h: seq<Event>)
    requires cfg.numShards > 0
    ensures TotalCount(Run(env, cfg, h).shards) <= Max(cfg.maxSize, 10 * cfg.numShards)
  {
    var shards := Run(env, cfg, h).shards;
    forall i | 0 <= i < |shards| ensures |shards[i]| <= Cap(cfg) { CountBound(env, cfg, h, i); }
    TotalCountAtMost(shards, Cap(cfg));
    ShareTimesShards(cfg.maxSize, cfg.numShards);
  }

  /** And with a constant item limit never more bytes than that many items of the largest size. */
  lemma WholeByteBound(env: Env, cfg: Config, h: seq<Event>)
    requires cfg.numShards > 0 && KeepsItemLimit(h, cfg.maxItemSize)
    ensures TotalBytes(Run(env, cfg, h).shards) <= Max(cfg.maxSize, 10 * cfg.numShards) * Max(0, cfg.maxItemSize)
  {
    var shards := Run(env, cfg, h).shards;
    var limit := Max(0, cfg.maxItemSize);
    forall i, e: Entry | 0 <= i < |shards| && e in shards[i] ensures e.storedSize <= limit {
      ItemBound(env, cfg, h, i, e);
    }
    TotalBytesAtMost(shards, limit);
    WholeCountBound(env, cfg, h);
    MulMonotone(TotalCount(shards), Max(cfg.maxSize, 10 * cfg.numShards), limit);
  }

  lemma MulMonotone(a: nat, b: nat, c: nat)
    requires a <= b
    ensures a * c <= b * c
  {}

  /** After a new key is stored under a byte limit, the shard is within budget or holds that entry alone. */
  lemma InsertRespectsBudget(cfg: Config, l: List, e: Entry)
    requires cfg.numShards > 0 && cfg.maxMemoryMB > 0 && Lookup(l, e.key).None?
    ensures Total(Store(cfg, l, e)) <= Max(Budget(cfg), e.storedSize)
  {
    var rest := MakeRoom(cfg, l, e.storedSize);
    MakeRoomPrefix(cfg, l, e.storedSize);
    TotalAppend([e], rest);
  }

  /** Overwriting a key evicts nothing: only the overwritten entry goes, and the bytes change by the difference. */
  lemma UpdateIgnoresBudget(cfg: Config, l: List, e: Entry)
    requires cfg.numShards > 0 && Lookup(l, e.key).Some?
    ensures Total(Store(cfg, l, e)) == Total(l) - Lookup(l, e.key).value.storedSize + e.storedSize
    ensures |Store(cfg, l, e)| == |l|
    ensures Distinct(l) ==> forall x :: x in Store(cfg, l, e) <==> x == e || (x in l && x.key != e.key)
  {
    WithoutSizes(l, e.key);
    if Distinct(l) { WithoutMembers(l, e.key); }
    TotalAppend([e], Without(l, e.key));
  }

  /** A Set stays within the budget unless it takes the overwriting branch and the new sum is too large. */
  lemma StoreWithinBudgetIff(cfg: Config, l: List, e: Entry)
    requires cfg.numShards > 0 && cfg.maxMemoryMB > 0
    ensures var most := Max(Budget(cfg), e.storedSize);
            Total(Store(cfg, l, e)) <= most <==>
            Lookup(l, e.key).None? || Total(l) - Lookup(l, e.key).value.storedSize + e.storedSize <= most
  {
    match Lookup(l, e.key)
    case None => InsertRespectsBudget(cfg, l, e);
    case Some(_) => UpdateIgnoresBudget(cfg, l, e);
  }

  // ---- the byte budget over runs ----

  ghost predicate KeepsByteLimit(h: seq<Event>, limit: int) {
    forall n :: 0 <= n < |h| && h[n].op.UpdateConfig? ==> h[n].op.maxMemoryMB == limit
  }

  /** What an accepted Set stores. */
  ghost function StoredBy(env: Env, st: State, ev: Event): Option<Entry> {
    if ev.op.Set? && Accepts(st.cfg, ev.op.value)
    then Some(MakeEntry(env, st.cfg, ev.op.key, ev.op.value, ev.now + ev.op.ttl))
    else None
  }

  /** The size of the largest entry ever stored. */
  ghost function Largest(env: Env, cfg: Config, h: seq<Event>): nat
    requires cfg.numShards > 0
  {
    if h == [] then 0
    else
      var before := h[..|h| - 1];
      match StoredBy(env, Run(env, cfg, before), h[|h| - 1])
      case None => Largest(env, cfg, before)
      case Some(e) => Max(Largest(env, cfg, before), e.storedSize)
  }

  /** The event does not replace an entry by a larger one. */
  ghost predicate Shrinks(env: Env, st: State, ev: Event)
    requires Sound(st)
  {
    match StoredBy(env, st, ev)
    case None => true
    case Some(e) =>
      match Lookup(st.shards[ShardOf(env, st.cfg, e.key)], e.key)
      case None => true
      case Some(was) => e.storedSize <= was.storedSize
  }

  ghost predicate NoGrowth(env: Env, cfg: Config, h: seq<Event>)
    requires cfg.numShards > 0
  {
    h == [] || (NoGrowth(env, cfg, h[..|h| - 1]) && Shrinks(env, Run(env, cfg, h[..|h| - 1]), h[|h| - 1]))
  }

  lemma {:induction false} ByteLimitHolds(env: Env, cfg: Config, h: seq<Event>)
    requires cfg.numShards > 0 && KeepsByteLimit(h, cfg.maxMemoryMB)
    ensures Run(env, cfg, h).cfg.maxMemoryMB == cfg.maxMemoryMB
    ensures Budget(Run(env, cfg, h).cfg) == Budget(cfg)
  {
    if h == [] {
    } else {
      assert forall n :: 0 <= n < |h| - 1 ==> h[..|h| - 1][n] == h[n];
      ByteLimitHolds(env, cfg, h[..|h| - 1]);
    }
  }

  lemma StepWithinBudget(env: Env, st: State, ev: Event, i: nat, most: int)
    requires Sound(st) && i < |st.shards| && Distinct(st.shards[i]) && st.cfg.maxMemoryMB > 0
    requires Total(st.shards[i]) <= most && Budget(st.cfg) <= most && Shrinks(env, st, ev)
    requires var e := StoredBy(env, st, ev); e.Some? ==> e.value.storedSize <= most
    ensures Total(Apply(env, st, ev).0.shards[i]) <= most
  {
    var l := st.shards[i];
    match ev.op
    case Get(key) =>
      WithoutSizes(l, key);
      if Lookup(l, key).Some? { TotalAppend([Lookup(l, key).value], Without(l, key)); }
    case Set(key, value, ttl) =>
      if Accepts(st.cfg, value) && ShardOf(env, st.cfg, key) == i {
        var e := MakeEntry(env, st.cfg, key, value, ev.now + ttl);
        if Lookup(l, key).Some? { UpdateIgnoresBudget(st.cfg, l, e); } else { InsertRespectsBudget(st.cfg, l, e); }
      }
    case Delete(key) => WithoutSizes(l, key);
    case CleanupShard(_) => LiveTotal(l, ev.now);
    case _ =>
  }

  /**
   With a constant byte limit, and no overwrite that grows an entry, every shard of every reachable
   state is within its budget, or no larger than the largest entry ever stored.
   */
  lemma {:induction false} BudgetHoldsWithoutGrowth(env: Env, cfg: Config, h: seq<Event>, i: nat)
    requires cfg.numShards > 0 && i < cfg.numShards && cfg.maxMemoryMB > 0
    requires KeepsByteLimit(h, cfg.maxMemoryMB) && NoGrowth(env, cfg, h)
    ensures Total(Run(env, cfg, h).shards[i]) <= Max(Budget(cfg), Largest(env, cfg, h))
  {
    if h == [] {
      assert Budget(cfg) >= 0;
    } else {
      var before := h[..|h| - 1];
      assert forall n :: 0 <= n < |before| ==> before[n] == h[n];
      BudgetHoldsWithoutGrowth(env, cfg, before, i);
      ByteLimitHolds(env, cfg, before);
      RunDistinct(env, cfg, before, i);
      StepWithinBudget(env, Run(env, cfg, before), h[|h| - 1], i, Max(Budget(cfg), Largest(env, cfg, h)));
    }
  }

  lemma {:induction false} TotalBytesPerShard(shards: seq<List>, most: nat)
    requires forall i :: 0 <= i < |shards| ==> Total(shards[i]) <= most
    ensures TotalBytes(shards) <= |shards| * most
  {
    if shards == [] {
    } else {
      TotalBytesPerShard(shards[..|shards| - 1], most);
      assert |shards| * most == (|shards| - 1) * most + most;
    }
  }

  lemma BudgetTimesShards(whole: nat, shards: nat, largest: nat)
    requires shards > 0
    ensures shards * Max(TruncDiv(whole, shards), largest) <= Max(whole, shards * largest)
  {
    assert whole == shards * (whole / shards) + whole % shards;
  }

  /** Under the same conditions the whole cache stays within MaxMemoryMB, or the largest entry in every shard. */
  lemma WholeBudgetHoldsWithoutGrowth(env: Env, cfg: Config, h: seq<Event>)
    requires cfg.numShards > 0 && cfg.maxMemoryMB > 0
    requires KeepsByteLimit(h, cfg.maxMemoryMB) && NoGrowth(env, cfg, h)
    ensures TotalBytes(Run(env, cfg, h).shards)
         <= Max(cfg.maxMemoryMB * 0x10_0000, cfg.numShards * Largest(env, cfg, h))
  {
    var shards, largest := Run(env, cfg, h).shards, Largest(env, cfg, h);
    forall i | 0 <= i < |shards| ensures Total(shards[i]) <= Max(Budget(cfg), largest) {
      BudgetHoldsWithoutGrowth(env, cfg, h, i);
    }
    TotalBytesPerShard(shards, Max(Budget(cfg), largest));
    BudgetTimesShards(cfg.maxMemoryMB * 0x10_0000, cfg.numShards, largest);
  }

  lemma RunSnoc(env: Env, cfg: Config, h: seq<Event>, ev: Event)
    requires cfg.numShards > 0
    ensures Run(env, cfg, h + [ev]) == Apply(env, Run(env, cfg, h), ev).0
  {
    assert (h + [ev])[..|h|] == h;
  }

  /** An uncompressed value is stored as it is. */
  ghost predicate Plain(cfg: Config, value: Bytes) { !cfg.compressionEnabled && Accepts(cfg, value) }

  function ThreeSets(a: string, b: string, x: Bytes, y: Bytes, z: Bytes): seq<Event> {
    [Event(0, Set(a, x, 0)), Event(0, Set(b, y, 0)), Event(0, Set(a, z, 0))]
  }

  /** How a budget is broken: two keys that fit together, then the first one overwritten by something too large. */
  lemma OverwriteBreaksBudget(env: Env, cfg: Config, a: string, b: string, x: Bytes, y: Bytes, z: Bytes)
    requires cfg.numShards > 0 && cfg.maxMemoryMB > 0 && a != b && ShardOf(env, cfg, a) == ShardOf(env, cfg, b)
    requires Plain(cfg, x) && Plain(cfg, y) && Plain(cfg, z)
    requires |x| + |y| <= Budget(cfg) < |y| + |z| && y != []
    ensures var h := ThreeSets(a, b, x, y, z);
            && KeepsByteLimit(h, cfg.maxMemoryMB)
            && Total(Run(env, cfg, h).shards[ShardOf(env, cfg, a)]) > Max(Budget(cfg), |z|)
  {
    var e, f, g := Entry(a, x, 0, |x|, false), Entry(b, y, 0, |y|, false), Entry(a, z, 0, |z|, false);
    var h1 := [Event(0, Set(a, x, 0))];
    var h2 := h1 + [Event(0, Set(b, y, 0))];
    var i := ShardOf(env, cfg, a);
    assert [] + h1 == h1 && ThreeSets(a, b, x, y, z) == h2 + [Event(0, Set(a, z, 0))];
    RunSnoc(env, cfg, [], h1[0]);
    RunSnoc(env, cfg, h1, Event(0, Set(b, y, 0)));
    RunSnoc(env, cfg, h2, Event(0, Set(a, z, 0)));
    assert Store(cfg, [], e) == [e];
    FitsBeside(cfg, e, f);
    assert Run(env, cfg, h2).shards[i] == [f, e];
    assert [f, e][1..] == [e] && [e][1..] == [];
    UpdateIgnoresBudget(cfg, [f, e], g);
  }

  lemma FitsBeside(cfg: Config, e: Entry, f: Entry)
    requires cfg.numShards > 0 && cfg.maxMemoryMB > 0 && e.key != f.key && e.storedSize + f.storedSize <= Budget(cfg)
    ensures Store(cfg, [e], f) == [f, e]
  {
    assert [e][1..] == [];
    assert Total([e]) == e.storedSize && Lookup([e], f.key).None?;
  }

  /** One shard and a budget of one MiB. */
  const ONE_MIB := Config(true, 1000, 1, 0x10_0000, 1, false, 0)

  /** Such values exist: beside a value that leaves one octet of the budget, one octet is replaced by two. */
  lemma BudgetIsBroken(env: Env)
    ensures var h := ThreeSets("a", "b", [0], seq(0xf_ffff, _ => 0 as bv8), [0, 0]);
            Total(Run(env, ONE_MIB, h).shards[0]) > Budget(ONE_MIB)
  {
    OverwriteBreaksBudget(env, ONE_MIB, "a", "b", [0], seq(0xf_ffff, _ => 0 as bv8), [0, 0]);
  }

  // ---- LRU inclusion ----

  /** Two shards that have seen the same operations with count bounds m <= n and no byte limit. */
  ghost predicate Included(s: List, b: List, m: nat, n: nat) {
    Distinct(s) && Distinct(b) && Subseq(s, b) && |s| <= m <= n && |b| <= n && |b| - |s| <= n - m
  }

  lemma LookupIncluded(s: List, b: List, key: string)
    requires Distinct(b) && Subseq(s, b) && Lookup(s, key).Some?
    ensures Lookup(b, key) == Lookup(s, key)
  {
    var i := LookupFinds(s, key);
    SubseqMembers(s, b);
    LookupOf(b, s[i]);
  }

  lemma RemovalKeepsInclusion(s: List, b: List, key: string, m: nat, n: nat)
    requires Included(s, b, m, n)
    ensures Included(Without(s, key), Without(b, key), m, n)
  {
    SubseqWithout(s, b, key);
    WithoutMembers(s, key);
    WithoutMembers(b, key);
    WithoutSizes(s, key);
    WithoutSizes(b, key);
    if Lookup(s, key).Some? { LookupIncluded(s, b, key); }
  }

  lemma ExpiryKeepsInclusion(s: List, b: List, now: int, m: nat, n: nat)
    requires Included(s, b, m, n)
    ensures Included(Live(s, now), Live(b, now), m, n)
  {
    SubseqLive(s, b, now);
    LiveShrinks(s, b, now);
    LiveMembers(s, now);
    LiveMembers(b, now);
    SubseqDistinct(Live(s, now), s);
    SubseqDistinct(Live(b, now), b);
  }

  /** Pushing one entry in front of both lists. */
  lemma PushKeepsInclusion(s: List, b: List, e: Entry, m: nat, n: nat)
    requires Included(s, b, m, n) && |s| < m && |b| < n && !HasKey(b, e.key)
    ensures Included([e] + s, [e] + b, m, n)
  {
    SubseqCons(s, b, e);
    SubseqRefl(b);
    assert ([e] + b)[1..] == b;
    FrontedDistinct([e] + b, b, e.key);
    SubseqDistinct([e] + s, [e] + b);
  }

  /** Pushing an entry in front of the smaller list that the larger one moves to its front. */
  lemma StoreNewcomerKeepsInclusion(small: Config, s: List, b: List, e: Entry, n: nat)
    requires small.numShards > 0 && small.maxMemoryMB <= 0
    requires Included(s, b, Cap(small), n) && Lookup(s, e.key).None? && Lookup(b, e.key).Some?
    ensures Included([e] + MakeRoom(small, s, e.storedSize), [e] + Without(b, e.key), Cap(small), n)
  {
    var s', b' := MakeRoom(small, s, e.storedSize), Without(b, e.key);
    MakeRoomPrefix(small, s, e.storedSize);
    SubseqWithout(s, b, e.key);
    WithoutAbsent(s, e.key);
    WithoutMembers(b, e.key);
    WithoutSizes(b, e.key);
    SubseqPrefix(s, b', |s'|);
    assert s' == s[..|s'|];
    PrefixDistinct(s', s);
    PushKeepsInclusion(s', b', e, Cap(small), n);
  }

  lemma InsertKeepsInclusion(small: Config, big: Config, s: List, b: List, e: Entry)
    requires small.numShards > 0 && big.numShards > 0 && small.maxMemoryMB <= 0 && big.maxMemoryMB <= 0
    requires Included(s, b, Cap(small), Cap(big)) && Lookup(b, e.key).None?
    ensures Included([e] + MakeRoom(small, s, e.storedSize), [e] + MakeRoom(big, b, e.storedSize), Cap(small), Cap(big))
  {
    var s', b' := MakeRoom(small, s, e.storedSize), MakeRoom(big, b, e.storedSize);
    MakeRoomPrefix(small, s, e.storedSize);
    MakeRoomPrefix(big, b, e.storedSize);
    if |b| == Cap(big) {
      SubseqInit(s, b);
      assert s' == s[..|s| - 1] && b' == b[..|b| - 1];
    } else {
      SubseqPrefix(s, b, |s'|);
      assert s' == s[..|s'|] && b' == b;
    }
    PrefixDistinct(s', s);
    PrefixDistinct(b', b);
    PrefixHasKey(b', b, e.key);
    PushKeepsInclusion(s', b', e, Cap(small), Cap(big));
  }

  lemma StoreKeepsInclusion(small: Config, big: Config, s: List, b: List, e: Entry)
    requires small.numShards > 0 && big.numShards > 0 && small.maxMemoryMB <= 0 && big.maxMemoryMB <= 0
    requires Included(s, b, Cap(small), Cap(big))
    ensures Included(Store(small, s, e), Store(big, b, e), Cap(small), Cap(big))
  {
    if Lookup(s, e.key).Some? {
      LookupIncluded(s, b, e.key);
      MoveKeepsInclusion(s, b, e, Cap(small), Cap(big));
    } else if Lookup(b, e.key).Some? {
      StoreNewcomerKeepsInclusion(small, s, b, e, Cap(big));
    } else {
      InsertKeepsInclusion(small, big, s, b, e);
    }
  }

  /** Moving the entry of one key, found in both lists, to the front of both. */
  lemma MoveKeepsInclusion(s: List, b: List, e: Entry, m: nat, n: nat)
    requires Included(s, b, m, n) && Lookup(s, e.key).Some? && Lookup(b, e.key).Some?
    ensures Included([e] + Without(s, e.key), [e] + Without(b, e.key), m, n)
  {
    RemovalKeepsInclusion(s, b, e.key, m, n);
    WithoutSizes(s, e.key);
    WithoutSizes(b, e.key);
    WithoutMembers(b, e.key);
    PushKeepsInclusion(Without(s, e.key), Without(b, e.key), e, m, n);
  }

  lemma FetchKeepsInclusion(env: Env, s: List, b: List, key: string, now: int, m: nat, n: nat)
    requires Included(s, b, m, n)
    ensures Included(Fetch(env, s, key, now).0, Fetch(env, b, key, now).0, m, n)
    ensures Fetch(env, s, key, now).1.Hit? ==> Fetch(env, b, key, now).1 == Fetch(env, s, key, now).1
  {
    RemovalKeepsInclusion(s, b, key, m, n);
    if Lookup(s, key).Some? {
      var at := LookupFinds(s, key);
      LookupIncluded(s, b, key);
      MoveKeepsInclusion(s, b, Lookup(s, key).value, m, n);
    } else if Lookup(b, key).Some? {
      WithoutAbsent(s, key);
      var e := Lookup(b, key).value;
      var at := LookupFinds(b, key);
      WithoutMembers(b, key);
      WithoutSizes(b, key);
      SubseqLonger(s, Without(b, key), e);
      SubseqRefl(Without(b, key));
      assert ([e] + Without(b, key))[1..] == Without(b, key);
      FrontedDistinct([e] + Without(b, key), Without(b, key), key);
    }
  }

  ghost predicate NoByteLimit(h: seq<Event>) {
    forall n :: 0 <= n < |h| && h[n].op.UpdateConfig? ==> h[n].op.maxMemoryMB <= 0
  }

  ghost predicate CacheIncluded(s: State, b: State) {
    && Sound(s) && Sound(b) && s.cfg == b.cfg.(maxSize := s.cfg.maxSize) && s.cfg.maxMemoryMB <= 0
    && forall i :: 0 <= i < |s.shards| ==> Included(s.shards[i], b.shards[i], Cap(s.cfg), Cap(b.cfg))
  }

  lemma ReplaceKeepsInclusion(s: State, b: State, i: nat, ls: List, lb: List)
    requires CacheIncluded(s, b) && i < |s.shards| && Included(ls, lb, Cap(s.cfg), Cap(b.cfg))
    ensures CacheIncluded(s.(shards := s.shards[i := ls]), b.(shards := b.shards[i := lb]))
  {}

  lemma GetKeepsInclusion(env: Env, s: State, b: State, ev: Event)
    requires CacheIncluded(s, b) && ev.op.Get?
    ensures CacheIncluded(Apply(env, s, ev).0, Apply(env, b, ev).0)
    ensures Apply(env, s, ev).1.Hit? ==> Apply(env, b, ev).1 == Apply(env, s, ev).1
  {
    if s.cfg.enabled {
      var key, i := ev.op.key, ShardOf(env, s.cfg, ev.op.key);
      FetchKeepsInclusion(env, s.shards[i], b.shards[i], key, ev.now, Cap(s.cfg), Cap(b.cfg));
      ReplaceKeepsInclusion(s, b, i, Fetch(env, s.shards[i], key, ev.now).0, Fetch(env, b.shards[i], key, ev.now).0);
    }
  }

  lemma SetKeepsInclusion(env: Env, s: State, b: State, ev: Event)
    requires CacheIncluded(s, b) && ev.op.Set?
    ensures CacheIncluded(Apply(env, s, ev).0, Apply(env, b, ev).0)
  {
    if Accepts(s.cfg, ev.op.value) {
      var i := ShardOf(env, s.cfg, ev.op.key);
      var e := MakeEntry(env, s.cfg, ev.op.key, ev.op.value, ev.now + ev.op.ttl);
      assert e == MakeEntry(env, b.cfg, ev.op.key, ev.op.value, ev.now + ev.op.ttl);
      StoreKeepsInclusion(s.cfg, b.cfg, s.shards[i], b.shards[i], e);
      ReplaceKeepsInclusion(s, b, i, Store(s.cfg, s.shards[i], e), Store(b.cfg, b.shards[i], e));
    }
  }

  lemma RemoveKeepsInclusion(env: Env, s: State, b: State, ev: Event)
    requires CacheIncluded(s, b) && (ev.op.Delete? || ev.op.ClearShard? || ev.op.CleanupShard?)
    ensures CacheIncluded(Apply(env, s, ev).0, Apply(env, b, ev).0)
  {
    var m, n := Cap(s.cfg), Cap(b.cfg);
    match ev.op
    case Delete(key) =>
      var i := ShardOf(env, s.cfg, key);
      RemovalKeepsInclusion(s.shards[i], b.shards[i], key, m, n);
      ReplaceKeepsInclusion(s, b, i, Without(s.shards[i], key), Without(b.shards[i], key));
    case ClearShard(i) =>
      if i < |s.shards| {
        assert Included(s.shards[i], b.shards[i], m, n);
        ReplaceKeepsInclusion(s, b, i, [], []);
      }
    case CleanupShard(i) =>
      if i < |s.shards| {
        ExpiryKeepsInclusion(s.shards[i], b.shards[i], ev.now, m, n);
        ReplaceKeepsInclusion(s, b, i, Live(s.shards[i], ev.now), Live(b.shards[i], ev.now));
      }
    case _ => assert false;
  }

  /** One event, whatever it is, keeps the smaller cache inside the larger. */
  lemma StepKeepsInclusion(env: Env, s: State, b: State, ev: Event)
    requires CacheIncluded(s, b)
    requires ev.op.UpdateConfig? ==> ev.op.maxMemoryMB <= 0
    ensures CacheIncluded(Apply(env, s, ev).0, Apply(env, b, ev).0)
    ensures Apply(env, s, ev).1.Hit? ==> Apply(env, b, ev).1 == Apply(env, s, ev).1
  {
    match ev.op
    case Get(_) => GetKeepsInclusion(env, s, b, ev);
    case Set(_, _, _) => SetKeepsInclusion(env, s, b, ev);
    case UpdateConfig(_, _, _, _) =>
    case SetEnabled(_) =>
    case _ => RemoveKeepsInclusion(env, s, b, ev);
  }

  /**
   LRU inclusion, for all runs: a cache that differs only in a larger MaxSize holds, shard by shard,
   everything the smaller one holds in the same order, and is longer by at most the difference of
   the count bounds.
   */
  lemma {:induction false} InclusionForAllRuns(env: Env, small: Config, big: Config, h: seq<Event>)
    requires small.numShards > 0 && small == big.(maxSize := small.maxSize) && Cap(small) <= Cap(big)
    requires small.maxMemoryMB <= 0 && NoByteLimit(h)
    ensures CacheIncluded(Run(env, small, h), Run(env, big, h))
  {
    if h == [] {
    } else {
      var before := h[..|h| - 1];
      assert forall n :: 0 <= n < |before| ==> before[n] == h[n];
      InclusionForAllRuns(env, small, big, before);
      StepKeepsInclusion(env, Run(env, small, before), Run(env, big, before), h[|h| - 1]);
    }
  }

  /** So more room never loses a hit: whatever the smaller cache would answer, the larger answers too. */
  lemma LargerCacheNeverLosesAHit(env: Env, small: Config, big: Config, h: seq<Event>, key: string, now: int)
    requires small.numShards > 0 && small == big.(maxSize := small.maxSize) && Cap(small) <= Cap(big)
    requires small.maxMemoryMB <= 0 && NoByteLimit(h)
    ensures var get := Event(now, Get(key));
            var s, b := Apply(env, Run(env, small, h), get).1, Apply(env, Run(env, big, h), get).1;
            s.Hit? ==> b == s
  {
    InclusionForAllRuns(env, small, big, h);
    StepKeepsInclusion(env, Run(env, small, h), Run(env, big, h), Event(now, Get(key)));
  }
}
