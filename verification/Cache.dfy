/**
 The cache of internal/cache/cache.go as it is written: a map, a recency list and a running byte
 count per shard, updated in place. Every method is proved against the step of the same name in
 CacheSpec, whose theorems therefore hold of this code. A method runs under its shard's lock.
 */
module Cache {
  import opened Common
  import Lru
  import Spec = CacheSpec

  /** An `Entry`, which is also its own list element. */
  class Entry {
    const key: string
    var value: Bytes
    var expiresAt: int
    var storedSize: nat
    var compressed: bool

    ghost function View(): Lru.Entry
      reads this
    {
      Lru.Entry(key, value, expiresAt, storedSize, compressed)
    }

    // The field assignments of SetWithTTL's update branch.
    method Rewrite(value: Bytes, expiresAt: int, compressed: bool)
      modifies this
      ensures View() == Lru.Entry(key, value, expiresAt, |value|, compressed)
    {
      this.value, this.storedSize, this.compressed, this.expiresAt := value, |value|, compressed, expiresAt;
    }

    constructor (key: string, value: Bytes, expiresAt: int, storedSize: nat, compressed: bool)
      ensures this.key == key
      ensures View() == Lru.Entry(key, value, expiresAt, storedSize, compressed)
    {
      this.key, this.value, this.expiresAt := key, value, expiresAt;
      this.storedSize, this.compressed := storedSize, compressed;
    }
  }

  /** Where an element stands in the list; container/list knows it from the element's links. */
  function Position(l: seq<Entry>, e: Entry): (p: nat)
    requires e in l
    ensures p < |l| && l[p] == e
  {
    if l[0] == e then 0 else 1 + Position(l[1..], e)
  }

  /** Map and list are in bijection: one list element per map key, and it carries that key. */
  ghost predicate Mapped(items: map<string, Entry>, lru: seq<Entry>) {
    && (forall i :: 0 <= i < |lru| ==> lru[i].key in items && items[lru[i].key] == lru[i])
    && (forall k :: k in items ==> items[k] in lru && items[k].key == k)
  }

  /** The abstract list shows each element's present contents. */
  ghost predicate Mirrors(contents: Lru.List, lru: seq<Entry>)
    reads lru
  {
    |contents| == |lru| && forall i {:trigger lru[i]} :: 0 <= i < |lru| ==> contents[i] == lru[i].View()
  }

  /** Unlinking one element of the list, and moving one to its front, seen from the abstract list. */
  lemma MirrorsUnlink(contents: Lru.List, lru: seq<Entry>, p: nat)
    requires Mirrors(contents, lru) && Lru.Distinct(contents) && p < |lru|
    ensures Mirrors(Lru.Without(contents, lru[p].key), lru[..p] + lru[p + 1..])
    ensures Mirrors([contents[p]] + Lru.Without(contents, lru[p].key), [lru[p]] + (lru[..p] + lru[p + 1..]))
  {
    Lru.WithoutIsSplice(contents, p);
  }

  /** The list behind the front element, mirrored on its own. */
  lemma MirrorsAround(contents: Lru.List, lru: seq<Entry>)
    requires Mirrors(contents, lru) && lru != []
    ensures Mirrors(contents[1..], lru[1..])
  {}

  lemma UnmapOne(items: map<string, Entry>, lru: seq<Entry>, p: nat)
    requires Mapped(items, lru) && p < |lru|
    requires forall i :: 0 <= i < |lru| && i != p ==> lru[i].key != lru[p].key
    ensures Mapped(items - {lru[p].key}, lru[..p] + lru[p + 1..])
  {
    var lru' := lru[..p] + lru[p + 1..];
    forall k | k in items && k != lru[p].key ensures items[k] in lru' {
      var i :| 0 <= i < |lru| && lru[i] == items[k];
      assert lru'[if i < p then i else i - 1] == items[k];
    }
  }

  lemma Rearranged(items: map<string, Entry>, lru: seq<Entry>, p: nat)
    requires Mapped(items, lru) && p < |lru|
    ensures Mapped(items, [lru[p]] + (lru[..p] + lru[p + 1..]))
  {
    var lru' := [lru[p]] + (lru[..p] + lru[p + 1..]);
    forall k | k in items ensures items[k] in lru' {
      var i :| 0 <= i < |lru| && lru[i] == items[k];
      assert lru'[if i < p then i + 1 else if i == p then 0 else i] == items[k];
    }
  }

  /** From place `n` on, the collected elements are still the ones the map holds under the collected keys. */
  ghost predicate Resident(items: map<string, Entry>, elems: seq<Entry>, keys: seq<string>, n: nat) {
    |elems| == |keys| && forall m :: n <= m < |keys| ==> keys[m] in items && items[keys[m]] == elems[m]
  }

  lemma ResidentNext(items: map<string, Entry>, elems: seq<Entry>, keys: seq<string>, n: nat)
    requires Resident(items, elems, keys, n) && Lru.NoRepeats(keys) && n < |keys|
    ensures Resident(items - {keys[n]}, elems, keys, n + 1)
  {}

  class Shard {
    var items: map<string, Entry>
    var lru: seq<Entry>
    var size: int
    ghost var Contents: Lru.List

    /** Keys are distinct, map and list agree, and the byte count is the sum over the list. */
    ghost predicate Valid()
      reads this, lru
    {
      Mirrors(Contents, lru) && Lru.Distinct(Contents) && size == Lru.Total(Contents) && Mapped(items, lru)
    }

    constructor ()
      ensures Valid() && Contents == []
    {
      items, lru, size, Contents := map[], [], 0, [];
    }

    /** The map answers exactly what a walk of the list would. */
    lemma ItemsAreTheList(key: string)
      requires Valid()
      ensures key in items <==> Lru.HasKey(Contents, key)
      ensures key in items ==> Lru.Lookup(Contents, key) == Some(items[key].View())
    {
      if key in items {
        var p := Position(lru, items[key]);
        assert Contents[p] == lru[p].View();
        Lru.LookupAt(Contents, p);
      } else {
        forall i | 0 <= i < |Contents| ensures Contents[i].key != key { assert Contents[i] == lru[i].View(); }
        Lru.AbsentKey(Contents, key);
      }
    }

    lemma KeysDiffer(p: nat)
      requires Mirrors(Contents, lru) && Lru.Distinct(Contents) && p < |lru|
      ensures forall i :: 0 <= i < |lru| && i != p ==> lru[i].key != lru[p].key
    {
      forall i | 0 <= i < |lru| && i != p ensures lru[i].key != lru[p].key {
        Lru.DistinctPlaces(Contents, if i < p then i else p, if i < p then p else i);
      }
    }

    // removeFromShard: delete from the map, unlink from the list, subtract the bytes.
    method Remove(elem: Entry)
      requires Valid() && elem in lru
      modifies this
      ensures Valid() && Contents == Lru.Without(old(Contents), elem.key)
      ensures items == old(items) - {elem.key} && |Contents| == |old(Contents)| - 1
    {
      var p := Position(lru, elem);
      Lru.Unlink(Contents, p);
      KeysDiffer(p);
      UnmapOne(items, lru, p);
      MirrorsUnlink(Contents, lru, p);
      ghost var left := Lru.Without(Contents, elem.key);
      assert |left| == |Contents| - 1;
      items := items - {elem.key};
      lru, Contents := lru[..p] + lru[p + 1..], left;
      size := size - elem.storedSize;
    }

    method MoveToFront(elem: Entry)
      requires Valid() && elem in lru
      modifies this`lru, this`Contents
      ensures Valid() && Contents == [elem.View()] + Lru.Without(old(Contents), elem.key)
      ensures lru[0] == elem
    {
      var p := Position(lru, elem);
      Lru.Relink(Contents, p);
      Rearranged(items, lru, p);
      MirrorsUnlink(Contents, lru, p);
      lru, Contents := [elem] + (lru[..p] + lru[p + 1..]), [elem.View()] + Lru.Without(Contents, elem.key);
    }
  }

  class Cache {
    const env: Spec.Env
    var cfg: Spec.Config
    var shards: seq<Shard>
    var hits: int
    var misses: int
    var evictions: int
    var compressionSaved: int

    ghost predicate Valid()
      reads *
    {
      && |shards| == cfg.numShards > 0
      && (forall i, j :: 0 <= i < j < |shards| ==> shards[i] != shards[j])
      && (forall i :: 0 <= i < |shards| ==> shards[i].Valid() && Spec.AtHome(env, cfg, i, shards[i].Contents))
    }

    ghost function View(): Spec.State
      reads this, shards
    {
      Spec.State(cfg, seq(|shards|, i requires 0 <= i < |shards| reads this, shards => shards[i].Contents))
    }

    constructor (env: Spec.Env, cfg: Spec.Config)
      ensures Valid()
      ensures this.env == env && this.cfg == cfg.(numShards := if cfg.numShards <= 0 then 16 else cfg.numShards)
      ensures View() == Spec.Initial(this.cfg)
      ensures hits == misses == evictions == compressionSaved == 0
    {
      this.env := env;
      this.cfg := cfg.(numShards := if cfg.numShards <= 0 then 16 else cfg.numShards);
      hits, misses, evictions, compressionSaved := 0, 0, 0, 0;
      var n := if cfg.numShards <= 0 then 16 else cfg.numShards;
      var made: seq<Shard> := [];
      while |made| < n
        invariant |made| <= n
        invariant forall i :: 0 <= i < |made| ==> fresh(made[i]) && made[i].Valid() && made[i].Contents == []
        invariant forall i, j :: 0 <= i < j < |made| ==> made[i] != made[j]
      {
        var s := new Shard();
        made := made + [s];
      }
      shards := made;
    }

    method GetShard(key: string) returns (s: Shard)
      requires Valid()
      ensures s == shards[Spec.ShardOf(env, cfg, key)] && s.Valid()
    {
      s := shards[Spec.ShardOf(env, cfg, key)];
    }

    /** The frame of every single-shard method: one shard of the abstract state is replaced. */
    twostate lemma OneShardChanged(i: nat)
      requires old(Valid()) && i < |shards| && shards == old(shards) && cfg == old(cfg)
      requires forall j :: 0 <= j < |shards| && j != i ==> unchanged(shards[j])
      requires forall j, e :: 0 <= j < |shards| && j != i && e in old(shards[j].lru) ==> unchanged(e)
      requires shards[i].Valid() && Spec.AtHome(env, cfg, i, shards[i].Contents)
      ensures Valid() && View() == old(View()).(shards := old(View()).shards[i := shards[i].Contents])
    {
      forall j | 0 <= j < |shards| && j != i ensures shards[j].Valid() {}
    }

    /** Two shards share no entry, because an entry's key names its shard. */
    lemma ShardsApart(i: nat, j: nat, e: Entry)
      requires Valid() && i < |shards| && j < |shards| && e in shards[i].lru && e in shards[j].lru
      ensures i == j
    {
      var p, q := Position(shards[i].lru, e), Position(shards[j].lru, e);
      assert shards[i].Contents[p].key == e.key == shards[j].Contents[q].key;
    }

    /** Whatever a step will leave in a shard belongs there. */
    lemma StepStaysHome(ev: Spec.Event, i: nat)
      requires Valid() && i < |shards|
      ensures Spec.AtHome(env, cfg, i, Spec.Apply(env, View(), ev).0.shards[i])
    {
      var st := View();
      var l, l' := st.shards[i], Spec.Apply(env, st, ev).0.shards[i];
      forall j | 0 <= j < |l'| ensures Spec.ShardOf(env, cfg, l'[j].key) == i {
        if l'[j] in l {
          var m :| 0 <= m < |l| && l[m] == l'[j];
        } else {
          Spec.NewcomerIsTheSet(env, st, ev, i, l'[j]);
        }
      }
    }

    // ---- the helpers that run inside a held lock ----

    method EvictOldestFromShard(s: Shard)
      requires s.Valid()
      modifies s, this`evictions
      ensures s.Valid() && |s.lru| == Max(0, |old(s.lru)| - 1)
      ensures s.Contents == old(s.Contents)[..|s.lru|]
      ensures evictions == old(evictions) + |old(s.lru)| - |s.lru|
    {
      if |s.lru| > 0 {
        var back := s.lru[|s.lru| - 1];
        Lru.Unlink(s.Contents, |s.lru| - 1);
        s.Remove(back);
        evictions := evictions + 1;
      }
    }

    method EvictIfNeeded(s: Shard, incoming: nat)
      requires s.Valid() && cfg.numShards > 0
      modifies s, this`evictions
      ensures s.Valid()
      ensures s.Contents == if cfg.maxMemoryMB <= 0 then old(s.Contents)
                            else Lru.EvictBytes(old(s.Contents), incoming, Spec.Budget(cfg))
      ensures evictions == old(evictions) + |old(s.lru)| - |s.lru|
    {
      if cfg.maxMemoryMB <= 0 { return; }
      var maxMemory := TruncDiv(cfg.maxMemoryMB * 1024 * 1024, cfg.numShards);
      while s.size + incoming > maxMemory && |s.lru| > 0
        invariant s.Valid()
        invariant Lru.EvictBytes(s.Contents, incoming, maxMemory)
               == Lru.EvictBytes(old(s.Contents), incoming, maxMemory)
        invariant evictions == old(evictions) + |old(s.lru)| - |s.lru|
        decreases |s.lru|
      {
        EvictOldestFromShard(s);
      }
    }

    method EvictByCount(s: Shard)
      requires s.Valid() && cfg.numShards > 0
      modifies s, this`evictions
      ensures s.Valid() && s.Contents == Lru.EvictCount(old(s.Contents), Spec.Cap(cfg))
      ensures evictions == old(evictions) + |old(s.lru)| - |s.lru|
    {
      var maxPerShard := TruncDiv(cfg.maxSize, cfg.numShards);
      if maxPerShard < 10 { maxPerShard := 10; }
      ghost var l := s.Contents;
      Lru.EvictCountPrefix(l, maxPerShard);
      while |s.lru| >= maxPerShard
        invariant s.Valid() && s.Contents <= l && |s.lru| >= Min(|l|, maxPerShard - 1)
        invariant evictions == old(evictions) + |l| - |s.lru|
        decreases |s.lru|
      {
        EvictOldestFromShard(s);
      }
    }

    // ---- operations ----

    method Get(key: string, now: int) returns (value: Bytes, ok: bool)
      requires Valid()
      modifies this`hits, this`misses, shards[Spec.ShardOf(env, cfg, key)]
      ensures Valid() && View() == Spec.Apply(env, old(View()), Spec.Event(now, Spec.Get(key))).0
      ensures Spec.Apply(env, old(View()), Spec.Event(now, Spec.Get(key))).1
           == if ok then Spec.Hit(value) else Spec.Miss
      ensures hits == old(hits) + (if Spec.Resident(env, old(View()), key, now) then 1 else 0)
      ensures misses == old(misses) + (if cfg.enabled && !Spec.Resident(env, old(View()), key, now) then 1 else 0)
    {
      value, ok := [], false;
      if cfg.enabled {
        var s := GetShard(key);
        StepStaysHome(Spec.Event(now, Spec.Get(key)), Spec.ShardOf(env, cfg, key));
        value, ok := GetFromShard(s, key, now);
        OneShardChanged(Spec.ShardOf(env, cfg, key));
      }
    }

    method GetFromShard(s: Shard, key: string, now: int) returns (value: Bytes, ok: bool)
      requires s.Valid()
      modifies this`hits, this`misses, s
      ensures s.Valid()
      ensures Spec.Fetch(env, old(s.Contents), key, now) == (s.Contents, if ok then Spec.Hit(value) else Spec.Miss)
      ensures hits == old(hits) + (if Spec.Fresh(old(s.Contents), key, now) then 1 else 0)
      ensures misses == old(misses) + (if Spec.Fresh(old(s.Contents), key, now) then 0 else 1)
    {
      value, ok := [], false;
      s.ItemsAreTheList(key);
      if key !in s.items {
        misses := misses + 1;
      } else if now > s.items[key].expiresAt {
        s.Remove(s.items[key]);
        misses := misses + 1;
      } else {
        value, ok := Touch(s, s.items[key]);
        hits := hits + 1;
      }
    }

    /** The resident branch of Get: move to front, then decompress; a corrupt entry is dropped. */
    method Touch(s: Shard, elem: Entry) returns (value: Bytes, ok: bool)
      requires s.Valid() && elem in s.lru
      modifies s
      ensures s.Valid()
      ensures match Spec.Unpack(env, elem.View())
              case Some(v) => ok && value == v && s.Contents == [elem.View()] + Lru.Without(old(s.Contents), elem.key)
              case None => !ok && s.Contents == Lru.Without(old(s.Contents), elem.key)
    {
      s.MoveToFront(elem);
      value, ok := elem.value, true;
      if elem.compressed {
        var plain := env.gzip.decompress(elem.value);
        if plain.None? {
          s.Remove(elem);
          value, ok := [], false;
        } else {
          value := plain.value;
        }
      }
    }

    /** `defaultTtl` is what getTTL(model, endpoint) returns for this call. */
    method SetWithTTL(key: string, value: Bytes, ttl: int, defaultTtl: int, now: int)
      requires Valid()
      modifies this`evictions, this`compressionSaved
      modifies shards[Spec.ShardOf(env, cfg, key)], shards[Spec.ShardOf(env, cfg, key)].lru
      ensures Valid()
      ensures View() == Spec.SetAt(env, old(View()), key, value, now + if ttl == 0 then defaultTtl else ttl)
      ensures compressionSaved == old(compressionSaved)
                                  + if Spec.Accepts(cfg, value) then |value| - |Spec.Pack(env, cfg, value).0| else 0
      ensures var i := Spec.ShardOf(env, cfg, key);
              evictions == old(evictions) + if Spec.Accepts(cfg, value) && !Lru.HasKey(old(shards[i].Contents), key)
                                            then |old(shards[i].Contents)| + 1 - |shards[i].Contents| else 0
    {
      var lifetime := if ttl == 0 then defaultTtl else ttl;
      if !cfg.enabled || |value| > cfg.maxItemSize { return; }
      PackAndStore(key, value, now + lifetime);
    }

    method PackAndStore(key: string, value: Bytes, expiresAt: int)
      requires Valid()
      modifies this`evictions, this`compressionSaved
      modifies shards[Spec.ShardOf(env, cfg, key)], shards[Spec.ShardOf(env, cfg, key)].lru
      ensures Valid()
      ensures View() == Spec.StoreAt(env, old(View()), key, Spec.MakeEntry(env, cfg, key, value, expiresAt))
      ensures compressionSaved == old(compressionSaved) + |value| - |Spec.Pack(env, cfg, value).0|
      ensures var i := Spec.ShardOf(env, cfg, key);
              evictions == old(evictions) + if Lru.HasKey(old(shards[i].Contents), key) then 0
                                            else |old(shards[i].Contents)| + 1 - |shards[i].Contents|
    {
      var stored, compressed := PackValue(value);
      StorePacked(key, stored, expiresAt, compressed);
    }

    /** The part of SetWithTTL that runs under the shard lock. */
    method StorePacked(key: string, stored: Bytes, expiresAt: int, compressed: bool)
      requires Valid()
      modifies this`evictions, shards[Spec.ShardOf(env, cfg, key)], shards[Spec.ShardOf(env, cfg, key)].lru
      ensures Valid()
      ensures View() == Spec.StoreAt(env, old(View()), key, Lru.Entry(key, stored, expiresAt, |stored|, compressed))
      ensures var i := Spec.ShardOf(env, cfg, key);
              evictions == old(evictions) + if Lru.HasKey(old(shards[i].Contents), key) then 0
                                            else |old(shards[i].Contents)| + 1 - |shards[i].Contents|
    {
      ghost var i := Spec.ShardOf(env, cfg, key);
      var s := GetShard(key);
      Spec.StoreAtHome(env, cfg, i, s.Contents, Lru.Entry(key, stored, expiresAt, |stored|, compressed));
      forall j, e | 0 <= j < |shards| && e in shards[j].lru && e in s.lru ensures j == i {
        ShardsApart(i, j, e);
      }
      SetInShard(s, key, stored, expiresAt, compressed);
      OneShardChanged(i);
    }

    method PackValue(value: Bytes) returns (stored: Bytes, compressed: bool)
      modifies this`compressionSaved
      ensures (stored, compressed) == Spec.Pack(env, cfg, value)
      ensures compressionSaved == old(compressionSaved) + |value| - |stored|
    {
      stored, compressed := value, false;
      if cfg.compressionEnabled && |value| >= cfg.compressionMinSize {
        var packed := env.gzip.compress(value);
        if packed.Some? && |packed.value| < |value| {
          stored, compressed := packed.value, true;
          compressionSaved := compressionSaved + |value| - |stored|;
        }
      }
    }

    method SetInShard(s: Shard, key: string, stored: Bytes, expiresAt: int, compressed: bool)
      requires s.Valid() && cfg.numShards > 0
      modifies s, s.lru, this`evictions
      ensures s.Valid()
      ensures s.Contents == Spec.Store(cfg, old(s.Contents), Lru.Entry(key, stored, expiresAt, |stored|, compressed))
      ensures evictions == old(evictions) + if Lru.HasKey(old(s.Contents), key) then 0
                                            else |old(s.Contents)| + 1 - |s.Contents|
    {
      s.ItemsAreTheList(key);
      if key in s.items {
        Overwrite(s, s.items[key], stored, expiresAt, compressed);
      } else {
        Insert(s, key, stored, expiresAt, compressed);
      }
    }

    /** The update branch: the entry is rewritten in place and nothing is evicted. */
    method Overwrite(s: Shard, elem: Entry, stored: Bytes, expiresAt: int, compressed: bool)
      requires s.Valid() && elem in s.lru
      modifies s`lru, s`size, s`Contents, elem
      ensures s.Valid()
      ensures s.Contents == [Lru.Entry(elem.key, stored, expiresAt, |stored|, compressed)]
                            + Lru.Without(old(s.Contents), elem.key)
    {
      s.MoveToFront(elem);
      s.KeysDiffer(0);
      ghost var e := Lru.Entry(elem.key, stored, expiresAt, |stored|, compressed);
      Lru.ReplaceFront(s.Contents, e);
      assert elem.View() == s.Contents[0];
      MirrorsAround(s.Contents, s.lru);
      s.size := s.size - elem.storedSize;
      elem.Rewrite(stored, expiresAt, compressed);
      s.size := s.size + elem.storedSize;
      s.Contents := [e] + s.Contents[1..];
    }

    /** The insert branch: byte eviction, count eviction, then the new entry goes in front. */
    method Insert(s: Shard, key: string, stored: Bytes, expiresAt: int, compressed: bool)
      requires s.Valid() && cfg.numShards > 0 && key !in s.items
      modifies s, this`evictions
      ensures s.Valid()
      ensures s.Contents == [Lru.Entry(key, stored, expiresAt, |stored|, compressed)]
                            + Spec.MakeRoom(cfg, old(s.Contents), |stored|)
      ensures evictions == old(evictions) + |old(s.Contents)| + 1 - |s.Contents|
    {
      s.ItemsAreTheList(key);
      ghost var l := s.Contents;
      EvictIfNeeded(s, |stored|);
      EvictByCount(s);
      Spec.MakeRoomPrefix(cfg, l, |stored|);
      Lru.PrefixHasKey(s.Contents, l, key);
      s.ItemsAreTheList(key);
      var elem := new Entry(key, stored, expiresAt, |stored|, compressed);
      Push(s, elem);
    }

    method Push(s: Shard, elem: Entry)
      requires s.Valid() && elem.key !in s.items && !Lru.HasKey(s.Contents, elem.key)
      modifies s
      ensures s.Valid() && s.Contents == [elem.View()] + old(s.Contents)
    {
      s.lru := [elem] + s.lru;
      s.items := s.items[elem.key := elem];
      s.size := s.size + elem.storedSize;
      Lru.TotalAppend([elem.View()], s.Contents);
      s.Contents := [elem.View()] + s.Contents;
    }

    method Delete(key: string)
      requires Valid()
      modifies shards[Spec.ShardOf(env, cfg, key)]
      ensures Valid()
      ensures forall now :: View() == Spec.Apply(env, old(View()), Spec.Event(now, Spec.Delete(key))).0
    {
      var s := GetShard(key);
      StepStaysHome(Spec.Event(0, Spec.Delete(key)), Spec.ShardOf(env, cfg, key));
      s.ItemsAreTheList(key);
      if key in s.items {
        s.Remove(s.items[key]);
      } else {
        Lru.WithoutAbsent(s.Contents, key);
      }
      OneShardChanged(Spec.ShardOf(env, cfg, key));
    }

    method Clear()
      requires Valid()
      modifies shards
      ensures Valid() && View() == Spec.Initial(cfg)
    {
      for i := 0 to |shards|
        invariant forall j :: 0 <= j < i ==> shards[j].Valid() && shards[j].Contents == []
        invariant forall j :: i <= j < |shards| ==> unchanged(shards[j])
      {
        shards[i].items, shards[i].lru, shards[i].size, shards[i].Contents := map[], [], 0, [];
      }
    }

    method CleanupShard(s: Shard, now: int)
      requires s.Valid()
      modifies s, this`evictions
      ensures s.Valid() && s.Contents == Lru.Live(old(s.Contents), now)
      ensures evictions == old(evictions) + |old(s.Contents)| - |s.Contents|
    {
      var toRemove, keys := CollectExpired(s, now);
      Lru.ExpiredKeysAreTheExpired(s.Contents, now);
      Lru.ExpiredKeysDistinct(s.Contents, now);
      RemoveAll(s, toRemove, keys);
    }

    method RemoveAll(s: Shard, toRemove: seq<Entry>, ghost keys: seq<string>)
      requires s.Valid() && Lru.NoRepeats(keys) && Resident(s.items, toRemove, keys, 0)
      modifies s, this`evictions
      ensures s.Valid() && s.Contents == Lru.WithoutAll(old(s.Contents), keys)
      ensures evictions == old(evictions) + |old(s.Contents)| - |s.Contents|
    {
      ghost var left := Lru.WithoutAll(s.Contents, keys);
      assert keys[0..] == keys;
      for n := 0 to |toRemove|
        invariant s.Valid() && Lru.WithoutAll(s.Contents, keys[n..]) == left
        invariant Resident(s.items, toRemove, keys, n)
        invariant evictions == old(evictions) + |old(s.Contents)| - |s.Contents|
      {
        Lru.WithoutAllNext(s.Contents, keys, n);
        ResidentNext(s.items, toRemove, keys, n);
        s.Remove(toRemove[n]);
        evictions := evictions + 1;
      }
    }

    /** The walk from the back of the list that gathers what has expired. */
    method CollectExpired(s: Shard, now: int) returns (toRemove: seq<Entry>, ghost keys: seq<string>)
      requires s.Valid()
      ensures keys == Lru.ExpiredKeys(s.Contents, now) && Resident(s.items, toRemove, keys, 0)
    {
      toRemove, keys := [], [];
      ghost var l := s.Contents;
      var i := |s.lru|;
      while i > 0
        invariant 0 <= i <= |s.lru|
        invariant keys == Lru.ExpiredKeys(l[i..], now) && Resident(s.items, toRemove, keys, 0)
      {
        i := i - 1;
        assert l[i..] == [l[i]] + l[i + 1..];
        assert l[i] == s.lru[i].View();
        if now > s.lru[i].expiresAt {
          toRemove, keys := toRemove + [s.lru[i]], keys + [s.lru[i].key];
        }
      }
      assert l[0..] == l;
    }

    method Cleanup(now: int)
      requires Valid()
      modifies shards, this`evictions
      ensures Valid() && cfg == old(cfg) && shards == old(shards)
      ensures forall i :: 0 <= i < |shards| ==> shards[i].Contents == Lru.Live(old(shards[i].Contents), now)
    {
      for i := 0 to |shards|
        invariant Valid()
        invariant forall j :: 0 <= j < i ==> shards[j].Contents == Lru.Live(old(shards[j].Contents), now)
        invariant forall j :: i <= j < |shards| ==> unchanged(shards[j])
      {
        label step:
        StepStaysHome(Spec.Event(now, Spec.CleanupShard(i)), i);
        CleanupShard(shards[i], now);
        OneShardChanged@step(i);
      }
    }

    /** The totals Stats() reports: the true stored bytes and entries over all shards. */
    method Stats() returns (memoryUsed: int, itemCount: int)
      requires Valid()
      ensures memoryUsed == Spec.TotalBytes(View().shards) && itemCount == Spec.TotalCount(View().shards)
    {
      memoryUsed, itemCount := 0, 0;
      for i := 0 to |shards|
        invariant memoryUsed == Spec.TotalBytes(View().shards[..i]) && itemCount == Spec.TotalCount(View().shards[..i])
      {
        assert View().shards[..i + 1] == View().shards[..i] + [shards[i].Contents];
        memoryUsed, itemCount := memoryUsed + shards[i].size, itemCount + |shards[i].lru|;
      }
      assert View().shards[..|shards|] == View().shards;
    }

    method SetEnabled(enabled: bool)
      requires Valid()
      modifies this`cfg
      ensures Valid()
      ensures forall now :: View() == Spec.Apply(env, old(View()), Spec.Event(now, Spec.SetEnabled(enabled))).0
    {
      cfg := cfg.(enabled := enabled);
    }

    method UpdateConfig(enabled: bool, maxItemSize: int, maxMemoryMB: int, compressionEnabled: bool)
      requires Valid()
      modifies this`cfg
      ensures Valid()
      ensures var op := Spec.UpdateConfig(enabled, maxItemSize, maxMemoryMB, compressionEnabled);
              forall now :: View() == Spec.Apply(env, old(View()), Spec.Event(now, op)).0
    {
      cfg := cfg.(enabled := enabled, maxItemSize := maxItemSize, maxMemoryMB := maxMemoryMB,
                  compressionEnabled := compressionEnabled);
    }
  }
}
