/**
 The recency list of one cache shard, as a sequence of entries whose index 0 is the front
 (most recently touched) of the `container/list` in internal/cache/cache.go.
 */
module Lru {
  import opened Common

  datatype Entry = Entry(key: string, value: Bytes, expiresAt: int, storedSize: nat, compressed: bool)

  type List = seq<Entry>

  /** The entry stored under a key, if any. */
  ghost function Lookup(l: List, k: string): Option<Entry> {
    if l == [] then None else if l[0].key == k then Some(l[0]) else Lookup(l[1..], k)
  }

  ghost predicate HasKey(l: List, k: string) { Lookup(l, k).Some? }

  /** No two entries share a key. */
  ghost predicate Distinct(l: List) {
    l == [] || (!HasKey(l[1..], l[0].key) && Distinct(l[1..]))
  }

  ghost function Without(l: List, k: string): List {
    if l == [] then [] else if l[0].key == k then l[1..] else [l[0]] + Without(l[1..], k)
  }

  ghost function Total(l: List): nat {
    if l == [] then 0 else l[0].storedSize + Total(l[1..])
  }

  predicate Expired(e: Entry, now: int) { now > e.expiresAt }

  /** What expiry cleanup leaves, in the order it stood. */
  ghost function Live(l: List, now: int): List {
    if l == [] then []
    else if Expired(l[0], now) then Live(l[1..], now)
    else [l[0]] + Live(l[1..], now)
  }

  /** Drops entries from the back until `incoming` more bytes fit in the budget, or nothing is left. */
  ghost function EvictBytes(l: List, incoming: nat, budget: int): List {
    if |l| > 0 && Total(l) + incoming > budget then EvictBytes(l[..|l| - 1], incoming, budget) else l
  }

  /** Drops entries from the back until fewer than `cap` are left. */
  ghost function EvictCount(l: List, cap: nat): List
    requires cap > 0
  {
    if |l| >= cap then EvictCount(l[..|l| - 1], cap) else l
  }

  /** `a` is a subsequence of `b`. */
  ghost predicate Subseq(a: List, b: List) {
    if a == [] then true
    else if b == [] then false
    else if a[0] == b[0] then Subseq(a[1..], b[1..])
    else Subseq(a, b[1..])
  }

  // ---- lookup and removal ----

  lemma {:induction false} LookupFinds(l: List, k: string) returns (i: nat)
    requires HasKey(l, k)
    ensures i < |l| && l[i] == Lookup(l, k).value && l[i].key == k
  {
    if l[0].key == k {
      i := 0;
    } else {
      i := LookupFinds(l[1..], k);
      i := i + 1;
    }
  }

  lemma {:induction false} HasKeyAt(l: List, i: nat)
    requires i < |l|
    ensures HasKey(l, l[i].key)
  {
    if i == 0 {
    } else {
      assert l[1..][i - 1] == l[i];
      HasKeyAt(l[1..], i - 1);
    }
  }

  lemma {:induction false} AbsentKey(l: List, k: string)
    requires forall i :: 0 <= i < |l| ==> l[i].key != k
    ensures !HasKey(l, k)
  {
    if l == [] {
    } else {
      assert forall i :: 0 <= i < |l[1..]| ==> l[1..][i] == l[i + 1];
      AbsentKey(l[1..], k);
    }
  }

  lemma HasKeyOf(l: List, e: Entry)
    requires e in l
    ensures HasKey(l, e.key)
  {
    var i :| 0 <= i < |l| && l[i] == e;
    HasKeyAt(l, i);
  }

  /** In a list without repeated keys an entry is found under its key. */
  lemma {:induction false} LookupAt(l: List, i: nat)
    requires Distinct(l) && i < |l|
    ensures Lookup(l, l[i].key) == Some(l[i])
  {
    if i == 0 {
    } else {
      assert l[1..][i - 1] == l[i];
      HasKeyAt(l[1..], i - 1);
      LookupAt(l[1..], i - 1);
    }
  }

  lemma LookupOf(l: List, e: Entry)
    requires Distinct(l) && e in l
    ensures Lookup(l, e.key) == Some(e)
  {
    var i :| 0 <= i < |l| && l[i] == e;
    LookupAt(l, i);
  }

  /** What `Distinct` means place by place. */
  lemma {:induction false} DistinctPlaces(l: List, i: nat, j: nat)
    requires Distinct(l) && i < j < |l|
    ensures l[i].key != l[j].key
  {
    assert l[1..][j - 1] == l[j];
    HasKeyAt(l[1..], j - 1);
    if i > 0 {
      assert l[1..][i - 1] == l[i];
      DistinctPlaces(l[1..], i - 1, j - 1);
    }
  }

  lemma {:induction false} WithoutIsSplice(l: List, i: nat)
    requires Distinct(l) && i < |l|
    ensures Without(l, l[i].key) == l[..i] + l[i + 1..]
  {
    if i == 0 {
    } else {
      assert l[1..][i - 1] == l[i];
      HasKeyAt(l[1..], i - 1);
      WithoutIsSplice(l[1..], i - 1);
    }
  }

  lemma {:induction false} WithoutAbsent(l: List, k: string)
    requires !HasKey(l, k)
    ensures Without(l, k) == l
  {
    if l == [] {
    } else {
      WithoutAbsent(l[1..], k);
    }
  }

  /** A removal takes out one entry, and exactly its stored bytes. */
  lemma {:induction false} WithoutSizes(l: List, k: string)
    ensures |Without(l, k)| == |l| - (if Lookup(l, k).Some? then 1 else 0)
    ensures Total(Without(l, k)) == Total(l) - (match Lookup(l, k) case Some(e) => e.storedSize case None => 0)
  {
    if l != [] && l[0].key != k {
      WithoutSizes(l[1..], k);
      assert ([l[0]] + Without(l[1..], k))[1..] == Without(l[1..], k);
    }
  }

  lemma {:induction false} TotalAppend(a: List, b: List)
    ensures Total(a + b) == Total(a) + Total(b)
  {
    if a == [] {
      assert a + b == b;
    } else {
      assert (a + b)[1..] == a[1..] + b;
      TotalAppend(a[1..], b);
    }
  }

  lemma {:induction false} TotalAtMost(l: List, bound: nat)
    requires forall e :: e in l ==> e.storedSize <= bound
    ensures Total(l) <= |l| * bound
  {
    if l == [] {
    } else {
      TotalAtMost(l[1..], bound);
      assert |l| * bound == |l[1..]| * bound + bound;
    }
  }

  lemma {:induction false} LiveTotal(l: List, now: int)
    ensures Total(Live(l, now)) <= Total(l)
  {
    if l == [] {
    } else {
      LiveTotal(l[1..], now);
      assert ([l[0]] + Live(l[1..], now))[1..] == Live(l[1..], now);
    }
  }

  // ---- removing several keys ----

  /** The keys an expiry walk from the back to the front collects, in that order. */
  ghost function ExpiredKeys(l: List, now: int): seq<string> {
    if l == [] then []
    else ExpiredKeys(l[1..], now) + if Expired(l[0], now) then [l[0].key] else []
  }

  ghost function WithoutAll(l: List, keys: seq<string>): List
    decreases |keys|
  {
    if keys == [] then l else WithoutAll(Without(l, keys[0]), keys[1..])
  }

  lemma {:induction false} WithoutAllSnoc(l: List, keys: seq<string>, k: string)
    ensures WithoutAll(l, keys + [k]) == Without(WithoutAll(l, keys), k)
    decreases |keys|
  {
    if keys == [] {
      assert ([k])[1..] == [];
    } else {
      assert (keys + [k])[1..] == keys[1..] + [k];
      WithoutAllSnoc(Without(l, keys[0]), keys[1..], k);
    }
  }

  lemma WithoutAllNext(l: List, keys: seq<string>, n: nat)
    requires n < |keys|
    ensures WithoutAll(l, keys[n..]) == WithoutAll(Without(l, keys[n]), keys[n + 1..])
  {
    assert keys[n..][1..] == keys[n + 1..];
  }

  /** Keys that avoid the first entry are removed from the rest of the list. */
  lemma {:induction false} WithoutAllCons(e: Entry, l: List, keys: seq<string>)
    requires e.key !in keys
    ensures WithoutAll([e] + l, keys) == [e] + WithoutAll(l, keys)
    decreases |keys|
  {
    if keys == [] {
    } else {
      assert ([e] + l)[1..] == l;
      assert Without([e] + l, keys[0]) == [e] + Without(l, keys[0]);
      WithoutAllCons(e, Without(l, keys[0]), keys[1..]);
    }
  }

  /** Removing the collected keys one by one leaves exactly the live entries. */
  lemma {:induction false} ExpiredKeysAreTheExpired(l: List, now: int)
    requires Distinct(l)
    ensures WithoutAll(l, ExpiredKeys(l, now)) == Live(l, now)
  {
    if l == [] {
    } else {
      var keys := ExpiredKeys(l[1..], now);
      ExpiredKeysAreTheExpired(l[1..], now);
      ExpiredKeysDistinct(l, now);
      assert l == [l[0]] + l[1..];
      WithoutAllCons(l[0], l[1..], keys);
      if Expired(l[0], now) {
        WithoutAllSnoc(l, keys, l[0].key);
        assert ([l[0]] + WithoutAll(l[1..], keys))[1..] == WithoutAll(l[1..], keys);
      } else {
        assert ExpiredKeys(l, now) == keys;
      }
    }
  }

  ghost predicate NoRepeats(keys: seq<string>) {
    forall i, j :: 0 <= i < j < |keys| ==> keys[i] != keys[j]
  }

  /** No key is collected twice, and a list's first key is not among those of its tail. */
  lemma {:induction false} ExpiredKeysDistinct(l: List, now: int)
    requires Distinct(l)
    ensures NoRepeats(ExpiredKeys(l, now))
    ensures forall k :: k in ExpiredKeys(l, now) ==> HasKey(l, k)
    ensures l != [] ==> l[0].key !in ExpiredKeys(l[1..], now)
  {
    if l == [] {
    } else {
      ExpiredKeysDistinct(l[1..], now);
    }
  }

  // ---- eviction ----

  lemma {:induction false} EvictBytesPrefix(l: List, incoming: nat, budget: int)
    ensures EvictBytes(l, incoming, budget) <= l
    ensures EvictBytes(l, incoming, budget) == [] || Total(EvictBytes(l, incoming, budget)) + incoming <= budget
    decreases |l|
  {
    if |l| > 0 && Total(l) + incoming > budget {
      EvictBytesPrefix(l[..|l| - 1], incoming, budget);
    }
  }

  /** What is kept is the longest prefix that fits: any longer one is over budget. */
  lemma {:induction false} EvictBytesKeepsTheLongest(l: List, incoming: nat, budget: int, n: nat)
    requires |EvictBytes(l, incoming, budget)| < n <= |l|
    ensures Total(l[..n]) + incoming > budget
  {
    if n == |l| {
      assert l[..n] == l;
    } else {
      EvictBytesKeepsTheLongest(l[..|l| - 1], incoming, budget, n);
      assert l[..|l| - 1][..n] == l[..n];
    }
  }

  lemma {:induction false} EvictCountLength(l: List, cap: nat)
    requires cap > 0
    ensures |EvictCount(l, cap)| == Min(|l|, cap - 1)
  {
    if |l| < cap {
    } else {
      EvictCountLength(l[..|l| - 1], cap);
    }
  }

  lemma {:induction false} EvictCountPrefix(l: List, cap: nat)
    requires cap > 0
    ensures EvictCount(l, cap) == if |l| < cap then l else l[..cap - 1]
    decreases |l|
  {
    if |l| >= cap {
      EvictCountPrefix(l[..|l| - 1], cap);
    }
  }

  lemma TotalPrefix(a: List, l: List)
    requires a <= l
    ensures Total(a) <= Total(l)
  {
    assert l == a + l[|a|..];
    TotalAppend(a, l[|a|..]);
  }

  // ---- subsequences ----

  lemma {:induction false} SubseqRefl(a: List)
    ensures Subseq(a, a)
  {
    if a == [] {
    } else {
      SubseqRefl(a[1..]);
    }
  }

  lemma {:induction false} SubseqMembers(a: List, b: List)
    requires Subseq(a, b)
    ensures |a| <= |b|
    ensures forall i :: 0 <= i < |a| ==> a[i] in b
    decreases |b|
  {
    if a == [] {
    } else {
      if a[0] == b[0] {
        SubseqMembers(a[1..], b[1..]);
        forall i | 0 < i < |a| ensures a[i] in b { assert a[i] == a[1..][i - 1]; }
      } else {
        SubseqMembers(a, b[1..]);
      }
    }
  }

  lemma {:induction false} SubseqHasKey(a: List, b: List, k: string)
    requires Subseq(a, b) && HasKey(a, k)
    ensures HasKey(b, k)
    decreases |b|
  {
    if a[0] == b[0] {
      if a[0].key != k { SubseqHasKey(a[1..], b[1..], k); }
    } else {
      SubseqHasKey(a, b[1..], k);
    }
  }

  /** A tail of a subsequence is a subsequence. */
  lemma {:induction false} SubseqTail(a: List, b: List)
    requires a != [] && Subseq(a, b)
    ensures b != [] && Subseq(a[1..], b[1..])
    decreases |b|, 0
  {
    if a[0] != b[0] {
      SubseqTail(a, b[1..]);
      if |a| > 1 { SubseqLonger(a[1..], b[1..][1..], b[1]); assert [b[1]] + b[1..][1..] == b[1..]; }
    }
  }

  lemma {:induction false} SubseqLonger(a: List, b: List, e: Entry)
    requires Subseq(a, b)
    ensures Subseq(a, [e] + b)
    decreases |b|, 1
  {
    assert ([e] + b)[1..] == b;
    if a != [] && a[0] == e {
      SubseqTail(a, b);
      SubseqLonger(a[1..], b[1..], b[0]);
      assert [b[0]] + b[1..] == b;
    }
  }

  lemma SubseqCons(a: List, b: List, e: Entry)
    requires Subseq(a, b)
    ensures Subseq([e] + a, [e] + b)
  {
    assert ([e] + a)[1..] == a && ([e] + b)[1..] == b;
  }

  /** Dropping a key keeps a subsequence a subsequence. */
  lemma {:induction false} SubseqWithout(a: List, b: List, k: string)
    requires Distinct(b) && Subseq(a, b)
    ensures Subseq(Without(a, k), Without(b, k))
    decreases |b|
  {
    if a == [] {
    } else {
      if a[0] == b[0] {
        if b[0].key != k {
          SubseqWithout(a[1..], b[1..], k);
          SubseqCons(Without(a[1..], k), Without(b[1..], k), a[0]);
        }
      } else {
        SubseqWithout(a, b[1..], k);
        if b[0].key != k {
          SubseqLonger(Without(a, k), Without(b[1..], k), b[0]);
        } else {
          if HasKey(a, k) { SubseqHasKey(a, b[1..], k); }
          WithoutAbsent(a, k);
        }
      }
    }
  }

  lemma {:induction false} SubseqLive(a: List, b: List, now: int)
    requires Subseq(a, b)
    ensures Subseq(Live(a, now), Live(b, now))
    decreases |b|
  {
    if a == [] {
    } else {
      if a[0] == b[0] {
        SubseqLive(a[1..], b[1..], now);
        SubseqCons(Live(a[1..], now), Live(b[1..], now), a[0]);
      } else {
        SubseqLive(a, b[1..], now);
        SubseqLonger(Live(a, now), Live(b[1..], now), b[0]);
      }
    }
  }

  /** Expiry removes no more entries from a subsequence than from the whole. */
  lemma {:induction false} LiveShrinks(a: List, b: List, now: int)
    requires Subseq(a, b)
    ensures |a| - |Live(a, now)| <= |b| - |Live(b, now)|
    decreases |b|
  {
    if a == [] {
      LiveMembers(b, now);
    } else {
      if a[0] == b[0] { LiveShrinks(a[1..], b[1..], now); } else { LiveShrinks(a, b[1..], now); }
    }
  }

  lemma {:induction false} LiveMembers(l: List, now: int)
    ensures |Live(l, now)| <= |l| && Subseq(Live(l, now), l)
    ensures forall e :: e in Live(l, now) <==> e in l && !Expired(e, now)
  {
    if l == [] {
    } else {
      LiveMembers(l[1..], now);
      if Expired(l[0], now) {
        SubseqLonger(Live(l[1..], now), l[1..], l[0]);
        assert [l[0]] + l[1..] == l;
      } else {
        SubseqCons(Live(l[1..], now), l[1..], l[0]);
        assert [l[0]] + l[1..] == l;
      }
    }
  }

  lemma {:induction false} SubseqDistinct(a: List, b: List)
    requires Subseq(a, b) && Distinct(b)
    ensures Distinct(a)
    decreases |b|
  {
    if a == [] {
    } else {
      if a[0] == b[0] {
        SubseqDistinct(a[1..], b[1..]);
        if HasKey(a[1..], a[0].key) { SubseqHasKey(a[1..], b[1..], a[0].key); }
      } else {
        SubseqDistinct(a, b[1..]);
      }
    }
  }

  lemma {:induction false} WithoutSubseq(l: List, key: string)
    ensures Subseq(Without(l, key), l)
  {
    if l == [] {
    } else {
      if l[0].key == key {
        SubseqRefl(l[1..]);
        SubseqLonger(l[1..], l[1..], l[0]);
        assert [l[0]] + l[1..] == l;
      } else {
        WithoutSubseq(l[1..], key);
        SubseqCons(Without(l[1..], key), l[1..], l[0]);
        assert [l[0]] + l[1..] == l;
      }
    }
  }

  lemma {:induction false} WithoutIn(l: List, k: string, e: Entry)
    requires Distinct(l)
    ensures e in Without(l, k) <==> e in l && e.key != k
  {
    if l == [] {
    } else {
      WithoutIn(l[1..], k, e);
      assert l == [l[0]] + l[1..];
      if e in l[1..] { HasKeyOf(l[1..], e); }
    }
  }

  lemma {:induction false} WithoutHas(l: List, k: string, k': string)
    requires Distinct(l)
    ensures HasKey(Without(l, k), k') <==> HasKey(l, k') && k' != k
  {
    if l == [] {
    } else {
      WithoutHas(l[1..], k, k');
      assert l[0].key != k ==> Without(l, k)[0] == l[0] && Without(l, k)[1..] == Without(l[1..], k);
    }
  }

  /** Membership after a removal, both ways, for a list with distinct keys. */
  lemma WithoutMembers(l: List, k: string)
    requires Distinct(l)
    ensures Distinct(Without(l, k)) && !HasKey(Without(l, k), k)
    ensures forall e :: e in Without(l, k) <==> e in l && e.key != k
  {
    WithoutSubseq(l, k);
    SubseqDistinct(Without(l, k), l);
    WithoutHas(l, k, k);
    forall e ensures e in Without(l, k) <==> e in l && e.key != k { WithoutIn(l, k, e); }
  }

  /** Unlinking the entry at a known place. */
  lemma Unlink(l: List, p: nat)
    requires Distinct(l) && p < |l|
    ensures Without(l, l[p].key) == l[..p] + l[p + 1..]
    ensures Distinct(Without(l, l[p].key)) && Total(Without(l, l[p].key)) == Total(l) - l[p].storedSize
  {
    WithoutIsSplice(l, p);
    LookupAt(l, p);
    WithoutSizes(l, l[p].key);
    WithoutSubseq(l, l[p].key);
    SubseqDistinct(Without(l, l[p].key), l);
  }

  lemma Relink(l: List, p: nat)
    requires Distinct(l) && p < |l|
    ensures Without(l, l[p].key) == l[..p] + l[p + 1..]
    ensures Distinct([l[p]] + Without(l, l[p].key)) && Total([l[p]] + Without(l, l[p].key)) == Total(l)
  {
    Unlink(l, p);
    WithoutHas(l, l[p].key, l[p].key);
    var rest := Without(l, l[p].key);
    assert ([l[p]] + rest)[1..] == rest;
  }

  /** Rewriting the front entry under its own key. */
  lemma ReplaceFront(l: List, e: Entry)
    requires l != [] && Distinct(l) && e.key == l[0].key
    ensures Distinct([e] + l[1..]) && Total([e] + l[1..]) == Total(l) - l[0].storedSize + e.storedSize
  {
    assert ([e] + l[1..])[1..] == l[1..];
  }

  /** A prefix is a subsequence of the whole, and so is a prefix of a subsequence. */
  lemma {:induction false} SubseqPrefix(a: List, b: List, n: nat)
    requires Subseq(a, b) && n <= |a|
    ensures Subseq(a[..n], b)
    decreases |b|
  {
    if n == 0 {
    } else {
      assert a[..n][1..] == a[1..][..n - 1];
      if a[0] == b[0] { SubseqPrefix(a[1..], b[1..], n - 1); } else { SubseqPrefix(a, b[1..], n); }
    }
  }

  lemma PrefixSubseq(a: List, l: List)
    requires a <= l
    ensures Subseq(a, l)
  {
    SubseqRefl(l);
    SubseqPrefix(l, l, |a|);
    assert a == l[..|a|];
  }

  lemma PrefixHasKey(a: List, l: List, k: string)
    requires a <= l && !HasKey(l, k)
    ensures !HasKey(a, k)
  {
    PrefixSubseq(a, l);
    if HasKey(a, k) { SubseqHasKey(a, l, k); }
  }

  lemma PrefixDistinct(a: List, l: List)
    requires a <= l && Distinct(l)
    ensures Distinct(a)
  {
    PrefixSubseq(a, l);
    SubseqDistinct(a, l);
  }

  /** Both lists may lose their last entry together. */
  lemma {:induction false} SubseqInit(a: List, b: List)
    requires Subseq(a, b) && a != []
    ensures b != [] && Subseq(a[..|a| - 1], b[..|b| - 1])
    decreases |b|
  {
    if |a| > 1 {
      assert a[..|a| - 1][1..] == a[1..][..|a[1..]| - 1];
      SubseqMembers(a, b);
      assert b[..|b| - 1][1..] == b[1..][..|b[1..]| - 1];
      if a[0] == b[0] {
        SubseqInit(a[1..], b[1..]);
      } else {
        SubseqInit(a, b[1..]);
      }
    }
  }

  ghost predicate AllBelow(l: List, rank: string -> int, bound: int) {
    forall i :: 0 <= i < |l| ==> rank(l[i].key) < bound
  }

  /** The list falls strictly in `rank` from front to back: each entry ranks above all behind it. */
  ghost predicate Descending(l: List, rank: string -> int) {
    l == [] || (AllBelow(l[1..], rank, rank(l[0].key)) && Descending(l[1..], rank))
  }

  lemma {:induction false} DescendingPlaces(l: List, rank: string -> int, i: nat, j: nat)
    requires Descending(l, rank) && i < j < |l|
    ensures rank(l[i].key) > rank(l[j].key)
  {
    assert l[1..][j - 1] == l[j];
    if i > 0 {
      assert l[1..][i - 1] == l[i];
      DescendingPlaces(l[1..], rank, i - 1, j - 1);
    }
  }

  lemma {:induction false} SubseqDescending(a: List, b: List, rank: string -> int)
    requires Subseq(a, b) && Descending(b, rank)
    ensures Descending(a, rank)
    decreases |b|
  {
    if a == [] {
    } else {
      if a[0] == b[0] {
        SubseqDescending(a[1..], b[1..], rank);
        SubseqMembers(a[1..], b[1..]);
      } else {
        SubseqDescending(a, b[1..], rank);
      }
    }
  }

  /** Two ranks that agree on a list order it alike. */
  lemma {:induction false} DescendingAgrees(l: List, rank: string -> int, rank': string -> int)
    requires Descending(l, rank) && forall i :: 0 <= i < |l| ==> rank'(l[i].key) == rank(l[i].key)
    ensures Descending(l, rank')
  {
    if l == [] {
    } else {
      assert forall i :: 0 <= i < |l[1..]| ==> l[1..][i] == l[i + 1];
      DescendingAgrees(l[1..], rank, rank');
    }
  }
}
