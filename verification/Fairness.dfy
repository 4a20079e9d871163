/**
 Weighted round robin as arithmetic: which index selectWeightedRoundRobin of
 internal/balancer/balancer.go picks for a counter value, and how often over many selections.
 */
module Fairness {
  import opened Common

  const TWO_TO_THE_64 := 0x1_0000_0000_0000_0000

  function Total(w: seq<nat>): nat { if w == [] then 0 else w[0] + Total(w[1..]) }

  /** The first index whose cumulative weight exceeds pos. */
  function Slot(w: seq<nat>, pos: nat): (i: nat)
    requires pos < Total(w)
    ensures i < |w|
  {
    if pos < w[0] then 0 else 1 + Slot(w[1..], pos - w[0])
  }

  /** The index picked when the counter has just become `counter`. */
  function RoundRobin(w: seq<nat>, counter: nat): (i: nat)
    requires w != []
    ensures i < |w|
  {
    if Total(w) == 0 then counter % |w| else Slot(w, counter % Total(w))
  }

  /** Adding 1 to a uint64 counter k times. */
  function Counter(c: nat, k: nat): nat { (c + k) % TWO_TO_THE_64 }

  lemma CounterNext(c: nat, k: nat)
    ensures Counter(Counter(c, k), 1) == Counter(c, k + 1)
  {
    var q := (c + k) / TWO_TO_THE_64;
    var r := (c + k) % TWO_TO_THE_64;
    assert c + k == q * TWO_TO_THE_64 + r;
    if r + 1 == TWO_TO_THE_64 {
      DivUnique(c + k + 1, TWO_TO_THE_64, q + 1, 0);
    } else {
      DivUnique(c + k + 1, TWO_TO_THE_64, q, r + 1);
    }
  }

  /** The counter counts, and after the largest uint64 comes 0. */
  lemma CounterCounts(c: nat, k: nat)
    ensures c + k <= 0xffff_ffff_ffff_ffff ==> Counter(c, k) == c + k
    ensures Counter(0xffff_ffff_ffff_ffff, 1) == 0
  {}

  /** How many of n selections pick index i, starting with the counter at c. */
  function Picks(w: seq<nat>, c: nat, n: nat, i: nat): nat
    requires w != []
  {
    if n == 0 then 0
    else Picks(w, c, n - 1, i) + if RoundRobin(w, Counter(c, n)) == i then 1 else 0
  }

  lemma {:induction false} TotalAppend(a: seq<nat>, b: seq<nat>)
    ensures Total(a + b) == Total(a) + Total(b)
  {
    if a == [] {
      assert a + b == b;
    } else {
      assert (a + b)[1..] == a[1..] + b;
      TotalAppend(a[1..], b);
    }
  }

  lemma WholePrefix(w: seq<nat>)
    ensures Total(w[..|w|]) == Total(w)
  {
    assert w[..|w|] == w;
  }

  lemma TotalSnoc(w: seq<nat>, i: nat)
    requires i < |w|
    ensures Total(w[..i + 1]) == Total(w[..i]) + w[i] <= Total(w)
  {
    assert w[..i + 1] == w[..i] + [w[i]] && w == w[..i + 1] + w[i + 1..];
    TotalAppend(w[..i], [w[i]]);
    TotalAppend(w[..i + 1], w[i + 1..]);
  }

  /** Index i owns exactly the positions of its stretch of the cumulative weights. */
  lemma {:induction false} SlotIsStretch(w: seq<nat>, pos: nat, i: nat)
    requires pos < Total(w) && i < |w|
    ensures Slot(w, pos) == i <==> Total(w[..i]) <= pos < Total(w[..i]) + w[i]
  {
    if i == 0 {
      assert w[..0] == [];
    } else {
      assert w[..i][1..] == w[1..][..i - 1] && w[..i][0] == w[0];
      if pos >= w[0] { SlotIsStretch(w[1..], pos - w[0], i - 1); }
    }
  }

  // ---- residues hit by consecutive numbers ----

  /** How many of c+1, ..., c+n leave a remainder in [lo, hi). */
  function Hits(c: nat, n: nat, m: nat, lo: nat, hi: nat): nat
    requires m > 0
  {
    if n == 0 then 0 else Hits(c, n - 1, m, lo, hi) + if lo <= (c + n) % m < hi then 1 else 0
  }

  lemma MultipleIsFar(d: int, m: int)
    requires m > 0
    ensures d >= 1 ==> d * m >= m
    ensures d <= -1 ==> d * m <= -m
  {}

  lemma DivUnique(x: nat, m: nat, q: int, r: nat)
    requires m > 0 && r < m && x == q * m + r
    ensures x / m == q && x % m == r
  {
    var d := x / m - q;
    assert d * m == r - x % m by {
      assert x == (x / m) * m + x % m;
      assert (x / m) * m - q * m == d * m;
    }
    MultipleIsFar(d, m);
  }

  lemma DivModShift(a: nat, m: nat)
    requires m > 0
    ensures (a + m) % m == a % m && (a + m) / m == a / m + 1
  {
    assert a + m == (a / m + 1) * m + a % m by {
      assert a == (a / m) * m + a % m;
      assert (a / m + 1) * m == (a / m) * m + m;
    }
    DivUnique(a + m, m, a / m + 1, a % m);
  }

  lemma {:induction false} HitsSplit(c: nat, a: nat, b: nat, m: nat, lo: nat, hi: nat)
    requires m > 0
    ensures Hits(c, a + b, m, lo, hi) == Hits(c, a, m, lo, hi) + Hits(c + a, b, m, lo, hi)
  {
    if b == 0 {
    } else {
      HitsSplit(c, a, b - 1, m, lo, hi);
      assert c + (a + b) == (c + a) + b;
    }
  }

  /** From a multiple of m on, the remainders count up from 0. */
  lemma {:induction false} HitsFromStart(n: nat, m: nat, lo: nat, hi: nat)
    requires n <= m && m > 0 && lo <= hi <= m
    ensures Hits(m - 1, n, m, lo, hi) == Max(0, Min(n, hi) - lo)
  {
    if n == 0 {
    } else {
      HitsFromStart(n - 1, m, lo, hi);
      DivModShift(n - 1, m);
      assert (m - 1 + n) % m == n - 1 by { assert m - 1 + n == (n - 1) + m; ModSmall(n - 1, m); }
    }
  }

  lemma ModSmall(a: nat, m: nat)
    requires a < m
    ensures a % m == a
  {}

  /** A full window may be moved along by one without changing its hits. */
  lemma SlideWindow(c: nat, m: nat, lo: nat, hi: nat)
    requires m > 0
    ensures Hits(c, m, m, lo, hi) == Hits(c + 1, m, m, lo, hi)
  {
    HitsSplit(c, 1, m - 1, m, lo, hi);
    HitsSplit(c + 1, m - 1, 1, m, lo, hi);
    DivModShift(c + 1, m);
    assert Hits(c, 1, m, lo, hi) == if lo <= (c + 1) % m < hi then 1 else 0;
    assert Hits(c + 1 + (m - 1), 1, m, lo, hi) == if lo <= (c + 1 + m) % m < hi then 1 else 0;
  }

  lemma {:induction false} WindowFrom(c: nat, d: nat, m: nat, lo: nat, hi: nat)
    requires m > 0
    ensures Hits(c, m, m, lo, hi) == Hits(c + d, m, m, lo, hi)
  {
    if d == 0 {
    } else {
      WindowFrom(c, d - 1, m, lo, hi);
      SlideWindow(c + d - 1, m, lo, hi);
    }
  }

  /** Any m consecutive numbers leave each remainder once. */
  lemma Window(c: nat, m: nat, lo: nat, hi: nat)
    requires m > 0 && lo <= hi <= m
    ensures Hits(c, m, m, lo, hi) == hi - lo
  {
    WindowFrom(0, c, m, lo, hi);
    WindowFrom(0, m - 1, m, lo, hi);
    HitsFromStart(m, m, lo, hi);
  }

  lemma {:induction false} HitsAtMost(c: nat, n: nat, m: nat, lo: nat, hi: nat)
    requires m > 0
    ensures Hits(c, n, m, lo, hi) <= n
  {
    if n == 0 {
    } else {
      HitsAtMost(c, n - 1, m, lo, hi);
    }
  }

  /** q whole windows of x hits each, and a partial one of length r. */
  ghost predicate Within(hits: nat, q: nat, x: nat, r: nat) { q * x <= hits <= q * x + Min(x, r) }

  lemma WithinNext(hits: nat, q: nat, x: nat, r: nat)
    requires Within(hits, q, x, r)
    ensures Within(x + hits, q + 1, x, r)
  {
    assert (q + 1) * x == q * x + x;
  }

  /** Whole windows contribute exactly; what is left over contributes at most once per remainder. */
  lemma {:induction false} HitsBounds(c: nat, n: nat, q: nat, r: nat, m: nat, lo: nat, hi: nat)
    requires m > 0 && lo <= hi <= m && r < m && n == q * m + r
    ensures Within(Hits(c, n, m, lo, hi), q, hi - lo, r)
    decreases q
  {
    if q == 0 {
      HitsAtMost(c, n, m, lo, hi);
      HitsSplit(c, n, m - n, m, lo, hi);
      Window(c, m, lo, hi);
    } else {
      var n' := (q - 1) * m + r;
      assert n == m + n' by { assert q * m == (q - 1) * m + m; }
      HitsSplit(c, m, n', m, lo, hi);
      Window(c, m, lo, hi);
      HitsBounds(c + m, n', q - 1, r, m, lo, hi);
      WithinNext(Hits(c + m, n', m, lo, hi), q - 1, hi - lo, r);
    }
  }

  // ---- selections ----

  /** Selections of one index are hits on its stretch of positions. */
  lemma {:induction false} PicksAreHits(w: seq<nat>, c: nat, n: nat, i: nat)
    requires i < |w| && Total(w) > 0 && c + n < TWO_TO_THE_64
    ensures Picks(w, c, n, i) == Hits(c, n, Total(w), Total(w[..i]), Total(w[..i]) + w[i])
  {
    if n == 0 {
    } else {
      PicksAreHits(w, c, n - 1, i);
      ModSmall(c + n, TWO_TO_THE_64);
      SlotIsStretch(w, (c + n) % Total(w), i);
    }
  }

  lemma {:induction false} EqualPicksAreHits(w: seq<nat>, c: nat, n: nat, i: nat)
    requires i < |w| && Total(w) == 0 && c + n < TWO_TO_THE_64
    ensures Picks(w, c, n, i) == Hits(c, n, |w|, i, i + 1)
  {
    if n == 0 {
    } else {
      EqualPicksAreHits(w, c, n - 1, i);
      ModSmall(c + n, TWO_TO_THE_64);
    }
  }

  /** Exact weighted fairness: any W consecutive selections pick server i exactly weight_i times. */
  lemma FairOverAWindow(w: seq<nat>, c: nat, i: nat)
    requires i < |w| && Total(w) > 0 && c + Total(w) < TWO_TO_THE_64
    ensures Picks(w, c, Total(w), i) == w[i]
  {
    TotalSnoc(w, i);
    PicksAreHits(w, c, Total(w), i);
    Window(c, Total(w), Total(w[..i]), Total(w[..i]) + w[i]);
  }

  /**
   Any n = q * W + r selections, r < W, pick server i at least q * weight_i times and at most
   min(weight_i, r) times more.
   */
  lemma FairOverAnyStretch(w: seq<nat>, c: nat, q: nat, r: nat, i: nat)
    requires i < |w| && r < Total(w) && c + (q * Total(w) + r) < TWO_TO_THE_64
    ensures q * w[i] <= Picks(w, c, q * Total(w) + r, i) <= q * w[i] + Min(w[i], r)
  {
    var n := q * Total(w) + r;
    TotalSnoc(w, i);
    PicksAreHits(w, c, n, i);
    HitsBounds(c, n, q, r, Total(w), Total(w[..i]), Total(w[..i]) + w[i]);
  }

  /** With no weights at all, any |servers| consecutive selections pick each server once. */
  lemma FairWithoutWeights(w: seq<nat>, c: nat, i: nat)
    requires i < |w| && Total(w) == 0 && c + |w| < TWO_TO_THE_64
    ensures Picks(w, c, |w|, i) == 1
  {
    EqualPicksAreHits(w, c, |w|, i);
    Window(c, |w|, i, i + 1);
  }

  /** A server without weight is never picked while another has some. */
  lemma ZeroWeightIsNeverPicked(w: seq<nat>, counter: nat, i: nat)
    requires i < |w| && Total(w) > 0 && w[i] == 0
    ensures RoundRobin(w, counter) != i
  {
    SlotIsStretch(w, counter % Total(w), i);
  }
}
