/** The tokenizer for VALUES lists of internal/admin/admin.go, octet by octet. */
module Admin {
  import opened Common
  import opened Text

  const SINGLE: byte := 0x27
  const DOUBLE: byte := 0x22
  const COMMA: byte := 0x2c
  const SPACE: byte := 0x20

  predicate IsQuote(c: byte) { c == SINGLE || c == DOUBLE }

  datatype Scan = Scan(values: seq<Octets>, current: Octets, inQuote: bool, quoteChar: byte)

  const START := Scan([], [], false, 0)

  function Next(st: Scan, c: byte): Scan {
    if !st.inQuote && IsQuote(c) then st.(inQuote := true, quoteChar := c, current := st.current + [c])
    else if st.inQuote && c == st.quoteChar then st.(inQuote := false, current := st.current + [c])
    else if !st.inQuote && c == COMMA then st.(values := st.values + [TrimSpace(st.current)], current := [])
    else st.(current := st.current + [c])
  }

  function Feed(st: Scan, s: Octets): Scan
    decreases |s|
  {
    if s == [] then st else Feed(Next(st, s[0]), s[1..])
  }

  function Finish(st: Scan): seq<Octets> {
    if st.current == [] then st.values else st.values + [TrimSpace(st.current)]
  }

  function Tokens(s: Octets): seq<Octets> { Finish(Feed(START, s)) }

  lemma {:induction false} FeedAppend(st: Scan, a: Octets, b: Octets)
    ensures Feed(st, a + b) == Feed(Feed(st, a), b)
    decreases |a|
  {
    if a == [] {
      assert a + b == b;
    } else {
      assert (a + b)[1..] == a[1..] + b;
      FeedAppend(Next(st, a[0]), a[1..], b);
    }
  }

  lemma FeedSnoc(st: Scan, s: Octets, i: nat)
    requires i < |s|
    ensures Feed(st, s[..i + 1]) == Next(Feed(st, s[..i]), s[i])
  {
    assert s[..i + 1] == s[..i] + [s[i]];
    FeedAppend(st, s[..i], [s[i]]);
    assert [s[i]][1..] == [];
  }

  method ParseCsvValues(s: Octets) returns (values: seq<Octets>)
    ensures values == Tokens(s)
  {
    values := [];
    var current: Octets := [];
    var inQuote := false;
    var quoteChar: byte := 0;
    for i := 0 to |s|
      invariant Feed(START, s[..i]) == Scan(values, current, inQuote, quoteChar)
    {
      FeedSnoc(START, s, i);
      var c := s[i];
      if !inQuote && (c == SINGLE || c == DOUBLE) {
        inQuote, quoteChar, current := true, c, current + [c];
      } else if inQuote && c == quoteChar {
        inQuote, current := false, current + [c];
      } else if !inQuote && c == COMMA {
        values, current := values + [TrimSpace(current)], [];
      } else {
        current := current + [c];
      }
    }
    assert s[..|s|] == s;
    if |current| > 0 { values := values + [TrimSpace(current)]; }
  }

  function Strip(t: Octets): Octets {
    if |t| >= 2 && IsQuote(t[0]) && t[|t| - 1] == t[0] then t[1..|t| - 1] else t
  }

  function Unquote(s: Octets): Octets { Strip(TrimSpace(s)) }

  function Map<T, U>(f: T -> U, values: seq<T>): seq<U> {
    if values == [] then [] else [f(values[0])] + Map(f, values[1..])
  }

  // ---- lists as they are written ----

  /** An item between quotes of one kind, or bare like a number. */
  datatype Item = Quoted(quote: byte, content: Octets) | Bare(content: Octets)

  /** Quotes may hold anything; bare items have no quotes, commas or spaces around them. */
  predicate Writable(item: Item) {
    match item
    case Quoted(q, _) => q == SINGLE || q == DOUBLE
    case Bare(x) => x != [] && TrimSpace(x) == x && COMMA !in x && SINGLE !in x && DOUBLE !in x
  }

  function Written(item: Item): Octets {
    match item
    case Quoted(q, x) => [q] + x + [q]
    case Bare(x) => x
  }

  const SEPARATOR: Octets := [COMMA] + [SPACE]

  function Render(items: seq<Item>): Octets
    requires items != []
  {
    if |items| == 1 then Written(items[0]) else Written(items[0]) + (SEPARATOR + Render(items[1..]))
  }

  function Contents(items: seq<Item>): seq<Octets> {
    if items == [] then [] else [items[0].content] + Contents(items[1..])
  }

  // ---- what a caller can check beforehand ----

  datatype Mode = Outside | Inside(quote: byte)

  /** A quote opens, and only the same quote closes. */
  function Turn(m: Mode, c: byte): Mode {
    match m
    case Outside => if IsQuote(c) then Inside(c) else Outside
    case Inside(q) => if c == q then Outside else m
  }

  function After(m: Mode, x: Octets): Mode
    decreases |x|
  {
    if x == [] then m else After(Turn(m, x[0]), x[1..])
  }

  /** A comma of x lies outside quotes. */
  predicate Exposes(m: Mode, x: Octets)
    decreases |x|
  {
    x != [] && ((m == Outside && x[0] == COMMA) || Exposes(Turn(m, x[0]), x[1..]))
  }

  predicate ExposesComma(item: Item) { item.Quoted? && Exposes(Inside(item.quote), item.content) }

  /** After the item has been written the scanner is outside quotes again. */
  predicate Closes(item: Item) { item.Quoted? ==> After(Inside(item.quote), item.content + [item.quote]) == Outside }

  /** No item exposes a comma, and all but the last end outside quotes. */
  ghost predicate Safe(items: seq<Item>) {
    && (forall i :: 0 <= i < |items| ==> !ExposesComma(items[i]))
    && (forall i :: 0 <= i < |items| - 1 ==> Closes(items[i]))
  }

  lemma SafeTail(items: seq<Item>)
    requires |items| > 1
    ensures Safe(items) <==> !ExposesComma(items[0]) && Closes(items[0]) && Safe(items[1..])
  {
    forall i | 0 < i < |items| ensures items[i] == items[1..][i - 1] {}
    if !ExposesComma(items[0]) && Closes(items[0]) && Safe(items[1..]) {
      forall i | 0 <= i < |items| ensures !ExposesComma(items[i]) && (i < |items| - 1 ==> Closes(items[i])) {
        if i > 0 { assert items[i] == items[1..][i - 1]; }
      }
    }
    if Safe(items) {
      forall i | 0 <= i < |items[1..]|
        ensures !ExposesComma(items[1..][i]) && (i < |items[1..]| - 1 ==> Closes(items[1..][i]))
      {
        assert items[1..][i] == items[i + 1];
      }
    }
  }

  // ---- the scanner and its mode ----

  function ModeOf(st: Scan): Mode { if st.inQuote then Inside(st.quoteChar) else Outside }

  predicate Proper(st: Scan) { st.inQuote ==> IsQuote(st.quoteChar) }

  lemma {:induction false} FeedKeepsMode(st: Scan, x: Octets)
    requires Proper(st)
    ensures Proper(Feed(st, x)) && ModeOf(Feed(st, x)) == After(ModeOf(st), x)
    decreases |x|
  {
    if x == [] {
    } else {
      FeedKeepsMode(Next(st, x[0]), x[1..]);
    }
  }

  /** Text that exposes no comma is just collected. */
  lemma {:induction false} FeedUnexposed(st: Scan, x: Octets)
    requires !Exposes(ModeOf(st), x)
    ensures Feed(st, x).values == st.values && Feed(st, x).current == st.current + x
    decreases |x|
  {
    if x == [] {
      assert st.current + x == st.current;
    } else {
      FeedUnexposed(Next(st, x[0]), x[1..]);
      assert st.current + x == st.current + [x[0]] + x[1..];
    }
  }

  lemma {:induction false} FirstExposed(m: Mode, x: Octets) returns (j: nat)
    requires Exposes(m, x)
    ensures j < |x| && x[j] == COMMA && !Exposes(m, x[..j]) && After(m, x[..j]) == Outside
    decreases |x|
  {
    if m == Outside && x[0] == COMMA {
      j := 0;
    } else {
      var i := FirstExposed(Turn(m, x[0]), x[1..]);
      j := i + 1;
      assert x[..j][1..] == x[1..][..i];
    }
  }

  lemma {:induction false} PlainIsUnexposed(x: Octets)
    requires COMMA !in x && SINGLE !in x && DOUBLE !in x
    ensures !Exposes(Outside, x) && After(Outside, x) == Outside
  {
    if x == [] {
    } else {
      PlainIsUnexposed(x[1..]);
    }
  }

  lemma {:induction false} QuotedIsUnexposed(q: byte, x: Octets)
    requires q !in x
    ensures !Exposes(Inside(q), x) && After(Inside(q), x) == Inside(q)
  {
    if x == [] {
    } else {
      QuotedIsUnexposed(q, x[1..]);
    }
  }

  lemma {:induction false} AfterSnoc(m: Mode, x: Octets, c: byte)
    ensures After(m, x + [c]) == Turn(After(m, x), c)
    ensures c != COMMA ==> (Exposes(m, x + [c]) <==> Exposes(m, x))
    decreases |x|
  {
    if x == [] {
      assert [c][1..] == [] && x + [c] == [c];
    } else {
      assert (x + [c])[1..] == x[1..] + [c];
      AfterSnoc(Turn(m, x[0]), x[1..], c);
    }
  }

  /** Values never leave the list once they are in it. */
  lemma {:induction false} ValuesStay(st: Scan, s: Octets)
    ensures st.values <= Finish(Feed(st, s))
    decreases |s|
  {
    if s == [] {
    } else {
      ValuesStay(Next(st, s[0]), s[1..]);
    }
  }

  /** The list goes on after these values with this one. */
  ghost predicate GoesOnWith(r: seq<Octets>, values: seq<Octets>, next: Octets) {
    |r| > |values| && values <= r && r[|values|] == next
  }

  lemma NextCollects(st: Scan, c: byte)
    requires st.inQuote || c != COMMA
    ensures Next(st, c).values == st.values && Next(st, c).current == st.current + [c]
  {}

  lemma ValueIsNext(st: Scan, s: Octets)
    requires s != [] && !st.inQuote && s[0] == COMMA
    ensures GoesOnWith(Finish(Feed(st, s)), st.values, TrimSpace(st.current))
  {
    ValuesStay(Next(st, s[0]), s[1..]);
  }

  /** What has been collected becomes the beginning of the next value. */
  lemma {:induction false} CurrentStays(st: Scan, s: Octets) returns (k: nat)
    requires st.current != []
    ensures k <= |s|
    ensures GoesOnWith(Finish(Feed(st, s)), st.values, TrimSpace(st.current + s[..k]))
    decreases |s|
  {
    k := 0;
    assert st.current + s[..0] == st.current;
    if s == [] {
    } else if !st.inQuote && s[0] == COMMA {
      ValueIsNext(st, s);
    } else {
      NextCollects(st, s[0]);
      var more := CurrentStays(Next(st, s[0]), s[1..]);
      k := more + 1;
      TakeOneMore(st.current, s, more);
    }
  }

  lemma TakeOneMore<T>(a: seq<T>, s: seq<T>, k: nat)
    requires k < |s|
    ensures a + s[..k + 1] == a + [s[0]] + s[1..][..k]
  {
    assert s[..k + 1] == [s[0]] + s[1..][..k];
  }

  // ---- trimming and unquoting ----

  lemma NoSpaceAfterQuote(t: Octets)
    requires t != [] && IsQuote(t[0])
    ensures LeadingSpace(t) == 0
  {
    assert t[..1][0] == t[0];
  }

  lemma NoSpaceBeforeQuote(t: Octets)
    requires t != [] && IsQuote(t[|t| - 1])
    ensures TrailingSpace(t) == 0
  {}

  /** Text between two quotes has no white space at its ends. */
  lemma QuotedIsTrimmed(q: byte, x: Octets)
    requires IsQuote(q)
    ensures TrimSpace([q] + x + [q]) == [q] + x + [q]
  {
    NoSpaceAfterQuote([q] + x + [q]);
    NoSpaceBeforeQuote([q] + x + [q]);
  }

  lemma SpaceIsTrimmed(t: Octets)
    ensures TrimSpace([SPACE] + t) == TrimSpace(t)
  {
    assert ([SPACE] + t)[..1] == [SPACE] && ([SPACE] + t)[1..] == t;
  }

  lemma QuotedComesBack(q: byte, x: Octets)
    requires IsQuote(q)
    ensures Unquote([q] + x + [q]) == x
  {
    QuotedIsTrimmed(q, x);
    assert ([q] + x + [q])[1..|x| + 1] == x;
  }

  lemma BareComesBack(x: Octets)
    requires Writable(Bare(x))
    ensures Unquote(x) == x
  {
    assert x[0] in x;
  }

  lemma ItemComesBack(item: Item)
    requires Writable(item)
    ensures Written(item) != [] && TrimSpace(Written(item)) == Written(item)
    ensures Unquote(Written(item)) == item.content
  {
    match item
    case Bare(x) => BareComesBack(x);
    case Quoted(q, x) =>
      QuotedIsTrimmed(q, x);
      QuotedComesBack(q, x);
  }

  lemma CommaIsNoSpace(t: Octets, m: nat)
    requires m < |t| && t[m] == COMMA
    ensures m < |t| - TrailingSpace(t)
  {
    var n := TrailingSpace(t);
    forall k | |t| - n <= k < |t| ensures t[k] != COMMA { assert t[k] == t[|t| - n..][k - (|t| - n)]; }
  }

  lemma {:induction false} TrimRightStops(t: Octets, m: nat)
    requires m < |t| && t[m] == COMMA
    ensures |TrimRight(t)| > m
    decreases |t|
  {
    CommaIsNoSpace(t, m);
    if TrailingSpace(t) > 0 { TrimRightStops(t[..|t| - TrailingSpace(t)], m); }
  }

  lemma {:induction false} TrimRightShortens(t: Octets)
    ensures TrimRight(t) <= t
    decreases |t|
  {
    if TrailingSpace(t) > 0 { TrimRightShortens(t[..|t| - TrailingSpace(t)]); }
  }

  lemma {:induction false} AllAlike(q: byte, x: Octets, k: nat)
    requires k < |x| && x == [q] + x[..|x| - 1]
    ensures x[k] == q
  {
    if k == 0 {
    } else {
      AllAlike(q, x, k - 1);
    }
  }

  lemma TrimTwice(t: Octets)
    ensures TrimSpace(TrimSpace(t)) == TrimSpace(t)
  {
    var left, right := TrimSpaceIsTheCore(t);
  }

  /** A value cut off at an exposed comma is not what was written. */
  lemma CutOffDiffers(q: byte, x: Octets, j: nat)
    requires IsQuote(q) && j < |x| && x[j] == COMMA
    ensures Unquote([q] + x[..j]) != x
  {
    var y := [q] + x[..j];
    NoSpaceAfterQuote(y);
    TrimRightShortens(y);
    if Unquote(y) == x {
      assert y == x;
      AllAlike(q, x, j);
    }
  }

  /** Neither is a value that has run on into the separator. */
  lemma RunOnDiffers(q: byte, x: Octets, more: Octets)
    requires IsQuote(q)
    ensures Unquote([q] + x + [q] + [COMMA] + more) != x
  {
    var t := [q] + x + [q] + [COMMA] + more;
    NoSpaceAfterQuote(t);
    TrimRightStops(t, |x| + 2);
  }

  // ---- one item ----

  /** What has been collected for the item under way is at most the space after a comma. */
  predicate Ready(st: Scan) { !st.inQuote && (st.current == [] || st.current == [SPACE]) }

  lemma Collected(current: Octets, t: Octets)
    requires current == [] || current == [SPACE]
    ensures TrimSpace(current + t) == TrimSpace(t)
  {
    if current == [] { assert current + t == t; } else { SpaceIsTrimmed(t); }
  }

  lemma CollectedUnquoted(current: Octets, t: Octets)
    requires current == [] || current == [SPACE]
    ensures Unquote(TrimSpace(current + t)) == Unquote(t)
  {
    Collected(current, t);
    TrimTwice(t);
  }

  lemma FeedOne(st: Scan, c: byte)
    ensures Feed(st, [c]) == Next(st, c)
  {
    assert [c][1..] == [];
  }

  lemma FeedOpening(st: Scan, q: byte, x: Octets)
    requires !st.inQuote && IsQuote(q)
    ensures Feed(st, [q] + x) == Feed(Scan(st.values, st.current + [q], true, q), x)
  {
    FeedOne(st, q);
    FeedAppend(st, [q], x);
  }

  /** An item that exposes no comma is collected whole, whatever else it contains. */
  lemma FeedItem(st: Scan, item: Item)
    requires Writable(item) && !ExposesComma(item) && !st.inQuote
    ensures var after := Feed(st, Written(item));
            && Proper(after) && after.values == st.values && after.current == st.current + Written(item)
            && (after.inQuote <==> !Closes(item))
  {
    FeedKeepsMode(st, Written(item));
    match item
    case Bare(x) =>
      PlainIsUnexposed(x);
      FeedUnexposed(st, x);
    case Quoted(q, x) =>
      var inside := Scan(st.values, st.current + [q], true, q);
      assert [q] + x + [q] == [q] + (x + [q]);
      FeedOpening(st, q, x + [q]);
      AfterSnoc(Inside(q), x, q);
      FeedUnexposed(inside, x + [q]);
      FeedKeepsMode(inside, x + [q]);
      RegroupTwo(st.current, [q], x + [q]);
  }

  /** The value read next is not the content that was written. */
  ghost predicate Spoilt(st: Scan, r: seq<Octets>, content: Octets) {
    st.values <= r && |r| > |st.values| && Unquote(r[|st.values|]) != content
  }

  /** Just before the first comma that x exposes. */
  lemma FeedUpTo(st: Scan, q: byte, x: Octets, j: nat)
    requires Ready(st) && IsQuote(q) && j < |x| && !Exposes(Inside(q), x[..j]) && After(Inside(q), x[..j]) == Outside
    ensures var before := Feed(st, [q] + x[..j]);
            !before.inQuote && before.values == st.values && before.current == st.current + ([q] + x[..j])
  {
    var inside := Scan(st.values, st.current + [q], true, q);
    FeedOpening(st, q, x[..j]);
    FeedUnexposed(inside, x[..j]);
    FeedKeepsMode(inside, x[..j]);
    RegroupTwo(st.current, [q], x[..j]);
  }

  /** A comma outside quotes ends a value for good. */
  lemma FeedComma(st: Scan, rest: Octets)
    requires !st.inQuote
    ensures st.values + [TrimSpace(st.current)] <= Finish(Feed(st, [COMMA] + rest))
  {
    FeedAppend(st, [COMMA], rest);
    FeedOne(st, COMMA);
    ValuesStay(Next(st, COMMA), rest);
  }

  lemma NextValue(st: Scan, v: Octets, r: seq<Octets>, content: Octets)
    requires st.values + [v] <= r && Unquote(v) != content
    ensures Spoilt(st, r, content)
  {
    assert (st.values + [v])[|st.values|] == v;
  }

  lemma ExposedIsSpoilt(st: Scan, item: Item, tail: Octets)
    requires Ready(st) && Writable(item) && ExposesComma(item)
    ensures Spoilt(st, Finish(Feed(st, Written(item) + tail)), item.content)
  {
    var q, x := item.quote, item.content;
    var j := FirstExposed(Inside(q), x);
    var rest := x[j + 1..] + [q] + tail;
    var before := Feed(st, [q] + x[..j]);
    SplitAt(q, x, j, tail);
    FeedAppend(st, [q] + x[..j], [COMMA] + rest);
    FeedUpTo(st, q, x, j);
    FeedComma(before, rest);
    CollectedUnquoted(st.current, [q] + x[..j]);
    CutOffDiffers(q, x, j);
    NextValue(st, TrimSpace(before.current), Finish(Feed(before, [COMMA] + rest)), x);
  }

  lemma RegroupTwo<T>(a: seq<T>, b: seq<T>, c: seq<T>)
    ensures a + b + c == a + (b + c)
  {}

  lemma SplitAt(q: byte, x: Octets, j: nat, tail: Octets)
    requires j < |x| && x[j] == COMMA
    ensures [q] + x + [q] + tail == [q] + x[..j] + ([COMMA] + (x[j + 1..] + [q] + tail))
  {
    assert x == x[..j] + [x[j]] + x[j + 1..];
  }

  lemma RegroupThree<T>(a: seq<T>, b: seq<T>, c: seq<T>, d: seq<T>)
    ensures a + b + c + d == a + (b + c + d)
  {}

  lemma OpenIsSpoilt(st: Scan, item: Item, tail: Octets)
    requires Ready(st) && Writable(item) && !ExposesComma(item) && !Closes(item)
    ensures Spoilt(st, Finish(Feed(st, Written(item) + ([COMMA] + tail))), item.content)
  {
    var w := Written(item);
    var after := Feed(st, w);
    FeedItem(st, item);
    FeedAppend(st, w, [COMMA] + tail);
    FeedAppend(after, [COMMA], tail);
    FeedOne(after, COMMA);
    var k := CurrentStays(Next(after, COMMA), tail);
    RegroupThree(st.current, w, [COMMA], tail[..k]);
    CollectedUnquoted(st.current, w + [COMMA] + tail[..k]);
    RunOnDiffers(item.quote, item.content, tail[..k]);
  }

  lemma FeedSeparator(st: Scan)
    requires !st.inQuote
    ensures Ready(Feed(st, SEPARATOR)) && Feed(st, SEPARATOR).values == st.values + [TrimSpace(st.current)]
  {
    FeedAppend(st, [COMMA], [SPACE]);
    assert SEPARATOR == [COMMA] + [SPACE];
    FeedOne(st, COMMA);
    FeedOne(Next(st, COMMA), SPACE);
  }

  lemma FeedItemAndSeparator(st: Scan, item: Item, rest: Octets)
    requires Ready(st) && Writable(item) && !ExposesComma(item) && Closes(item)
    ensures var next := Feed(Feed(st, Written(item)), SEPARATOR);
            && Ready(next) && next.values == st.values + [Written(item)]
            && Feed(st, Written(item) + (SEPARATOR + rest)) == Feed(next, rest)
  {
    var after := Feed(st, Written(item));
    FeedItem(st, item);
    ItemComesBack(item);
    Collected(st.current, Written(item));
    FeedAppend(st, Written(item), SEPARATOR + rest);
    FeedAppend(after, SEPARATOR, rest);
    FeedSeparator(after);
  }

  lemma FeedLastItem(st: Scan, item: Item)
    requires Ready(st) && Writable(item) && !ExposesComma(item)
    ensures Finish(Feed(st, Written(item))) == st.values + [Written(item)]
  {
    FeedItem(st, item);
    ItemComesBack(item);
    Collected(st.current, Written(item));
  }

  // ---- the list ----

  lemma {:induction false} MapAppend<T, U>(f: T -> U, a: seq<T>, b: seq<T>)
    ensures Map(f, a + b) == Map(f, a) + Map(f, b) && |Map(f, a)| == |a|
  {
    if a == [] {
      assert a + b == b;
    } else {
      assert (a + b)[1..] == a[1..] + b;
      MapAppend(f, a[1..], b);
    }
  }

  lemma SpoiltListDiffers(st: Scan, r: seq<Octets>, items: seq<Item>)
    requires items != [] && Spoilt(st, r, items[0].content)
    ensures Map(Unquote, r) != Map(Unquote, st.values) + Contents(items)
  {
    var n := |st.values|;
    assert r == st.values + r[n..];
    MapAppend(Unquote, st.values, r[n..]);
    assert Map(Unquote, r)[n] == Unquote(r[n]);
    assert (Map(Unquote, st.values) + Contents(items))[n] == items[0].content;
  }

  lemma MapSnoc<T, U>(f: T -> U, a: seq<T>, x: T)
    ensures Map(f, a + [x]) == Map(f, a) + [f(x)]
  {
    MapAppend(f, a, [x]);
    assert [x][1..] == [];
  }

  /** The whole list comes back, after the values there are already. */
  ghost predicate ComeBack(st: Scan, items: seq<Item>)
    requires items != []
  {
    Map(Unquote, Finish(Feed(st, Render(items)))) == Map(Unquote, st.values) + Contents(items)
  }

  lemma LastIsSpoilt(st: Scan, items: seq<Item>)
    requires |items| == 1 && Ready(st) && Writable(items[0]) && ExposesComma(items[0])
    ensures !ComeBack(st, items)
  {
    ExposedIsSpoilt(st, items[0], []);
    Nothing(Written(items[0]));
    SpoiltListDiffers(st, Finish(Feed(st, Render(items))), items);
  }

  lemma LastComesBack(st: Scan, items: seq<Item>)
    requires |items| == 1 && Ready(st) && Writable(items[0]) && !ExposesComma(items[0])
    ensures ComeBack(st, items)
  {
    FeedLastItem(st, items[0]);
    ItemComesBack(items[0]);
    MapSnoc(Unquote, st.values, Written(items[0]));
    Nothing([items[0].content]);
  }

  lemma Nothing<T>(a: seq<T>)
    ensures a + [] == a
  {}

  lemma FirstIsSpoilt(st: Scan, items: seq<Item>)
    requires |items| > 1 && Ready(st) && Writable(items[0]) && (ExposesComma(items[0]) || !Closes(items[0]))
    ensures !ComeBack(st, items)
  {
    var tail := SEPARATOR + Render(items[1..]);
    if ExposesComma(items[0]) {
      ExposedIsSpoilt(st, items[0], tail);
    } else {
      RegroupTwo([COMMA], [SPACE], Render(items[1..]));
      OpenIsSpoilt(st, items[0], [SPACE] + Render(items[1..]));
    }
    SpoiltListDiffers(st, Finish(Feed(st, Written(items[0]) + tail)), items);
  }

  lemma FirstComesBack(st: Scan, items: seq<Item>)
    requires |items| > 1 && Ready(st) && Writable(items[0]) && !ExposesComma(items[0]) && Closes(items[0])
    ensures var next := Feed(Feed(st, Written(items[0])), SEPARATOR);
            Ready(next) && (ComeBack(st, items) <==> ComeBack(next, items[1..]))
  {
    FeedItemAndSeparator(st, items[0], Render(items[1..]));
    ItemComesBack(items[0]);
    MapSnoc(Unquote, st.values, Written(items[0]));
    RegroupTwo(Map(Unquote, st.values), [items[0].content], Contents(items[1..]));
  }

  lemma {:induction false} ItemsComeBackIff(st: Scan, items: seq<Item>)
    requires items != [] && Ready(st) && forall i :: 0 <= i < |items| ==> Writable(items[i])
    ensures ComeBack(st, items) <==> Safe(items)
    decreases |items|
  {
    if |items| == 1 {
      if ExposesComma(items[0]) { LastIsSpoilt(st, items); } else { LastComesBack(st, items); }
    } else {
      SafeTail(items);
      if ExposesComma(items[0]) || !Closes(items[0]) {
        FirstIsSpoilt(st, items);
      } else {
        FirstComesBack(st, items);
        ItemsComeBackIff(Feed(Feed(st, Written(items[0])), SEPARATOR), items[1..]);
      }
    }
  }

  /**
   A nonempty list that is quoted, joined with ", ", tokenized and unquoted comes back if and only if
   no item exposes a comma and every item but the last ends outside quotes.
   */
  lemma TokenizerRoundTripIff(items: seq<Item>)
    requires items != [] && forall i :: 0 <= i < |items| ==> Writable(items[i])
    ensures Map(Unquote, Tokens(Render(items))) == Contents(items) <==> Safe(items)
  {
    ItemsComeBackIff(START, items);
    assert Map(Unquote, START.values) + Contents(items) == Contents(items);
  }

  /** For a single item only exposed commas matter: 'it's' comes back. */
  lemma OneItemRoundTripIff(q: byte, x: Octets)
    requires IsQuote(q)
    ensures Map(Unquote, Tokens(Render([Quoted(q, x)]))) == [x] <==> !Exposes(Inside(q), x)
  {
    TokenizerRoundTripIff([Quoted(q, x)]);
    assert [Quoted(q, x)][1..] == [];
  }

  /** In particular every list comes back whose quoted items do not contain their own quote. */
  lemma TokenizerRoundTrip(items: seq<Item>)
    requires items != [] && forall i :: 0 <= i < |items| ==> Writable(items[i])
    requires forall i :: 0 <= i < |items| ==> items[i].Quoted? ==> items[i].quote !in items[i].content
    ensures Map(Unquote, Tokens(Render(items))) == Contents(items)
  {
    forall i | 0 <= i < |items| ensures !ExposesComma(items[i]) && Closes(items[i]) {
      if items[i].Quoted? {
        QuotedIsUnexposed(items[i].quote, items[i].content);
        AfterSnoc(Inside(items[i].quote), items[i].content, items[i].quote);
      }
    }
    TokenizerRoundTripIff(items);
  }

  /** There is no escape: one item that contains its own quote around a separator is read as two. */
  lemma OwnQuoteSplits(q: byte, x: Octets, y: Octets)
    requires IsQuote(q) && q !in x && q !in y
    ensures Map(Unquote, Tokens(Render([Quoted(q, x + [q] + SEPARATOR + [q] + y)]))) == [x, y]
  {
    var two := [Quoted(q, x), Quoted(q, y)];
    assert two[1..] == [two[1]];
    SameText([q], x, SEPARATOR, y);
    TokenizerRoundTrip(two);
    assert Contents(two[1..]) == [y] && Contents(two) == [x, y];
  }

  lemma SameText(q: Octets, x: Octets, sep: Octets, y: Octets)
    ensures q + (x + q + sep + q + y) + q == q + x + q + (sep + (q + y + q))
  {}
}
