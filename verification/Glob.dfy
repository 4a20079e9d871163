/**
 The glob matching of internal/router/router.go, which goes through a regular expression: the string
 it emits, a parser for the part of Go's syntax that emission uses, and what the parsed form matches.
 Strings are sequences of runes.
 */
module Glob {
  import opened Common

  // ---- globs ----

  /** `*` is any run and `?` any one character, neither crossing a newline; everything else is itself. */
  predicate GlobMatch(p: string, s: string)
    decreases |p|, |s|
  {
    if p == "" then s == ""
    else if p[0] == '*' then GlobMatch(p[1..], s) || (s != "" && s[0] != '\n' && GlobMatch(p, s[1..]))
    else s != "" && (if p[0] == '?' then s[0] != '\n' else s[0] == p[0]) && GlobMatch(p[1..], s[1..])
  }

  /** A star stands for any newline-free run, the empty one included. */
  lemma {:induction false} StarIsAnyRun(p: string, s: string)
    ensures GlobMatch("*" + p, s) <==> exists k :: 0 <= k <= |s| && '\n' !in s[..k] && GlobMatch(p, s[k..])
    decreases |s|
  {
    assert ("*" + p)[1..] == p && s[0..] == s;
    if GlobMatch(p, s) {
      assert '\n' !in s[..0];
    } else if s != "" {
      StarIsAnyRun(p, s[1..]);
      forall k | 0 < k <= |s| ensures s[1..][..k - 1] == s[..k][1..] && s[1..][k - 1..] == s[k..] {}
      if s[0] != '\n' && GlobMatch("*" + p, s[1..]) {
        var k :| 0 <= k <= |s[1..]| && '\n' !in s[1..][..k] && GlobMatch(p, s[1..][k..]);
        assert s[..k + 1] == [s[0]] + s[1..][..k] && GlobMatch(p, s[k + 1..]);
      }
      forall k | 0 <= k <= |s| && '\n' !in s[..k] && GlobMatch(p, s[k..])
        ensures s[0] != '\n' && GlobMatch("*" + p, s[1..])
      {
        assert k > 0 && s[..k][0] == s[0];
        assert '\n' !in s[..k][1..] && GlobMatch(p, s[1..][k - 1..]);
      }
    }
  }

  // ---- translation ----

  predicate Escaped(c: char) { c in ".+^$()[]{}|\\" }

  function EmitChar(c: char): string {
    if c == '*' then ".*" else if c == '?' then "." else if Escaped(c) then ['\\', c] else [c]
  }

  function EmitAll(p: string): string { if p == "" then "" else EmitChar(p[0]) + EmitAll(p[1..]) }

  function Emit(p: string): string { "^" + EmitAll(p) + "$" }

  lemma {:induction false} EmitSnoc(p: string, c: char)
    ensures EmitAll(p + [c]) == EmitAll(p) + EmitChar(c)
  {
    if p == "" {
      assert [c][1..] == "";
    } else {
      assert (p + [c])[1..] == p[1..] + [c];
      EmitSnoc(p[1..], c);
    }
  }

  method Translate(pattern: string) returns (re: string)
    ensures re == Emit(pattern)
  {
    re := "^";
    for i := 0 to |pattern|
      invariant re == "^" + EmitAll(pattern[..i])
    {
      assert pattern[..i + 1] == pattern[..i] + [pattern[i]];
      EmitSnoc(pattern[..i], pattern[i]);
      match pattern[i]
      case '*' => re := re + ".*";
      case '?' => re := re + ".";
      case c =>
        if c in ".+^$()[]{}|\\" { re := re + "\\" + [c]; } else { re := re + [c]; }
    }
    assert pattern[..|pattern|] == pattern;
    re := re + "$";
  }

  // ---- the regular expressions emitted ----

  datatype Atom = Lit(c: char) | Any | Begin | End

  datatype Node = One(atom: Atom) | Many(atom: Atom)

  predicate Alnum(c: char) { 'a' <= c <= 'z' || 'A' <= c <= 'Z' || '0' <= c <= '9' }

  predicate Digit(c: char) { '0' <= c <= '9' }

  function SkipDigits(s: string): string { if s != "" && Digit(s[0]) then SkipDigits(s[1..]) else s }

  /** What follows a count; None if there is none, or one with a leading zero. */
  function AfterCount(s: string): Option<string> {
    if s == "" || !Digit(s[0]) || (|s| >= 2 && s[0] == '0' && Digit(s[1])) then None else Some(SkipDigits(s))
  }

  /** The text begins with {n}, {n,} or {n,m}; any other brace is a literal. */
  predicate Braces(s: string) {
    && s != "" && s[0] == '{'
    && match AfterCount(s[1..])
       case None => false
       case Some(t) =>
         if t == "" || t[0] != ',' then t != "" && t[0] == '}'
         else if |t| >= 2 && t[1] == '}' then true
         else
           match AfterCount(t[1..])
           case None => false
           case Some(u) => u != "" && u[0] == '}'
  }

  /** The text begins with a repetition of what stands before it. */
  predicate Repeats(s: string) { s != "" && (s[0] in "*+?" || Braces(s)) }

  /** A backslash makes a literal of ASCII punctuation; before anything else it is outside the fragment. */
  function ParseAtom(re: string): (r: Option<(Atom, nat)>)
    requires re != ""
    ensures r.Some? ==> 0 < r.value.1 <= |re|
  {
    match re[0]
    case '\\' => if |re| >= 2 && re[1] < '\U{80}' && !Alnum(re[1]) then Some((Lit(re[1]), 2)) else None
    case '.' => Some((Any, 1))
    case '^' => Some((Begin, 1))
    case '$' => Some((End, 1))
    case c => if c in "()[|" || Repeats(re) then None else Some((Lit(c), 1))
  }

  /** A sequence of atoms, each alone or starred; None for everything this fragment leaves out. */
  function Parse(re: string): Option<seq<Node>> {
    if re == "" then Some([])
    else
      var a := ParseAtom(re);
      if a.None? then None
      else
        var rest := re[a.value.1..];
        if !Repeats(rest) then Prepend(One(a.value.0), Parse(rest))
        else if rest[0] == '*' && !Repeats(rest[1..]) then Prepend(Many(a.value.0), Parse(rest[1..]))
        else None
  }

  function Prepend(n: Node, ns: Option<seq<Node>>): Option<seq<Node>> {
    if ns.None? then None else Some([n] + ns.value)
  }

  lemma ParseLast(c: char)
    ensures Parse([c]) == if ParseAtom([c]).None? then None else Some([One(ParseAtom([c]).value.0)])
  {
    assert [c][1..] == "" && Parse("") == Some([]);
    assert forall n: Node :: [n] + [] == [n];
  }

  /** Where one atom leads from i. Without flags `.` is not a newline and `^`, `$` are the ends of the text. */
  function Advance(a: Atom, s: string, i: nat): (r: Option<nat>)
    requires i <= |s|
    ensures r.Some? ==> i <= r.value <= |s|
  {
    match a
    case Lit(c) => if i < |s| && s[i] == c then Some(i + 1) else None
    case Any => if i < |s| && s[i] != '\n' then Some(i + 1) else None
    case Begin => if i == 0 then Some(i) else None
    case End => if i == |s| then Some(i) else None
  }

  /** The nodes match some stretch of s that begins at i. */
  predicate MatchAt(ns: seq<Node>, s: string, i: nat)
    requires i <= |s|
    decreases |ns|, |s| - i
  {
    if ns == [] then true
    else
      var next := Advance(ns[0].atom, s, i);
      match ns[0]
      case One(_) => next.Some? && MatchAt(ns[1..], s, next.value)
      case Many(_) => MatchAt(ns[1..], s, i) || (next.Some? && next.value > i && MatchAt(ns, s, next.value))
  }

  /** MatchString: somewhere in s. */
  ghost predicate MatchString(ns: seq<Node>, s: string) { exists i :: 0 <= i <= |s| && MatchAt(ns, s, i) }

  // ---- parsing undoes emission ----

  function NodeOf(c: char): Node {
    if c == '*' then Many(Any) else if c == '?' then One(Any) else One(Lit(c))
  }

  function Nodes(p: string): seq<Node> {
    if p == "" then [One(End)] else [NodeOf(p[0])] + Nodes(p[1..])
  }

  lemma EmittedHead(p: string)
    ensures !Repeats(EmitAll(p) + "$")
  {}

  lemma EmittedAtom(c: char, rest: string)
    requires c != '*'
    ensures ParseAtom(EmitChar(c) + rest) == Some((NodeOf(c).atom, |EmitChar(c)|))
  {}

  lemma AtomThenRest(head: string, rest: string, a: Atom)
    requires head != "" && ParseAtom(head + rest) == Some((a, |head|)) && !Repeats(rest)
    ensures Parse(head + rest) == Prepend(One(a), Parse(rest))
  {
    assert (head + rest)[|head|..] == rest;
  }

  lemma StarThenRest(rest: string)
    requires !Repeats(rest)
    ensures Parse(".*" + rest) == Prepend(Many(Any), Parse(rest))
  {
    var re := ".*" + rest;
    assert re[1..] == "*" + rest && re[1..][1..] == rest;
  }

  lemma {:induction false} BodyParses(p: string)
    ensures Parse(EmitAll(p) + "$") == Some(Nodes(p))
  {
    if p == "" {
      assert EmitAll(p) + "$" == "$";
      ParseLast('$');
    } else {
      var rest := EmitAll(p[1..]) + "$";
      assert EmitAll(p) + "$" == EmitChar(p[0]) + rest;
      BodyParses(p[1..]);
      EmittedHead(p[1..]);
      if p[0] == '*' {
        StarThenRest(rest);
      } else {
        EmittedAtom(p[0], rest);
        AtomThenRest(EmitChar(p[0]), rest, NodeOf(p[0]).atom);
      }
    }
  }

  /** The escape set is enough: whatever the pattern, every metacharacter in it comes back as a literal. */
  lemma EmissionParses(p: string)
    ensures Parse(Emit(p)) == Some([One(Begin)] + Nodes(p))
  {
    var rest := EmitAll(p) + "$";
    assert Emit(p) == "^" + rest;
    BodyParses(p);
    EmittedHead(p);
    AtomThenRest("^", rest, Begin);
  }

  /** What would go wrong without it: of all characters alone, just these do not stand for themselves. */
  lemma MetaNeedsEscape(c: char)
    ensures Parse([c]) != Some([One(Lit(c))]) <==> c in ".^$()[|\\*+?"
    ensures c in ".^$()[|\\+" ==> Escaped(c)
  {
    ParseLast(c);
  }

  /** A brace alone is a literal, but around a count it repeats what stands before it. */
  lemma BraceNeedsEscape(c: char)
    requires c != '\\'
    ensures Parse("{") == Some([One(Lit('{'))]) && Escaped('{')
    ensures Parse([c] + "{2}") == None
  {
    MetaNeedsEscape('{');
    var re := [c] + "{2}";
    assert re[1..] == "{2}" && "{2}"[1..] == "2}" && "2}"[1..] == "}";
    assert SkipDigits("2}") == "}" && Braces("{2}");
  }

  // ---- meaning ----

  lemma {:induction false} SameMeaning(p: string, s: string, i: nat)
    requires i <= |s|
    ensures MatchAt(Nodes(p), s, i) <==> GlobMatch(p, s[i..])
    decreases |p|, |s| - i
  {
    if p == "" {
      assert Nodes(p)[1..] == [];
    } else {
      assert Nodes(p)[1..] == Nodes(p[1..]);
      if i < |s| {
        assert s[i..][1..] == s[i + 1..];
        SameMeaning(p[1..], s, i + 1);
        if p[0] == '*' { SameMeaning(p, s, i + 1); }
      }
      if p[0] == '*' { SameMeaning(p[1..], s, i); }
    }
  }

  /** Emitted, parsed and searched for in s, a pattern means what the glob means matched against all of s. */
  lemma TranslationPreservesMeaning(p: string, s: string)
    ensures Parse(Emit(p)).Some?
    ensures MatchString(Parse(Emit(p)).value, s) <==> GlobMatch(p, s)
  {
    EmissionParses(p);
    var ns := [One(Begin)] + Nodes(p);
    assert ns[1..] == Nodes(p);
    SameMeaning(p, s, 0);
    assert s[0..] == s;
    assert forall i :: 0 < i <= |s| ==> !MatchAt(ns, s, i);
    assert MatchAt(ns, s, 0) <==> MatchAt(Nodes(p), s, 0);
  }

  /** Everything simpleMatch accepts. */
  predicate SimpleMatches(pattern: string, s: string) { pattern == "" || pattern == "*" || GlobMatch(pattern, s) }

  method SimpleMatch(pattern: string, s: string) returns (ok: bool)
    ensures ok == SimpleMatches(pattern, s)
  {
    if pattern == "" { return true; }
    if pattern == "*" { return true; }
    var regexPattern := Translate(pattern);
    TranslationPreservesMeaning(pattern, s);
    var re := Parse(regexPattern);
    ok := Search(re.value, s);
  }

  // regexp.MatchString tries every position.
  method Search(ns: seq<Node>, s: string) returns (found: bool)
    ensures found <==> MatchString(ns, s)
  {
    for i := 0 to |s| + 1
      invariant forall j :: 0 <= j < i ==> !MatchAt(ns, s, j)
    {
      if MatchAt(ns, s, i) { return true; }
    }
    found := false;
  }

  lemma {:induction false} StarStopsAtNewlines(s: string)
    ensures GlobMatch("*", s) <==> '\n' !in s
  {
    assert "*"[1..] == "";
    if s != "" { StarStopsAtNewlines(s[1..]); }
  }

  /** The two shortcuts are not globs: the empty pattern accepts every text, and a lone star crosses newlines. */
  lemma {:induction false} SimpleMatchIsGlobExceptShortcuts(p: string, s: string)
    ensures SimpleMatches(p, s) == GlobMatch(p, s) <==> !(p == "" && s != "") && !(p == "*" && '\n' in s)
  {
    StarStopsAtNewlines(s);
  }
}
