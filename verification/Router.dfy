/**
 Rule routing, internal/router/router.go. The regular expression library is a parameter: which
 strings compile, and what a compiled one matches.
 */
module Router {
  import opened Common
  import Glob

  datatype Engine = Engine(compiles: string -> bool, matches: (string, string) -> bool)

  datatype Rule = Rule(
    active: bool, matchModel: string, matchPattern: string, matchUser: string,
    destination: int, mirror: Option<int>, priority: int)

  /** Each regular expression is None when its field is empty or does not compile. */
  datatype CompiledRule = CompiledRule(rule: Rule, model: Option<string>, pattern: Option<string>, user: Option<string>)

  datatype Request = Request(model: string, prompt: string, username: string)

  // ---- what a rule means ----

  /**
   A field that is a regular expression is searched for; one that is not is a glob for models, nothing
   for prompts, an exact name for users.
   */
  predicate Accepts(eng: Engine, r: Rule, req: Request) {
    && (r.matchModel == "" || if eng.compiles(r.matchModel) then eng.matches(r.matchModel, req.model)
                              else Glob.SimpleMatches(r.matchModel, req.model))
    && (r.matchPattern != "" && eng.compiles(r.matchPattern) ==> eng.matches(r.matchPattern, req.prompt))
    && (r.matchUser == "" || if eng.compiles(r.matchUser) then eng.matches(r.matchUser, req.username)
                             else r.matchUser == req.username)
  }

  /** Each field judges its own part of the request and nothing else, and all must agree. */
  lemma FieldsJudgeApart(eng: Engine, r: Rule, req: Request)
    ensures Accepts(eng, r, req)
       <==> && Accepts(eng, r.(matchPattern := "", matchUser := ""), req)
            && Accepts(eng, r.(matchModel := "", matchUser := ""), req)
            && Accepts(eng, r.(matchModel := "", matchPattern := ""), req)
  {}

  /** Only the parts of the request a field looks at can change the answer; nothing else of the rule can. */
  lemma OnlyNamedPartsCount(eng: Engine, r: Rule, q: Rule, a: Request, b: Request)
    requires r.matchModel == q.matchModel && r.matchPattern == q.matchPattern && r.matchUser == q.matchUser
    requires r.matchModel == "" || a.model == b.model
    requires r.matchPattern == "" || !eng.compiles(r.matchPattern) || a.prompt == b.prompt
    requires r.matchUser == "" || a.username == b.username
    ensures Accepts(eng, r, a) == Accepts(eng, q, b)
  {}

  /** A rule without fields takes every request. */
  lemma NoFieldsTakeAll(eng: Engine, r: Rule, req: Request)
    requires r.matchModel == "" && r.matchPattern == "" && r.matchUser == ""
    ensures Accepts(eng, r, req)
  {}

  /** What a rule with one field takes: what the field matches in its part of the request. */
  lemma OneFieldTakes(eng: Engine, r: Rule, req: Request)
    requires r.matchModel == "" && r.matchPattern == "" && r.matchUser == ""
    ensures forall re: string :: re != "" && eng.compiles(re) ==>
              && Accepts(eng, r.(matchModel := re), req) == eng.matches(re, req.model)
              && Accepts(eng, r.(matchPattern := re), req) == eng.matches(re, req.prompt)
              && Accepts(eng, r.(matchUser := re), req) == eng.matches(re, req.username)
    ensures forall text: string :: text != "" && !eng.compiles(text) ==>
              && Accepts(eng, r.(matchModel := text), req) == Glob.SimpleMatches(text, req.model)
              && Accepts(eng, r.(matchPattern := text), req)
              && Accepts(eng, r.(matchUser := text), req) == (text == req.username)
  {}

  predicate Applies(eng: Engine, r: Rule, req: Request) { r.active && Accepts(eng, r, req) }

  /** The answer a list of rules owes a request, whatever order the rules come in. */
  ghost predicate Routes(eng: Engine, list: seq<Rule>, req: Request, default: int, to: int, mirror: Option<int>) {
    || BestRule(eng, list, req, to, mirror)
    || (to == default && mirror == None && forall r :: r in list ==> !Applies(eng, r, req))
  }

  /** Some active matching rule says so, and no active matching rule has a lower priority number. */
  ghost predicate BestRule(eng: Engine, list: seq<Rule>, req: Request, to: int, mirror: Option<int>) {
    exists r :: r in list && Applies(eng, r, req) && r.destination == to && r.mirror == mirror
                && forall q :: q in list && Applies(eng, q, req) ==> r.priority <= q.priority
  }

  // ---- compiling ----

  function CompileField(eng: Engine, re: string): Option<string> {
    if re != "" && eng.compiles(re) then Some(re) else None
  }

  function Compiled(eng: Engine, r: Rule): CompiledRule {
    CompiledRule(r, CompileField(eng, r.matchModel), CompileField(eng, r.matchPattern), CompileField(eng, r.matchUser))
  }

  function CompiledActive(eng: Engine, list: seq<Rule>): seq<CompiledRule> {
    if list == [] then []
    else
      var last := list[|list| - 1];
      CompiledActive(eng, list[..|list| - 1]) + if last.active then [Compiled(eng, last)] else []
  }

  lemma {:induction false} CompiledFromActive(eng: Engine, list: seq<Rule>, c: CompiledRule)
    ensures c in CompiledActive(eng, list) <==> c.rule in list && c.rule.active && c == Compiled(eng, c.rule)
  {
    if list == [] {
    } else {
      var init, last := list[..|list| - 1], list[|list| - 1];
      assert list == init + [last];
      CompiledFromActive(eng, init, c);
    }
  }

  ghost predicate Sorted(rules: seq<CompiledRule>) {
    forall i, j :: 0 <= i < j < |rules| ==> rules[i].rule.priority <= rules[j].rule.priority
  }

  /** The compiled active rules in some order that respects priority; ties may come out either way. */
  ghost predicate LoadedFrom(eng: Engine, list: seq<Rule>, rules: seq<CompiledRule>) {
    Sorted(rules) && multiset(rules) == multiset(CompiledActive(eng, list))
  }

  /** The first rule that matches is one of the best ones; if none matches no rule applies. */
  lemma FirstMatchIsBest(eng: Engine, list: seq<Rule>, rules: seq<CompiledRule>, req: Request, i: nat)
    requires LoadedFrom(eng, list, rules) && i <= |rules|
    requires forall j :: 0 <= j < i ==> !Accepts(eng, rules[j].rule, req)
    requires i < |rules| ==> Accepts(eng, rules[i].rule, req)
    ensures i < |rules| ==> BestRule(eng, list, req, rules[i].rule.destination, rules[i].rule.mirror)
    ensures i == |rules| ==> forall r :: r in list ==> !Applies(eng, r, req)
  {
    forall q | q in list && Applies(eng, q, req) ensures i < |rules| && rules[i].rule.priority <= q.priority {
      CompiledFromActive(eng, list, Compiled(eng, q));
      assert Compiled(eng, q) in multiset(rules);
      var j :| 0 <= j < |rules| && rules[j] == Compiled(eng, q);
      assert j >= i;
    }
    if i < |rules| {
      assert rules[i] in multiset(rules);
      CompiledFromActive(eng, list, rules[i]);
    }
  }

  /** Of the rules that apply no two share a priority. */
  ghost predicate NoTies(eng: Engine, list: seq<Rule>, req: Request) {
    forall r, q :: r in list && q in list && Applies(eng, r, req) && Applies(eng, q, req) ==>
                     (r.priority == q.priority ==> r == q)
  }

  /** Routes leaves no slack: with distinct priorities among the rules that apply there is one answer. */
  lemma RoutesIsUnique(eng: Engine, list: seq<Rule>, req: Request, default: int,
                       a: int, m: Option<int>, b: int, n: Option<int>)
    requires NoTies(eng, list, req)
    requires Routes(eng, list, req, default, a, m) && Routes(eng, list, req, default, b, n)
    ensures a == b && m == n
  {}

  // ---- the object ----

  class Router {
    var rules: seq<CompiledRule>

    constructor ()
      ensures rules == []
    {
      rules := [];
    }

    method LoadRules(eng: Engine, list: seq<Rule>)
      modifies this
      ensures LoadedFrom(eng, list, rules)
    {
      var compiled := [];
      for i := 0 to |list|
        invariant compiled == CompiledActive(eng, list[..i])
      {
        assert list[..i + 1][..i] == list[..i];
        var rule := list[i];
        if rule.active {
          var model, pattern, user := None, None, None;
          if rule.matchModel != "" && eng.compiles(rule.matchModel) { model := Some(rule.matchModel); }
          if rule.matchPattern != "" && eng.compiles(rule.matchPattern) { pattern := Some(rule.matchPattern); }
          if rule.matchUser != "" && eng.compiles(rule.matchUser) { user := Some(rule.matchUser); }
          compiled := compiled + [CompiledRule(rule, model, pattern, user)];
        }
      }
      assert list[..|list|] == list;
      rules := SortByPriority(compiled);
    }

    /** `list` is what LoadRules was given last; `i` is the position where the scan stops. */
    method RouteRequest(eng: Engine, ghost list: seq<Rule>, req: Request, defaultHostgroup: int)
      returns (hostgroup: int, mirror: Option<int>, ghost i: nat)
      requires LoadedFrom(eng, list, rules)
      ensures Routes(eng, list, req, defaultHostgroup, hostgroup, mirror)
      ensures i <= |rules| && (i == |rules| <==> forall r :: r in list ==> !Applies(eng, r, req))
      ensures i == |rules| ==> hostgroup == defaultHostgroup && mirror == None
      ensures i < |rules| ==> BestRule(eng, list, req, hostgroup, mirror)
    {
      i := 0;
      for k := 0 to |rules|
        invariant i == k && forall j :: 0 <= j < k ==> !Accepts(eng, rules[j].rule, req)
      {
        IsCompiled(eng, list, rules, k);
        var matched := MatchRule(eng, rules[k], req);
        if matched {
          FirstMatchIsBest(eng, list, rules, req, k);
          return rules[k].rule.destination, rules[k].rule.mirror, k;
        }
        i := i + 1;
      }
      FirstMatchIsBest(eng, list, rules, req, i);
      hostgroup, mirror := defaultHostgroup, None;
    }
  }

  lemma IsCompiled(eng: Engine, list: seq<Rule>, rules: seq<CompiledRule>, k: nat)
    requires LoadedFrom(eng, list, rules) && k < |rules|
    ensures rules[k] == Compiled(eng, rules[k].rule)
  {
    assert rules[k] in multiset(rules);
    CompiledFromActive(eng, list, rules[k]);
  }

  method MatchRule(eng: Engine, c: CompiledRule, req: Request) returns (ok: bool)
    requires c == Compiled(eng, c.rule)
    ensures ok == Accepts(eng, c.rule, req)
  {
    if c.model.Some? {
      if !eng.matches(c.model.value, req.model) { return false; }
    } else if c.rule.matchModel != "" {
      ok := Glob.SimpleMatch(c.rule.matchModel, req.model);
      if !ok { return; }
    }
    if c.pattern.Some? && !eng.matches(c.pattern.value, req.prompt) { return false; }
    if c.user.Some? {
      if !eng.matches(c.user.value, req.username) { return false; }
    } else if c.rule.matchUser != "" && c.rule.matchUser != req.username {
      return false;
    }
    ok := true;
  }

  // Stands for sort.Slice, of which only the contract is used: it need not be stable.
  method SortByPriority(rules: seq<CompiledRule>) returns (r: seq<CompiledRule>)
    ensures Sorted(r) && multiset(r) == multiset(rules)
  {
    r := [];
    for i := 0 to |rules|
      invariant Sorted(r) && multiset(r) == multiset(rules[..i])
    {
      assert rules[..i + 1] == rules[..i] + [rules[i]];
      r := Insert(r, rules[i]);
    }
    assert rules[..|rules|] == rules;
  }

  lemma SplitSorted(rules: seq<CompiledRule>, k: nat, c: CompiledRule)
    requires Sorted(rules) && k <= |rules|
    requires forall j :: k <= j < |rules| ==> c.rule.priority < rules[j].rule.priority
    requires k > 0 ==> rules[k - 1].rule.priority <= c.rule.priority
    ensures Sorted(rules[..k] + [c] + rules[k..])
  {
    var r := rules[..k] + [c] + rules[k..];
    forall j | 0 <= j < k ensures r[j] == rules[j] && r[j].rule.priority <= c.rule.priority {}
    forall j | k < j < |r| ensures r[j] == rules[j - 1] && c.rule.priority < r[j].rule.priority {}
    forall i, j | 0 <= i < j < |r| ensures r[i].rule.priority <= r[j].rule.priority {
      assert r[k] == c;
    }
  }

  lemma SplitSame(rules: seq<CompiledRule>, k: nat, c: CompiledRule)
    requires k <= |rules|
    ensures multiset(rules[..k] + [c] + rules[k..]) == multiset(rules) + multiset{c}
  {
    assert rules == rules[..k] + rules[k..];
  }

  method Insert(rules: seq<CompiledRule>, c: CompiledRule) returns (r: seq<CompiledRule>)
    requires Sorted(rules)
    ensures Sorted(r) && multiset(r) == multiset(rules) + multiset{c}
  {
    var k := |rules|;
    while k > 0 && rules[k - 1].rule.priority > c.rule.priority
      invariant 0 <= k <= |rules| && forall j :: k <= j < |rules| ==> c.rule.priority < rules[j].rule.priority
    {
      k := k - 1;
    }
    SplitSorted(rules, k, c);
    SplitSame(rules, k, c);
    r := rules[..k] + [c] + rules[k..];
  }
}
