/**
 Rules, rule lists and the decision they combine into (`RuleSet`, `RuleList` and the checks of
 `SecurityFilter` in src/security.rs).
 */
module Rules {
  import opened Results
  import opened Normalize
  import Patterns
  import CreateBody

  // ── One rule ──

  /**
   The value of a `RuleSet`; the order of its endpoints decides nothing. A side that is empty
   is a wildcard, and a rule with both sides empty is inert.
   */
  datatype Rule = Rule(methods: set<string>, endpoints: set<string>) {
    predicate Inert() {
      methods == {} && endpoints == {}
    }

    predicate Matches(verb: string, path: string) {
      if Inert() then false
      else
        && (methods == {} || verb in methods)
        && (endpoints == {} || exists pattern <- endpoints :: Patterns.Matches(pattern, path))
    }

    function Extended(moreMethods: seq<string>, moreEndpoints: seq<string>): Rule {
      Rule(methods + (set m <- moreMethods), endpoints + (set e <- moreEndpoints))
    }
  }

  function Given(list: Option<seq<string>>): seq<string> {
    if list.Some? then list.value else []
  }

  function NewRule(methods: seq<string>, endpoints: seq<string>): Rule {
    Rule(set m <- methods, set e <- endpoints)
  }

  predicate Distinct(list: seq<string>) {
    forall i, j :: 0 <= i < j < |list| ==> list[i] != list[j]
  }

  /** A rule under construction. */
  class RuleSet {
    var methods: set<string>
    var endpoints: seq<string>

    function Value(): Rule
      reads this
    {
      Rule(methods, set e <- endpoints)
    }

    constructor ()
      ensures Value() == Rule({}, {}) && endpoints == []
    {
      methods, endpoints := {}, [];
    }

    /** Merge more methods and endpoints in; an endpoint that is already there is not repeated. */
    method Extend(moreMethods: Option<seq<string>>, moreEndpoints: Option<seq<string>>)
      modifies this
      ensures Value() == old(Value()).Extended(Given(moreMethods), Given(moreEndpoints))
      ensures old(endpoints) <= endpoints
      ensures Distinct(old(endpoints)) ==> Distinct(endpoints)
    {
      methods := methods + (set m <- Given(moreMethods));
      var more := Given(moreEndpoints);
      for i := 0 to |more|
        invariant forall e :: e in endpoints <==> e in old(endpoints) || e in more[..i]
        invariant old(endpoints) <= endpoints && (Distinct(old(endpoints)) ==> Distinct(endpoints))
        invariant methods == old(methods) + (set m <- Given(moreMethods))
      {
        assert more[..i + 1] == more[..i] + [more[i]];
        if more[i] !in endpoints {
          endpoints := endpoints + [more[i]];
        }
      }
      assert more[..|more|] == more;
    }

    method Add(moreMethods: seq<string>, moreEndpoints: seq<string>)
      modifies this
      ensures Value() == old(Value()).Extended(moreMethods, moreEndpoints)
      ensures old(endpoints) <= endpoints
      ensures Distinct(old(endpoints)) ==> Distinct(endpoints)
    {
      Extend(Some(moreMethods), Some(moreEndpoints));
    }

    /** `Vec::retain` on the endpoints, for those not withdrawn. */
    method Withdraw(withdrawn: set<string>)
      modifies this
      ensures Value() == Rule(old(methods), old(Value()).endpoints - withdrawn)
      ensures Distinct(old(endpoints)) ==> Distinct(endpoints)
    {
      var all := endpoints;
      endpoints := [];
      for i := 0 to |all|
        invariant methods == old(methods)
        invariant forall e :: e in endpoints <==> e in all[..i] && e !in withdrawn
        invariant Distinct(all) ==> Distinct(endpoints)
      {
        assert all[..i + 1] == all[..i] + [all[i]];
        assert Distinct(all) ==> all[i] !in all[..i];
        if all[i] !in withdrawn {
          endpoints := endpoints + [all[i]];
        }
      }
      assert all[..|all|] == all;
    }
  }

  // ── Lists of independent rules ──

  predicate AnyMatches(rules: seq<Rule>, verb: string, path: string) {
    exists rule <- rules :: rule.Matches(verb, path)
  }

  /** A rule goes to the end of the list, unless it is inert. */
  function Pushed(rules: seq<Rule>, methods: seq<string>, endpoints: seq<string>): seq<Rule> {
    if methods == [] && endpoints == [] then rules else rules + [NewRule(methods, endpoints)]
  }

  /** A pushed rule has been moved into the list, so the list holds its value. */
  class RuleList {
    var rules: seq<Rule>

    constructor ()
      ensures rules == []
    {
      rules := [];
    }

    predicate Matches(verb: string, path: string)
      reads this
    {
      AnyMatches(rules, verb, path)
    }

    method PushRule(rule: RuleSet)
      modifies this
      ensures rules == if rule.Value().Inert() then old(rules) else old(rules) + [rule.Value()]
    {
      if !rule.Value().Inert() {
        rules := rules + [rule.Value()];
      }
    }

    method Push(methods: Option<seq<string>>, endpoints: Option<seq<string>>)
      modifies this
      ensures rules == Pushed(old(rules), Given(methods), Given(endpoints))
    {
      var rule := new RuleSet();
      rule.Extend(methods, endpoints);
      NewRuleIsExtended(Given(methods), Given(endpoints));
      PushRule(rule);
    }

    method Add(methods: seq<string>, endpoints: seq<string>)
      modifies this
      ensures rules == Pushed(old(rules), methods, endpoints)
    {
      var rule := new RuleSet();
      rule.Add(methods, endpoints);
      NewRuleIsExtended(methods, endpoints);
      PushRule(rule);
    }
  }

  lemma NewRuleIsExtended(methods: seq<string>, endpoints: seq<string>)
    ensures Rule({}, {}).Extended(methods, endpoints) == NewRule(methods, endpoints)
    ensures NewRule(methods, endpoints).Inert() <==> methods == [] && endpoints == []
  {
    var rule := NewRule(methods, endpoints);
    assert {} + rule.methods == rule.methods && {} + rule.endpoints == rule.endpoints;
    if methods != [] {
      assert methods[0] in rule.methods;
    }
    if endpoints != [] {
      assert endpoints[0] in rule.endpoints;
    }
  }

  // ── The decision ──

  /** What a request body owes the decision beyond its head. */
  datatype BodyRule = NoBody | ContainerCreate

  /** The value of a `SecurityFilter`: exclusions and denials override allowances. */
  datatype Filter = Filter(allow: seq<Rule>, deny: seq<Rule>, exclude: seq<Rule>) {
    function Check(verb: string, path: string): Result<()> {
      if AnyMatches(exclude, verb, path) then Err(Forbidden)
      else if AnyMatches(deny, verb, path) then Err(Forbidden)
      else if AnyMatches(allow, verb, path) then Ok(())
      else Err(Forbidden)
    }

    function CheckHead(verb: string, path: string): Result<BodyRule> {
      match Normal(path)
      case Err(e) => Err(e)
      case Ok(normal) =>
        match Check(verb, normal)
        case Err(e) => Err(e)
        case Ok(_) =>
          if verb == "POST" && normal == "/containers/create" then Ok(ContainerCreate) else Ok(NoBody)
    }

    /** `json` reads a body, or finds that it is not JSON. */
    static function CheckBody(rule: BodyRule, body: string, json: string -> Option<CreateBody.Json>): Result<()> {
      match rule
      case NoBody => Ok(())
      case ContainerCreate => CreateBody.CheckCreateBody(json(body))
    }

    function CheckRequest(verb: string, path: string, body: string, json: string -> Option<CreateBody.Json>)
      : Result<()>
    {
      match CheckHead(verb, path)
      case Err(e) => Err(e)
      case Ok(rule) => CheckBody(rule, body, json)
    }
  }

  predicate Allows(filter: Filter, verb: string, path: string) {
    filter.Check(verb, path) == Ok(())
  }

  // ── Sequences of pushes ──

  datatype Slot = Allow | Deny | Exclude

  /** One call of `push` on one of a filter's three lists. */
  datatype Push = Push(slot: Slot, methods: Option<seq<string>>, endpoints: Option<seq<string>>)

  /** The requests a push speaks about: its methods times its endpoints. */
  predicate Covers(push: Push, verb: string, path: string) {
    var methods, endpoints := Given(push.methods), Given(push.endpoints);
    && (methods != [] || endpoints != [])
    && (methods != [] ==> verb in methods)
    && (endpoints != [] ==> exists pattern <- endpoints :: Patterns.Matches(pattern, path))
  }

  predicate Covered(pushes: seq<Push>, slot: Slot, verb: string, path: string) {
    exists push <- pushes :: push.slot == slot && Covers(push, verb, path)
  }

  function After(filter: Filter, push: Push): Filter {
    var methods, endpoints := Given(push.methods), Given(push.endpoints);
    match push.slot
    case Allow => filter.(allow := Pushed(filter.allow, methods, endpoints))
    case Deny => filter.(deny := Pushed(filter.deny, methods, endpoints))
    case Exclude => filter.(exclude := Pushed(filter.exclude, methods, endpoints))
  }

  function AfterAll(filter: Filter, pushes: seq<Push>): Filter
    decreases |pushes|
  {
    if |pushes| == 0 then filter else AfterAll(After(filter, pushes[0]), pushes[1..])
  }

  lemma {:induction false} AfterAllConcat(filter: Filter, a: seq<Push>, b: seq<Push>)
    ensures AfterAll(filter, a + b) == AfterAll(AfterAll(filter, a), b)
    decreases |a|
  {
    if |a| == 0 {
      assert a + b == b;
    } else {
      assert (a + b)[1..] == a[1..] + b;
      AfterAllConcat(After(filter, a[0]), a[1..], b);
    }
  }

  /** The rule a push builds matches exactly what the push covers. */
  lemma NewRuleCovers(push: Push, verb: string, path: string)
    ensures NewRule(Given(push.methods), Given(push.endpoints)).Matches(verb, path) <==> Covers(push, verb, path)
  {
    var methods, endpoints := Given(push.methods), Given(push.endpoints);
    var rule := NewRule(methods, endpoints);
    if methods != [] {
      assert methods[0] in rule.methods;
    }
    if endpoints != [] {
      assert endpoints[0] in rule.endpoints;
    }
  }

  lemma PushedMatches(rules: seq<Rule>, push: Push, verb: string, path: string)
    ensures AnyMatches(Pushed(rules, Given(push.methods), Given(push.endpoints)), verb, path) <==>
            AnyMatches(rules, verb, path) || Covers(push, verb, path)
  {
    NewRuleCovers(push, verb, path);
    var rule := NewRule(Given(push.methods), Given(push.endpoints));
    var pushed := Pushed(rules, Given(push.methods), Given(push.endpoints));
    if AnyMatches(rules, verb, path) {
      var r :| r in rules && r.Matches(verb, path);
      assert r in pushed;
    }
    if Covers(push, verb, path) {
      assert rule in pushed;
    }
  }

  function Rules(filter: Filter, slot: Slot): seq<Rule> {
    match slot
    case Allow => filter.allow
    case Deny => filter.deny
    case Exclude => filter.exclude
  }

  /** Each list ends up matching what it matched before and what was pushed to it. */
  lemma {:induction false} PushesAccumulate(filter: Filter, pushes: seq<Push>, slot: Slot, verb: string, path: string)
    ensures AnyMatches(Rules(AfterAll(filter, pushes), slot), verb, path) <==>
            AnyMatches(Rules(filter, slot), verb, path) || Covered(pushes, slot, verb, path)
    decreases |pushes|
  {
    if |pushes| > 0 {
      var push, rest := pushes[0], pushes[1..];
      PushesAccumulate(After(filter, push), rest, slot, verb, path);
      PushedMatches(Rules(filter, slot), push, verb, path);
      assert pushes == [push] + rest;
      assert Covered(pushes, slot, verb, path) <==>
             (push.slot == slot && Covers(push, verb, path)) || Covered(rest, slot, verb, path);
    }
  }

  /**
   After any sequence of pushes the allowed requests are the union of the allow products
   minus the union of the deny and exclude products.
   */
  lemma DecisionAlgebra(filter: Filter, pushes: seq<Push>, verb: string, path: string)
    ensures Allows(AfterAll(filter, pushes), verb, path) <==>
            && (AnyMatches(filter.allow, verb, path) || Covered(pushes, Allow, verb, path))
            && !(AnyMatches(filter.deny, verb, path) || Covered(pushes, Deny, verb, path))
            && !(AnyMatches(filter.exclude, verb, path) || Covered(pushes, Exclude, verb, path))
  {
    PushesAccumulate(filter, pushes, Allow, verb, path);
    PushesAccumulate(filter, pushes, Deny, verb, path);
    PushesAccumulate(filter, pushes, Exclude, verb, path);
  }

  /** Neither the order of the pushes nor their repetition matters. */
  lemma PushOrderIsIrrelevant(filter: Filter, a: seq<Push>, b: seq<Push>, verb: string, path: string)
    requires forall push :: push in a <==> push in b
    ensures Allows(AfterAll(filter, a), verb, path) <==> Allows(AfterAll(filter, b), verb, path)
  {
    DecisionAlgebra(filter, a, verb, path);
    DecisionAlgebra(filter, b, verb, path);
    forall slot: Slot ensures Covered(a, slot, verb, path) <==> Covered(b, slot, verb, path) {
    }
  }

  /** More allow pushes allow no less; more deny and exclude pushes allow no more. */
  lemma PushesAreMonotone(filter: Filter, fewer: seq<Push>, more: seq<Push>, verb: string, path: string)
    requires forall push :: push in fewer ==> push in more
    ensures (forall push :: push in more && push !in fewer ==> push.slot == Allow) ==>
              (Allows(AfterAll(filter, fewer), verb, path) ==> Allows(AfterAll(filter, more), verb, path))
    ensures (forall push :: push in more && push !in fewer ==> push.slot != Allow) ==>
              (Allows(AfterAll(filter, more), verb, path) ==> Allows(AfterAll(filter, fewer), verb, path))
  {
    DecisionAlgebra(filter, fewer, verb, path);
    DecisionAlgebra(filter, more, verb, path);
  }

  /**
   Merging into one rule is not pushing two. With every side filled it covers at least both;
   a methods-only rule merged with an endpoints-only rule covers only what both cover.
   */
  lemma MergingRules(rule: Rule, methods: seq<string>, endpoints: seq<string>, verb: string, path: string)
    ensures rule.methods != {} && rule.endpoints != {} && methods != [] && endpoints != [] ==>
              (rule.Matches(verb, path) || NewRule(methods, endpoints).Matches(verb, path)
               ==> rule.Extended(methods, endpoints).Matches(verb, path))
    ensures rule.methods != {} && rule.endpoints == {} && methods == [] && endpoints != [] ==>
              (rule.Extended(methods, endpoints).Matches(verb, path) <==>
               rule.Matches(verb, path) && NewRule(methods, endpoints).Matches(verb, path))
  {
    var merged, other := rule.Extended(methods, endpoints), NewRule(methods, endpoints);
    assert merged.methods == rule.methods + other.methods && merged.endpoints == rule.endpoints + other.endpoints;
    if methods != [] {
      assert methods[0] in other.methods;
    }
    if endpoints != [] {
      assert endpoints[0] in other.endpoints;
    }
  }
}
