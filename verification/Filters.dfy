/**
 Security filters and the built-in profiles (`SecurityFilter::for_profile` in src/security.rs).
 */
module Filters {
  import opened Results
  import opened Paths
  import opened Normalize
  import opened ProfileTables
  import opened Rules
  import opened PatternTables
  import Patterns

  datatype Profile = Default | ReadOnly | ContainerRuntime | NoProfile

  // ── The filters of the profiles ──

  function ProfileFilter(profile: Profile): Filter {
    match profile
    case NoProfile => Filter([], [], [])
    case Default =>
      Filter([NewRule(READ_METHODS, READABLE_ENDPOINTS)], [NewRule(WRITE_METHODS, MUTATING_ENDPOINTS)], [])
    case ReadOnly =>
      Filter([NewRule(READ_METHODS, READABLE_ENDPOINTS)], [NewRule(["POST", "PUT", "DELETE", "PATCH"], [])], [])
    case ContainerRuntime =>
      Filter(
        [NewRule(READ_METHODS, READABLE_ENDPOINTS),
         NewRule(WRITE_METHODS, RUNTIME_ENDPOINTS),
         NewRule(["GET"], ["/exec/*/json"])],
        [NewRule(WRITE_METHODS, RUNTIME_DENIED)],
        [])
  }

  /** What the withdrawals leave of the write denial. */
  lemma WithdrawnLeaves(writes: Rule)
    requires writes == NewRule(WRITE_METHODS, MUTATING_ENDPOINTS)
    ensures Rule(writes.methods, writes.endpoints - WITHDRAWN) == NewRule(WRITE_METHODS, RUNTIME_DENIED)
  {
    forall e: string ensures e in MUTATING_ENDPOINTS && e !in WITHDRAWN <==> e in RUNTIME_DENIED {
    }
  }

  class SecurityFilter {
    const allow: RuleList
    const deny: RuleList
    const exclude: RuleList
    const profile: Profile

    /** The three lists are separate objects. */
    predicate Valid() {
      allow != deny && deny != exclude && allow != exclude
    }

    function Value(): Filter
      reads allow, deny, exclude
    {
      Filter(allow.rules, deny.rules, exclude.rules)
    }

    constructor DenyAll()
      ensures Valid() && fresh(allow) && fresh(deny) && fresh(exclude)
      ensures Value() == ProfileFilter(NoProfile) && profile == NoProfile
    {
      allow := new RuleList();
      deny := new RuleList();
      exclude := new RuleList();
      profile := NoProfile;
    }

    constructor ForProfile(profile: Profile)
      ensures Valid() && fresh(allow) && fresh(deny) && fresh(exclude)
      ensures Value() == ProfileFilter(profile) && this.profile == profile
    {
      var allow := new RuleList();
      var deny := new RuleList();
      match profile {
        case NoProfile =>
        case Default =>
          allow.Add(READ_METHODS, READABLE_ENDPOINTS);
          deny.Add(WRITE_METHODS, MUTATING_ENDPOINTS);
        case ReadOnly =>
          allow.Add(READ_METHODS, READABLE_ENDPOINTS);
          deny.Add(["POST", "PUT", "DELETE", "PATCH"], []);
        case ContainerRuntime =>
          allow.Add(READ_METHODS, READABLE_ENDPOINTS);
          allow.Add(WRITE_METHODS, RUNTIME_ENDPOINTS);
          allow.Add(["GET"], ["/exec/*/json"]);
          DenyWrites(deny);
      }
      this.allow := allow;
      this.deny := deny;
      this.exclude := new RuleList();
      this.profile := profile;
    }
  }

  /** The write denial of `ContainerRuntime`: the mutating endpoints less those it grants. */
  method DenyWrites(deny: RuleList)
    modifies deny
    ensures deny.rules == Pushed(old(deny.rules), WRITE_METHODS, RUNTIME_DENIED)
  {
    var writes := new RuleSet();
    writes.Add(WRITE_METHODS, MUTATING_ENDPOINTS);
    NewRuleIsExtended(WRITE_METHODS, MUTATING_ENDPOINTS);
    writes.Withdraw(WITHDRAWN);
    WithdrawnLeaves(NewRule(WRITE_METHODS, MUTATING_ENDPOINTS));
    NewRuleIsExtended(WRITE_METHODS, RUNTIME_DENIED);
    deny.PushRule(writes);
  }

  // ── Profiles over every path ──

  lemma NewRuleMatches(methods: seq<string>, endpoints: seq<string>, verb: string, path: string)
    requires methods != []
    ensures NewRule(methods, endpoints).Matches(verb, path) <==>
            verb in methods && (endpoints == [] || MatchesSome(endpoints, path))
  {
    NewRuleCovers(Push(Allow, Some(methods), Some(endpoints)), verb, path);
  }

  /** What a profile refuses whatever is pushed later. */
  predicate Promised(profile: Profile, verb: string, path: string) {
    match profile
    case NoProfile => false
    case Default => verb in WRITE_METHODS && MatchesSome(MUTATING_ENDPOINTS, path)
    case ReadOnly => verb in ["POST", "PUT", "DELETE", "PATCH"]
    case ContainerRuntime => verb in WRITE_METHODS && MatchesSome(RUNTIME_DENIED, path)
  }

  lemma ProfileDenies(profile: Profile, verb: string, path: string)
    ensures AnyMatches(ProfileFilter(profile).deny, verb, path) <==> Promised(profile, verb, path)
  {
    match profile
    case NoProfile =>
    case Default => NewRuleMatches(WRITE_METHODS, MUTATING_ENDPOINTS, verb, path);
    case ReadOnly => NewRuleMatches(["POST", "PUT", "DELETE", "PATCH"], [], verb, path);
    case ContainerRuntime => NewRuleMatches(WRITE_METHODS, RUNTIME_DENIED, verb, path);
  }

  /** After any sequence of pushes, whatever a profile promises to refuse is still refused. */
  lemma PromisesSurvive(profile: Profile, pushes: seq<Push>, verb: string, path: string)
    requires Promised(profile, verb, path)
    ensures AfterAll(ProfileFilter(profile), pushes).Check(verb, path) == Err(Forbidden)
  {
    ProfileDenies(profile, verb, path);
    DecisionAlgebra(ProfileFilter(profile), pushes, verb, path);
    assert !Allows(AfterAll(ProfileFilter(profile), pushes), verb, path);
  }

  // ── ContainerRuntime ──

  predicate RuntimeGrants(verb: string, path: string) {
    || (verb in READ_METHODS && MatchesSome(READABLE_ENDPOINTS, path))
    || (verb in WRITE_METHODS && MatchesSome(RUNTIME_ENDPOINTS, path))
    || (verb == "GET" && Patterns.Matches("/exec/*/json", path))
  }

  lemma AnyOfThree(a: Rule, b: Rule, c: Rule, verb: string, path: string)
    ensures AnyMatches([a, b, c], verb, path) <==>
            a.Matches(verb, path) || b.Matches(verb, path) || c.Matches(verb, path)
  {
    var rules := [a, b, c];
    assert rules[0] == a && rules[1] == b && rules[2] == c;
  }

  lemma ThreeGrants(
    m1: seq<string>, e1: seq<string>, m2: seq<string>, e2: seq<string>, m3: seq<string>, e3: string,
    verb: string, path: string)
    requires m1 != [] && m2 != [] && m3 != [] && e1 != [] && e2 != []
    ensures AnyMatches([NewRule(m1, e1), NewRule(m2, e2), NewRule(m3, [e3])], verb, path) <==>
            || (verb in m1 && MatchesSome(e1, path))
            || (verb in m2 && MatchesSome(e2, path))
            || (verb in m3 && Patterns.Matches(e3, path))
  {
    NewRuleMatches(m1, e1, verb, path);
    NewRuleMatches(m2, e2, verb, path);
    NewRuleMatches(m3, [e3], verb, path);
    AnyOfThree(NewRule(m1, e1), NewRule(m2, e2), NewRule(m3, [e3]), verb, path);
    assert [e3][0] in [e3];
  }

  lemma RuntimeAllows(verb: string, path: string)
    ensures AnyMatches(ProfileFilter(ContainerRuntime).allow, verb, path) <==> RuntimeGrants(verb, path)
  {
    ThreeGrants(
      READ_METHODS, READABLE_ENDPOINTS, WRITE_METHODS, RUNTIME_ENDPOINTS, ["GET"], "/exec/*/json", verb, path);
  }

  /** The deny list left by the withdrawals overlaps no grant, for any container or exec id. */
  lemma DenialsSpareGrants(path: string)
    requires Normalised(path)
    ensures !(MatchesSome(RUNTIME_DENIED, path) && MatchesSome(RUNTIME_ENDPOINTS, path))
  {
    RuntimeExactly(path);
    RuntimeDeniedExactly(path);
  }

  predicate Reads(verb: string) {
    verb == "GET" || verb == "HEAD"
  }

  predicate Writes(verb: string) {
    verb == "POST" || verb == "PUT" || verb == "DELETE"
  }

  /** What a profile refuses for good, written out. */
  predicate Refuses(profile: Profile, verb: string, path: seq<string>) {
    match profile
    case NoProfile => false
    case Default => Writes(verb) && MutatingPath(path)
    case ReadOnly => Writes(verb) || verb == "PATCH"
    case ContainerRuntime => Writes(verb) && RuntimeDeniedPath(path)
  }

  lemma PromisedExactly(profile: Profile, verb: string, path: string)
    requires Normalised(path)
    ensures Promised(profile, verb, path) <==> Refuses(profile, verb, Segments(path))
  {
    WritesExactly(verb);
    match profile
    case NoProfile =>
    case Default => MutatingExactly(path);
    case ReadOnly =>
    case ContainerRuntime => RuntimeDeniedExactly(path);
  }

  lemma WritesExactly(verb: string)
    ensures verb in WRITE_METHODS <==> Writes(verb)
    ensures verb in READ_METHODS <==> Reads(verb)
    ensures verb in ["POST", "PUT", "DELETE", "PATCH"] <==> Writes(verb) || verb == "PATCH"
  {
    var w, r := WRITE_METHODS, READ_METHODS;
    assert w[0] in w && w[1] in w && w[2] in w && r[0] in r && r[1] in r;
    var all := ["POST", "PUT", "DELETE", "PATCH"];
    assert all[0] in all && all[1] in all && all[2] in all && all[3] in all;
  }

  /** What a profile grants by itself, written out. */
  predicate Grants(profile: Profile, verb: string, path: seq<string>) {
    match profile
    case NoProfile => false
    case Default => Reads(verb) && ReadablePath(path)
    case ReadOnly => Reads(verb) && ReadablePath(path)
    case ContainerRuntime =>
      || (Reads(verb) && ReadablePath(path))
      || (Writes(verb) && RuntimePath(path))
      || (verb == "GET" && |path| == 3 && path[0] == "exec" && path[2] == "json")
  }

  lemma ExecJson(path: string)
    requires Normalised(path)
    ensures Patterns.Matches("/exec/*/json", path) <==>
            |Segments(path)| == 3 && Segments(path)[0] == "exec" && Segments(path)[2] == "json"
  {
    OperationSays("exec", "json", path);
    assert "/" + "exec" + "/*/" + "json" == "/exec/*/json";
  }

  lemma ReadsExactly(verb: string, path: string)
    requires Normalised(path)
    ensures verb in READ_METHODS && MatchesSome(READABLE_ENDPOINTS, path) <==>
            Reads(verb) && ReadablePath(Segments(path))
  {
    WritesExactly(verb);
    ReadableExactly(path);
  }

  lemma RuntimeWritesExactly(verb: string, path: string)
    requires Normalised(path)
    ensures verb in WRITE_METHODS && MatchesSome(RUNTIME_ENDPOINTS, path) <==>
            Writes(verb) && RuntimePath(Segments(path))
  {
    WritesExactly(verb);
    RuntimeExactly(path);
  }

  lemma RuntimeGrantsWritten(verb: string, path: string)
    requires Normalised(path)
    ensures RuntimeGrants(verb, path) <==> Grants(ContainerRuntime, verb, Segments(path))
  {
    ReadsExactly(verb, path);
    RuntimeWritesExactly(verb, path);
    ExecJson(path);
  }

  /** Every profile, on every path a normaliser can leave: it allows what it grants, and nothing else. */
  lemma ProfileExactly(profile: Profile, verb: string, path: string)
    requires Normalised(path)
    ensures Allows(ProfileFilter(profile), verb, path) <==> Grants(profile, verb, Segments(path))
  {
    match profile
    case NoProfile =>
    case Default =>
      ReadProfilesGrantExactly(profile, verb, path);
      ReadsExactly(verb, path);
    case ReadOnly =>
      ReadProfilesGrantExactly(profile, verb, path);
      ReadsExactly(verb, path);
    case ContainerRuntime =>
      RuntimeGrantsExactly(verb, path);
      RuntimeGrantsWritten(verb, path);
  }

  /** On every path a normaliser can leave, `ContainerRuntime` allows exactly what it lists. */
  lemma RuntimeGrantsExactly(verb: string, path: string)
    requires Normalised(path)
    ensures Allows(ProfileFilter(ContainerRuntime), verb, path) <==> RuntimeGrants(verb, path)
  {
    RuntimeAllows(verb, path);
    ProfileDenies(ContainerRuntime, verb, path);
    DenialsSpareGrants(path);
    assert verb in READ_METHODS ==> verb !in WRITE_METHODS;
  }

  /** Hence it lets a request head through exactly when its path decodes and its normal form is granted. */
  lemma RuntimeRequests(verb: string, path: string)
    ensures ProfileFilter(ContainerRuntime).CheckHead(verb, path).Ok? <==>
            Normal(path).Ok? && RuntimeGrants(verb, Normal(path).value)
  {
    if Normal(path).Ok? {
      NormalIsNormalised(path);
      HeadOfAllowed(ProfileFilter(ContainerRuntime), verb, path);
      RuntimeGrantsExactly(verb, Normal(path).value);
    }
  }

  lemma HeadOfAllowed(filter: Filter, verb: string, path: string)
    ensures filter.CheckHead(verb, path).Ok? <==> Normal(path).Ok? && Allows(filter, verb, Normal(path).value)
  {
  }

  /** `Default` and `ReadOnly` allow exactly the reads they list; their denials take none of them away. */
  lemma ReadProfilesGrantExactly(profile: Profile, verb: string, path: string)
    requires profile == Default || profile == ReadOnly
    ensures Allows(ProfileFilter(profile), verb, path) <==>
            verb in READ_METHODS && MatchesSome(READABLE_ENDPOINTS, path)
  {
    ProfileDenies(profile, verb, path);
    NewRuleMatches(READ_METHODS, READABLE_ENDPOINTS, verb, path);
    assert verb in READ_METHODS ==> verb !in WRITE_METHODS && verb !in ["POST", "PUT", "DELETE", "PATCH"];
  }
}
