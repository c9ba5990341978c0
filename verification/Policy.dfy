/**
 Policy construction: section variables, policy documents and `DOCKER_PROXY_*` modifiers
 compiled into filters (src/policy.rs).
 */
module Policy {
  import opened Results
  import opened Normalize
  import opened Paths
  import opened ProfileTables
  import opened Rules
  import opened Stripping
  import opened PatternTables
  import opened Text
  import opened Filters
  import opened Trimming
  import Patterns

  type Environment = map<string, string>

  // ── Section variables ──

  /** A section variable and the first path segment it grants; the source writes `"/name"`. */
  datatype Section = Section(variable: string, name: string) {
    function Exact(): string { "/" + name }
    function Prefix(): string { "/" + name + "/" }
    predicate Plain() { Clean(name) && name != "*" }
  }

  datatype Operation = Operation(variable: string, paths: seq<string>)

  datatype Tables = Tables(sections: seq<Section>, operations: seq<Operation>)

  const COMPAT_SECTIONS: seq<Section> := [
    Section("AUTH", "auth"),
    Section("BUILD", "build"),
    Section("COMMIT", "commit"),
    Section("CONFIGS", "configs"),
    Section("CONTAINERS", "containers"),
    Section("DISTRIBUTION", "distribution"),
    Section("EVENTS", "events"),
    Section("EXEC", "exec"),
    Section("GRPC", "grpc"),
    Section("IMAGES", "images"),
    Section("INFO", "info"),
    Section("NETWORKS", "networks"),
    Section("NODES", "nodes"),
    Section("PING", "_ping"),
    Section("PLUGINS", "plugins"),
    Section("SECRETS", "secrets"),
    Section("SERVICES", "services"),
    Section("SESSION", "session"),
    Section("SWARM", "swarm"),
    Section("SYSTEM", "system"),
    Section("TASKS", "tasks"),
    Section("VERSION", "version"),
    Section("VOLUMES", "volumes")
  ]

  const COMPAT_OPERATIONS: seq<Operation> := [
    Operation("ALLOW_RESTARTS", ["/containers/*/stop", "/containers/*/restart", "/containers/*/kill"]),
    Operation("ALLOW_START", ["/containers/*/start"]),
    Operation("ALLOW_STOP", ["/containers/*/stop"]),
    Operation("ALLOW_PAUSE", ["/containers/*/pause"]),
    Operation("ALLOW_UNPAUSE", ["/containers/*/unpause"])
  ]

  const COMPAT := Tables(COMPAT_SECTIONS, COMPAT_OPERATIONS)

  const COMPAT_DEFAULT_ON: seq<string> := ["EVENTS", "PING", "VERSION"]

  predicate IsEnabled(value: string) {
    Lower(Trim(value)) in ["1", "true", "yes", "on"]
  }

  predicate Granted(env: Environment, name: string) {
    if name in env then IsEnabled(env[name]) else name in COMPAT_DEFAULT_ON
  }

  /** Some section variable, operation variable or `POST` is set. */
  predicate VariablesSet(tables: Tables, env: Environment) {
    || (exists section <- tables.sections :: section.variable in env)
    || (exists operation <- tables.operations :: operation.variable in env)
    || "POST" in env
  }

  /** The endpoint patterns a set of variables grants. */
  predicate GrantedEndpoint(tables: Tables, env: Environment, endpoint: string) {
    || (exists section <- tables.sections ::
          Granted(env, section.variable) && (endpoint == section.Exact() || endpoint == section.Prefix()))
    || (exists operation <- tables.operations ::
          Granted(env, operation.variable) && endpoint in operation.paths)
  }

  function GateMethods(env: Environment): seq<string> {
    if Granted(env, "POST") then [] else ["GET", "HEAD"]
  }

  ghost predicate ExactlyGranted(tables: Tables, env: Environment, endpoints: seq<string>) {
    forall e :: e in endpoints <==> GrantedEndpoint(tables, env, e)
  }

  /** A filter holding one allow rule, made of the gate and the granted endpoints. */
  ghost predicate CompatFilter(tables: Tables, env: Environment, filter: Filter) {
    exists endpoints: seq<string> ::
      ExactlyGranted(tables, env, endpoints) && filter == Filter(Pushed([], GateMethods(env), endpoints), [], [])
  }

  method SectionEndpoints(env: Environment, sections: seq<Section>) returns (endpoints: seq<string>)
    ensures forall e :: e in endpoints <==>
              exists section <- sections ::
                Granted(env, section.variable) && (e == section.Exact() || e == section.Prefix())
  {
    endpoints := [];
    for i := 0 to |sections|
      invariant forall e :: e in endpoints <==>
                  exists section <- sections[..i] ::
                    Granted(env, section.variable) && (e == section.Exact() || e == section.Prefix())
    {
      assert sections[..i + 1] == sections[..i] + [sections[i]];
      if Granted(env, sections[i].variable) {
        endpoints := endpoints + [sections[i].Exact()];
        endpoints := endpoints + [sections[i].Prefix()];
      }
    }
    assert sections[..|sections|] == sections;
  }

  method OperationEndpoints(env: Environment, operations: seq<Operation>) returns (endpoints: seq<string>)
    ensures forall e :: e in endpoints <==>
              exists operation <- operations :: Granted(env, operation.variable) && e in operation.paths
  {
    endpoints := [];
    for i := 0 to |operations|
      invariant forall e :: e in endpoints <==>
                  exists operation <- operations[..i] :: Granted(env, operation.variable) && e in operation.paths
    {
      assert operations[..i + 1] == operations[..i] + [operations[i]];
      if Granted(env, operations[i].variable) {
        endpoints := endpoints + operations[i].paths;
      }
    }
    assert operations[..|operations|] == operations;
  }

  /** `compatibility_filter` is this method on the tables `COMPAT`. */
  method CompatibilityFilter(tables: Tables, env: Environment, profile: Profile)
    returns (result: Result<Option<SecurityFilter>>)
    ensures !VariablesSet(tables, env) ==> result == Ok(None)
    ensures VariablesSet(tables, env) && profile != Default ==> result == Err(Config)
    ensures VariablesSet(tables, env) && profile == Default ==>
              && result.Ok? && result.value.Some?
              && var filter := result.value.value;
                 filter.Valid() && fresh(filter.allow) && fresh(filter.deny) && fresh(filter.exclude)
                 && filter.profile == NoProfile && CompatFilter(tables, env, filter.Value())
  {
    if !VariablesSet(tables, env) {
      return Ok(None);
    }
    if profile != Default {
      return Err(Config);
    }
    var sections := SectionEndpoints(env, tables.sections);
    var operations := OperationEndpoints(env, tables.operations);
    var endpoints := sections + operations;
    assert ExactlyGranted(tables, env, endpoints);
    var methods := if Granted(env, "POST") then [] else ["GET", "HEAD"];
    var filter := new SecurityFilter.DenyAll();
    filter.allow.Push(Some(methods), Some(endpoints));
    return Ok(Some(filter));
  }

  // ── What values and variables say ──

  predicate AffirmativeWord(word: string) {
    SameLetters(word, "1") || SameLetters(word, "true") || SameLetters(word, "yes") || SameLetters(word, "on")
  }

  /** Without the spaces around it, one of the four spellings in any casing. */
  ghost predicate Affirmative(value: string) {
    exists word :: IsTrimmed(value, word) && AffirmativeWord(word)
  }

  lemma FourWords(word: string)
    ensures Lower(word) in ["1", "true", "yes", "on"] <==> AffirmativeWord(word)
  {
    LowerExactly(word, "1");
    LowerExactly(word, "true");
    LowerExactly(word, "yes");
    LowerExactly(word, "on");
  }

  lemma IsEnabledExactly(value: string)
    ensures IsEnabled(value) <==> Affirmative(value)
  {
    FourWords(Trim(value));
    TrimExactly(value, Trim(value));
    if word :| IsTrimmed(value, word) && AffirmativeWord(word) {
      TrimExactly(value, word);
    }
  }

  /** A variable that is not set grants only the three sections that are on by default. */
  lemma GrantedExactly(env: Environment, name: string)
    ensures Granted(env, name) <==>
            if name in env then Affirmative(env[name]) else name == "EVENTS" || name == "PING" || name == "VERSION"
  {
    if name in env {
      IsEnabledExactly(env[name]);
    }
  }

  // ── What section variables mean ──

  /** Sections are plain first segments, and every operation has a path. */
  predicate WellFormed(tables: Tables) {
    && (forall section <- tables.sections :: section.Plain())
    && (forall operation <- tables.operations :: operation.paths != [])
  }

  const FIRST_NAMES: seq<string> := [
    "auth", "build", "commit", "configs", "containers", "distribution",
    "events", "exec", "grpc", "images", "info", "networks"
  ]

  const LAST_NAMES: seq<string> := [
    "nodes", "_ping", "plugins", "secrets", "services", "session",
    "swarm", "system", "tasks", "version", "volumes"
  ]

  lemma NamesAreClean(name: string)
    requires name in FIRST_NAMES || name in LAST_NAMES
    ensures Clean(name) && name != "*"
  {
    assert |name| > 2 && '/' !in name;
  }

  lemma SectionNames(section: Section)
    requires section in COMPAT.sections
    ensures section.name in FIRST_NAMES || section.name in LAST_NAMES
  {
  }

  lemma SectionIsPlain(section: Section)
    requires section in COMPAT.sections
    ensures section.Plain()
  {
    SectionNames(section);
    NamesAreClean(section.name);
  }

  lemma OperationsHavePaths(operation: Operation)
    requires operation in COMPAT.operations
    ensures operation.paths != []
  {
  }

  lemma CompatIsWellFormed()
    ensures WellFormed(COMPAT)
  {
    forall section | section in COMPAT.sections ensures section.Plain() {
      SectionIsPlain(section);
    }
    forall operation | operation in COMPAT.operations ensures operation.paths != [] {
      OperationsHavePaths(operation);
    }
  }

  predicate Gate(env: Environment, verb: string) {
    Granted(env, "POST") || verb == "GET" || verb == "HEAD"
  }

  predicate GrantsAnything(tables: Tables, env: Environment) {
    || (exists section <- tables.sections :: Granted(env, section.variable))
    || (exists operation <- tables.operations :: Granted(env, operation.variable))
  }

  predicate GrantsSection(tables: Tables, env: Environment, name: string) {
    exists section <- tables.sections :: Granted(env, section.variable) && section.name == name
  }

  predicate GrantsOperation(tables: Tables, env: Environment, path: string) {
    exists operation <- tables.operations :: Granted(env, operation.variable) && MatchesSome(operation.paths, path)
  }

  /** The first segment is a granted section, or the path is a granted operation. */
  predicate GrantsPath(tables: Tables, env: Environment, path: string) {
    (Segments(path) != [] && GrantsSection(tables, env, Segments(path)[0])) || GrantsOperation(tables, env, path)
  }

  /** An exact pattern and its prefix form together ask for the first segment. */
  lemma CleanSectionPair(section: Section, path: seq<string>)
    requires section.Plain() && AllClean(path)
    ensures Patterns.Matches(section.Exact(), Render(path)) || Patterns.Matches(section.Prefix(), Render(path)) <==>
            path != [] && path[0] == section.name
  {
    var name := section.name;
    assert Flat([name]) == "/" + name + "";
    assert Flat([name]) == "/" + name;
    Patterns.CleanMatchesFits([name], path);
    Patterns.CleanMatchesBelow([name], path);
    if |path| > 1 && path[0] == name {
      assert path[..1] == [name];
    }
    if Patterns.Below([name], path) {
      assert path[..1][0] == path[0];
    }
  }

  lemma SectionPair(section: Section, path: string)
    requires section.Plain() && Normalised(path)
    ensures Patterns.Matches(section.Exact(), path) || Patterns.Matches(section.Prefix(), path) <==>
            Segments(path) != [] && Segments(path)[0] == section.name
  {
    if path == "" {
      NoSegmentsInNothing();
      Patterns.NothingMatchesEmpty(section.Exact());
      Patterns.NothingMatchesEmpty(section.Prefix());
    } else {
      var segments :| AllClean(segments) && path == Render(segments);
      SegmentsOfRender(segments);
      CleanSectionPair(section, segments);
    }
  }

  lemma MatchedEndpointIsGranted(tables: Tables, env: Environment, endpoint: string, path: string)
    requires WellFormed(tables) && Normalised(path)
    requires GrantedEndpoint(tables, env, endpoint) && Patterns.Matches(endpoint, path)
    ensures GrantsPath(tables, env, path)
  {
    if section :| section in tables.sections && Granted(env, section.variable)
                  && (endpoint == section.Exact() || endpoint == section.Prefix()) {
      SectionPair(section, path);
      assert GrantsSection(tables, env, Segments(path)[0]);
    } else {
      var operation :| operation in tables.operations && Granted(env, operation.variable)
                       && endpoint in operation.paths;
      assert MatchesSome(operation.paths, path);
    }
  }

  lemma GrantedPathHasEndpoint(tables: Tables, env: Environment, path: string) returns (endpoint: string)
    requires WellFormed(tables) && Normalised(path) && GrantsPath(tables, env, path)
    ensures GrantedEndpoint(tables, env, endpoint) && Patterns.Matches(endpoint, path)
  {
    if GrantsOperation(tables, env, path) {
      var operation :| operation in tables.operations && Granted(env, operation.variable)
                       && MatchesSome(operation.paths, path);
      endpoint :| endpoint in operation.paths && Patterns.Matches(endpoint, path);
    } else {
      var section :| section in tables.sections && Granted(env, section.variable) && section.name == Segments(path)[0];
      SectionPair(section, path);
      endpoint := if Patterns.Matches(section.Exact(), path) then section.Exact() else section.Prefix();
    }
  }

  lemma GrantedEndpointsMatch(tables: Tables, env: Environment, endpoints: seq<string>, path: string)
    requires WellFormed(tables) && Normalised(path) && ExactlyGranted(tables, env, endpoints)
    ensures MatchesSome(endpoints, path) <==> GrantsPath(tables, env, path)
  {
    if MatchesSome(endpoints, path) {
      var e :| e in endpoints && Patterns.Matches(e, path);
      MatchedEndpointIsGranted(tables, env, e, path);
    }
    if GrantsPath(tables, env, path) {
      var e := GrantedPathHasEndpoint(tables, env, path);
      assert e in endpoints;
    }
  }

  /** Something is granted exactly when the compiled rule has an endpoint. */
  lemma GrantsHaveEndpoints(tables: Tables, env: Environment, endpoints: seq<string>)
    requires WellFormed(tables) && ExactlyGranted(tables, env, endpoints)
    ensures endpoints != [] <==> GrantsAnything(tables, env)
  {
    if endpoints != [] {
      assert GrantedEndpoint(tables, env, endpoints[0]);
    }
    if section :| section in tables.sections && Granted(env, section.variable) {
      assert GrantedEndpoint(tables, env, section.Exact());
      assert section.Exact() in endpoints;
    } else if operation :| operation in tables.operations && Granted(env, operation.variable) {
      assert GrantedEndpoint(tables, env, operation.paths[0]);
      assert operation.paths[0] in endpoints;
    }
  }

  /** What a compiled rule allows, by what its two sides hold. */
  lemma GatedRule(methods: seq<string>, endpoints: seq<string>, verb: string, path: string)
    ensures Allows(Filter(Pushed([], methods, endpoints), [], []), verb, path) <==>
            && (methods != [] || endpoints != [])
            && (methods != [] ==> verb in methods)
            && (endpoints != [] ==> MatchesSome(endpoints, path))
  {
    PushedMatches([], Push(Allow, Some(methods), Some(endpoints)), verb, path);
  }

  /**
   What the compiled filter allows on the paths a normaliser can leave. With nothing granted and
   `POST` off the rule's endpoint side is empty, and an empty side is a wildcard: every read is
   allowed.
   */
  lemma CompatAllows(tables: Tables, env: Environment, filter: Filter, verb: string, path: string)
    requires WellFormed(tables) && CompatFilter(tables, env, filter) && Normalised(path)
    ensures Allows(filter, verb, path) <==>
            && Gate(env, verb)
            && if GrantsAnything(tables, env) then GrantsPath(tables, env, path) else !Granted(env, "POST")
  {
    var endpoints :| ExactlyGranted(tables, env, endpoints)
                     && filter == Filter(Pushed([], GateMethods(env), endpoints), [], []);
    GrantsHaveEndpoints(tables, env, endpoints);
    GrantedEndpointsMatch(tables, env, endpoints, path);
    GatedRule(GateMethods(env), endpoints, verb, path);
  }

  /** The same for request heads as they arrive. */
  lemma CompatRequests(tables: Tables, env: Environment, filter: Filter, verb: string, path: string)
    requires WellFormed(tables) && CompatFilter(tables, env, filter)
    ensures filter.CheckHead(verb, path).Ok? <==>
            && Normal(path).Ok?
            && Gate(env, verb)
            && if GrantsAnything(tables, env) then GrantsPath(tables, env, Normal(path).value)
               else !Granted(env, "POST")
  {
    HeadOfAllowed(filter, verb, path);
    if Normal(path).Ok? {
      NormalIsNormalised(path);
      CompatAllows(tables, env, filter, verb, Normal(path).value);
    }
  }

  /** A filter decides a request as its variables mean it: by the method gate and the granted paths. */
  predicate AsMeant(tables: Tables, env: Environment, filter: Filter, verb: string, path: string) {
    Allows(filter, verb, path) <==> Gate(env, verb) && GrantsPath(tables, env, path)
  }

  lemma NothingIsMeant(tables: Tables, env: Environment, path: string)
    requires !GrantsAnything(tables, env)
    ensures !GrantsPath(tables, env, path)
  {
  }

  /**
   The variables mean their sections, behind the method gate, exactly when something is granted
   or `POST` is on.
   */
  lemma CompatMeansSections(tables: Tables, env: Environment, filter: Filter)
    requires WellFormed(tables) && CompatFilter(tables, env, filter)
    ensures (forall verb, path :: Normalised(path) ==> AsMeant(tables, env, filter, verb, path))
            <==> GrantsAnything(tables, env) || Granted(env, "POST")
  {
    if GrantsAnything(tables, env) || Granted(env, "POST") {
      forall verb, path | Normalised(path) ensures AsMeant(tables, env, filter, verb, path) {
        CompatAllows(tables, env, filter, verb, path);
        if !GrantsAnything(tables, env) {
          NothingIsMeant(tables, env, path);
        }
      }
    } else {
      var root := Render([]);
      assert Normalised(root);
      CompatAllows(tables, env, filter, "GET", root);
      NothingIsMeant(tables, env, root);
      assert !AsMeant(tables, env, filter, "GET", root);
    }
  }

  lemma NothingGranted(tables: Tables, env: Environment, filter: Filter, path: string)
    requires WellFormed(tables) && CompatFilter(tables, env, filter) && Normalised(path)
    requires forall name: string :: !Granted(env, name)
    ensures Allows(filter, "GET", path)
  {
    CompatAllows(tables, env, filter, "GET", path);
  }

  // ── The tables of the source ──

  /** Which variable grants the paths below `/name`, section by section. */
  predicate SectionVariable(variable: string, name: string) {
    FirstSections(variable, name) || LastSections(variable, name)
  }

  predicate FirstSections(variable: string, name: string) {
    || (variable == "AUTH" && name == "auth")
    || (variable == "BUILD" && name == "build")
    || (variable == "COMMIT" && name == "commit")
    || (variable == "CONFIGS" && name == "configs")
    || (variable == "CONTAINERS" && name == "containers")
    || (variable == "DISTRIBUTION" && name == "distribution")
    || (variable == "EVENTS" && name == "events")
    || (variable == "EXEC" && name == "exec")
    || (variable == "GRPC" && name == "grpc")
    || (variable == "IMAGES" && name == "images")
    || (variable == "INFO" && name == "info")
    || (variable == "NETWORKS" && name == "networks")
  }

  predicate LastSections(variable: string, name: string) {
    || (variable == "NODES" && name == "nodes")
    || (variable == "PING" && name == "_ping")
    || (variable == "PLUGINS" && name == "plugins")
    || (variable == "SECRETS" && name == "secrets")
    || (variable == "SERVICES" && name == "services")
    || (variable == "SESSION" && name == "session")
    || (variable == "SWARM" && name == "swarm")
    || (variable == "SYSTEM" && name == "system")
    || (variable == "TASKS" && name == "tasks")
    || (variable == "VERSION" && name == "version")
    || (variable == "VOLUMES" && name == "volumes")
  }

  ghost predicate SectionGranted(env: Environment, name: string) {
    exists variable :: SectionVariable(variable, name) && Granted(env, variable)
  }

  lemma SectionsAreListed(k: nat)
    requires k < |COMPAT_SECTIONS|
    ensures SectionVariable(COMPAT_SECTIONS[k].variable, COMPAT_SECTIONS[k].name)
  {
    if k < 12 {
      FirstSectionsAreListed(k);
    } else {
      LastSectionsAreListed(k);
    }
  }

  lemma FirstSectionsAreListed(k: nat)
    requires k < 12
    ensures FirstSections(COMPAT_SECTIONS[k].variable, COMPAT_SECTIONS[k].name)
  {
  }

  lemma LastSectionsAreListed(k: nat)
    requires 12 <= k < |COMPAT_SECTIONS|
    ensures LastSections(COMPAT_SECTIONS[k].variable, COMPAT_SECTIONS[k].name)
  {
  }

  lemma FirstListed(variable: string, name: string)
    requires FirstSections(variable, name)
    ensures Section(variable, name) in COMPAT_SECTIONS
  {
    var t := COMPAT_SECTIONS;
    assert t[0] in t && t[1] in t && t[2] in t && t[3] in t && t[4] in t && t[5] in t;
    assert t[6] in t && t[7] in t && t[8] in t && t[9] in t && t[10] in t && t[11] in t;
  }

  lemma LastListed(variable: string, name: string)
    requires LastSections(variable, name)
    ensures Section(variable, name) in COMPAT_SECTIONS
  {
    var t := COMPAT_SECTIONS;
    assert t[12] in t && t[13] in t && t[14] in t && t[15] in t && t[16] in t && t[17] in t;
    assert t[18] in t && t[19] in t && t[20] in t && t[21] in t && t[22] in t;
  }

  lemma ListedAreSections(variable: string, name: string)
    requires SectionVariable(variable, name)
    ensures Section(variable, name) in COMPAT_SECTIONS
  {
    if FirstSections(variable, name) {
      FirstListed(variable, name);
    } else {
      LastListed(variable, name);
    }
  }

  lemma SectionsExactly(env: Environment, name: string)
    ensures GrantsSection(COMPAT, env, name) <==> SectionGranted(env, name)
  {
    forall section | section in COMPAT_SECTIONS ensures SectionVariable(section.variable, section.name) {
      var k :| 0 <= k < |COMPAT_SECTIONS| && COMPAT_SECTIONS[k] == section;
      SectionsAreListed(k);
    }
    forall variable | SectionVariable(variable, name) ensures Section(variable, name) in COMPAT_SECTIONS {
      ListedAreSections(variable, name);
    }
    GrantsBySection(COMPAT_SECTIONS, env, name);
  }

  lemma GrantsBySection(sections: seq<Section>, env: Environment, name: string)
    requires forall section <- sections :: SectionVariable(section.variable, section.name)
    requires forall variable :: SectionVariable(variable, name) ==> Section(variable, name) in sections
    ensures (exists section <- sections :: Granted(env, section.variable) && section.name == name) <==>
            SectionGranted(env, name)
  {
    if variable :| SectionVariable(variable, name) && Granted(env, variable) {
      assert Section(variable, name) in sections;
    }
  }

  /** Which variable grants which operation on a container. */
  predicate OperationVariable(variable: string, operation: string) {
    || (variable == "ALLOW_RESTARTS" && (operation == "stop" || operation == "restart" || operation == "kill"))
    || (variable == "ALLOW_START" && operation == "start")
    || (variable == "ALLOW_STOP" && operation == "stop")
    || (variable == "ALLOW_PAUSE" && operation == "pause")
    || (variable == "ALLOW_UNPAUSE" && operation == "unpause")
  }

  ghost predicate OperationGranted(env: Environment, path: seq<string>) {
    && |path| == 3 && path[0] == "containers"
    && exists variable :: OperationVariable(variable, path[2]) && Granted(env, variable)
  }

  lemma SectionVariablesExactly(env: Environment)
    ensures (exists section <- COMPAT_SECTIONS :: section.variable in env) <==>
            exists variable, name :: SectionVariable(variable, name) && variable in env
  {
    if section :| section in COMPAT_SECTIONS && section.variable in env {
      var k :| 0 <= k < |COMPAT_SECTIONS| && COMPAT_SECTIONS[k] == section;
      SectionsAreListed(k);
    }
    if variable, name :| SectionVariable(variable, name) && variable in env {
      ListedAreSections(variable, name);
      assert Section(variable, name).variable in env;
    }
  }

  lemma OperationVariablesExactly(env: Environment)
    ensures (exists operation <- COMPAT_OPERATIONS :: operation.variable in env) <==>
            exists variable, operation :: OperationVariable(variable, operation) && variable in env
  {
    if operation :| operation in COMPAT_OPERATIONS && operation.variable in env {
      var k :| 0 <= k < |COMPAT_OPERATIONS| && COMPAT_OPERATIONS[k] == operation;
      var granted := OperationOf(k);
    }
    if variable, operation :| OperationVariable(variable, operation) && variable in env {
      var k := VariableHasOperation(variable, operation);
      assert COMPAT_OPERATIONS[k] in COMPAT_OPERATIONS;
    }
  }

  /** The variables that make a policy of their own: those of sections and operations, and `POST`. */
  lemma VariablesExactly(env: Environment)
    ensures VariablesSet(COMPAT, env) <==>
            || "POST" in env
            || (exists variable, name :: SectionVariable(variable, name) && variable in env)
            || (exists variable, operation :: OperationVariable(variable, operation) && variable in env)
  {
    SectionVariablesExactly(env);
    OperationVariablesExactly(env);
  }

  lemma OperationOf(k: nat) returns (operation: string)
    requires k < |COMPAT_OPERATIONS|
    ensures OperationVariable(COMPAT_OPERATIONS[k].variable, operation)
  {
    operation := if k == 0 then "kill" else if k == 1 then "start" else if k == 2 then "stop"
                 else if k == 3 then "pause" else "unpause";
  }

  lemma OnePath(name: string, paths: seq<string>, path: string)
    requires Plain(name) && |paths| == 1 && paths[0] == "/containers/*/" + name && Normalised(path)
    ensures MatchesSome(paths, path) <==>
            |Segments(path)| == 3 && Segments(path)[0] == "containers" && Segments(path)[2] == name
  {
    Fronts();
    OperationSays("containers", name, path);
    assert paths[0] in paths;
  }

  /** The paths of an operation ask for what its variable grants. */
  ghost predicate Means(operation: Operation, path: string) {
    var s := Segments(path);
    MatchesSome(operation.paths, path) <==>
    |s| == 3 && s[0] == "containers" && OperationVariable(operation.variable, s[2])
  }

  lemma OperationMeans(k: nat, path: string)
    requires k < |COMPAT_OPERATIONS| && Normalised(path)
    ensures Means(COMPAT_OPERATIONS[k], path)
  {
    if k == 0 {
      RestartsMean(path);
    } else if k == 1 {
      StartMeans(path);
    } else if k == 2 {
      StopMeans(path);
    } else if k == 3 {
      PauseMeans(path);
    } else {
      UnpauseMeans(path);
    }
  }

  lemma RestartsMean(path: string)
    requires Normalised(path)
    ensures Means(COMPAT_OPERATIONS[0], path)
  {
    var paths := COMPAT_OPERATIONS[0].paths;
    Fronts();
    ThreeOperationsSay("/containers/*/", "containers", "stop", "restart", "kill", paths, 0, path);
    MatchesInWhole(paths, path);
  }

  lemma StartMeans(path: string)
    requires Normalised(path)
    ensures Means(COMPAT_OPERATIONS[1], path)
  {
    OnePath("start", COMPAT_OPERATIONS[1].paths, path);
  }

  lemma StopMeans(path: string)
    requires Normalised(path)
    ensures Means(COMPAT_OPERATIONS[2], path)
  {
    OnePath("stop", COMPAT_OPERATIONS[2].paths, path);
  }

  lemma PauseMeans(path: string)
    requires Normalised(path)
    ensures Means(COMPAT_OPERATIONS[3], path)
  {
    OnePath("pause", COMPAT_OPERATIONS[3].paths, path);
  }

  lemma UnpauseMeans(path: string)
    requires Normalised(path)
    ensures Means(COMPAT_OPERATIONS[4], path)
  {
    OnePath("unpause", COMPAT_OPERATIONS[4].paths, path);
  }

  lemma VariableHasOperation(variable: string, operation: string) returns (k: nat)
    requires OperationVariable(variable, operation)
    ensures k < |COMPAT_OPERATIONS| && COMPAT_OPERATIONS[k].variable == variable
  {
    k := if variable == "ALLOW_RESTARTS" then 0 else if variable == "ALLOW_START" then 1
         else if variable == "ALLOW_STOP" then 2 else if variable == "ALLOW_PAUSE" then 3 else 4;
  }

  lemma OperationsExactly(env: Environment, path: string)
    requires Normalised(path)
    ensures GrantsOperation(COMPAT, env, path) <==> OperationGranted(env, Segments(path))
  {
    if GrantsOperation(COMPAT, env, path) {
      var operation :| operation in COMPAT_OPERATIONS && Granted(env, operation.variable)
                       && MatchesSome(operation.paths, path);
      var k :| 0 <= k < |COMPAT_OPERATIONS| && COMPAT_OPERATIONS[k] == operation;
      OperationMeans(k, path);
    }
    if OperationGranted(env, Segments(path)) {
      var variable :| OperationVariable(variable, Segments(path)[2]) && Granted(env, variable);
      var k := VariableHasOperation(variable, Segments(path)[2]);
      OperationMeans(k, path);
      assert COMPAT_OPERATIONS[k] in COMPAT_OPERATIONS;
    }
  }

  /**
   What the source's own variables mean, written out: with something granted, a path that a
   normaliser can leave is allowed when the gate lets the method through and its first segment or
   its operation is granted.
   */
  lemma CompatExactly(env: Environment, filter: Filter, verb: string, path: string)
    requires CompatFilter(COMPAT, env, filter) && GrantsAnything(COMPAT, env) && Normalised(path)
    ensures var s := Segments(path);
            Allows(filter, verb, path) <==>
            && (Granted(env, "POST") || verb == "GET" || verb == "HEAD")
            && ((s != [] && SectionGranted(env, s[0])) || OperationGranted(env, s))
  {
    CompatIsWellFormed();
    CompatAllows(COMPAT, env, filter, verb, path);
    OperationsExactly(env, path);
    if Segments(path) != [] {
      SectionsExactly(env, Segments(path)[0]);
    }
  }

  lemma ZeroIsOff()
    ensures !IsEnabled("0")
  {
    var zero := "0";
    BareIsTrimmed(zero);
    LowerExactly(zero, zero);
  }

  lemma BareIsTrimmed(s: string)
    requires Bare(Space, s)
    ensures Trim(s) == s
  {
    assert s == Concat([]) + s + Concat([]);
    TrimExactly(s, s);
  }

  lemma AllOff(env: Environment)
    requires forall name <- env.Keys :: !IsEnabled(env[name])
    requires "EVENTS" in env && "PING" in env && "VERSION" in env
    ensures forall name: string :: !Granted(env, name)
  {
  }

  /** The case that fails: with the three default sections off and nothing else set, any read passes. */
  lemma NothingGrantedReadsEverything(tables: Tables, filter: Filter, path: string)
    requires WellFormed(tables) && Normalised(path)
    requires CompatFilter(tables, map["EVENTS" := "0", "PING" := "0", "VERSION" := "0"], filter)
    ensures Allows(filter, "GET", path)
  {
    var env: Environment := map["EVENTS" := "0", "PING" := "0", "VERSION" := "0"];
    ZeroIsOff();
    AllOff(env);
    NothingGranted(tables, env, filter, path);
  }

  // ── Documents and modifiers ──

  datatype EndpointSet = EndpointSet(endpoints: Option<seq<string>>, methods: Option<seq<string>>)

  /** A parsed policy document; `included` is its `include` table. */
  datatype PolicyDocument = PolicyDocument(
    allow: Option<EndpointSet>, deny: Option<EndpointSet>, included: Option<EndpointSet>, exclude: Option<EndpointSet>)

  function SetPushes(slot: Slot, set_: Option<EndpointSet>): seq<Push> {
    match set_
    case None => []
    case Some(s) => [Push(slot, s.methods, s.endpoints)]
  }

  function DocumentPushes(document: PolicyDocument): seq<Push> {
    SetPushes(Allow, document.allow) + SetPushes(Allow, document.included)
    + SetPushes(Deny, document.deny) + SetPushes(Exclude, document.exclude)
  }

  function Listed(env: Environment, name: string): Option<seq<string>> {
    if name in env then Some(SplitList(env[name])) else None
  }

  function EnvironmentPush(env: Environment, slot: Slot, prefix: string): Push {
    Push(slot, Listed(env, "DOCKER_PROXY_" + prefix + "_METHODS"), Listed(env, "DOCKER_PROXY_" + prefix + "_ENDPOINTS"))
  }

  function EnvironmentPushes(env: Environment): seq<Push> {
    [EnvironmentPush(env, Allow, "ALLOW"), EnvironmentPush(env, Allow, "INCLUDE"),
     EnvironmentPush(env, Deny, "DENY"), EnvironmentPush(env, Exclude, "EXCLUDE")]
  }

  /** One push on the list it names. */
  method Apply(filter: SecurityFilter, push: Push)
    requires filter.Valid()
    modifies filter.allow, filter.deny, filter.exclude
    ensures filter.Value() == After(old(filter.Value()), push)
  {
    match push.slot {
      case Allow => filter.allow.Push(push.methods, push.endpoints);
      case Deny => filter.deny.Push(push.methods, push.endpoints);
      case Exclude => filter.exclude.Push(push.methods, push.endpoints);
    }
  }

  method ApplySet(filter: SecurityFilter, slot: Slot, set_: Option<EndpointSet>)
    requires filter.Valid()
    modifies filter.allow, filter.deny, filter.exclude
    ensures filter.Value() == AfterAll(old(filter.Value()), SetPushes(slot, set_))
  {
    if set_.Some? {
      Apply(filter, Push(slot, set_.value.methods, set_.value.endpoints));
    }
  }

  method ApplyDocument(filter: SecurityFilter, document: PolicyDocument)
    requires filter.Valid()
    modifies filter.allow, filter.deny, filter.exclude
    ensures filter.Value() == AfterAll(old(filter.Value()), DocumentPushes(document))
  {
    ghost var base := filter.Value();
    ApplySet(filter, Allow, document.allow);
    ApplySet(filter, Allow, document.included);
    AfterAllConcat(base, SetPushes(Allow, document.allow), SetPushes(Allow, document.included));
    ghost var allows := SetPushes(Allow, document.allow) + SetPushes(Allow, document.included);
    ApplySet(filter, Deny, document.deny);
    AfterAllConcat(base, allows, SetPushes(Deny, document.deny));
    ApplySet(filter, Exclude, document.exclude);
    AfterAllConcat(base, allows + SetPushes(Deny, document.deny), SetPushes(Exclude, document.exclude));
  }

  lemma AfterFour(filter: Filter, a: Push, b: Push, c: Push, d: Push)
    ensures AfterAll(filter, [a, b, c, d]) == After(After(After(After(filter, a), b), c), d)
  {
    assert [a, b, c, d][1..] == [b, c, d] && [b, c, d][1..] == [c, d] && [c, d][1..] == [d];
    assert AfterAll(After(filter, a), [b, c, d]) == AfterAll(After(After(filter, a), b), [c, d]);
    assert AfterAll(After(After(After(filter, a), b), c), [d]) == After(After(After(After(filter, a), b), c), d);
  }

  method ApplyEnvironment(filter: SecurityFilter, env: Environment)
    requires filter.Valid()
    modifies filter.allow, filter.deny, filter.exclude
    ensures filter.Value() == AfterAll(old(filter.Value()), EnvironmentPushes(env))
  {
    var a, b := EnvironmentPush(env, Allow, "ALLOW"), EnvironmentPush(env, Allow, "INCLUDE");
    var c, d := EnvironmentPush(env, Deny, "DENY"), EnvironmentPush(env, Exclude, "EXCLUDE");
    AfterFour(filter.Value(), a, b, c, d);
    Apply(filter, a);
    Apply(filter, b);
    Apply(filter, c);
    Apply(filter, d);
  }

  /** The loader, given the document its file was parsed into. */
  method Load(document: PolicyDocument, env: Environment, profile: Profile) returns (result: Result<SecurityFilter>)
    ensures result.Err? <==> VariablesSet(COMPAT, env) && profile != Default
    ensures result.Err? ==> result.error == Config
    ensures result.Ok? ==>
              exists base ::
                && (if VariablesSet(COMPAT, env) then CompatFilter(COMPAT, env, base)
                    else base == ProfileFilter(profile))
                && result.value.Value() == AfterAll(base, DocumentPushes(document) + EnvironmentPushes(env))
  {
    var compat := CompatibilityFilter(COMPAT, env, profile);
    if compat.Err? {
      return Err(compat.error);
    }
    var filter;
    if compat.value.Some? {
      filter := compat.value.value;
    } else {
      filter := new SecurityFilter.ForProfile(profile);
    }
    ghost var base := filter.Value();
    ApplyDocument(filter, document);
    ApplyEnvironment(filter, env);
    AfterAllConcat(base, DocumentPushes(document), EnvironmentPushes(env));
    return Ok(filter);
  }

  /** A table of a document: if it lists methods the verb is one of them, if it lists endpoints one matches. */
  predicate SetCovers(set_: Option<EndpointSet>, verb: string, path: string) {
    && set_.Some?
    && var byMethod := set_.value.methods.Some? && set_.value.methods.value != [];
       var byEndpoint := set_.value.endpoints.Some? && set_.value.endpoints.value != [];
       && (byMethod || byEndpoint)
       && (byMethod ==> verb in set_.value.methods.value)
       && (byEndpoint ==> exists pattern <- set_.value.endpoints.value :: Patterns.Matches(pattern, path))
  }

  /** The variable is set and lists the value. */
  ghost predicate VariableLists(env: Environment, name: string, value: string) {
    name in env && Lists(env[name], value)
  }

  /** A pair of modifiers, read from the two variables: what they list limits the verb and the path. */
  ghost predicate ModifierCovers(env: Environment, methods: string, endpoints: string, verb: string, path: string) {
    var byMethod := exists value :: VariableLists(env, methods, value);
    var byEndpoint := exists value :: VariableLists(env, endpoints, value);
    && (byMethod || byEndpoint)
    && (byMethod ==> VariableLists(env, methods, verb))
    && (byEndpoint ==> exists pattern :: VariableLists(env, endpoints, pattern) && Patterns.Matches(pattern, path))
  }

  lemma ListedExactly(env: Environment, name: string)
    ensures forall value :: value in Given(Listed(env, name)) <==> VariableLists(env, name, value)
    ensures Given(Listed(env, name)) != [] <==> exists value :: VariableLists(env, name, value)
  {
    var list := Given(Listed(env, name));
    forall value ensures value in list <==> VariableLists(env, name, value) {
      if name in env {
        SplitListExactly(env[name], value);
      }
    }
    if list != [] {
      assert list[0] in list;
    }
  }

  lemma PairCovers(env: Environment, slot: Slot, methods: string, endpoints: string, verb: string, path: string)
    ensures Covers(Push(slot, Listed(env, methods), Listed(env, endpoints)), verb, path) <==>
            ModifierCovers(env, methods, endpoints, verb, path)
  {
    ListedExactly(env, methods);
    ListedExactly(env, endpoints);
  }

  /** A loaded policy keeps the meaning of everything it was loaded from; exclusions and denials win. */
  lemma LoadedMeaning(base: Filter, document: PolicyDocument, env: Environment, verb: string, path: string)
    ensures Allows(AfterAll(base, DocumentPushes(document) + EnvironmentPushes(env)), verb, path) <==>
            && (|| AnyMatches(base.allow, verb, path)
                || SetCovers(document.allow, verb, path) || SetCovers(document.included, verb, path)
                || ModifierCovers(env, "DOCKER_PROXY_ALLOW_METHODS", "DOCKER_PROXY_ALLOW_ENDPOINTS", verb, path)
                || ModifierCovers(env, "DOCKER_PROXY_INCLUDE_METHODS", "DOCKER_PROXY_INCLUDE_ENDPOINTS", verb, path))
            && !(|| AnyMatches(base.deny, verb, path)
                 || SetCovers(document.deny, verb, path)
                 || ModifierCovers(env, "DOCKER_PROXY_DENY_METHODS", "DOCKER_PROXY_DENY_ENDPOINTS", verb, path))
            && !(|| AnyMatches(base.exclude, verb, path)
                 || SetCovers(document.exclude, verb, path)
                 || ModifierCovers(env, "DOCKER_PROXY_EXCLUDE_METHODS", "DOCKER_PROXY_EXCLUDE_ENDPOINTS", verb, path))
  {
    var pushes := DocumentPushes(document) + EnvironmentPushes(env);
    DecisionAlgebra(base, pushes, verb, path);
    EnvironmentPushesCover(env, verb, path);
    forall slot: Slot
      ensures Covered(pushes, slot, verb, path) <==>
              Covered(DocumentPushes(document), slot, verb, path) || Covered(EnvironmentPushes(env), slot, verb, path)
    {
      CoveredConcat(DocumentPushes(document), EnvironmentPushes(env), slot, verb, path);
    }
    DocumentCovers(document, Allow, verb, path);
    DocumentCovers(document, Deny, verb, path);
    DocumentCovers(document, Exclude, verb, path);
  }

  lemma CoveredConcat(a: seq<Push>, b: seq<Push>, slot: Slot, verb: string, path: string)
    ensures Covered(a + b, slot, verb, path) <==> Covered(a, slot, verb, path) || Covered(b, slot, verb, path)
  {
  }

  lemma FourLists(a: seq<Push>, b: seq<Push>, c: seq<Push>, d: seq<Push>, slot: Slot, verb: string, path: string)
    ensures Covered(a + b + c + d, slot, verb, path) <==>
            || Covered(a, slot, verb, path) || Covered(b, slot, verb, path)
            || Covered(c, slot, verb, path) || Covered(d, slot, verb, path)
  {
    CoveredConcat(a + b + c, d, slot, verb, path);
    CoveredConcat(a + b, c, slot, verb, path);
    CoveredConcat(a, b, slot, verb, path);
  }

  lemma DocumentCovers(document: PolicyDocument, slot: Slot, verb: string, path: string)
    ensures Covered(DocumentPushes(document), slot, verb, path) <==>
            match slot
            case Allow => SetCovers(document.allow, verb, path) || SetCovers(document.included, verb, path)
            case Deny => SetCovers(document.deny, verb, path)
            case Exclude => SetCovers(document.exclude, verb, path)
  {
    FourLists(SetPushes(Allow, document.allow), SetPushes(Allow, document.included),
              SetPushes(Deny, document.deny), SetPushes(Exclude, document.exclude), slot, verb, path);
    SetPushCovers(Allow, document.allow, slot, verb, path);
    SetPushCovers(Allow, document.included, slot, verb, path);
    SetPushCovers(Deny, document.deny, slot, verb, path);
    SetPushCovers(Exclude, document.exclude, slot, verb, path);
  }

  lemma SetPushCovers(slot: Slot, set_: Option<EndpointSet>, other: Slot, verb: string, path: string)
    ensures Covered(SetPushes(slot, set_), other, verb, path) <==> other == slot && SetCovers(set_, verb, path)
  {
    if set_.Some? {
      assert SetPushes(slot, set_)[0] in SetPushes(slot, set_);
    }
  }

  lemma FourPushes(a: Push, b: Push, c: Push, d: Push, verb: string, path: string)
    requires a.slot == Allow && b.slot == Allow && c.slot == Deny && d.slot == Exclude
    ensures var pushes := [a, b, c, d];
            && (Covered(pushes, Allow, verb, path) <==> Covers(a, verb, path) || Covers(b, verb, path))
            && (Covered(pushes, Deny, verb, path) <==> Covers(c, verb, path))
            && (Covered(pushes, Exclude, verb, path) <==> Covers(d, verb, path))
  {
    var pushes := [a, b, c, d];
    assert pushes[0] in pushes && pushes[1] in pushes && pushes[2] in pushes && pushes[3] in pushes;
  }

  lemma AllowNames()
    ensures "DOCKER_PROXY_" + "ALLOW" + "_METHODS" == "DOCKER_PROXY_ALLOW_METHODS"
    ensures "DOCKER_PROXY_" + "ALLOW" + "_ENDPOINTS" == "DOCKER_PROXY_ALLOW_ENDPOINTS"
  {
  }

  lemma IncludeNames()
    ensures "DOCKER_PROXY_" + "INCLUDE" + "_METHODS" == "DOCKER_PROXY_INCLUDE_METHODS"
    ensures "DOCKER_PROXY_" + "INCLUDE" + "_ENDPOINTS" == "DOCKER_PROXY_INCLUDE_ENDPOINTS"
  {
  }

  lemma DenyNames()
    ensures "DOCKER_PROXY_" + "DENY" + "_METHODS" == "DOCKER_PROXY_DENY_METHODS"
    ensures "DOCKER_PROXY_" + "DENY" + "_ENDPOINTS" == "DOCKER_PROXY_DENY_ENDPOINTS"
  {
  }

  lemma ExcludeNames()
    ensures "DOCKER_PROXY_" + "EXCLUDE" + "_METHODS" == "DOCKER_PROXY_EXCLUDE_METHODS"
    ensures "DOCKER_PROXY_" + "EXCLUDE" + "_ENDPOINTS" == "DOCKER_PROXY_EXCLUDE_ENDPOINTS"
  {
  }

  lemma EnvironmentPushesCover(env: Environment, verb: string, path: string)
    ensures var pushes := EnvironmentPushes(env);
            && (Covered(pushes, Allow, verb, path) <==>
                || ModifierCovers(env, "DOCKER_PROXY_ALLOW_METHODS", "DOCKER_PROXY_ALLOW_ENDPOINTS", verb, path)
                || ModifierCovers(env, "DOCKER_PROXY_INCLUDE_METHODS", "DOCKER_PROXY_INCLUDE_ENDPOINTS", verb, path))
            && (Covered(pushes, Deny, verb, path) <==>
                ModifierCovers(env, "DOCKER_PROXY_DENY_METHODS", "DOCKER_PROXY_DENY_ENDPOINTS", verb, path))
            && (Covered(pushes, Exclude, verb, path) <==>
                ModifierCovers(env, "DOCKER_PROXY_EXCLUDE_METHODS", "DOCKER_PROXY_EXCLUDE_ENDPOINTS", verb, path))
  {
    FourPushes(EnvironmentPush(env, Allow, "ALLOW"), EnvironmentPush(env, Allow, "INCLUDE"),
               EnvironmentPush(env, Deny, "DENY"), EnvironmentPush(env, Exclude, "EXCLUDE"), verb, path);
    AllowNames();
    PairCovers(env, Allow, "DOCKER_PROXY_ALLOW_METHODS", "DOCKER_PROXY_ALLOW_ENDPOINTS", verb, path);
    IncludeNames();
    PairCovers(env, Allow, "DOCKER_PROXY_INCLUDE_METHODS", "DOCKER_PROXY_INCLUDE_ENDPOINTS", verb, path);
    DenyNames();
    PairCovers(env, Deny, "DOCKER_PROXY_DENY_METHODS", "DOCKER_PROXY_DENY_ENDPOINTS", verb, path);
    ExcludeNames();
    PairCovers(env, Exclude, "DOCKER_PROXY_EXCLUDE_METHODS", "DOCKER_PROXY_EXCLUDE_ENDPOINTS", verb, path);
  }

  /** No document and no modifier can reopen what a profile promises to refuse. */
  lemma PromisesSurviveLoading(profile: Profile, document: PolicyDocument, env: Environment, verb: string, path: string)
    requires Promised(profile, verb, path)
    ensures !Allows(AfterAll(ProfileFilter(profile), DocumentPushes(document) + EnvironmentPushes(env)), verb, path)
  {
    PromisesSurvive(profile, DocumentPushes(document) + EnvironmentPushes(env), verb, path);
  }
}
