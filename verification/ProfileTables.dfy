/**
 The endpoint tables behind the built-in profiles (src/security.rs), and what each says of a path,
 written out in segments.
 */
module ProfileTables {
  import opened Paths
  import opened PatternTables

  const READ_METHODS: seq<string> := ["GET", "HEAD"]
  const WRITE_METHODS: seq<string> := ["POST", "PUT", "DELETE"]

  const READABLE_ENDPOINTS: seq<string> := [
    "/containers/json",
    "/containers/*/json",
    "/containers/*/logs",
    "/images/json",
    "/images/*/json",
    "/info",
    "/version",
    "/networks",
    "/networks/",
    "/volumes",
    "/volumes/",
    "/_ping"
  ]

  const MUTATING_ENDPOINTS: seq<string> := [
    "/containers/create",
    "/containers/*/exec",
    "/containers/*/start",
    "/containers/*/stop",
    "/containers/*/restart",
    "/containers/*/kill",
    "/containers/*/pause",
    "/containers/*/unpause",
    "/containers/*/rename",
    "/containers/*/update",
    "/containers/*",
    "/containers/*/resize",
    "/containers/*/attach",
    "/containers/*/wait",
    "/exec/",
    "/build",
    "/commit"
  ]

  const RUNTIME_ENDPOINTS: seq<string> := [
    "/containers/create",
    "/containers/*/start",
    "/containers/*/stop",
    "/containers/*/restart",
    "/containers/*/exec",
    "/containers/*/wait",
    "/containers/*/archive",
    "/containers/*",
    "/images/create",
    "/images/load",
    "/build",
    "/networks/*/connect",
    "/exec/*/start",
    "/exec/*/json",
    "/exec/*/resize"
  ]

  /** The write denials `ContainerRuntime` takes out of its deny rule. */
  const WITHDRAWN: set<string> := {
    "/containers/create",
    "/containers/*/start",
    "/containers/*/stop",
    "/containers/*/restart",
    "/containers/*/exec",
    "/containers/*/wait",
    "/containers/*",
    "/exec/",
    "/build"
  }

  /** What `ContainerRuntime` still denies writing to. */
  const RUNTIME_DENIED: seq<string> := [
    "/containers/*/kill",
    "/containers/*/pause",
    "/containers/*/unpause",
    "/containers/*/rename",
    "/containers/*/update",
    "/containers/*/resize",
    "/containers/*/attach",
    "/commit"
  ]

  // ── What the tables say of a path ──

  predicate ReadablePath(path: seq<string>) {
    || path == ["containers", "json"] || path == ["images", "json"]
    || (|path| == 3 && path[0] == "containers" && (path[2] == "json" || path[2] == "logs"))
    || (|path| == 3 && path[0] == "images" && path[2] == "json")
    || path == ["info"] || path == ["version"] || path == ["_ping"]
    || (|path| >= 1 && (path[0] == "networks" || path[0] == "volumes"))
  }

  /** Operations on one container that a running workload does not need. */
  predicate StrictlyDenied(operation: string) {
    || operation == "kill" || operation == "pause" || operation == "unpause" || operation == "rename"
    || operation == "update" || operation == "resize" || operation == "attach"
  }

  predicate MutatingPath(path: seq<string>) {
    || (|path| == 2 && path[0] == "containers")
    || (|path| == 3 && path[0] == "containers" &&
        (|| path[2] == "exec" || path[2] == "start" || path[2] == "stop" || path[2] == "restart"
         || path[2] == "wait" || StrictlyDenied(path[2])))
    || (|path| >= 2 && path[0] == "exec")
    || path == ["build"] || path == ["commit"]
  }

  predicate RuntimePath(path: seq<string>) {
    || (|path| == 2 && path[0] == "containers")
    || (|path| == 3 && path[0] == "containers" &&
        (|| path[2] == "exec" || path[2] == "start" || path[2] == "stop" || path[2] == "restart"
         || path[2] == "wait" || path[2] == "archive"))
    || path == ["images", "create"] || path == ["images", "load"] || path == ["build"]
    || (|path| == 3 && path[0] == "networks" && path[2] == "connect")
    || (|path| == 3 && path[0] == "exec" && (path[2] == "start" || path[2] == "json" || path[2] == "resize"))
  }

  predicate RuntimeDeniedPath(path: seq<string>) {
    (|path| == 3 && path[0] == "containers" && StrictlyDenied(path[2])) || path == ["commit"]
  }

  // The runs of the tables: each lemma reads one run off its table.

  lemma Fronts()
    ensures "/" + "containers" + "/" == "/containers/" && "/" + "containers" + "/*/" == "/containers/*/"
    ensures "/" + "images" + "/" == "/images/" && "/" + "images" + "/*/" == "/images/*/"
    ensures "/" + "networks" + "/*/" == "/networks/*/" && "/" + "exec" + "/*/" == "/exec/*/"
  {
  }

  lemma ReadableAt0(path: string)
    requires Normalised(path)
    ensures var s := Segments(path);
            MatchesIn(READABLE_ENDPOINTS, 0, 1, path) <==>
            |s| == 2 && s[0] == "containers" && s[1] == "json"
  {
    Fronts();
    PairsSay("/containers/", "containers", ["json"], READABLE_ENDPOINTS, 0, path);
  }

  lemma ReadableAt1(path: string)
    requires Normalised(path)
    ensures var s := Segments(path);
            MatchesIn(READABLE_ENDPOINTS, 1, 3, path) <==>
            |s| == 3 && s[0] == "containers" && (s[2] == "json" || s[2] == "logs")
  {
    Fronts();
    TwoOperationsSay("/containers/*/", "containers", "json", "logs", READABLE_ENDPOINTS, 1, path);
  }

  lemma ReadableAt3(path: string)
    requires Normalised(path)
    ensures var s := Segments(path);
            MatchesIn(READABLE_ENDPOINTS, 3, 4, path) <==>
            |s| == 2 && s[0] == "images" && s[1] == "json"
  {
    Fronts();
    PairsSay("/images/", "images", ["json"], READABLE_ENDPOINTS, 3, path);
  }

  lemma ReadableAt4(path: string)
    requires Normalised(path)
    ensures var s := Segments(path);
            MatchesIn(READABLE_ENDPOINTS, 4, 5, path) <==>
            |s| == 3 && s[0] == "images" && s[2] == "json"
  {
    Fronts();
    OperationsSay("/images/*/", "images", ["json"], READABLE_ENDPOINTS, 4, path);
  }

  lemma ReadableAt5(path: string)
    requires Normalised(path)
    ensures var s := Segments(path);
            MatchesIn(READABLE_ENDPOINTS, 5, 8, path) <==>
            |s| == 1 && (s[0] == "info" || s[0] == "version" || s[0] == "networks")
  {
    WordsSay(["info", "version", "networks"], READABLE_ENDPOINTS, 5, path);
  }

  lemma ReadableAt8(path: string)
    requires Normalised(path)
    ensures var s := Segments(path);
            MatchesIn(READABLE_ENDPOINTS, 8, 9, path) <==>
            |s| > 1 && s[0] == "networks"
  {
    UnderSay(["networks"], READABLE_ENDPOINTS, 8, path);
  }

  lemma ReadableAt9(path: string)
    requires Normalised(path)
    ensures var s := Segments(path);
            MatchesIn(READABLE_ENDPOINTS, 9, 10, path) <==>
            |s| == 1 && s[0] == "volumes"
  {
    WordsSay(["volumes"], READABLE_ENDPOINTS, 9, path);
  }

  lemma ReadableAt10(path: string)
    requires Normalised(path)
    ensures var s := Segments(path);
            MatchesIn(READABLE_ENDPOINTS, 10, 11, path) <==>
            |s| > 1 && s[0] == "volumes"
  {
    UnderSay(["volumes"], READABLE_ENDPOINTS, 10, path);
  }

  lemma ReadableAt11(path: string)
    requires Normalised(path)
    ensures var s := Segments(path);
            MatchesIn(READABLE_ENDPOINTS, 11, 12, path) <==>
            |s| == 1 && s[0] == "_ping"
  {
    WordsSay(["_ping"], READABLE_ENDPOINTS, 11, path);
  }

  lemma ReadableFront(path: string)
    requires Normalised(path)
    ensures var s := Segments(path);
            MatchesIn(READABLE_ENDPOINTS, 0, 8, path) <==>
            || (|s| == 2 && s[0] == "containers" && s[1] == "json")
            || (|s| == 3 && s[0] == "containers" && (s[2] == "json" || s[2] == "logs"))
            || (|s| == 2 && s[0] == "images" && s[1] == "json")
            || (|s| == 3 && s[0] == "images" && s[2] == "json")
            || (|s| == 1 && (s[0] == "info" || s[0] == "version" || s[0] == "networks"))
  {
    ReadableAt0(path);
    MatchesInParts(READABLE_ENDPOINTS, 0, 1, 8, path);
    ReadableAt1(path);
    MatchesInParts(READABLE_ENDPOINTS, 1, 3, 8, path);
    ReadableAt3(path);
    MatchesInParts(READABLE_ENDPOINTS, 3, 4, 8, path);
    ReadableAt4(path);
    MatchesInParts(READABLE_ENDPOINTS, 4, 5, 8, path);
    ReadableAt5(path);
  }

  lemma ReadableBack(path: string)
    requires Normalised(path)
    ensures var s := Segments(path);
            MatchesIn(READABLE_ENDPOINTS, 8, 12, path) <==>
            || (|s| > 1 && s[0] == "networks")
            || (|s| == 1 && s[0] == "volumes")
            || (|s| > 1 && s[0] == "volumes")
            || (|s| == 1 && s[0] == "_ping")
  {
    ReadableAt8(path);
    MatchesInParts(READABLE_ENDPOINTS, 8, 9, 12, path);
    ReadableAt9(path);
    MatchesInParts(READABLE_ENDPOINTS, 9, 10, 12, path);
    ReadableAt10(path);
    MatchesInParts(READABLE_ENDPOINTS, 10, 11, 12, path);
    ReadableAt11(path);
  }

  lemma ReadableExactly(path: string)
    requires Normalised(path)
    ensures MatchesSome(READABLE_ENDPOINTS, path) <==> ReadablePath(Segments(path))
  {
    MatchesInWhole(READABLE_ENDPOINTS, path);
    ReadableFront(path);
    ReadableBack(path);
    MatchesInParts(READABLE_ENDPOINTS, 0, 8, 12, path);
  }

  lemma MutatingAt0(path: string)
    requires Normalised(path)
    ensures var s := Segments(path);
            MatchesIn(MUTATING_ENDPOINTS, 0, 1, path) <==>
            |s| == 2 && s[0] == "containers" && s[1] == "create"
  {
    Fronts();
    PairsSay("/containers/", "containers", ["create"], MUTATING_ENDPOINTS, 0, path);
  }

  lemma MutatingAt1(path: string)
    requires Normalised(path)
    ensures var s := Segments(path);
            MatchesIn(MUTATING_ENDPOINTS, 1, 4, path) <==>
            |s| == 3 && s[0] == "containers" && (s[2] == "exec" || s[2] == "start" || s[2] == "stop")
  {
    Fronts();
    ThreeOperationsSay("/containers/*/", "containers", "exec", "start", "stop", MUTATING_ENDPOINTS, 1, path);
  }

  lemma MutatingAt4(path: string)
    requires Normalised(path)
    ensures var s := Segments(path);
            MatchesIn(MUTATING_ENDPOINTS, 4, 7, path) <==>
            |s| == 3 && s[0] == "containers" && (s[2] == "restart" || s[2] == "kill" || s[2] == "pause")
  {
    Fronts();
    ThreeOperationsSay("/containers/*/", "containers", "restart", "kill", "pause", MUTATING_ENDPOINTS, 4, path);
  }

  lemma MutatingAt7(path: string)
    requires Normalised(path)
    ensures var s := Segments(path);
            MatchesIn(MUTATING_ENDPOINTS, 7, 10, path) <==>
            |s| == 3 && s[0] == "containers" && (s[2] == "unpause" || s[2] == "rename" || s[2] == "update")
  {
    Fronts();
    ThreeOperationsSay("/containers/*/", "containers", "unpause", "rename", "update", MUTATING_ENDPOINTS, 7, path);
  }

  lemma MutatingAt10(path: string)
    requires Normalised(path)
    ensures var s := Segments(path);
            MatchesIn(MUTATING_ENDPOINTS, 10, 11, path) <==>
            |s| == 2 && s[0] == "containers"
  {
    Fronts();
    PairsSay("/containers/", "containers", ["*"], MUTATING_ENDPOINTS, 10, path);
  }

  lemma MutatingAt11(path: string)
    requires Normalised(path)
    ensures var s := Segments(path);
            MatchesIn(MUTATING_ENDPOINTS, 11, 14, path) <==>
            |s| == 3 && s[0] == "containers" && (s[2] == "resize" || s[2] == "attach" || s[2] == "wait")
  {
    Fronts();
    ThreeOperationsSay("/containers/*/", "containers", "resize", "attach", "wait", MUTATING_ENDPOINTS, 11, path);
  }

  lemma MutatingAt14(path: string)
    requires Normalised(path)
    ensures var s := Segments(path);
            MatchesIn(MUTATING_ENDPOINTS, 14, 15, path) <==>
            |s| > 1 && s[0] == "exec"
  {
    UnderSay(["exec"], MUTATING_ENDPOINTS, 14, path);
  }

  lemma MutatingAt15(path: string)
    requires Normalised(path)
    ensures var s := Segments(path);
            MatchesIn(MUTATING_ENDPOINTS, 15, 17, path) <==>
            |s| == 1 && (s[0] == "build" || s[0] == "commit")
  {
    WordsSay(["build", "commit"], MUTATING_ENDPOINTS, 15, path);
  }

  lemma MutatingFront(path: string)
    requires Normalised(path)
    ensures var s := Segments(path);
            MatchesIn(MUTATING_ENDPOINTS, 0, 10, path) <==>
            || (|s| == 2 && s[0] == "containers" && s[1] == "create")
            || (|s| == 3 && s[0] == "containers" && (s[2] == "exec" || s[2] == "start" || s[2] == "stop"))
            || (|s| == 3 && s[0] == "containers" && (s[2] == "restart" || s[2] == "kill" || s[2] == "pause"))
            || (|s| == 3 && s[0] == "containers" && (s[2] == "unpause" || s[2] == "rename" || s[2] == "update"))
  {
    MutatingAt0(path);
    MatchesInParts(MUTATING_ENDPOINTS, 0, 1, 10, path);
    MutatingAt1(path);
    MatchesInParts(MUTATING_ENDPOINTS, 1, 4, 10, path);
    MutatingAt4(path);
    MatchesInParts(MUTATING_ENDPOINTS, 4, 7, 10, path);
    MutatingAt7(path);
  }

  lemma MutatingBack(path: string)
    requires Normalised(path)
    ensures var s := Segments(path);
            MatchesIn(MUTATING_ENDPOINTS, 10, 17, path) <==>
            || (|s| == 2 && s[0] == "containers")
            || (|s| == 3 && s[0] == "containers" && (s[2] == "resize" || s[2] == "attach" || s[2] == "wait"))
            || (|s| > 1 && s[0] == "exec")
            || (|s| == 1 && (s[0] == "build" || s[0] == "commit"))
  {
    MutatingAt10(path);
    MatchesInParts(MUTATING_ENDPOINTS, 10, 11, 17, path);
    MutatingAt11(path);
    MatchesInParts(MUTATING_ENDPOINTS, 11, 14, 17, path);
    MutatingAt14(path);
    MatchesInParts(MUTATING_ENDPOINTS, 14, 15, 17, path);
    MutatingAt15(path);
  }

  lemma MutatingExactly(path: string)
    requires Normalised(path)
    ensures MatchesSome(MUTATING_ENDPOINTS, path) <==> MutatingPath(Segments(path))
  {
    MatchesInWhole(MUTATING_ENDPOINTS, path);
    MutatingFront(path);
    MutatingBack(path);
    MatchesInParts(MUTATING_ENDPOINTS, 0, 10, 17, path);
  }

  lemma RuntimeAt0(path: string)
    requires Normalised(path)
    ensures var s := Segments(path);
            MatchesIn(RUNTIME_ENDPOINTS, 0, 1, path) <==>
            |s| == 2 && s[0] == "containers" && s[1] == "create"
  {
    Fronts();
    PairsSay("/containers/", "containers", ["create"], RUNTIME_ENDPOINTS, 0, path);
  }

  lemma RuntimeAt1(path: string)
    requires Normalised(path)
    ensures var s := Segments(path);
            MatchesIn(RUNTIME_ENDPOINTS, 1, 4, path) <==>
            |s| == 3 && s[0] == "containers" && (s[2] == "start" || s[2] == "stop" || s[2] == "restart")
  {
    Fronts();
    ThreeOperationsSay("/containers/*/", "containers", "start", "stop", "restart", RUNTIME_ENDPOINTS, 1, path);
  }

  lemma RuntimeAt4(path: string)
    requires Normalised(path)
    ensures var s := Segments(path);
            MatchesIn(RUNTIME_ENDPOINTS, 4, 7, path) <==>
            |s| == 3 && s[0] == "containers" && (s[2] == "exec" || s[2] == "wait" || s[2] == "archive")
  {
    Fronts();
    ThreeOperationsSay("/containers/*/", "containers", "exec", "wait", "archive", RUNTIME_ENDPOINTS, 4, path);
  }

  lemma RuntimeAt7(path: string)
    requires Normalised(path)
    ensures var s := Segments(path);
            MatchesIn(RUNTIME_ENDPOINTS, 7, 8, path) <==>
            |s| == 2 && s[0] == "containers"
  {
    Fronts();
    PairsSay("/containers/", "containers", ["*"], RUNTIME_ENDPOINTS, 7, path);
  }

  lemma RuntimeAt8(path: string)
    requires Normalised(path)
    ensures var s := Segments(path);
            MatchesIn(RUNTIME_ENDPOINTS, 8, 10, path) <==>
            |s| == 2 && s[0] == "images" && (s[1] == "create" || s[1] == "load")
  {
    Fronts();
    PairsSay("/images/", "images", ["create", "load"], RUNTIME_ENDPOINTS, 8, path);
  }

  lemma RuntimeAt10(path: string)
    requires Normalised(path)
    ensures var s := Segments(path);
            MatchesIn(RUNTIME_ENDPOINTS, 10, 11, path) <==>
            |s| == 1 && s[0] == "build"
  {
    WordsSay(["build"], RUNTIME_ENDPOINTS, 10, path);
  }

  lemma RuntimeAt11(path: string)
    requires Normalised(path)
    ensures var s := Segments(path);
            MatchesIn(RUNTIME_ENDPOINTS, 11, 12, path) <==>
            |s| == 3 && s[0] == "networks" && s[2] == "connect"
  {
    Fronts();
    OperationsSay("/networks/*/", "networks", ["connect"], RUNTIME_ENDPOINTS, 11, path);
  }

  lemma RuntimeAt12(path: string)
    requires Normalised(path)
    ensures var s := Segments(path);
            MatchesIn(RUNTIME_ENDPOINTS, 12, 15, path) <==>
            |s| == 3 && s[0] == "exec" && (s[2] == "start" || s[2] == "json" || s[2] == "resize")
  {
    Fronts();
    ThreeOperationsSay("/exec/*/", "exec", "start", "json", "resize", RUNTIME_ENDPOINTS, 12, path);
  }

  lemma RuntimeFront(path: string)
    requires Normalised(path)
    ensures var s := Segments(path);
            MatchesIn(RUNTIME_ENDPOINTS, 0, 8, path) <==>
            || (|s| == 2 && s[0] == "containers" && s[1] == "create")
            || (|s| == 3 && s[0] == "containers" && (s[2] == "start" || s[2] == "stop" || s[2] == "restart"))
            || (|s| == 3 && s[0] == "containers" && (s[2] == "exec" || s[2] == "wait" || s[2] == "archive"))
            || (|s| == 2 && s[0] == "containers")
  {
    RuntimeAt0(path);
    MatchesInParts(RUNTIME_ENDPOINTS, 0, 1, 8, path);
    RuntimeAt1(path);
    MatchesInParts(RUNTIME_ENDPOINTS, 1, 4, 8, path);
    RuntimeAt4(path);
    MatchesInParts(RUNTIME_ENDPOINTS, 4, 7, 8, path);
    RuntimeAt7(path);
  }

  lemma RuntimeBack(path: string)
    requires Normalised(path)
    ensures var s := Segments(path);
            MatchesIn(RUNTIME_ENDPOINTS, 8, 15, path) <==>
            || (|s| == 2 && s[0] == "images" && (s[1] == "create" || s[1] == "load"))
            || (|s| == 1 && s[0] == "build")
            || (|s| == 3 && s[0] == "networks" && s[2] == "connect")
            || (|s| == 3 && s[0] == "exec" && (s[2] == "start" || s[2] == "json" || s[2] == "resize"))
  {
    RuntimeAt8(path);
    MatchesInParts(RUNTIME_ENDPOINTS, 8, 10, 15, path);
    RuntimeAt10(path);
    MatchesInParts(RUNTIME_ENDPOINTS, 10, 11, 15, path);
    RuntimeAt11(path);
    MatchesInParts(RUNTIME_ENDPOINTS, 11, 12, 15, path);
    RuntimeAt12(path);
  }

  lemma RuntimeExactly(path: string)
    requires Normalised(path)
    ensures MatchesSome(RUNTIME_ENDPOINTS, path) <==> RuntimePath(Segments(path))
  {
    MatchesInWhole(RUNTIME_ENDPOINTS, path);
    RuntimeFront(path);
    RuntimeBack(path);
    MatchesInParts(RUNTIME_ENDPOINTS, 0, 8, 15, path);
  }

  lemma RuntimeDeniedAt0(path: string)
    requires Normalised(path)
    ensures var s := Segments(path);
            MatchesIn(RUNTIME_DENIED, 0, 3, path) <==>
            |s| == 3 && s[0] == "containers" && (s[2] == "kill" || s[2] == "pause" || s[2] == "unpause")
  {
    Fronts();
    ThreeOperationsSay("/containers/*/", "containers", "kill", "pause", "unpause", RUNTIME_DENIED, 0, path);
  }

  lemma RuntimeDeniedAt3(path: string)
    requires Normalised(path)
    ensures var s := Segments(path);
            MatchesIn(RUNTIME_DENIED, 3, 6, path) <==>
            |s| == 3 && s[0] == "containers" && (s[2] == "rename" || s[2] == "update" || s[2] == "resize")
  {
    Fronts();
    ThreeOperationsSay("/containers/*/", "containers", "rename", "update", "resize", RUNTIME_DENIED, 3, path);
  }

  lemma RuntimeDeniedAt6(path: string)
    requires Normalised(path)
    ensures var s := Segments(path);
            MatchesIn(RUNTIME_DENIED, 6, 7, path) <==>
            |s| == 3 && s[0] == "containers" && s[2] == "attach"
  {
    Fronts();
    OperationsSay("/containers/*/", "containers", ["attach"], RUNTIME_DENIED, 6, path);
  }

  lemma RuntimeDeniedAt7(path: string)
    requires Normalised(path)
    ensures var s := Segments(path);
            MatchesIn(RUNTIME_DENIED, 7, 8, path) <==>
            |s| == 1 && s[0] == "commit"
  {
    WordsSay(["commit"], RUNTIME_DENIED, 7, path);
  }

  lemma RuntimeDeniedExactly(path: string)
    requires Normalised(path)
    ensures MatchesSome(RUNTIME_DENIED, path) <==> RuntimeDeniedPath(Segments(path))
  {
    MatchesInWhole(RUNTIME_DENIED, path);
    RuntimeDeniedAt0(path);
    MatchesInParts(RUNTIME_DENIED, 0, 3, 8, path);
    RuntimeDeniedAt3(path);
    MatchesInParts(RUNTIME_DENIED, 3, 6, 8, path);
    RuntimeDeniedAt6(path);
    MatchesInParts(RUNTIME_DENIED, 6, 7, 8, path);
    RuntimeDeniedAt7(path);
  }
}
