/**
 Endpoint patterns: the matcher (`matches_pattern` in src/security.rs) and the check for
 patterns that match nothing (`matches_known_path` in src/docker_api.rs).
 */
module Patterns {
  import opened Text
  import opened Paths

  predicate EndsInSlash(s: string) {
    s != "" && s[|s| - 1] == '/'
  }

  /** As many segments, each the wildcard or equal. */
  predicate Fits(pattern: seq<string>, path: seq<string>) {
    |pattern| == |path| && forall i :: 0 <= i < |pattern| ==> pattern[i] == "*" || pattern[i] == path[i]
  }

  predicate Matches(pattern: string, path: string) {
    if pattern == path then true
    else if EndsInSlash(pattern) then pattern <= path
    else if '*' in pattern then Fits(Segments(pattern), Segments(path))
    else false
  }

  // ── What patterns mean ──

  /** A prefix of a path, read literally, that leaves something over. */
  predicate Below(prefix: seq<string>, path: seq<string>) {
    |prefix| < |path| && path[..|prefix|] == prefix
  }

  /**
   Whether a pattern without a trailing slash can stand for its segments: without a wildcard it
   has to be written exactly as they are, with a single slash before each.
   */
  predicate Readable(pattern: string) {
    '*' in pattern || pattern == Render(Segments(pattern))
  }

  /** Whether a pattern with a trailing slash is written with single slashes. */
  predicate Rooted(pattern: string) {
    pattern == Flat(Segments(pattern)) + "/"
  }

  lemma {:induction false} FlatStar(segments: seq<string>)
    requires "*" in segments
    ensures '*' in Flat(segments)
  {
    if segments[0] != "*" {
      FlatStar(segments[1..]);
    } else {
      assert Flat(segments)[1] == '*';
    }
  }

  lemma ReadableSegments(pattern: seq<string>)
    requires AllClean(pattern) && |pattern| > 0
    ensures !EndsInSlash(Render(pattern)) && Segments(Render(pattern)) == pattern && Readable(Render(pattern))
  {
    SegmentsOfRender(pattern);
    FlatEnd(pattern);
  }

  /**
   Every pattern without a trailing slash: exact comparison and the wildcard branch agree with
   the one relation on segments, provided the pattern is readable. A pattern such as `info`, with
   neither a wildcard nor a slash in front, matches no path.
   */
  lemma MatchesFits(pattern: string, path: seq<string>)
    requires !EndsInSlash(pattern) && AllClean(path)
    ensures Matches(pattern, Render(path)) <==> Readable(pattern) && Fits(Segments(pattern), path)
  {
    SegmentsOfRender(path);
    var segments := Segments(pattern);
    if Readable(pattern) && '*' !in pattern && Fits(segments, path) {
      if "*" in segments {
        FlatStar(segments);
      }
      assert forall i :: 0 <= i < |segments| ==> segments[i] in segments;
      assert segments == path;
    }
  }

  /** A pattern rendered from clean segments is readable. */
  lemma CleanMatchesFits(pattern: seq<string>, path: seq<string>)
    requires AllClean(pattern) && |pattern| > 0 && AllClean(path)
    ensures Matches(Render(pattern), Render(path)) <==> Fits(pattern, path)
  {
    ReadableSegments(pattern);
    MatchesFits(Render(pattern), path);
  }

  /** Comparing paths with a slash behind every segment is comparing segments. */
  lemma {:induction false} FlatPrefix(prefix: seq<string>, path: seq<string>)
    requires AllClean(prefix) && AllClean(path)
    ensures Flat(prefix) + "/" <= Flat(path) <==> Below(prefix, path)
  {
    if |path| == 0 {
    } else if |prefix| == 0 {
      assert Flat(prefix) + "/" == "/";
      assert Flat(path)[0] == '/';
      assert path[..0] == [];
    } else {
      var p, q := prefix[0], path[0];
      var restP, restQ := Flat(prefix[1..]) + "/", Flat(path[1..]);
      FlatPrefix(prefix[1..], path[1..]);
      assert Flat(prefix) + "/" == "/" + p + restP;
      assert Flat(path) == "/" + q + restQ;
      assert restP[0] == '/';
      PrefixHeads(p, restP, q, restQ);
      assert Below(prefix, path) <==> p == q && Below(prefix[1..], path[1..]) by {
        if p == q && Below(prefix[1..], path[1..]) {
          assert path[..|prefix|] == [q] + path[1..][..|prefix| - 1];
        }
        if Below(prefix, path) {
          assert path[..|prefix|][0] == q;
          assert path[1..][..|prefix| - 1] == path[..|prefix|][1..];
        }
      }
    }
  }

  lemma PrefixHeads(p: string, restP: string, q: string, restQ: string)
    requires '/' !in p && '/' !in q && restP != "" && restP[0] == '/' && (restQ == "" || restQ[0] == '/')
    ensures "/" + p + restP <= "/" + q + restQ <==> p == q && restP <= restQ
  {
    var a, b := "/" + p + restP, "/" + q + restQ;
    assert forall i :: 0 <= i < |p| ==> a[i + 1] == p[i] != '/';
    assert forall i :: 0 <= i < |q| ==> b[i + 1] == q[i] != '/';
    assert a[|p| + 1] == '/';
    assert a[|p| + 1..] == restP && b[|q| + 1..] == restQ;
    assert a[1..|p| + 1] == p && b[1..|q| + 1] == q;
    if a <= b {
      assert b[..|a|] == a;
      assert b[|p| + 1] == '/';
      assert |q| <= |p|;
      assert restQ != "" && b[|q| + 1] == '/';
      assert |q| >= |p|;
      assert p == a[1..|p| + 1] == b[1..|p| + 1] == q;
      assert restP == b[..|a|][|p| + 1..] == restQ[..|restP|];
    }
    if p == q && restP <= restQ {
      assert b == "/" + p + restQ;
      assert restQ == restP + restQ[|restP|..];
      assert b == a + restQ[|restP|..];
    }
  }

  lemma CleanMatchesBelow(prefix: seq<string>, path: seq<string>)
    requires AllClean(prefix) && AllClean(path)
    ensures Matches(Flat(prefix) + "/", Render(path)) <==> Below(prefix, path) || (prefix == [] && path == [])
  {
    FlatPrefix(prefix, path);
    var pattern := Flat(prefix) + "/";
    assert EndsInSlash(pattern);
    if path == [] {
      assert Render(path) == "/";
      if |prefix| > 0 {
        assert |pattern| > 1;
      }
    } else {
      FlatEnd(path);
    }
  }

  /** Whatever ends in a slash and begins a path is its first segments, with single slashes. */
  lemma {:induction false} SlashedPrefix(pattern: string, path: seq<string>) returns (k: nat)
    requires EndsInSlash(pattern) && AllClean(path) && pattern <= Flat(path)
    ensures k < |path| && pattern == Flat(path[..k]) + "/"
    decreases |path|
  {
    var text, first, rest := Flat(path), path[0], Flat(path[1..]);
    assert text == "/" + first + rest;
    assert pattern[0] == text[0];
    if |pattern| == 1 {
      k := 0;
      assert Flat(path[..0]) + "/" == "/";
    } else {
      var last := |pattern| - 1;
      assert text[last] == '/';
      assert forall i :: 0 <= i < |first| ==> text[i + 1] == first[i] != '/';
      var tail := pattern[|first| + 1..];
      assert tail <= rest && tail[|tail| - 1] == '/' by {
        assert text[|first| + 1..] == rest;
      }
      assert pattern[..|first| + 1] == "/" + first;
      var more := SlashedPrefix(tail, path[1..]);
      k := more + 1;
      assert path[..k][1..] == path[1..][..more];
      assert pattern == "/" + first + tail;
      assert Flat(path[..k]) == "/" + first + Flat(path[1..][..more]);
    }
  }

  lemma RootedSegments(prefix: seq<string>)
    requires AllClean(prefix)
    ensures var pattern := Flat(prefix) + "/";
            EndsInSlash(pattern) && Segments(pattern) == prefix && Rooted(pattern)
  {
    SegmentsOfSlashed(prefix);
  }

  lemma PrefixIsClean(prefix: seq<string>, path: seq<string>)
    requires AllClean(path) && Below(prefix, path)
    ensures AllClean(prefix)
  {
    assert forall i :: 0 <= i < |prefix| ==> prefix[i] == path[..|prefix|][i];
  }

  lemma MatchedIsRooted(pattern: string, path: seq<string>)
    requires EndsInSlash(pattern) && AllClean(path) && Matches(pattern, Render(path))
    ensures Rooted(pattern) && AllClean(Segments(pattern))
  {
    if path == [] {
      assert pattern == Flat([]) + "/";
      RootedSegments([]);
    } else {
      FlatEnd(path);
      var k := SlashedPrefix(pattern, path);
      RootedSegments(path[..k]);
    }
  }

  /**
   Every pattern with a trailing slash: a strict literal prefix, when it is written with single
   slashes, and otherwise nothing. The root pattern also matches the root. A `*` in it stands for
   itself.
   */
  lemma MatchesBelow(pattern: string, path: seq<string>)
    requires EndsInSlash(pattern) && AllClean(path)
    ensures Matches(pattern, Render(path)) <==>
            && Rooted(pattern)
            && (Below(Segments(pattern), path) || (Segments(pattern) == [] && path == []))
  {
    var prefix := Segments(pattern);
    if Matches(pattern, Render(path)) {
      MatchedIsRooted(pattern, path);
      CleanMatchesBelow(prefix, path);
    } else if Rooted(pattern) && (Below(prefix, path) || (prefix == [] && path == [])) {
      if Below(prefix, path) {
        PrefixIsClean(prefix, path);
      }
      CleanMatchesBelow(prefix, path);
    }
  }

  /** The empty normal form, a lone version, is matched by the empty pattern alone. */
  lemma NothingMatchesEmpty(pattern: string)
    ensures Matches(pattern, "") <==> pattern == ""
  {
    NoSegmentsInNothing();
    if '*' in pattern {
      SegmentsHold(pattern, '*');
    }
  }

  // ── Patterns against the known API paths ──

  /** Two patterns agree wherever both are literal. */
  predicate Unify(a: seq<string>, b: seq<string>) {
    |a| == |b| && forall i :: 0 <= i < |a| ==> a[i] == "*" || b[i] == a[i] || b[i] == "*"
  }

  predicate MatchesKnownPath(known: seq<string>, pattern: string) {
    exists path <- known ::
      if EndsInSlash(pattern) then pattern <= path || path + "/" == pattern
      else Unify(Segments(pattern), Segments(path))
  }

  /** The known paths: clean patterns without a trailing slash. */
  ghost predicate KnownPaths(known: seq<string>, segments: seq<seq<string>>) {
    && |known| == |segments|
    && forall k :: 0 <= k < |known| ==> |segments[k]| > 0 && AllClean(segments[k]) && known[k] == Render(segments[k])
  }

  /** Some concrete canonical path is an instance of a known path and accepted by the pattern. */
  ghost predicate Satisfiable(known: seq<string>, pattern: string) {
    exists path, k :: AllClean(path) && 0 <= k < |known|
      && Matches(known[k], Render(path)) && Matches(pattern, Render(path))
  }

  /** A common instance of two patterns that agree wherever both are literal. */
  function Instance(a: seq<string>, b: seq<string>): (path: seq<string>)
    requires Unify(a, b) && AllClean(a) && AllClean(b)
    ensures AllClean(path) && Fits(a, path) && Fits(b, path)
  {
    seq(|a|, i requires 0 <= i < |a| => if a[i] == "*" then b[i] else a[i])
  }

  /** Fitting a path of clean segments leaves a pattern no dot segment. */
  lemma FittingIsClean(pattern: seq<string>, path: seq<string>)
    requires Fits(pattern, path) && AllClean(path)
    ensures AllClean(pattern)
  {
    forall i | 0 <= i < |pattern| ensures Clean(pattern[i]) {
      assert Clean(path[i]);
    }
  }

  /** Two clean patterns that unify have an instance in common. */
  lemma UnifiedIsSatisfiable(known: seq<string>, segments: seq<seq<string>>, pattern: string, k: nat)
    requires KnownPaths(known, segments) && k < |known| && !EndsInSlash(pattern)
    requires Readable(pattern) && AllClean(Segments(pattern)) && Unify(Segments(pattern), segments[k])
    ensures Satisfiable(known, pattern)
  {
    var path := Instance(Segments(pattern), segments[k]);
    MatchesFits(pattern, path);
    CleanMatchesFits(segments[k], path);
    assert AllClean(path) && Matches(known[k], Render(path));
  }

  lemma KnownUnifies(known: seq<string>, segments: seq<seq<string>>, pattern: string)
    requires KnownPaths(known, segments) && !EndsInSlash(pattern)
    ensures MatchesKnownPath(known, pattern) <==>
            exists k :: 0 <= k < |segments| && Unify(Segments(pattern), segments[k])
  {
    forall k | 0 <= k < |known| ensures Segments(known[k]) == segments[k] {
      SegmentsOfRender(segments[k]);
    }
    if MatchesKnownPath(known, pattern) {
      var path :| path in known && Unify(Segments(pattern), Segments(path));
      var k :| 0 <= k < |known| && known[k] == path;
    }
    if k :| 0 <= k < |segments| && Unify(Segments(pattern), segments[k]) {
      assert known[k] in known;
    }
  }

  /** Which patterns without a trailing slash some served path satisfies, whatever the known paths are. */
  lemma KnownExactly(known: seq<string>, segments: seq<seq<string>>, pattern: string)
    requires KnownPaths(known, segments) && !EndsInSlash(pattern)
    ensures Satisfiable(known, pattern) <==>
            MatchesKnownPath(known, pattern) && AllClean(Segments(pattern)) && Readable(pattern)
  {
    KnownUnifies(known, segments, pattern);
    if Satisfiable(known, pattern) {
      var path, k :| AllClean(path) && 0 <= k < |known|
        && Matches(known[k], Render(path)) && Matches(pattern, Render(path));
      MatchesFits(pattern, path);
      CleanMatchesFits(segments[k], path);
      FittingIsClean(Segments(pattern), path);
      assert Unify(Segments(pattern), segments[k]);
    }
    if MatchesKnownPath(known, pattern) && AllClean(Segments(pattern)) && Readable(pattern) {
      var k :| 0 <= k < |segments| && Unify(Segments(pattern), segments[k]);
      UnifiedIsSatisfiable(known, segments, pattern, k);
    }
  }

  /** Hence the check is exact for patterns of clean segments with a slash before each. */
  lemma CleanKnownExactly(known: seq<string>, segments: seq<seq<string>>, pattern: seq<string>)
    requires KnownPaths(known, segments) && AllClean(pattern) && |pattern| > 0
    ensures MatchesKnownPath(known, Render(pattern)) <==> Satisfiable(known, Render(pattern))
  {
    ReadableSegments(pattern);
    KnownExactly(known, segments, Render(pattern));
  }

  /** On other patterns it accepts too much: a forgotten slash in front kills a rule unnoticed. */
  lemma KnownCheckAcceptsTooMuch()
    ensures MatchesKnownPath(["/info"], "info") && !Satisfiable(["/info"], "info")
  {
    ForgottenSlash("info");
    assert "/" + "info" == "/info";
  }

  lemma ForgottenSlash(name: string)
    requires Clean(name) && '*' !in name
    ensures MatchesKnownPath(["/" + name], name) && !Satisfiable(["/" + name], name)
  {
    var known := ["/" + name];
    assert Flat([name]) == "/" + name + "";
    assert known[0] == Render([name]);
    assert KnownPaths(known, [[name]]);
    SplitWhole(name, '/');
    assert Segments(name) == [name] by {
      NonEmptyAll([name]);
    }
    KnownUnifies(known, [[name]], name);
    assert Unify(Segments(name), [[name]][0]);
    KnownExactly(known, [[name]], name);
    assert |Render(Segments(name))| == |name| + 1;
  }

  /** So does a dot segment, as in `/containers/..`: no canonical path has one. */
  lemma DotSegment(name: string)
    requires Clean(name)
    ensures MatchesKnownPath(["/" + name + "/*"], "/" + name + "/..")
    ensures !Satisfiable(["/" + name + "/*"], "/" + name + "/..")
  {
    var known, pattern := ["/" + name + "/*"], "/" + name + "/..";
    FlatTwo(name, "*");
    FlatTwo(name, "..");
    assert KnownPaths(known, [[name, "*"]]);
    assert pattern == Flat([name, ".."]) && known[0] == Flat([name, "*"]);
    SegmentsOfFlat([name, ".."]);
    assert Segments(pattern) == [name, ".."];
    KnownUnifies(known, [[name, "*"]], pattern);
    assert Unify(Segments(pattern), [[name, "*"]][0]);
    KnownExactly(known, [[name, "*"]], pattern);
    assert !Clean(Segments(pattern)[1]);
  }

  // ── Patterns with a trailing slash against them ──

  /** The pattern begins a known path, or is all of it, literally. */
  ghost predicate BeginsKnown(segments: seq<seq<string>>, prefix: seq<string>) {
    exists k :: 0 <= k < |segments| && (Below(prefix, segments[k]) || prefix == segments[k])
  }

  /** Some known path goes on below an instance that begins like the pattern. */
  ghost predicate GoesOnBelow(segments: seq<seq<string>>, prefix: seq<string>) {
    exists k :: 0 <= k < |segments| && |prefix| < |segments[k]| && Fits(segments[k][..|prefix|], prefix)
  }

  lemma CleanKnownPrefix(known: seq<string>, prefix: seq<string>)
    requires |known| > 0 && AllClean(known) && AllClean(prefix)
    ensures Flat(prefix) + "/" <= Flat(known) || Flat(known) + "/" == Flat(prefix) + "/" <==>
            Below(prefix, known) || prefix == known
  {
    FlatPrefix(prefix, known);
    if Flat(known) + "/" == Flat(prefix) + "/" {
      RootedSegments(prefix);
      RootedSegments(known);
    }
  }

  lemma KnownPrefix(known: seq<string>, pattern: string)
    requires |known| > 0 && AllClean(known) && EndsInSlash(pattern)
    ensures pattern <= Flat(known) || Flat(known) + "/" == pattern <==>
            Rooted(pattern) && (Below(Segments(pattern), known) || Segments(pattern) == known)
  {
    var prefix := Segments(pattern);
    if pattern <= Flat(known) {
      var k := SlashedPrefix(pattern, known);
      RootedSegments(known[..k]);
      CleanKnownPrefix(known, prefix);
    } else if Flat(known) + "/" == pattern {
      RootedSegments(known);
    } else if Rooted(pattern) && (Below(prefix, known) || prefix == known) {
      if Below(prefix, known) {
        PrefixIsClean(prefix, known);
      }
      CleanKnownPrefix(known, prefix);
    }
  }

  /** What the trailing-slash branch of the check asks: a literal prefix of a known path, or all of it. */
  lemma KnownPrefixes(known: seq<string>, segments: seq<seq<string>>, pattern: string)
    requires KnownPaths(known, segments) && EndsInSlash(pattern)
    ensures MatchesKnownPath(known, pattern) <==> Rooted(pattern) && BeginsKnown(segments, Segments(pattern))
  {
    forall k | 0 <= k < |known|
      ensures (pattern <= known[k] || known[k] + "/" == pattern) <==>
              Rooted(pattern) && (Below(Segments(pattern), segments[k]) || Segments(pattern) == segments[k])
    {
      KnownPrefix(segments[k], pattern);
    }
    if MatchesKnownPath(known, pattern) {
      var path :| path in known && (pattern <= path || path + "/" == pattern);
      var k :| 0 <= k < |known| && known[k] == path;
    }
    if Rooted(pattern) && BeginsKnown(segments, Segments(pattern)) {
      var k :| 0 <= k < |segments| && (Below(Segments(pattern), segments[k]) || Segments(pattern) == segments[k]);
      assert known[k] in known;
    }
  }

  /** A path `path` below `prefix` shows that the known path it is an instance of goes on below it. */
  lemma ReachedBelow(known: seq<string>, prefix: seq<string>, path: seq<string>)
    requires Fits(known, path) && Below(prefix, path)
    ensures |prefix| < |known| && Fits(known[..|prefix|], prefix)
  {
    assert forall i :: 0 <= i < |prefix| ==> path[i] == path[..|prefix|][i];
  }

  /** Following the pattern and then the known path gives an instance of both. */
  lemma ReachBelow(known: seq<string>, prefix: seq<string>) returns (path: seq<string>)
    requires AllClean(known) && AllClean(prefix) && |prefix| < |known| && Fits(known[..|prefix|], prefix)
    ensures AllClean(path) && Fits(known, path) && Below(prefix, path)
  {
    path := prefix + known[|prefix|..];
    forall i | 0 <= i < |path| ensures known[i] == "*" || known[i] == path[i] {
      if i < |prefix| {
        assert known[i] == known[..|prefix|][i];
      }
    }
  }

  lemma KnownPathIsReached(known: seq<string>, pattern: string) returns (path: seq<string>)
    requires AllClean(known) && EndsInSlash(pattern) && Rooted(pattern) && AllClean(Segments(pattern))
    requires |Segments(pattern)| < |known| && Fits(known[..|Segments(pattern)|], Segments(pattern))
    ensures AllClean(path) && Matches(Render(known), Render(path)) && Matches(pattern, Render(path))
  {
    path := ReachBelow(known, Segments(pattern));
    CleanMatchesFits(known, path);
    MatchesBelow(pattern, path);
  }

  /** What such a pattern really reaches: known paths that go on below it, wildcards included. */
  lemma PrefixReaches(known: seq<string>, segments: seq<seq<string>>, pattern: string)
    requires KnownPaths(known, segments) && EndsInSlash(pattern)
    ensures Satisfiable(known, pattern) <==>
            Rooted(pattern) && AllClean(Segments(pattern)) && GoesOnBelow(segments, Segments(pattern))
  {
    var prefix := Segments(pattern);
    if Satisfiable(known, pattern) {
      var path, k :| AllClean(path) && 0 <= k < |known|
        && Matches(known[k], Render(path)) && Matches(pattern, Render(path));
      CleanMatchesFits(segments[k], path);
      MatchesBelow(pattern, path);
      MatchedIsRooted(pattern, path);
      ReachedBelow(segments[k], prefix, path);
    }
    if Rooted(pattern) && AllClean(prefix) && GoesOnBelow(segments, prefix) {
      var k :| 0 <= k < |segments| && |prefix| < |segments[k]| && Fits(segments[k][..|prefix|], prefix);
      var path := KnownPathIsReached(segments[k], pattern);
      assert known[k] == Render(segments[k]);
    }
  }

  /** A literal beginning of a known path that goes on reaches it; only a whole known path may reach nothing. */
  lemma BeginningGoesOn(segments: seq<seq<string>>, prefix: seq<string>)
    requires BeginsKnown(segments, prefix) && prefix !in segments
    ensures GoesOnBelow(segments, prefix)
  {
    var k :| 0 <= k < |segments| && (Below(prefix, segments[k]) || prefix == segments[k]);
    assert segments[k] in segments;
    assert Fits(segments[k][..|prefix|], prefix);
  }

  lemma BeginningIsClean(known: seq<string>, segments: seq<seq<string>>, prefix: seq<string>)
    requires KnownPaths(known, segments) && BeginsKnown(segments, prefix)
    ensures AllClean(prefix)
  {
    var k :| 0 <= k < |segments| && (Below(prefix, segments[k]) || prefix == segments[k]);
    if Below(prefix, segments[k]) {
      PrefixIsClean(prefix, segments[k]);
    }
  }

  /**
   When the trailing-slash branch of the check is right. It passes a pattern that reaches nothing
   exactly when the pattern is a whole known path, below which no known path goes on. It reports a
   pattern that reaches something exactly when known paths go on below it through wildcards only.
   */
  lemma PrefixCheckErrs(known: seq<string>, segments: seq<seq<string>>, pattern: string)
    requires KnownPaths(known, segments) && EndsInSlash(pattern)
    ensures MatchesKnownPath(known, pattern) && !Satisfiable(known, pattern) <==>
            Rooted(pattern) && Segments(pattern) in segments && !GoesOnBelow(segments, Segments(pattern))
    ensures !MatchesKnownPath(known, pattern) && Satisfiable(known, pattern) <==>
            && Rooted(pattern) && AllClean(Segments(pattern))
            && GoesOnBelow(segments, Segments(pattern)) && !BeginsKnown(segments, Segments(pattern))
  {
    var prefix := Segments(pattern);
    KnownPrefixes(known, segments, pattern);
    PrefixReaches(known, segments, pattern);
    if BeginsKnown(segments, prefix) {
      BeginningIsClean(known, segments, prefix);
      if prefix !in segments {
        BeginningGoesOn(segments, prefix);
      }
    }
    if prefix in segments {
      var k :| 0 <= k < |segments| && segments[k] == prefix;
      assert BeginsKnown(segments, prefix);
    }
  }

  /** It accepts too much: `/info/` passes although nothing is served below `/info`. */
  lemma PrefixCheckAcceptsTooMuch()
    ensures MatchesKnownPath(["/info"], "/info/") && !Satisfiable(["/info"], "/info/")
  {
    assert Flat(["info"]) == "/info" && Flat(["info"]) + "/" == "/info/";
    assert KnownPaths(["/info"], [["info"]]);
    RootedSegments(["info"]);
    assert [["info"]][0] == ["info"];
    PrefixCheckErrs(["/info"], [["info"]], "/info/");
  }

  /** It also refuses too much: `/exec/x/` fails although it accepts `/exec/x/json`. */
  lemma PrefixCheckRefusesTooMuch()
    ensures !MatchesKnownPath(["/exec/*/json"], "/exec/x/") && Satisfiable(["/exec/*/json"], "/exec/x/")
  {
    FlatThree("exec", "*", "json");
    FlatTwo("exec", "x");
    assert "/" + "exec" + "/" + "*" + "/" + "json" == "/exec/*/json";
    assert "/" + "exec" + "/" + "x" + "/" == "/exec/x/";
    assert "x" != "*" by {
      assert "x"[0] != "*"[0];
    }
    OperationBelow("exec", "json", "x");
  }

  /** What one id reaches through the wildcard of an operation. */
  lemma OperationBelow(section: string, operation: string, id: string)
    requires Clean(section) && Clean(operation) && Clean(id) && id != "*"
    ensures var known, pattern := [Flat([section, "*", operation])], Flat([section, id]) + "/";
            !MatchesKnownPath(known, pattern) && Satisfiable(known, pattern)
  {
    var segments, prefix := [section, "*", operation], [section, id];
    var known := [Flat(segments)];
    assert KnownPaths(known, [segments]);
    RootedSegments(prefix);
    assert segments[..2] == [section, "*"] && Fits(segments[..2], prefix);
    assert [segments][0] == segments;
    assert GoesOnBelow([segments], prefix);
    assert !Below(prefix, segments) by {
      assert segments[..2][1] == "*" && prefix[1] == id;
    }
    PrefixCheckErrs(known, [segments], Flat(prefix) + "/");
  }

  lemma FlatTwo(a: string, b: string)
    ensures Flat([a, b]) == "/" + a + "/" + b
  {
    assert [a, b][1..] == [b];
    assert Flat([b]) == "/" + b;
  }

  lemma FlatThree(a: string, b: string, c: string)
    ensures Flat([a, b, c]) == "/" + a + "/" + b + "/" + c
  {
    assert [a, b, c][1..] == [b, c];
    FlatTwo(b, c);
  }
}
