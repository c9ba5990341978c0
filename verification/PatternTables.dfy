/**
 Tables of endpoint patterns read as runs of one shape, and what each run asks of a path.
 */
module PatternTables {
  import opened Paths
  import Patterns

  predicate MatchesSome(table: seq<string>, path: string) {
    exists pattern <- table :: Patterns.Matches(pattern, path)
  }

  /** The same for a part of a table, from `first` up to `last`. */
  predicate MatchesIn(table: seq<string>, first: nat, last: nat, path: string)
    requires last <= |table|
  {
    exists k :: first <= k < last && Patterns.Matches(table[k], path)
  }

  predicate Plain(name: string) {
    Clean(name) && name != "*"
  }

  /** From `first` on the table has `front`, a name and `back`, for one name after the other. */
  predicate RunAt(front: string, names: seq<string>, back: string, table: seq<string>, first: nat) {
    && first + |names| <= |table|
    && forall k :: 0 <= k < |names| ==> Clean(names[k]) && table[first + k] == front + names[k] + back
  }

  // ── One pattern of each shape ──

  lemma WordSays(name: string, path: string)
    requires Plain(name) && Normalised(path)
    ensures Patterns.Matches("/" + name, path) <==> Segments(path) == [name]
  {
    if path == "" {
      NoSegmentsInNothing();
      Patterns.NothingMatchesEmpty("/" + name);
    } else {
      var segments :| AllClean(segments) && path == Render(segments);
      SegmentsOfRender(segments);
      assert Flat([name]) == "/" + name + "";
      assert Flat([name]) == "/" + name;
      Patterns.CleanMatchesFits([name], segments);
      assert Patterns.Fits([name], segments) <==> segments == [name];
    }
  }

  lemma UnderSays(name: string, path: string)
    requires Plain(name) && Normalised(path)
    ensures Patterns.Matches("/" + name + "/", path) <==> |Segments(path)| > 1 && Segments(path)[0] == name
  {
    if path == "" {
      NoSegmentsInNothing();
      Patterns.NothingMatchesEmpty("/" + name + "/");
    } else {
      var segments :| AllClean(segments) && path == Render(segments);
      SegmentsOfRender(segments);
      assert Flat([name]) == "/" + name + "";
      assert Flat([name]) == "/" + name;
      Patterns.CleanMatchesBelow([name], segments);
      if |segments| > 1 {
        assert segments[..1] == [segments[0]];
      }
    }
  }

  /** The name may be the wildcard. */
  lemma PairSays(section: string, name: string, path: string)
    requires Plain(section) && Clean(name) && Normalised(path)
    ensures Patterns.Matches("/" + section + "/" + name, path) <==>
            |Segments(path)| == 2 && Segments(path)[0] == section && (name == "*" || Segments(path)[1] == name)
  {
    if path == "" {
      NoSegmentsInNothing();
      Patterns.NothingMatchesEmpty("/" + section + "/" + name);
    } else {
      var segments :| AllClean(segments) && path == Render(segments);
      SegmentsOfRender(segments);
      Patterns.FlatTwo(section, name);
      Patterns.CleanMatchesFits([section, name], segments);
    }
  }

  lemma OperationSays(section: string, name: string, path: string)
    requires Plain(section) && Plain(name) && Normalised(path)
    ensures Patterns.Matches("/" + section + "/*/" + name, path) <==>
            |Segments(path)| == 3 && Segments(path)[0] == section && Segments(path)[2] == name
  {
    if path == "" {
      NoSegmentsInNothing();
      Patterns.NothingMatchesEmpty("/" + section + "/*/" + name);
    } else {
      var segments :| AllClean(segments) && path == Render(segments);
      SegmentsOfRender(segments);
      Patterns.FlatThree(section, "*", name);
      assert "/" + section + "/" + "*" + "/" + name == "/" + section + "/*/" + name;
      Patterns.CleanMatchesFits([section, "*", name], segments);
    }
  }

  // ── Runs ──

  lemma WordsSay(names: seq<string>, table: seq<string>, first: nat, path: string)
    requires RunAt("/", names, "", table, first) && "*" !in names && Normalised(path)
    ensures MatchesIn(table, first, first + |names|, path) <==> |Segments(path)| == 1 && Segments(path)[0] in names
  {
    var segments := Segments(path);
    forall k | 0 <= k < |names| ensures Patterns.Matches(table[first + k], path) <==> segments == [names[k]] {
      assert "/" + names[k] + "" == "/" + names[k];
      assert names[k] in names;
      WordSays(names[k], path);
    }
    RunSays(table, first, names, path, k => segments == [k]);
    if |segments| == 1 {
      assert segments == [segments[0]];
    }
  }

  lemma UnderSay(names: seq<string>, table: seq<string>, first: nat, path: string)
    requires RunAt("/", names, "/", table, first) && "*" !in names && Normalised(path)
    ensures MatchesIn(table, first, first + |names|, path) <==> |Segments(path)| > 1 && Segments(path)[0] in names
  {
    var segments := Segments(path);
    forall k | 0 <= k < |names|
      ensures Patterns.Matches(table[first + k], path) <==> |segments| > 1 && segments[0] == names[k]
    {
      assert names[k] in names;
      UnderSays(names[k], path);
    }
    RunSays(table, first, names, path, k => |segments| > 1 && segments[0] == k);
  }

  lemma PairsSay(front: string, section: string, names: seq<string>, table: seq<string>, first: nat, path: string)
    requires RunAt(front, names, "", table, first) && front == "/" + section + "/" && Plain(section) && Normalised(path)
    ensures MatchesIn(table, first, first + |names|, path) <==>
            |Segments(path)| == 2 && Segments(path)[0] == section && ("*" in names || Segments(path)[1] in names)
  {
    var segments := Segments(path);
    forall k | 0 <= k < |names|
      ensures Patterns.Matches(table[first + k], path) <==>
              |segments| == 2 && segments[0] == section && (names[k] == "*" || segments[1] == names[k])
    {
      assert front + names[k] + "" == front + names[k];
      PairSays(section, names[k], path);
    }
    RunSays(table, first, names, path,
            k => |segments| == 2 && segments[0] == section && (k == "*" || segments[1] == k));
  }

  lemma OperationsSay(front: string, section: string, names: seq<string>, table: seq<string>, first: nat, path: string)
    requires RunAt(front, names, "", table, first) && front == "/" + section + "/*/" && Plain(section)
    requires "*" !in names && Normalised(path)
    ensures MatchesIn(table, first, first + |names|, path) <==>
            |Segments(path)| == 3 && Segments(path)[0] == section && Segments(path)[2] in names
  {
    var segments := Segments(path);
    forall k | 0 <= k < |names|
      ensures Patterns.Matches(table[first + k], path) <==>
              |segments| == 3 && segments[0] == section && segments[2] == names[k]
    {
      assert front + names[k] + "" == front + names[k];
      assert names[k] in names;
      OperationSays(section, names[k], path);
    }
    RunSays(table, first, names, path, k => |segments| == 3 && segments[0] == section && segments[2] == k);
  }

  lemma TwoOperationsSay(
    front: string, section: string, a: string, b: string, table: seq<string>, first: nat, path: string)
    requires front == "/" + section + "/*/" && Plain(section) && Plain(a) && Plain(b)
    requires first + 2 <= |table| && table[first] == front + a && table[first + 1] == front + b && Normalised(path)
    ensures var s := Segments(path);
            MatchesIn(table, first, first + 2, path) <==> |s| == 3 && s[0] == section && (s[2] == a || s[2] == b)
  {
    assert front + a + "" == front + a && front + b + "" == front + b;
    OperationsSay(front, section, [a, b], table, first, path);
  }

  lemma ThreeOperationsSay(
    front: string, section: string, a: string, b: string, c: string, table: seq<string>, first: nat, path: string)
    requires front == "/" + section + "/*/" && Plain(section) && Plain(a) && Plain(b) && Plain(c)
    requires first + 3 <= |table| && Normalised(path)
    requires table[first] == front + a && table[first + 1] == front + b && table[first + 2] == front + c
    ensures var s := Segments(path);
            MatchesIn(table, first, first + 3, path) <==>
            |s| == 3 && s[0] == section && (s[2] == a || s[2] == b || s[2] == c)
  {
    assert front + a + "" == front + a && front + b + "" == front + b && front + c + "" == front + c;
    OperationsSay(front, section, [a, b, c], table, first, path);
  }

  /** A run matches when one of its names is asked for. */
  lemma RunSays(table: seq<string>, first: nat, names: seq<string>, path: string, asked: string -> bool)
    requires first + |names| <= |table|
    requires forall k :: 0 <= k < |names| ==> (Patterns.Matches(table[first + k], path) <==> asked(names[k]))
    ensures MatchesIn(table, first, first + |names|, path) <==> exists name <- names :: asked(name)
  {
    if MatchesIn(table, first, first + |names|, path) {
      var k :| first <= k < first + |names| && Patterns.Matches(table[k], path);
      assert table[k] == table[first + (k - first)];
      assert names[k - first] in names;
    }
    if exists name <- names :: asked(name) {
      var name :| name in names && asked(name);
      var k :| 0 <= k < |names| && names[k] == name;
      var m := first + k;
      assert first <= m < first + |names| && Patterns.Matches(table[m], path);
    }
  }

  // ── Whole tables ──

  lemma MatchesInParts(table: seq<string>, first: nat, middle: nat, last: nat, path: string)
    requires first <= middle <= last <= |table|
    ensures MatchesIn(table, first, last, path) <==>
            MatchesIn(table, first, middle, path) || MatchesIn(table, middle, last, path)
  {
  }

  lemma MatchesInWhole(table: seq<string>, path: string)
    ensures MatchesSome(table, path) <==> MatchesIn(table, 0, |table|, path)
  {
    if MatchesSome(table, path) {
      var pattern :| pattern in table && Patterns.Matches(pattern, path);
      var k :| 0 <= k < |table| && table[k] == pattern;
    }
  }
}
