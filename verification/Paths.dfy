/**
 Dot-segment removal (`remove_dot_segments` in src/security.rs) and canonical paths.
 */
module Paths {
  import opened Text

  predicate Clean(segment: string) {
    segment != "" && segment != "." && segment != ".." && '/' !in segment
  }

  predicate AllClean(segments: seq<string>) {
    forall i :: 0 <= i < |segments| ==> Clean(segments[i])
  }

  /** Every segment behind its own slash. */
  function Flat(segments: seq<string>): string {
    if |segments| == 0 then "" else "/" + segments[0] + Flat(segments[1..])
  }

  /** The path of a list of segments: the empty list is the root. */
  function Render(segments: seq<string>): string {
    if |segments| == 0 then "/" else Flat(segments)
  }

  ghost predicate Canonical(path: string) {
    exists segments :: AllClean(segments) && path == Render(segments)
  }

  /** The segments of a path as the matcher reads them: empty ones do not count. */
  function Segments(path: string): seq<string> {
    NonEmpty(Split(path, '/'))
  }

  // ── The segment stack ──

  function Turn(stack: seq<string>, segment: string): seq<string> {
    if segment == "" || segment == "." then stack
    else if segment == ".." then (if |stack| == 0 then stack else stack[..|stack| - 1])
    else stack + [segment]
  }

  function ResolveOnto(stack: seq<string>, segments: seq<string>): seq<string>
    decreases |segments|
  {
    if |segments| == 0 then stack else ResolveOnto(Turn(stack, segments[0]), segments[1..])
  }

  function Resolve(segments: seq<string>): seq<string> {
    ResolveOnto([], segments)
  }

  function DotFree(path: string): string {
    Render(Resolve(Split(path, '/')))
  }

  /** The source's two loops: the first pushes and pops segments, the second writes them out. */
  method RemoveDotSegments(path: string) returns (out: string)
    ensures out == DotFree(path)
  {
    var parts := Split(path, '/');
    var segments: seq<string> := [];
    for i := 0 to |parts|
      invariant ResolveOnto(segments, parts[i..]) == Resolve(parts)
    {
      var segment := parts[i];
      assert parts[i..][1..] == parts[i + 1..];
      if segment == "" || segment == "." {
      } else if segment == ".." {
        if |segments| > 0 {
          segments := segments[..|segments| - 1];
        }
      } else {
        segments := segments + [segment];
      }
    }
    if |segments| == 0 {
      return "/";
    }
    out := "";
    for i := 0 to |segments|
      invariant out == Flat(segments[..i])
    {
      FlatConcat(segments[..i], [segments[i]]);
      assert segments[..i + 1] == segments[..i] + [segments[i]];
      out := out + "/";
      out := out + segments[i];
    }
    assert segments[..|segments|] == segments;
  }

  lemma {:induction false} FlatConcat(a: seq<string>, b: seq<string>)
    ensures Flat(a + b) == Flat(a) + Flat(b)
  {
    if |a| == 0 {
      assert a + b == b;
    } else {
      assert (a + b)[1..] == a[1..] + b;
      FlatConcat(a[1..], b);
    }
  }

  /** A path of clean segments does not end in a slash. */
  lemma {:induction false} FlatEnd(segments: seq<string>)
    requires AllClean(segments) && |segments| > 0
    ensures |Flat(segments)| > 1 && Flat(segments)[|Flat(segments)| - 1] != '/'
  {
    var text := Flat(segments);
    if |segments| == 1 {
      assert Flat(segments[1..]) == "";
      assert text[|text| - 1] == segments[0][|segments[0]| - 1];
    } else {
      FlatEnd(segments[1..]);
      var rest := Flat(segments[1..]);
      assert text[|text| - 1] == rest[|rest| - 1];
    }
  }

  // ── Laws of the stack ──

  lemma {:induction false} ResolveOntoConcat(stack: seq<string>, a: seq<string>, b: seq<string>)
    ensures ResolveOnto(stack, a + b) == ResolveOnto(ResolveOnto(stack, a), b)
    decreases |a|
  {
    if |a| == 0 {
      assert a + b == b;
    } else {
      assert (a + b)[1..] == a[1..] + b;
      ResolveOntoConcat(Turn(stack, a[0]), a[1..], b);
    }
  }

  lemma ResolveTwo(stack: seq<string>, a: string, b: string)
    ensures ResolveOnto(stack, [a]) == Turn(stack, a)
    ensures ResolveOnto(stack, [a, b]) == Turn(Turn(stack, a), b)
  {
    assert [a, b][1..] == [b] && [b][1..] == [];
    assert ResolveOnto(Turn(stack, a), [b]) == Turn(Turn(stack, a), b);
  }

  /** Slash-free segments leave a stack of clean segments. */
  lemma {:induction false} ResolveOntoClean(stack: seq<string>, segments: seq<string>)
    requires AllClean(stack) && Free(segments, '/')
    ensures AllClean(ResolveOnto(stack, segments))
    decreases |segments|
  {
    if |segments| > 0 {
      ResolveOntoClean(Turn(stack, segments[0]), segments[1..]);
    }
  }

  /** Empty segments have no effect, before a `..` or anywhere else. */
  lemma {:induction false} ResolveOntoNonEmpty(stack: seq<string>, segments: seq<string>)
    ensures ResolveOnto(stack, NonEmpty(segments)) == ResolveOnto(stack, segments)
    decreases |segments|
  {
    if |segments| > 0 {
      ResolveOntoNonEmpty(Turn(stack, segments[0]), segments[1..]);
      if segments[0] != "" {
        assert NonEmpty(segments)[1..] == NonEmpty(segments[1..]);
      }
    }
  }

  /** Clean segments are pushed as they are. */
  lemma {:induction false} ResolveOntoPushes(stack: seq<string>, segments: seq<string>)
    requires AllClean(segments)
    ensures ResolveOnto(stack, segments) == stack + segments
    decreases |segments|
  {
    if |segments| > 0 {
      ResolveOntoPushes(stack + [segments[0]], segments[1..]);
      assert stack + [segments[0]] + segments[1..] == stack + segments;
    } else {
      assert stack + segments == stack;
    }
  }

  /** A segment below the stack either stays at the bottom, or is popped and leaves no trace. */
  lemma {:induction false} ResolveOntoBottom(bottom: string, stack: seq<string>, segments: seq<string>)
    ensures ResolveOnto([bottom] + stack, segments) == [bottom] + ResolveOnto(stack, segments)
         || ResolveOnto([bottom] + stack, segments) == ResolveOnto(stack, segments)
    decreases |segments|
  {
    if |segments| > 0 {
      var s := segments[0];
      if s == ".." && |stack| == 0 {
        assert Turn([bottom] + stack, s) == [];
      } else {
        assert Turn([bottom] + stack, s) == [bottom] + Turn(stack, s) by {
          if s == ".." {
            assert ([bottom] + stack)[..|stack|] == [bottom] + stack[..|stack| - 1];
          } else {
            assert [bottom] + stack + [s] == [bottom] + (stack + [s]);
          }
        }
        ResolveOntoBottom(bottom, Turn(stack, s), segments[1..]);
      }
    }
  }

  // ── Canonical paths ──

  /** What a normaliser can leave: a canonical path, or nothing at all. */
  ghost predicate Normalised(path: string) {
    path == "" || Canonical(path)
  }

  lemma NoSegmentsInNothing()
    ensures Segments("") == []
  {
    assert Split("", '/') == [""];
  }

  lemma {:induction false} SplitFlat(segments: seq<string>)
    requires Free(segments, '/')
    ensures Split(Flat(segments), '/') == [""] + segments
  {
    if |segments| > 0 {
      FlatIsJoin(segments);
      SplitOfJoin([""] + segments, '/');
    }
  }

  lemma {:induction false} FlatIsJoin(segments: seq<string>)
    requires |segments| > 0
    ensures Flat(segments) == Join([""] + segments, '/')
  {
    assert ([""] + segments)[1..] == segments;
    if |segments| > 1 {
      FlatIsJoin(segments[1..]);
      assert ([""] + segments[1..])[1..] == segments[1..];
    }
  }

  lemma SegmentsOfFlat(segments: seq<string>)
    requires Free(segments, '/') && "" !in segments
    ensures Segments(Flat(segments)) == segments
  {
    SplitFlat(segments);
    NonEmptyConcat([""], segments);
    NonEmptyAll(segments);
    assert NonEmpty([""]) == [];
  }

  /** Splitting a rendered path gives back the segments it was rendered from. */
  lemma SegmentsOfRender(segments: seq<string>)
    requires AllClean(segments)
    ensures Segments(Render(segments)) == segments
  {
    if |segments| == 0 {
      assert Split("/", '/') == ["", ""];
    } else {
      SegmentsOfFlat(segments);
    }
  }

  /** A slash at the end adds no segment. */
  lemma SegmentsOfSlashed(segments: seq<string>)
    requires AllClean(segments)
    ensures Segments(Flat(segments) + "/") == segments
  {
    var text := Flat(segments);
    assert text + "/" == text + ['/'] + "";
    SplitConcat(text, '/', "");
    NonEmptyConcat(Split(text, '/'), [""]);
    SegmentsOfFlat(segments);
  }

  /** Only slashes leave no segment. */
  lemma {:induction false} SegmentsHold(path: string, c: char)
    requires c in path && c != '/'
    ensures Segments(path) != []
  {
    if path[0] == '/' {
      SegmentsHold(path[1..], c);
      NonEmptyConcat([""], Split(path[1..], '/'));
    }
  }

  /** Two canonical paths are the same exactly when their segments are. */
  lemma RenderInjective(a: seq<string>, b: seq<string>)
    requires AllClean(a) && AllClean(b)
    ensures Render(a) == Render(b) <==> a == b
  {
    SegmentsOfRender(a);
    SegmentsOfRender(b);
  }

  /** Every output is canonical, and splitting it returns the stack it was written from. */
  lemma DotFreeIsCanonical(path: string)
    ensures AllClean(Resolve(Split(path, '/')))
    ensures Canonical(DotFree(path))
    ensures Segments(DotFree(path)) == Resolve(Split(path, '/'))
  {
    SplitSound(path, '/');
    ResolveOntoClean([], Split(path, '/'));
    SegmentsOfRender(Resolve(Split(path, '/')));
  }

  /** The fixed points are exactly the canonical paths. */
  lemma FixedPointsAreCanonical(path: string)
    ensures DotFree(path) == path <==> Canonical(path)
  {
    if Canonical(path) {
      var segments :| AllClean(segments) && path == Render(segments);
      SegmentsOfRender(segments);
      ResolveOntoNonEmpty([], Split(path, '/'));
      ResolveOntoPushes([], segments);
      assert [] + segments == segments;
    } else {
      DotFreeIsCanonical(path);
    }
  }

  /** Removing dot segments twice is removing them once. */
  lemma DotFreeIdempotent(path: string)
    ensures DotFree(DotFree(path)) == DotFree(path)
  {
    DotFreeIsCanonical(path);
    FixedPointsAreCanonical(DotFree(path));
  }
}
