/**
 The remove-dot-segments algorithm of section 5.2.4 of RFC 3986, with its input and
 output buffers, and the proof that the segment stack refines it.
 */
module Rfc3986 {
  import opened Text
  import opened Paths

  /** The first path segment of the input: an initial slash, if any, up to the next one. */
  function FirstSegment(input: string): (n: nat)
    requires input != ""
    ensures 0 < n <= |input|
  {
    1 + UpToSlash(input[1..])
  }

  function UpToSlash(s: string): (n: nat)
    ensures n <= |s|
  {
    if s == "" || s[0] == '/' then 0 else 1 + UpToSlash(s[1..])
  }

  /** The output without its last segment and the slash before it. */
  function DropLastSegment(output: string): string {
    if output == "" then ""
    else if output[|output| - 1] == '/' then output[..|output| - 1]
    else DropLastSegment(output[..|output| - 1])
  }

  datatype Buffers = Buffers(input: string, output: string)

  /** One of the steps 2A to 2E. */
  function Step(input: string, output: string): (next: Buffers)
    requires input != ""
    ensures |next.input| < |input|
  {
    // 2A
    if "../" <= input then Buffers(input[3..], output)
    else if "./" <= input then Buffers(input[2..], output)
    // 2B
    else if "/./" <= input then Buffers(input[2..], output)
    else if input == "/." then Buffers("/", output)
    // 2C
    else if "/../" <= input then Buffers(input[3..], DropLastSegment(output))
    else if input == "/.." then Buffers("/", DropLastSegment(output))
    // 2D
    else if input == "." || input == ".." then Buffers("", output)
    // 2E
    else
      var n := FirstSegment(input);
      Buffers(input[n..], output + input[..n])
  }

  /** The steps, repeated until the input buffer is empty. */
  function RemoveDots(input: string, output: string): string
    decreases |input|
  {
    if input == "" then output
    else
      var next := Step(input, output);
      RemoveDots(next.input, next.output)
  }

  /** Runs of slashes collapsed to one. */
  function Collapse(path: string): string {
    if |path| < 2 then path
    else if path[0] == '/' && path[1] == '/' then Collapse(path[1..])
    else [path[0]] + Collapse(path[1..])
  }

  /** A trailing slash other than the root's is dropped. */
  function DropTrailingSlash(path: string): string {
    if |path| > 1 && path[|path| - 1] == '/' then path[..|path| - 1] else path
  }

  // ── One segment at a time ──

  lemma {:induction false} UpToSlashOf(segment: string, rest: string)
    requires '/' !in segment && (rest == "" || rest[0] == '/')
    ensures UpToSlash(segment + rest) == |segment|
  {
    if segment == "" {
      assert segment + rest == rest;
    } else {
      assert (segment + rest)[1..] == segment[1..] + rest;
      UpToSlashOf(segment[1..], rest);
    }
  }

  lemma {:induction false} DropLastOf(front: string, segment: string)
    requires '/' !in segment
    ensures DropLastSegment(front + "/" + segment) == front
  {
    var s := front + "/" + segment;
    if segment == "" {
      assert s[..|s| - 1] == front;
    } else {
      assert s[..|s| - 1] == front + "/" + segment[..|segment| - 1];
      DropLastOf(front, segment[..|segment| - 1]);
    }
  }

  /** Popping the stack is dropping the last segment of the output buffer. */
  lemma DropLastPops(stack: seq<string>)
    requires AllClean(stack)
    ensures DropLastSegment(Flat(stack)) == Flat(Turn(stack, ".."))
  {
    if |stack| > 0 {
      var n := |stack| - 1;
      assert stack == stack[..n] + [stack[n]];
      FlatConcat(stack[..n], [stack[n]]);
      assert Flat([stack[n]]) == "/" + stack[n];
      assert Flat(stack) == Flat(stack[..n]) + "/" + stack[n];
      DropLastOf(Flat(stack[..n]), stack[n]);
    }
  }

  /** Only the last of these segments may be empty. */
  predicate Collapsed(segments: seq<string>) {
    forall i :: 0 <= i < |segments| - 1 ==> segments[i] != ""
  }

  /** Whether the output keeps a slash at its end. */
  predicate Dangling(last: string) {
    last == "" || last == "." || last == ".."
  }

  /** Only the segments `.` and `..` make an input start a 2B or 2C step. */
  lemma NotDotted(segment: string, rest: string)
    requires '/' !in segment && segment != "." && segment != ".." && (rest == "" || rest[0] == '/')
    ensures var input := "/" + segment + rest;
            && !("/./" <= input) && !("/../" <= input) && input != "/." && input != "/.."
  {
    var input := "/" + segment + rest;
    assert input[0] == '/' && forall k :: 0 <= k < |segment| ==> input[k + 1] == segment[k];
    assert rest != "" ==> input[1 + |segment|] == '/';
    assert |segment| == 1 ==> segment == [segment[0]];
    assert |segment| == 2 ==> segment == [segment[0], segment[1]];
    assert !(|input| > 2 && input[1] == '.' && input[2] == '/');
    assert !(|input| > 3 && input[1] == '.' && input[2] == '.' && input[3] == '/');
    assert input[1..] == segment + rest;
  }

  /** Step 2E: a segment that is not a dot segment moves to the output. */
  lemma MoveSegment(output: string, segment: string, rest: string)
    requires '/' !in segment && segment != "." && segment != ".." && (rest == "" || rest[0] == '/')
    ensures Step("/" + segment + rest, output) == Buffers(rest, output + ("/" + segment))
  {
    var input := "/" + segment + rest;
    NotDotted(segment, rest);
    assert input[0] == '/';
    assert input[1..] == segment + rest;
    UpToSlashOf(segment, rest);
    var n := FirstSegment(input);
    assert input[n..] == rest && input[..n] == "/" + segment;
  }

  /** Steps 2B and 2C: a dot segment goes, and takes the last output segment with it or not. */
  lemma MoveDots(output: string, rest: string)
    requires rest == "" || rest[0] == '/'
    ensures Step("/." + rest, output) == Buffers(if rest == "" then "/" else rest, output)
    ensures Step("/.." + rest, output) == Buffers(if rest == "" then "/" else rest, DropLastSegment(output))
  {
    var one, two := "/." + rest, "/.." + rest;
    assert one[0] == '/' && one[1] == '.' && two[0] == '/' && two[1] == '.' && two[2] == '.';
    assert one[2..] == rest && two[3..] == rest;
    if rest != "" {
      assert one[2] == '/' && two[3] == '/';
    } else {
      assert one == "/." && two == "/..";
    }
  }

  /** A segment and what follows it: one step, and one turn of the stack. */
  lemma StepIsTurn(stack: seq<string>, segment: string, rest: string)
    requires AllClean(stack) && '/' !in segment && (rest == "" || rest[0] == '/') && (segment == "" ==> rest == "")
    ensures var next := Step("/" + segment + rest, Flat(stack));
            if segment == "." || segment == ".." then
              next == Buffers(if rest == "" then "/" else rest, Flat(Turn(stack, segment)))
            else if segment == "" then next == Buffers(rest, Flat(stack) + "/")
            else next == Buffers(rest, Flat(Turn(stack, segment)))
  {
    var output := Flat(stack);
    if segment == "." || segment == ".." {
      assert "/" + segment == if segment == "." then "/." else "/..";
      MoveDots(output, rest);
      DropLastPops(stack);
    } else {
      MoveSegment(output, segment, rest);
      if segment == "" {
        assert "/" + segment == "/";
      } else {
        FlatConcat(stack, [segment]);
        FlatOfOne(segment);
      }
    }
  }

  /** A lone slash moves to the output. */
  lemma LoneSlash(output: string)
    ensures RemoveDots("/", output) == output + "/"
  {
    assert "/" + "" + "" == "/";
    MoveSegment(output, "", "");
    assert Step("/", output) == Buffers("", output + "/");
  }

  /** The last segment: one turn of the stack, and a slash left over when it names nothing. */
  lemma LastSegment(stack: seq<string>, segment: string)
    requires AllClean(stack) && '/' !in segment
    ensures RemoveDots("/" + segment, Flat(stack)) ==
            Flat(Turn(stack, segment)) + if Dangling(segment) then "/" else ""
  {
    var input, output := "/" + segment, Flat(Turn(stack, segment));
    assert input + "" == input && output + "" == output;
    StepIsTurn(stack, segment, "");
    if segment == "." || segment == ".." {
      assert Step(input, Flat(stack)) == Buffers("/", output);
      LoneSlash(output);
    } else {
      assert Step(input, Flat(stack)).input == "";
    }
  }

  lemma FlatOfOne(segment: string)
    ensures Flat([segment]) == "/" + segment
  {
    assert Flat([segment]) == "/" + segment + "";
  }

  /** What the buffers do to a list of segments is what the stack does to them. */
  lemma {:induction false} RemoveDotsBySegment(stack: seq<string>, segments: seq<string>)
    requires AllClean(stack) && Free(segments, '/') && Collapsed(segments) && |segments| > 0
    ensures RemoveDots(Flat(segments), Flat(stack)) ==
            Flat(ResolveOnto(stack, segments)) + if Dangling(segments[|segments| - 1]) then "/" else ""
    decreases |segments|
  {
    var segment, rest := segments[0], segments[1..];
    var next := Turn(stack, segment);
    if |rest| == 0 {
      FlatOfOne(segment);
      assert segments == [segment];
      LastSegment(stack, segment);
    } else {
      RemoveDotsBySegment(next, rest);
      assert Flat(segments) == "/" + segment + Flat(rest);
      assert Flat(rest) != "" && Flat(rest)[0] == '/';
      StepIsTurn(stack, segment, Flat(rest));
      assert RemoveDots(Flat(segments), Flat(stack)) == RemoveDots(Flat(rest), Flat(next));
    }
  }

  // ── Collapsing slashes ──

  lemma {:induction false} CollapseKeepsHead(path: string)
    requires path != ""
    ensures Collapse(path) != "" && Collapse(path)[0] == path[0]
  {
    if |path| >= 2 && path[0] == '/' && path[1] == '/' {
      CollapseKeepsHead(path[1..]);
    }
  }

  /** Collapsing keeps the non-empty segments and leaves none empty between two slashes. */
  lemma {:induction false} CollapseSegments(path: string)
    ensures NonEmpty(Split(Collapse(path), '/')) == NonEmpty(Split(path, '/'))
    ensures path != "" ==> Collapsed(Split(Collapse(path), '/')[1..])
  {
    if |path| >= 2 {
      CollapseSegments(path[1..]);
      CollapseKeepsHead(path[1..]);
      var inner := Collapse(path[1..]);
      var parts := Split(inner, '/');
      if path[0] == '/' && path[1] == '/' {
        assert Split(path, '/') == [""] + Split(path[1..], '/');
      } else {
        assert Collapse(path)[1..] == inner;
        if path[0] == '/' {
          // The next byte is not a slash, so the piece it begins is not empty.
          assert parts[0] != "";
          assert Split(Collapse(path), '/')[1..] == parts;
          assert parts == [parts[0]] + parts[1..];
        } else {
          assert Split(Collapse(path), '/') == [[path[0]] + parts[0]] + parts[1..];
          assert Split(Collapse(path), '/')[1..] == parts[1..];
          var whole := Split(path[1..], '/');
          SamePieces(path[0], parts, whole);
        }
      }
    }
  }

  /** Putting a byte before the first piece does the same to equal non-empty pieces. */
  lemma SamePieces(c: char, a: seq<string>, b: seq<string>)
    requires |a| > 0 && |b| > 0 && NonEmpty(a) == NonEmpty(b) && (a[0] == "" <==> b[0] == "")
    ensures NonEmpty([[c] + a[0]] + a[1..]) == NonEmpty([[c] + b[0]] + b[1..])
  {
    assert ([[c] + a[0]] + a[1..])[1..] == a[1..];
    assert ([[c] + b[0]] + b[1..])[1..] == b[1..];
    if a[0] != "" {
      assert NonEmpty(a)[0] == a[0] && NonEmpty(b)[0] == b[0];
      assert NonEmpty(a)[1..] == NonEmpty(a[1..]) && NonEmpty(b)[1..] == NonEmpty(b[1..]);
    }
  }

  /** Writing a stack out with the buffers' leftover slash, then dropping that slash. */
  lemma DropLeftover(stack: seq<string>, dangling: bool)
    requires AllClean(stack) && (stack == [] ==> dangling)
    ensures DropTrailingSlash(Flat(stack) + if dangling then "/" else "") == Render(stack)
  {
    if |stack| > 0 {
      FlatEnd(stack);
      var text := Flat(stack);
      assert (text + "/")[..|text|] == text;
      assert text + "" == text;
    }
  }

  /** A stack that ends up empty was left so by a last segment that names nothing. */
  lemma EmptyStackDangles(segments: seq<string>)
    requires |segments| > 0 && Resolve(segments) == []
    ensures Dangling(segments[|segments| - 1])
  {
    var n := |segments| - 1;
    assert segments == segments[..n] + [segments[n]];
    ResolveOntoConcat([], segments[..n], [segments[n]]);
  }

  /** A collapsed absolute path is its segments behind slashes, and resolves like the original. */
  lemma CollapsedPath(path: string) returns (segments: seq<string>)
    requires path != "" && path[0] == '/'
    ensures |segments| > 0 && Free(segments, '/') && Collapsed(segments)
    ensures Collapse(path) == Flat(segments)
    ensures Resolve(segments) == Resolve(Split(path, '/'))
  {
    var flat := Collapse(path);
    CollapseKeepsHead(path);
    CollapseSegments(path);
    var parts := Split(flat, '/');
    segments := Split(flat[1..], '/');
    SplitSound(flat, '/');
    SplitSound(flat[1..], '/');
    assert parts == [""] + segments && parts[1..] == segments;
    FlatIsJoin(segments);
    ResolveOntoNonEmpty([], Split(path, '/'));
    ResolveOntoNonEmpty([], parts);
  }

  /**
   On every absolute path the segment stack returns what section 5.2.4 returns on the
   slash-collapsed path, with a trailing slash other than the root's dropped.
   */
  lemma StackRefinesBuffers(path: string)
    requires path != "" && path[0] == '/'
    ensures DotFree(path) == DropTrailingSlash(RemoveDots(Collapse(path), ""))
  {
    var segments := CollapsedPath(path);
    var stack := Resolve(segments);
    ResolveOntoClean([], segments);
    if stack == [] {
      EmptyStackDangles(segments);
    }
    RemoveDotsBySegment([], segments);
    DropLeftover(stack, Dangling(segments[|segments| - 1]));
  }
}
