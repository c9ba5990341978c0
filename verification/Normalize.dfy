/**
 The path normaliser: decode, remove dot segments, strip the API version
 (`normalize_path` and `strip_api_version` in src/security.rs).
 */
module Normalize {
  import opened Results
  import opened Text
  import opened Paths
  import opened PercentCoding
  import Utf8

  // ── API versions ──

  predicate IsVersion(s: string) {
    && s != ""
    && forall part <- Split(s, '.') :: part != "" && Digits(part)
  }

  function StripApiVersion(path: string): string {
    if !("/v" <= path) then path
    else
      var version := Split(path[2..], '/')[0];
      if IsVersion(version) then
        FirstPieceIsPrefix(path[2..]);
        path[1 + 1 + |version|..]
      else path
  }

  function Normal(path: string): Result<string> {
    match Decode(path)
    case Err(e) => Err(e)
    case Ok(decoded) => Ok(StripApiVersion(DotFree(decoded)))
  }

  method NormalizePath(path: string) returns (result: Result<string>)
    ensures result == Normal(path)
  {
    var decoded := PercentDecode(path);
    if decoded.Err? {
      return Err(decoded.error);
    }
    var resolved := RemoveDotSegments(decoded.value);
    return Ok(StripApiVersion(resolved));
  }

  lemma FirstPieceIsPrefix(s: string)
    ensures Split(s, '/')[0] <= s
  {
    SplitSound(s, '/');
  }

  // ── Segment by segment ──

  predicate VersionSegment(segment: string) {
    segment != "" && segment[0] == 'v' && IsVersion(segment[1..])
  }

  predicate Versioned(segments: seq<string>) {
    |segments| > 0 && VersionSegment(segments[0])
  }

  lemma {:induction false} FirstPiece(a: string, rest: string)
    requires '/' !in a && (rest == "" || rest[0] == '/')
    ensures Split(a + rest, '/')[0] == a
  {
    if a == "" {
      assert a + rest == rest;
    } else {
      assert (a + rest)[1..] == a[1..] + rest;
      FirstPiece(a[1..], rest);
    }
  }

  /** On a canonical path, stripping drops the first segment when it is a version. */
  lemma StripBySegment(segments: seq<string>)
    requires AllClean(segments)
    ensures StripApiVersion(Render(segments)) ==
            if Versioned(segments) then Flat(segments[1..]) else Render(segments)
  {
    if |segments| > 0 {
      var path, first, rest := Render(segments), segments[0], Flat(segments[1..]);
      assert path == "/" + first + rest;
      assert path[0] == '/' && path[1] == first[0];
      if first[0] == 'v' {
        assert path[2..] == first[1..] + rest;
        FirstPiece(first[1..], rest);
        assert path[|first| + 1..] == rest;
      }
    }
  }

  /** The decoded path with its dot segments resolved, as segments. */
  function Resolved(path: string): seq<string>
    requires AllDecode(Split(path, '/'))
  {
    Resolve(DecodeEach(Split(path, '/')))
  }

  /**
   Normalising a path is decoding its segments one by one, resolving them, and dropping
   at most one leading version segment. It fails exactly when some segment does not decode.
   */
  lemma NormalBySegment(path: string)
    ensures Normal(path).Ok? <==> AllDecode(Split(path, '/'))
    ensures AllDecode(Split(path, '/')) ==>
              && AllClean(Resolved(path))
              && var resolved := Resolved(path);
                 Normal(path) == Ok(if Versioned(resolved) then Flat(resolved[1..]) else Render(resolved))
  {
    var parts := Split(path, '/');
    SplitSound(path, '/');
    DecodeBySegment(parts);
    if AllDecode(parts) {
      DotFreeIsCanonical(Decode(path).value);
      StripBySegment(Resolved(path));
    }
  }

  /** The segments of a normal form. */
  lemma NormalSegments(path: string)
    requires AllDecode(Split(path, '/'))
    ensures Normal(path).Ok?
    ensures Segments(Normal(path).value) ==
            if Versioned(Resolved(path)) then Resolved(path)[1..] else Resolved(path)
  {
    NormalBySegment(path);
    var resolved := Resolved(path);
    if Versioned(resolved) && |resolved| == 1 {
      assert Flat(resolved[1..]) == "";
    } else if Versioned(resolved) {
      SegmentsOfRender(resolved[1..]);
    } else {
      SegmentsOfRender(resolved);
    }
  }

  /** A normal form is canonical, or empty exactly when only a version was left. */
  lemma NormalFormsAreCanonical(path: string)
    requires AllDecode(Split(path, '/'))
    ensures Normal(path).Ok?
    ensures Normal(path).value == "" <==> |Resolved(path)| == 1 && Versioned(Resolved(path))
    ensures Normal(path).value != "" ==> Canonical(Normal(path).value)
  {
    NormalBySegment(path);
    var resolved := Resolved(path);
    if Versioned(resolved) && |resolved| > 1 {
      assert AllClean(resolved[1..]) && Flat(resolved[1..]) == Render(resolved[1..]);
    } else if !Versioned(resolved) {
      assert Canonical(Render(resolved));
    }
  }

  lemma NormalIsNormalised(path: string)
    requires Normal(path).Ok?
    ensures Normalised(Normal(path).value)
  {
    NormalBySegment(path);
    NormalFormsAreCanonical(path);
  }

  // ── Normalising twice ──

  lemma {:induction false} PlainIsItself(s: string)
    requires '%' !in s
    ensures Unescape(s) == Ok(s)
  {
    if s != "" {
      PlainIsItself(s[1..]);
      assert [s[0]] + s[1..] == s;
    }
  }

  lemma {:induction false} UnescapeShrinks(s: string)
    requires Unescape(s).Ok?
    ensures |Unescape(s).value| <= |s|
    ensures '%' in s ==> |Unescape(s).value| < |s|
  {
    if s != "" {
      if s[0] != '%' {
        UnescapeShrinks(s[1..]);
      } else {
        UnescapeShrinks(s[3..]);
      }
    }
  }

  lemma {:induction false} ResolveShrinks(stack: seq<string>, segments: seq<string>)
    ensures |Flat(ResolveOnto(stack, segments))| <= |Flat(stack)| + |Flat(segments)|
    decreases |segments|
  {
    if |segments| > 0 {
      ResolveShrinks(Turn(stack, segments[0]), segments[1..]);
      if |stack| > 0 {
        assert stack == stack[..|stack| - 1] + [stack[|stack| - 1]];
        FlatConcat(stack[..|stack| - 1], [stack[|stack| - 1]]);
      }
      FlatConcat(stack, [segments[0]]);
    }
  }

  lemma DotFreeShrinks(path: string)
    requires path != "" && path[0] == '/'
    ensures |DotFree(path)| <= |path|
  {
    var rest := Split(path[1..], '/');
    var parts := Split(path, '/');
    SplitSound(path, '/');
    assert parts == [""] + rest;
    FlatIsJoin(rest);
    ResolveShrinks([], rest);
    assert parts[1..] == rest;
    assert Resolve(parts) == ResolveOnto([], rest);
  }

  lemma StripShrinks(path: string)
    ensures |StripApiVersion(path)| <= |path|
  {
    if "/v" <= path {
      FirstPieceIsPrefix(path[2..]);
    }
  }

  /** What decodes from an escape is shorter, so a normal form with a `%` is not its own. */
  lemma NormalShrinks(path: string)
    requires path != "" && path[0] == '/' && '%' in path && Normal(path).Ok?
    ensures |Normal(path).value| < |path|
  {
    UnescapeShrinks(path);
    var decoded := Decode(path).value;
    assert decoded[0] == '/';
    DotFreeShrinks(decoded);
    StripShrinks(DotFree(decoded));
  }

  /**
   Normalising is not idempotent: exactly the normal forms that are non-empty, hold no
   `%` and do not begin with another version are their own normal form.
   */
  lemma NormalTwice(path: string)
    requires Normal(path).Ok?
    ensures var n := Normal(path).value;
            Normal(n) == Ok(n) <==> n != "" && '%' !in n && !Versioned(Segments(n))
  {
    NormalBySegment(path);
    NormalFormsAreCanonical(path);
    var n := Normal(path).value;
    if n == "" {
      assert Split(n, '/') == [""];
      assert DotFree("") == "/";
    } else {
      var segments :| AllClean(segments) && n == Render(segments);
      SegmentsOfRender(segments);
      assert n[0] == '/';
      if '%' in n {
        if Normal(n).Ok? {
          NormalShrinks(n);
        }
      } else {
        PlainIsItself(n);
        NormalIsUtf8(path);
        FixedPointsAreCanonical(n);
        StripBySegment(segments);
        if Versioned(segments) {
          assert Flat(segments) == "/" + segments[0] + Flat(segments[1..]);
        }
      }
    }
  }

  /** A canonical path without escapes loses at most its version. */
  lemma NormalOfPlain(segments: seq<string>)
    requires AllClean(segments) && '%' !in Render(segments) && Utf8.Valid(Render(segments))
    ensures Normal(Render(segments)) == Ok(if Versioned(segments) then Flat(segments[1..]) else Render(segments))
  {
    var path := Render(segments);
    PlainIsItself(path);
    assert Canonical(path);
    FixedPointsAreCanonical(path);
    StripBySegment(segments);
  }

  // ── Which segments are versions ──

  /** One or more numbers with dots between them. */
  ghost predicate VersionNumber(s: string) {
    exists numbers: seq<string> :: |numbers| > 0 && AllNumbers(numbers) && s == Join(numbers, '.')
  }

  predicate AllNumbers(numbers: seq<string>) {
    forall i :: 0 <= i < |numbers| ==>
      numbers[i] != "" && forall k :: 0 <= k < |numbers[i]| ==> '0' <= numbers[i][k] <= '9'
  }

  lemma IsVersionExactly(s: string)
    ensures IsVersion(s) <==> VersionNumber(s)
  {
    if IsVersion(s) {
      var parts := Split(s, '.');
      SplitSound(s, '.');
      assert forall i :: 0 <= i < |parts| ==> parts[i] in parts;
      assert AllNumbers(parts);
    }
    if VersionNumber(s) {
      var numbers: seq<string> :| |numbers| > 0 && AllNumbers(numbers) && s == Join(numbers, '.');
      assert Free(numbers, '.');
      SplitOfJoin(numbers, '.');
      assert numbers[0] != "";
    }
  }

  /** A canonical path without escapes keeps its first segment exactly when that is no `v` before a version number. */
  lemma UnversionedIsKept(segments: seq<string>)
    requires AllClean(segments) && |segments| > 0 && '%' !in Render(segments) && Utf8.Valid(Render(segments))
    ensures Normal(Render(segments)) == Ok(Render(segments)) <==>
            !(segments[0][0] == 'v' && VersionNumber(segments[0][1..]))
  {
    NormalOfPlain(segments);
    IsVersionExactly(segments[0][1..]);
    assert Flat(segments) == "/" + segments[0] + Flat(segments[1..]);
  }

  /** A version in front of any such path is stripped, and leaves the path. */
  lemma VersionIsStripped(number: string, rest: seq<string>)
    requires VersionNumber(number) && AllClean(rest) && '%' !in Flat(rest) && Utf8.Valid(Flat(rest))
    ensures Normal("/v" + number + Flat(rest)) == Ok(Flat(rest))
  {
    var first := "v" + number;
    var segments := [first] + rest;
    VersionCharacters(number);
    IsVersionExactly(number);
    FirstIsPlain(number);
    assert segments[1..] == rest && first[1..] == number;
    var front := "/" + first;
    assert Flat(segments) == front + Flat(rest);
    Utf8.AsciiThenValid(front, Flat(rest));
    NormalOfPlain(segments);
    assert "/v" + number == front;
  }

  lemma FirstIsPlain(number: string)
    requires number != "" && forall k :: 0 <= k < |number| ==> number[k] == '.' || '0' <= number[k] <= '9'
    ensures Clean("v" + number) && '%' !in "/" + ("v" + number) && Utf8.AllAscii("/" + ("v" + number))
  {
    var first := "v" + number;
    assert first[0] == 'v' && forall k :: 0 < k < |first| ==> first[k] == number[k - 1];
  }

  /** So is a dotted version, such as `/v1.55`. */
  lemma DottedVersionIsStripped(major: string, minor: string, rest: seq<string>)
    requires AllNumbers([major, minor]) && AllClean(rest) && '%' !in Flat(rest) && Utf8.Valid(Flat(rest))
    ensures Normal("/v" + (major + "." + minor) + Flat(rest)) == Ok(Flat(rest))
  {
    var number := Dotted(major, minor);
    VersionIsStripped(number, rest);
  }

  lemma Dotted(major: string, minor: string) returns (number: string)
    requires AllNumbers([major, minor])
    ensures number == major + "." + minor && VersionNumber(number)
    ensures forall k :: 0 <= k < |number| ==> number[k] == '.' || '0' <= number[k] <= '9'
  {
    var numbers := [major, minor];
    number := major + "." + minor;
    assert numbers[0] == major && numbers[1] == minor && numbers[1..] == [minor];
    assert Join(numbers, '.') == major + ['.'] + minor;
  }

  lemma {:induction false} NumbersJoined(numbers: seq<string>)
    requires |numbers| > 0 && AllNumbers(numbers)
    ensures var s := Join(numbers, '.');
            && s != "" && '0' <= s[0] <= '9' && '0' <= s[|s| - 1] <= '9'
            && forall k :: 0 <= k < |s| ==> s[k] == '.' || '0' <= s[k] <= '9'
  {
    assert numbers[0] != "";
    if |numbers| > 1 {
      NumbersJoined(numbers[1..]);
    }
  }

  lemma VersionCharacters(s: string)
    requires VersionNumber(s)
    ensures s != "" && '0' <= s[0] <= '9' && '0' <= s[|s| - 1] <= '9'
    ensures forall k :: 0 <= k < |s| ==> s[k] == '.' || '0' <= s[k] <= '9'
  {
    var numbers: seq<string> :| |numbers| > 0 && AllNumbers(numbers) && s == Join(numbers, '.');
    NumbersJoined(numbers);
  }

  /** So `/volumes`, `/version` and `/v1.` stay in front, whatever path without escapes follows. */
  lemma NamesAreKept(first: string, rest: seq<string>)
    requires first == "volumes" || first == "version" || first == "v1."
    requires AllClean(rest) && '%' !in Flat(rest) && Utf8.Valid(Flat(rest))
    ensures Normal(Flat([first] + rest)) == Ok(Flat([first] + rest))
  {
    NameIsPlain(first);
    NameIsNoVersion(first);
    KeptInFront(first, rest);
  }

  lemma NameIsPlain(first: string)
    requires first == "volumes" || first == "version" || first == "v1."
    ensures Clean(first) && '%' !in first && Utf8.AllAscii(first)
  {
  }

  lemma NameIsNoVersion(first: string)
    requires first == "volumes" || first == "version" || first == "v1."
    ensures !VersionSegment(first)
  {
    NoVersion(first);
  }

  lemma KeptInFront(first: string, rest: seq<string>)
    requires Clean(first) && '%' !in first && Utf8.AllAscii(first) && !VersionSegment(first)
    requires AllClean(rest) && '%' !in Flat(rest) && Utf8.Valid(Flat(rest))
    ensures Normal(Flat([first] + rest)) == Ok(Flat([first] + rest))
  {
    var segments, front := [first] + rest, "/" + first;
    assert segments[1..] == rest && Flat(segments) == front + Flat(rest);
    Utf8.AsciiThenValid(front, Flat(rest));
    NormalOfPlain(segments);
  }

  lemma NoVersion(segment: string)
    requires |segment| > 1 && (!('0' <= segment[1] <= '9') || segment[|segment| - 1] == '.')
    ensures !VersionSegment(segment)
  {
    IsVersionExactly(segment[1..]);
    assert segment[1..][0] == segment[1];
    if VersionNumber(segment[1..]) {
      VersionCharacters(segment[1..]);
      assert false;
    }
  }

  predicate Word(segment: string) {
    segment != "" && forall i :: 0 <= i < |segment| ==> 'a' <= segment[i] <= 'z' || '0' <= segment[i] <= '9'
  }

  lemma WordIsPlain(segment: string)
    requires Word(segment)
    ensures Clean(segment) && '%' !in segment && Utf8.AllAscii(segment)
  {
    assert 'a' <= segment[0] <= 'z' || '0' <= segment[0] <= '9';
  }

  lemma {:induction false} PlainFlat(segments: seq<string>)
    requires forall i :: 0 <= i < |segments| ==> Word(segments[i])
    ensures AllClean(segments) && '%' !in Flat(segments) && Utf8.AllAscii(Flat(segments))
  {
    if |segments| > 0 {
      PlainFlat(segments[1..]);
      WordIsPlain(segments[0]);
      assert forall i :: 0 < i < |segments| ==> segments[i] == segments[1..][i - 1];
    }
  }

  /** A path behind two versions, such as `/v1/v2/info`, loses one each time it is normalised. */
  lemma BehindTwoVersions(one: string, two: string, name: string)
    requires Word(one) && Word(two) && Word(name) && VersionSegment(one) && VersionSegment(two)
    ensures Normal(Flat([one, two, name])) == Ok(Flat([two, name]))
    ensures Normal(Flat([two, name])) == Ok(Flat([name]))
  {
    assert [two, name][1..] == [name] && [one, two, name][1..] == [two, name];
    PlainFlat([two, name]);
    PlainFlat([one, two, name]);
    Utf8.AsciiIsValid(Flat([two, name]));
    Utf8.AsciiIsValid(Flat([one, two, name]));
    NormalOfPlain([two, name]);
    NormalOfPlain([one, two, name]);
  }

  lemma ResolvedIsUtf8(path: string)
    requires AllDecode(Split(path, '/'))
    ensures forall i :: 0 <= i < |Resolved(path)| ==> Utf8.Valid(Resolved(path)[i])
  {
    ResolveKeeps([], DecodeEach(Split(path, '/')));
  }

  lemma RenderIsUtf8(segments: seq<string>)
    requires forall i :: 0 <= i < |segments| ==> Utf8.Valid(segments[i])
    ensures Utf8.Valid(Flat(segments)) && Utf8.Valid(Render(segments))
  {
    FlatIsUtf8("", segments);
    assert "" + Flat(segments) == Flat(segments);
    Utf8.AsciiIsValid("/");
  }

  /** A normal form is valid UTF-8. */
  lemma NormalIsUtf8(path: string)
    requires Normal(path).Ok?
    ensures Utf8.Valid(Normal(path).value)
  {
    NormalBySegment(path);
    ResolvedIsUtf8(path);
    RenderIsUtf8(if Versioned(Resolved(path)) then Resolved(path)[1..] else Resolved(path));
  }

  lemma {:induction false} ResolveKeeps(stack: seq<string>, segments: seq<string>)
    requires forall i :: 0 <= i < |stack| ==> Utf8.Valid(stack[i])
    requires forall i :: 0 <= i < |segments| ==> Utf8.Valid(segments[i])
    ensures forall i :: 0 <= i < |ResolveOnto(stack, segments)| ==> Utf8.Valid(ResolveOnto(stack, segments)[i])
    decreases |segments|
  {
    if |segments| > 0 {
      ResolveKeeps(Turn(stack, segments[0]), segments[1..]);
    }
  }

  lemma FlatBehind(front: string, segments: seq<string>)
    requires |segments| > 0
    ensures front + Flat(segments) == front + ['/'] + segments[0] + Flat(segments[1..])
  {
  }

  lemma {:induction false} FlatIsUtf8(front: string, segments: seq<string>)
    requires Utf8.Valid(front) && forall i :: 0 <= i < |segments| ==> Utf8.Valid(segments[i])
    ensures Utf8.Valid(front + Flat(segments))
    decreases |segments|
  {
    if |segments| == 0 {
      assert front + "" == front;
    } else {
      Utf8.ValidAtAscii(front, '/', segments[0]);
      FlatIsUtf8(front + ['/'] + segments[0], segments[1..]);
      FlatBehind(front, segments);
    }
  }
}
