/**
 Respelling a request path: the ways section 6.2.2 of RFC 3986 and the Docker API allow one
 resource to be written, and the proof that none of them changes the normal form.
 */
module Respelling {
  import opened Results
  import opened Text
  import opened Paths
  import opened PercentCoding
  import opened Normalize
  import Utf8
  import Rules
  import CreateBody

  datatype Step =
    | /** Percent-encode `text`, with a choice of case for every hex digit. */
      EscapeText(before: string, text: string, after: string, cases: seq<(bool, bool)>)
    | /** Insert an empty or a `.` segment. */
      InsertIdle(at: nat, segment: string)
    | /** Insert a segment and a `..` that takes it back. */
      InsertPair(at: nat, name: string)
    | /** Put an API version in front. */
      PrefixVersion(version: string)

  /** Bytes that an escape may stand for without being part of one or of the path's structure. */
  predicate Escapable(text: string) {
    forall i :: 0 <= i < |text| ==> text[i] as int < 0x100 && text[i] != '%' && !Separator(text[i])
  }

  function AsHex(cases: seq<(bool, bool)>): seq<Spelling> {
    seq(|cases|, i requires 0 <= i < |cases| => Hex(cases[i].0, cases[i].1))
  }

  predicate Applies(step: Step, path: string) {
    match step
    case EscapeText(before, text, after, cases) =>
      path == before + text + after && Unescape(before).Ok? && Escapable(text) && |cases| == |text|
    case InsertIdle(at, segment) =>
      at <= |Split(path, '/')| && (segment == "" || segment == ".")
    case InsertPair(at, name) =>
      at <= |Split(path, '/')| && '/' !in name && Decode(name).Ok? && Clean(Decode(name).value)
    case PrefixVersion(version) =>
      && path != "" && path[0] == '/'
      && VersionSegment(version)
      && AllDecode(Split(path, '/')) && Resolved(path) != [] && !Versioned(Resolved(path))
  }

  function Insert(path: string, at: nat, extra: seq<string>): string
    requires at <= |Split(path, '/')|
  {
    var parts := Split(path, '/');
    Join(parts[..at] + extra + parts[at..], '/')
  }

  function Apply(step: Step, path: string): string
    requires Applies(step, path)
  {
    match step
    case EscapeText(before, text, after, cases) => before + Encode(text, AsHex(cases)) + after
    case InsertIdle(at, segment) => Insert(path, at, [segment])
    case InsertPair(at, name) => Insert(path, at, [name, ".."])
    case PrefixVersion(version) => "/" + version + path
  }

  // ── Each step on its own ──

  /** Text in the middle of a path can be exchanged for other text that unescapes to the same. */
  lemma ExchangeText(before: string, text: string, other: string, after: string)
    requires Unescape(before).Ok? && Unescape(text).Ok? && Unescape(other) == Unescape(text)
    ensures Unescape(before + other + after) == Unescape(before + text + after)
  {
    UnescapeConcat(before, other);
    UnescapeConcat(before, text);
    UnescapeConcat(before + other, after);
    UnescapeConcat(before + text, after);
  }

  lemma EscapeKeepsNormal(before: string, text: string, after: string, cases: seq<(bool, bool)>)
    requires Unescape(before).Ok? && Escapable(text) && |cases| == |text|
    ensures Decode(before + Encode(text, AsHex(cases)) + after) == Decode(before + text + after)
  {
    UnescapeEncoded(text, AsHex(cases));
    PlainIsItself(text);
    ExchangeText(before, text, Encode(text, AsHex(cases)), after);
  }

  /** Paths whose segments resolve alike have the same normal form. */
  lemma SameResolved(path: string, other: string)
    requires AllDecode(Split(path, '/')) && AllDecode(Split(other, '/'))
    requires Resolved(path) == Resolved(other)
    ensures Normal(path) == Normal(other)
  {
    NormalBySegment(path);
    NormalBySegment(other);
  }

  lemma ResolveInserted(front: seq<string>, extra: seq<string>, back: seq<string>)
    requires forall stack :: ResolveOnto(stack, extra) == stack
    ensures Resolve(front + extra + back) == Resolve(front + back)
  {
    ResolveOntoConcat([], front + extra, back);
    ResolveOntoConcat([], front, extra);
    ResolveOntoConcat([], front, back);
  }

  lemma DecodeInserted(front: seq<string>, extra: seq<string>, back: seq<string>)
    requires AllDecode(front + back) && AllDecode(extra)
    requires forall stack :: ResolveOnto(stack, DecodeEach(extra)) == stack
    ensures AllDecode(front + extra + back)
    ensures Resolve(DecodeEach(front + extra + back)) == Resolve(DecodeEach(front + back))
  {
    DecodeParts(front, back);
    DecodeEachConcat(front, extra);
    DecodeEachConcat(front + extra, back);
    DecodeEachConcat(front, back);
    ResolveInserted(DecodeEach(front), DecodeEach(extra), DecodeEach(back));
  }

  lemma DecodeParts(front: seq<string>, back: seq<string>)
    requires AllDecode(front + back)
    ensures AllDecode(front) && AllDecode(back)
  {
    forall i | 0 <= i < |front| ensures Decode(front[i]).Ok? {
      assert front[i] == (front + back)[i];
    }
    forall i | 0 <= i < |back| ensures Decode(back[i]).Ok? {
      assert back[i] == (front + back)[|front| + i];
    }
  }

  lemma SplitInserted(path: string, at: nat, extra: seq<string>)
    requires at <= |Split(path, '/')| && Free(extra, '/') && |extra| > 0
    ensures Split(Insert(path, at, extra), '/') == Split(path, '/')[..at] + extra + Split(path, '/')[at..]
  {
    var parts := Split(path, '/');
    SplitSound(path, '/');
    var more := parts[..at] + extra + parts[at..];
    assert Free(more, '/');
    SplitOfJoin(more, '/');
  }

  /** Segments that resolve to nothing on every stack can be inserted anywhere. */
  lemma InsertKeepsNormal(path: string, at: nat, extra: seq<string>)
    requires at <= |Split(path, '/')| && Decode(path).Ok?
    requires Free(extra, '/') && AllDecode(extra) && |extra| > 0
    requires forall stack :: ResolveOnto(stack, DecodeEach(extra)) == stack
    ensures Normal(Insert(path, at, extra)) == Normal(path)
  {
    var front, back := Split(path, '/')[..at], Split(path, '/')[at..];
    assert Split(path, '/') == front + back;
    NormalBySegment(path);
    DecodeInserted(front, extra, back);
    SplitInserted(path, at, extra);
    SameResolved(path, Insert(path, at, extra));
  }

  lemma IdleKeepsNormal(path: string, at: nat, segment: string)
    requires Decode(path).Ok? && Applies(InsertIdle(at, segment), path)
    ensures Normal(Insert(path, at, [segment])) == Normal(path)
  {
    PlainIsItself(segment);
    Utf8.AsciiIsValid(segment);
    assert DecodeEach([segment]) == [segment];
    forall stack ensures ResolveOnto(stack, [segment]) == stack {
      ResolveTwo(stack, segment, "");
    }
    InsertKeepsNormal(path, at, [segment]);
  }

  lemma PairKeepsNormal(path: string, at: nat, name: string)
    requires Decode(path).Ok? && Applies(InsertPair(at, name), path)
    ensures Normal(Insert(path, at, [name, ".."])) == Normal(path)
  {
    PlainIsItself("..");
    Utf8.AsciiIsValid("..");
    var extra, plain := [name, ".."], Decode(name).value;
    assert AllDecode(extra) && DecodeEach(extra) == [plain, ".."];
    forall stack ensures ResolveOnto(stack, [plain, ".."]) == stack {
      ResolveTwo(stack, plain, "..");
      assert (stack + [plain])[..|stack|] == stack;
    }
    InsertKeepsNormal(path, at, extra);
  }

  /** A version segment is plain ASCII: `v`, digits and dots. */
  lemma VersionIsPlain(version: string)
    requires VersionSegment(version)
    ensures '%' !in version && '/' !in version && Utf8.AllAscii(version) && Clean(version)
  {
    IsVersionExactly(version[1..]);
    VersionCharacters(version[1..]);
    assert forall i :: 0 < i < |version| ==> version[i] == version[1..][i - 1];
  }

  lemma AbsoluteSegments(tail: string)
    ensures Split("/" + tail, '/') == [""] + Split(tail, '/')
  {
    var path := "/" + tail;
    assert path != "" && path[0] == '/' && path[1..] == tail;
  }

  lemma VersionAndSegments(version: string, tail: string)
    requires '/' !in version
    ensures Split(version + ("/" + tail), '/') == [version] + Split(tail, '/')
  {
    assert version + ("/" + tail) == version + ['/'] + tail;
    SplitConcat(version, '/', tail);
    SplitWhole(version, '/');
  }

  lemma SegmentsBehindVersion(version: string, tail: string)
    requires '/' !in version
    ensures Split("/" + (version + ("/" + tail)), '/') == ["", version] + Split(tail, '/')
  {
    AbsoluteSegments(version + ("/" + tail));
    VersionAndSegments(version, tail);
  }

  /** The segments of an absolute path, without and behind a version. */
  lemma PrefixedSegments(tail: string, version: string)
    requires '/' !in version
    ensures Split("/" + tail, '/') == [""] + Split(tail, '/')
    ensures Split("/" + version + ("/" + tail), '/') == ["", version] + Split(tail, '/')
  {
    AbsoluteSegments(tail);
    SegmentsBehindVersion(version, tail);
    assert "/" + version + ("/" + tail) == "/" + (version + ("/" + tail));
  }

  /** A version in front stays at the bottom of the stack, or is popped. */
  lemma ResolvePrefixed(version: string, tail: seq<string>)
    requires VersionSegment(version) && AllDecode([""] + tail)
    ensures AllDecode(["", version] + tail)
    ensures var resolved := Resolve(DecodeEach([""] + tail));
            var prefixed := Resolve(DecodeEach(["", version] + tail));
            prefixed == [version] + resolved || prefixed == resolved
  {
    VersionIsPlain(version);
    PlainIsItself(version);
    PlainIsItself("");
    Utf8.AsciiIsValid(version);
    DecodeParts([""], tail);
    DecodeEachConcat([""], tail);
    DecodeEachConcat(["", version], tail);
    assert DecodeEach([""]) == [""] && DecodeEach(["", version]) == ["", version];
    ResolveBehind(version, DecodeEach(tail));
  }

  lemma ResolveBehind(version: string, segments: seq<string>)
    requires Clean(version)
    ensures var resolved, prefixed := Resolve([""] + segments), Resolve(["", version] + segments);
            prefixed == [version] + resolved || prefixed == resolved
  {
    ResolveOntoConcat([], [""], segments);
    ResolveOntoConcat([], ["", version], segments);
    ResolveTwo([], "", version);
    assert Turn(Turn([], ""), version) == [version];
    assert [version] + [] == [version];
    ResolveOntoBottom(version, [], segments);
  }

  lemma PrefixKeepsNormal(path: string, version: string)
    requires Applies(PrefixVersion(version), path)
    ensures Normal("/" + version + path) == Normal(path)
  {
    var longer := "/" + version + path;
    VersionIsPlain(version);
    assert path == "/" + path[1..];
    PrefixedSegments(path[1..], version);
    ResolvePrefixed(version, Split(path[1..], '/'));
    var resolved := Resolved(path);
    if Resolved(longer) == resolved {
      SameResolved(path, longer);
    } else {
      NormalBySegment(path);
      NormalBySegment(longer);
      assert ([version] + resolved)[1..] == resolved;
    }
  }

  lemma StepKeepsNormal(step: Step, path: string)
    requires Decode(path).Ok? && Applies(step, path)
    ensures Normal(Apply(step, path)) == Normal(path)
  {
    match step
    case EscapeText(before, text, after, cases) => EscapeKeepsNormal(before, text, after, cases);
    case InsertIdle(at, segment) => IdleKeepsNormal(path, at, segment);
    case InsertPair(at, name) => PairKeepsNormal(path, at, name);
    case PrefixVersion(version) => PrefixKeepsNormal(path, version);
  }

  // ── Chains of steps ──

  /** Every step applies to what the steps before it wrote. */
  predicate Chain(path: string, steps: seq<Step>)
    decreases |steps|
  {
    |steps| == 0 || (Applies(steps[0], path) && Chain(Apply(steps[0], path), steps[1..]))
  }

  function Respell(path: string, steps: seq<Step>): string
    requires Chain(path, steps)
    decreases |steps|
  {
    if |steps| == 0 then path else Respell(Apply(steps[0], path), steps[1..])
  }

  /** From any decodable path, every finite chain of respellings keeps the normal form. */
  lemma {:induction false} RespellingKeepsNormal(path: string, steps: seq<Step>)
    requires Decode(path).Ok? && Chain(path, steps)
    ensures Normal(Respell(path, steps)) == Normal(path)
    decreases |steps|
  {
    if |steps| > 0 {
      StepKeepsNormal(steps[0], path);
      RespellingKeepsNormal(Apply(steps[0], path), steps[1..]);
    }
  }

  /** Hence no chain of respellings changes what any filter decides, or whether it inspects the body. */
  lemma RespellingKeepsVerdict(
    filter: Rules.Filter, path: string, steps: seq<Step>, verb: string, body: string,
    json: string -> Option<CreateBody.Json>)
    requires Decode(path).Ok? && Chain(path, steps)
    ensures filter.CheckHead(verb, Respell(path, steps)) == filter.CheckHead(verb, path)
    ensures filter.CheckRequest(verb, Respell(path, steps), body, json) == filter.CheckRequest(verb, path, body, json)
  {
    RespellingKeepsNormal(path, steps);
  }
}
