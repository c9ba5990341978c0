/**
 Taking spaces off both ends of a byte string, for any notion of a space of one to three bytes.
 */
module Stripping {
  import opened Text

  /** The length of the space `s` begins with, or 0. */
  function LeadSpace(space: string -> bool, s: string): (n: nat)
    ensures n <= |s| && (n > 0 ==> space(s[..n]))
  {
    if |s| >= 1 && space(s[..1]) then 1
    else if |s| >= 2 && space(s[..2]) then 2
    else if |s| >= 3 && space(s[..3]) then 3
    else 0
  }

  /** The length of the space `s` ends with, or 0. */
  function LastSpace(space: string -> bool, s: string): (n: nat)
    ensures n <= |s| && (n > 0 ==> space(s[|s| - n..]))
  {
    if |s| >= 1 && space(s[|s| - 1..]) then 1
    else if |s| >= 2 && space(s[|s| - 2..]) then 2
    else if |s| >= 3 && space(s[|s| - 3..]) then 3
    else 0
  }

  function TrimStart(space: string -> bool, s: string): string
    decreases |s|
  {
    var n := LeadSpace(space, s);
    if n == 0 then s else TrimStart(space, s[n..])
  }

  function TrimEnd(space: string -> bool, s: string): string
    decreases |s|
  {
    var n := LastSpace(space, s);
    if n == 0 then s else TrimEnd(space, s[..|s| - n])
  }

  function TrimBy(space: string -> bool, s: string): string {
    TrimEnd(space, TrimStart(space, s))
  }

  // ── What spaces are like ──

  /** A byte that continues a UTF-8 character. */
  predicate Continues(c: char) {
    0x80 <= c as int < 0xC0
  }

  /** How many bytes a character has that begins with `c`, when it has at most three. */
  function Width(c: char): nat {
    if c as int < 0x80 then 1 else if c as int < 0xE0 then 2 else 3
  }

  /** The first byte of a space tells its length, and its other bytes begin nothing. */
  ghost predicate Delimited(space: string -> bool) {
    forall x :: space(x) ==>
      1 <= |x| <= 3 && |x| == Width(x[0]) && !Continues(x[0]) && forall i :: 0 < i < |x| ==> Continues(x[i])
  }

  ghost predicate AllSpaces(space: string -> bool, parts: seq<string>) {
    forall i :: 0 <= i < |parts| ==> space(parts[i])
  }

  /** Neither beginning nor ending with a space. */
  ghost predicate Bare(space: string -> bool, s: string) {
    && (forall i :: 0 <= i <= |s| ==> !space(s[..i]))
    && (forall i :: 0 <= i <= |s| ==> !space(s[i..]))
  }

  /** `t` is what is left of `s` between the spaces before and behind it. */
  ghost predicate IsTrimmedBy(space: string -> bool, s: string, t: string) {
    && Bare(space, t)
    && exists a, b :: AllSpaces(space, a) && AllSpaces(space, b) && s == Concat(a) + t + Concat(b)
  }

  lemma LeadSpaceIs(space: string -> bool, x: string, s: string)
    requires Delimited(space) && space(x)
    ensures LeadSpace(space, x + s) == |x|
  {
    var text := x + s;
    assert text[..|x|] == x;
    forall k | 0 < k < |x| ensures !space(text[..k]) {
      assert text[..k][0] == x[0];
    }
  }

  /** Of two spaces at the end the shorter would begin inside the longer. */
  lemma LastSpaceIs(space: string -> bool, s: string, x: string)
    requires Delimited(space) && space(x)
    ensures LastSpace(space, s + x) == |x|
  {
    var text := s + x;
    assert text[|text| - |x|..] == x;
    forall i | |s| < i < |text| ensures !space(text[i..]) {
      assert text[i..][0] == x[i - |s|];
    }
  }

  lemma BareExactly(space: string -> bool, s: string)
    requires Delimited(space)
    ensures Bare(space, s) <==> LeadSpace(space, s) == 0 && LastSpace(space, s) == 0
  {
    forall i | 0 <= i <= |s| ensures space(s[..i]) ==> LeadSpace(space, s) == i > 0 {
      assert s[..i] + s[i..] == s;
      if space(s[..i]) {
        LeadSpaceIs(space, s[..i], s[i..]);
      }
    }
    forall i | 0 <= i <= |s| ensures space(s[i..]) ==> LastSpace(space, s) == |s| - i > 0 {
      assert s[..i] + s[i..] == s;
      if space(s[i..]) {
        LastSpaceIs(space, s[..i], s[i..]);
      }
    }
  }

  // ── What is left ──

  lemma {:induction false} TrimStartDrops(space: string -> bool, s: string) returns (parts: seq<string>)
    ensures AllSpaces(space, parts) && s == Concat(parts) + TrimStart(space, s)
    decreases |s|
  {
    var n := LeadSpace(space, s);
    if n == 0 {
      parts := [];
      assert s == "" + s;
    } else {
      var rest := TrimStartDrops(space, s[n..]);
      parts := [s[..n]] + rest;
      assert parts[1..] == rest;
      Cut(s, n, Concat(rest), TrimStart(space, s[n..]));
    }
  }

  lemma Cut(s: string, n: nat, middle: string, end: string)
    requires n <= |s| && s[n..] == middle + end
    ensures s == s[..n] + middle + end
  {
    assert s == s[..n] + s[n..];
  }

  lemma {:induction false} TrimStartStops(space: string -> bool, s: string)
    ensures LeadSpace(space, TrimStart(space, s)) == 0
    decreases |s|
  {
    var n := LeadSpace(space, s);
    if n > 0 {
      TrimStartStops(space, s[n..]);
    }
  }

  lemma {:induction false} TrimEndDrops(space: string -> bool, s: string) returns (parts: seq<string>)
    ensures AllSpaces(space, parts) && s == TrimEnd(space, s) + Concat(parts)
    decreases |s|
  {
    var n := LastSpace(space, s);
    if n == 0 {
      parts := [];
      assert s == s + "";
    } else {
      var rest := TrimEndDrops(space, s[..|s| - n]);
      parts := OneMoreSpace(space, rest, s[|s| - n..]);
      CutEnd(s, n, TrimEnd(space, s[..|s| - n]), Concat(rest));
    }
  }

  lemma OneMoreSpace(space: string -> bool, parts: seq<string>, x: string) returns (more: seq<string>)
    requires AllSpaces(space, parts) && space(x)
    ensures AllSpaces(space, more) && Concat(more) == Concat(parts) + x
  {
    more := parts + [x];
    ConcatOneMore(parts, x);
  }

  lemma CutEnd(s: string, n: nat, start: string, middle: string)
    requires n <= |s| && s[..|s| - n] == start + middle
    ensures s == start + (middle + s[|s| - n..])
  {
    assert s == s[..|s| - n] + s[|s| - n..];
  }

  lemma {:induction false} TrimEndStops(space: string -> bool, s: string)
    ensures LastSpace(space, TrimEnd(space, s)) == 0
    decreases |s|
  {
    var n := LastSpace(space, s);
    if n > 0 {
      TrimEndStops(space, s[..|s| - n]);
    }
  }

  lemma TrimStartOnce(space: string -> bool, x: string, s: string)
    requires Delimited(space) && space(x)
    ensures TrimStart(space, x + s) == TrimStart(space, s)
  {
    LeadSpaceIs(space, x, s);
    assert (x + s)[|x|..] == s;
  }

  lemma TrimEndOnce(space: string -> bool, s: string, x: string)
    requires Delimited(space) && space(x)
    ensures TrimEnd(space, s + x) == TrimEnd(space, s)
  {
    LastSpaceIs(space, s, x);
    assert (s + x)[..|s|] == s;
  }

  lemma Associate(a: string, b: string, c: string)
    ensures a + b + c == a + (b + c)
  {
  }

  lemma {:induction false} TrimStartSkips(space: string -> bool, parts: seq<string>, s: string)
    requires Delimited(space) && AllSpaces(space, parts)
    ensures TrimStart(space, Concat(parts) + s) == TrimStart(space, s)
  {
    if |parts| == 0 {
      assert "" + s == s;
    } else {
      TrimStartSkips(space, parts[1..], s);
      TrimStartOnce(space, parts[0], Concat(parts[1..]) + s);
      Associate(parts[0], Concat(parts[1..]), s);
    }
  }

  lemma {:induction false} TrimEndSkips(space: string -> bool, s: string, parts: seq<string>)
    requires Delimited(space) && AllSpaces(space, parts)
    ensures TrimEnd(space, s + Concat(parts)) == TrimEnd(space, s)
  {
    if |parts| == 0 {
      assert s + "" == s;
    } else {
      var n := |parts| - 1;
      assert parts == parts[..n] + [parts[n]];
      ConcatOneMore(parts[..n], parts[n]);
      TrimEndSkips(space, s, parts[..n]);
      TrimEndOnce(space, s + Concat(parts[..n]), parts[n]);
      Associate(s, Concat(parts[..n]), parts[n]);
    }
  }

  lemma ConcatBegins(space: string -> bool, parts: seq<string>)
    requires Delimited(space) && AllSpaces(space, parts)
    ensures Concat(parts) == "" || !Continues(Concat(parts)[0])
  {
    if |parts| > 0 {
      assert space(parts[0]);
      assert Concat(parts)[0] == parts[0][0];
    }
  }

  /** No space reaches over from bare text into what does not continue a character. */
  lemma NoLeadSpace(space: string -> bool, t: string, b: string)
    requires Delimited(space) && Bare(space, t) && t != "" && (b == "" || !Continues(b[0]))
    ensures LeadSpace(space, t + b) == 0
  {
    forall n | 0 < n <= |t + b| ensures !space((t + b)[..n]) {
      var x := (t + b)[..n];
      if n <= |t| {
        assert x == t[..n];
      } else {
        assert x[|t|] == b[0];
      }
    }
  }

  lemma TrimStartOfBare(space: string -> bool, t: string, b: seq<string>)
    requires Delimited(space) && Bare(space, t) && AllSpaces(space, b) && t != ""
    ensures TrimStart(space, t + Concat(b)) == t + Concat(b)
  {
    ConcatBegins(space, b);
    NoLeadSpace(space, t, Concat(b));
  }

  lemma TrimEndOfBare(space: string -> bool, t: string, b: seq<string>)
    requires Delimited(space) && Bare(space, t) && AllSpaces(space, b)
    ensures TrimEnd(space, t + Concat(b)) == t
  {
    TrimEndSkips(space, t, b);
    BareExactly(space, t);
  }

  lemma TrimOfPadded(space: string -> bool, a: seq<string>, t: string, b: seq<string>)
    requires Delimited(space) && AllSpaces(space, a) && Bare(space, t) && AllSpaces(space, b)
    ensures TrimBy(space, Concat(a) + t + Concat(b)) == t
  {
    Associate(Concat(a), t, Concat(b));
    TrimStartSkips(space, a, t + Concat(b));
    if t == "" {
      assert t + Concat(b) == Concat(b) + "";
      TrimStartSkips(space, b, "");
    } else {
      TrimStartOfBare(space, t, b);
      TrimEndOfBare(space, t, b);
    }
  }

  /** What begins text without a leading space has none either. */
  lemma BeginningHasNoLeadSpace(space: string -> bool, t: string, b: string)
    requires Delimited(space) && LeadSpace(space, t + b) == 0
    ensures LeadSpace(space, t) == 0
  {
    var n := LeadSpace(space, t);
    if n > 0 {
      assert t[..n] + (t[n..] + b) == t + b;
      LeadSpaceIs(space, t[..n], t[n..] + b);
    }
  }

  lemma TrimmedIsBare(space: string -> bool, s: string)
    requires Delimited(space)
    ensures Bare(space, TrimBy(space, s))
  {
    var u := TrimStart(space, s);
    var parts := TrimEndDrops(space, u);
    TrimStartStops(space, s);
    TrimEndStops(space, u);
    BeginningHasNoLeadSpace(space, TrimEnd(space, u), Concat(parts));
    BareExactly(space, TrimEnd(space, u));
  }

  lemma TrimIsTrimmed(space: string -> bool, s: string)
    requires Delimited(space)
    ensures IsTrimmedBy(space, s, TrimBy(space, s))
  {
    TrimmedIsBare(space, s);
    var a := TrimStartDrops(space, s);
    var b := TrimEndDrops(space, TrimStart(space, s));
    Associate(Concat(a), TrimBy(space, s), Concat(b));
  }

  /** Trimming leaves exactly what is between the spaces around it. */
  lemma TrimByExactly(space: string -> bool, s: string, t: string)
    requires Delimited(space)
    ensures TrimBy(space, s) == t <==> IsTrimmedBy(space, s, t)
  {
    TrimIsTrimmed(space, s);
    if IsTrimmedBy(space, s, t) {
      var a, b :| AllSpaces(space, a) && AllSpaces(space, b) && s == Concat(a) + t + Concat(b);
      TrimOfPadded(space, a, t, b);
    }
  }
}
