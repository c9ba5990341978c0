/**
 Percent-decoding of request paths, as `percent_decode` in src/security.rs does it.
 */
module PercentCoding {
  import opened Results
  import opened Text
  import Utf8

  // ── Escapes ──

  /** Value of a hexadecimal digit of either case. */
  function HexValue(c: char): (v: Option<nat>)
    ensures v.Some? ==> v.value < 16
  {
    if '0' <= c <= '9' then Some(c as int - '0' as int)
    else if 'a' <= c <= 'f' then Some(c as int - 'a' as int + 10)
    else if 'A' <= c <= 'F' then Some(c as int - 'A' as int + 10)
    else None
  }

  /**
   `u8::from_str_radix` on two characters. It accepts a leading `+`, so `+f` is 15,
   which section 2.1 of RFC 3986 does not allow.
   */
  function HexPair(hi: char, lo: char): (v: Option<nat>)
    ensures v.Some? ==> v.value < 256
  {
    match (HexValue(hi), HexValue(lo))
    case (Some(h), Some(l)) => Some(16 * h + l)
    case (None, Some(l)) => if hi == '+' then Some(l) else None
    case _ => None
  }

  predicate Separator(c: char) {
    c == '/' || c == '\\'
  }

  /** What is wrong with the escape that starts `rest`, if anything is. */
  function EscapeFault(rest: string): (fault: Option<ProxyError>)
    requires rest != "" && rest[0] == '%'
  {
    if |rest| < 3 then Some(BadRequest)
    else match HexPair(rest[1], rest[2])
      case None => Some(BadRequest)
      case Some(v) => if Separator(v as char) then Some(Forbidden) else None
  }

  /** The byte of a sound escape. */
  function EscapeByte(rest: string): char
    requires rest != "" && rest[0] == '%' && EscapeFault(rest).None?
  {
    HexPair(rest[1], rest[2]).value as char
  }

  // ── What escapes are accepted ──

  predicate IsHex(c: char) {
    '0' <= c <= '9' || 'a' <= c <= 'f' || 'A' <= c <= 'F'
  }

  /** Hexadecimal digits are the twenty-two characters of section 2.1 of RFC 3986, with these values. */
  lemma HexDigitsExactly(c: char, v: nat)
    ensures HexValue(c) == Some(v) <==>
            v < 16 && (c == "0123456789abcdef"[v] || c == "0123456789ABCDEF"[v])
  {
  }

  /**
   Every escape, character by character: two hexadecimal digits, or a `+` and one. Refused as a
   separator are `%2f` and `%5c` in either case, and nothing else.
   */
  lemma EscapesExactly(rest: string)
    requires rest != "" && rest[0] == '%'
    ensures EscapeFault(rest) ==
            if |rest| < 3 || !IsHex(rest[2]) || !(IsHex(rest[1]) || rest[1] == '+') then Some(BadRequest)
            else if rest[1] == '2' && (rest[2] == 'f' || rest[2] == 'F') then Some(Forbidden)
            else if rest[1] == '5' && (rest[2] == 'c' || rest[2] == 'C') then Some(Forbidden)
            else None
  {
  }

  // ── Decoding ──

  function Prepend(front: string, r: Result<string>): Result<string> {
    match r
    case Ok(v) => Ok(front + v)
    case Err(e) => Err(e)
  }

  lemma PrependTwice(a: string, b: string, r: Result<string>)
    ensures Prepend(a, Prepend(b, r)) == Prepend(a + b, r)
  {
    if r.Ok? {
      assert a + (b + r.value) == a + b + r.value;
    }
  }

  lemma PrependNothing(a: string, r: Result<string>)
    ensures Prepend("", r) == r && Prepend(a, Ok("")) == Ok(a)
  {
    if r.Ok? {
      assert "" + r.value == r.value;
    }
    assert a + "" == a;
  }

  /** The escapes of `path` replaced from the left, without the final UTF-8 check. */
  function Unescape(path: string): Result<string> {
    if path == "" then Ok("")
    else if path[0] != '%' then Prepend([path[0]], Unescape(path[1..]))
    else match EscapeFault(path)
      case Some(error) => Err(error)
      case None => Prepend([EscapeByte(path)], Unescape(path[3..]))
  }

  function Decode(path: string): Result<string> {
    match Unescape(path)
    case Err(e) => Err(e)
    case Ok(out) => if Utf8.Valid(out) then Ok(out) else Err(BadRequest)
  }

  /** The decoding loop: one pass over the bytes, with an index and an output buffer. */
  method PercentDecode(path: string) returns (result: Result<string>)
    ensures result == Decode(path)
  {
    var out := "";
    var i := 0;
    assert path[0..] == path;
    PrependNothing(out, Unescape(path));
    while i < |path|
      invariant 0 <= i <= |path|
      invariant Unescape(path) == Prepend(out, Unescape(path[i..]))
    {
      if path[i] != '%' {
        assert path[i..][1..] == path[i + 1..];
        PrependTwice(out, [path[i]], Unescape(path[i + 1..]));
        out := out + [path[i]];
        i := i + 1;
        continue;
      }
      if i + 3 > |path| {
        return Err(BadRequest);
      }
      var byte := HexPair(path[i + 1], path[i + 2]);
      if byte.None? {
        return Err(BadRequest);
      }
      if byte.value as char == '/' || byte.value as char == '\\' {
        return Err(Forbidden);
      }
      assert path[i..][3..] == path[i + 3..];
      PrependTwice(out, [byte.value as char], Unescape(path[i + 3..]));
      out := out + [byte.value as char];
      i := i + 3;
    }
    PrependNothing(out, Ok(out));
    return if Utf8.Valid(out) then Ok(out) else Err(BadRequest);
  }

  // ── What a path spells ──

  /** A path is read as plain bytes and two-character escapes. */
  datatype Token = Plain(c: char) | Escaped(hi: char, lo: char)

  predicate Sound(t: Token) {
    match t
    case Plain(c) => c != '%'
    case Escaped(hi, lo) => HexPair(hi, lo).Some? && !Separator(HexPair(hi, lo).value as char)
  }

  predicate AllSound(ts: seq<Token>) {
    forall i :: 0 <= i < |ts| ==> Sound(ts[i])
  }

  function Spell(ts: seq<Token>): string {
    if |ts| == 0 then ""
    else (match ts[0] case Plain(c) => [c] case Escaped(hi, lo) => ['%', hi, lo]) + Spell(ts[1..])
  }

  function Meaning(ts: seq<Token>): string
    requires AllSound(ts)
  {
    if |ts| == 0 then ""
    else [match ts[0] case Plain(c) => c case Escaped(hi, lo) => HexPair(hi, lo).value as char] + Meaning(ts[1..])
  }

  /** A decodable prefix is a token boundary: what follows decodes on its own. */
  lemma {:induction false} UnescapeConcat(a: string, b: string)
    requires Unescape(a).Ok?
    ensures Unescape(a + b) == Prepend(Unescape(a).value, Unescape(b))
  {
    if a == "" {
      assert a + b == b;
      PrependNothing(a, Unescape(b));
    } else if a[0] != '%' {
      assert (a + b)[1..] == a[1..] + b;
      UnescapeConcat(a[1..], b);
      PrependTwice([a[0]], Unescape(a[1..]).value, Unescape(b));
    } else {
      assert (a + b)[3..] == a[3..] + b;
      UnescapeConcat(a[3..], b);
      PrependTwice([EscapeByte(a)], Unescape(a[3..]).value, Unescape(b));
    }
  }

  lemma {:induction false} UnescapeSpelled(ts: seq<Token>)
    requires AllSound(ts)
    ensures Unescape(Spell(ts)) == Ok(Meaning(ts))
  {
    if |ts| > 0 {
      UnescapeSpelled(ts[1..]);
      var s := Spell(ts);
      match ts[0]
      case Plain(c) =>
        assert s[1..] == Spell(ts[1..]);
      case Escaped(hi, lo) =>
        assert s[3..] == Spell(ts[1..]);
    }
  }

  /** Every path is sound tokens up to its end, or up to its leftmost faulty escape. */
  lemma {:induction false} Tokenise(path: string) returns (ts: seq<Token>, rest: string)
    ensures AllSound(ts) && path == Spell(ts) + rest
    ensures rest == "" || (rest[0] == '%' && EscapeFault(rest).Some?)
  {
    if path == "" {
      ts, rest := [], "";
    } else if path[0] != '%' {
      ts, rest := Tokenise(path[1..]);
      ts := [Plain(path[0])] + ts;
      assert path == [path[0]] + path[1..];
    } else if EscapeFault(path).Some? {
      ts, rest := [], path;
    } else {
      var tail;
      tail, rest := Tokenise(path[3..]);
      ts := [Escaped(path[1], path[2])] + tail;
      assert ts[1..] == tail;
      assert path == path[..3] + path[3..];
    }
  }

  /**
   Decoding succeeds with `out` exactly on the paths that spell `out` in sound tokens
   and whose `out` is UTF-8.
   */
  lemma DecodeSucceedsExactly(path: string, out: string)
    ensures Decode(path) == Ok(out) <==>
            Utf8.Valid(out) && exists ts :: AllSound(ts) && Spell(ts) == path && Meaning(ts) == out
  {
    forall ts | AllSound(ts) && Spell(ts) == path
      ensures Unescape(path) == Ok(Meaning(ts))
    {
      UnescapeSpelled(ts);
    }
    if Decode(path) == Ok(out) {
      var ts, rest := Tokenise(path);
      UnescapeSpelled(ts);
      UnescapeConcat(Spell(ts), rest);
      assert rest == "";
      assert path == Spell(ts);
    }
  }

  /** `ts` runs up to what makes decoding fail: a faulty escape, or the end of bytes that are not UTF-8. */
  ghost predicate FailsAfter(path: string, ts: seq<Token>, rest: string, kind: ProxyError) {
    && AllSound(ts)
    && path == Spell(ts) + rest
    && if rest == "" then kind == BadRequest && !Utf8.Valid(Meaning(ts))
       else rest[0] == '%' && EscapeFault(rest) == Some(kind)
  }

  /**
   On failure the leftmost faulty escape decides the kind: a separator is `Forbidden`,
   everything else is `BadRequest`. The UTF-8 check speaks only when no escape is faulty.
   */
  lemma DecodeFailsExactly(path: string, kind: ProxyError)
    ensures Decode(path) == Err(kind) <==> exists ts, rest :: FailsAfter(path, ts, rest, kind)
  {
    forall ts, rest | AllSound(ts) && path == Spell(ts) + rest
      ensures Unescape(path) == Prepend(Meaning(ts), Unescape(rest))
    {
      UnescapeSpelled(ts);
      UnescapeConcat(Spell(ts), rest);
    }
    if exists ts, rest :: FailsAfter(path, ts, rest, kind) {
      var ts, rest :| FailsAfter(path, ts, rest, kind);
      PrependNothing(Meaning(ts), Ok(""));
      assert Unescape(path) == Prepend(Meaning(ts), Unescape(rest));
    }
    if Decode(path) == Err(kind) {
      var ts, rest := Tokenise(path);
      PrependNothing(Meaning(ts), Ok(""));
      assert Unescape(path) == Prepend(Meaning(ts), Unescape(rest));
      assert FailsAfter(path, ts, rest, kind);
    }
  }

  /** An escape with a sign decodes, although section 2.1 of RFC 3986 has none; a raw backslash passes. */
  lemma SignedEscapeDecodes()
    ensures Decode("%+f") == Ok([15 as char]) && Decode("\\") == Ok("\\")
  {
    var escape, backslash := [Escaped('+', 'f')], [Plain('\\')];
    assert escape[1..] == [] && backslash[1..] == [];
    UnescapeSpelled(escape);
    UnescapeSpelled(backslash);
    assert Spell(escape) == "%+f" && Meaning(escape) == [15 as char];
    assert Spell(backslash) == "\\" && Meaning(backslash) == "\\";
    Utf8.AsciiIsValid([15 as char]);
    Utf8.AsciiIsValid("\\");
  }

  /** Every escape is a `%` and two hexadecimal digits, as section 2.1 of RFC 3986 has it. */
  predicate RfcEscapes(path: string) {
    forall i :: 0 <= i < |path| && path[i] == '%' ==>
      i + 2 < |path| && HexValue(path[i + 1]).Some? && HexValue(path[i + 2]).Some?
  }

  predicate HasSignedEscape(path: string) {
    exists i :: 0 <= i < |path| - 1 && path[i] == '%' && path[i + 1] == '+'
  }

  lemma ShiftedEscapes(path: string, n: nat)
    requires n <= |path| && forall i :: 0 < i < n ==> path[i] != '%'
    requires n > 0 && (path[0] == '%' ==> n == 3)
    ensures RfcEscapes(path) <==>
            (path[0] == '%' ==> HexValue(path[1]).Some? && HexValue(path[2]).Some?) && RfcEscapes(path[n..])
    ensures HasSignedEscape(path) <==> (path[0] == '%' && path[1] == '+') || HasSignedEscape(path[n..])
  {
    var rest := path[n..];
    assert forall i :: n <= i < |path| ==> path[i] == rest[i - n];
    if RfcEscapes(path) {
      forall i | 0 <= i < |rest| && rest[i] == '%'
        ensures i + 2 < |rest| && HexValue(rest[i + 1]).Some? && HexValue(rest[i + 2]).Some?
      {
        assert path[n + i] == '%';
      }
    }
    if HasSignedEscape(rest) {
      var i :| 0 <= i < |rest| - 1 && rest[i] == '%' && rest[i + 1] == '+';
      assert path[n + i] == '%' && path[n + i + 1] == '+';
    }
    if HasSignedEscape(path) {
      var i :| 0 <= i < |path| - 1 && path[i] == '%' && path[i + 1] == '+';
      if i > 0 {
        assert i >= n && rest[i - n] == '%' && rest[i - n + 1] == '+';
      }
    }
  }

  lemma {:induction false} UnescapableEscapes(path: string)
    requires Unescape(path).Ok?
    ensures RfcEscapes(path) <==> !HasSignedEscape(path)
  {
    if path != "" {
      if path[0] != '%' {
        ShiftedEscapes(path, 1);
        UnescapableEscapes(path[1..]);
      } else {
        assert HexPair(path[1], path[2]).Some?;
        ShiftedEscapes(path, 3);
        UnescapableEscapes(path[3..]);
      }
    }
  }

  /** A decodable path keeps to the escapes of section 2.1 of RFC 3986 exactly when no `%` is followed by a sign. */
  lemma SignsAreTheDeparture(path: string)
    requires Decode(path).Ok?
    ensures RfcEscapes(path) <==> !HasSignedEscape(path)
  {
    UnescapableEscapes(path);
  }

  // ── Encoding ──

  /** How one byte is written: as it is, or as an escape with a choice of case per digit. */
  datatype Spelling = Verbatim | Hex(upperHi: bool, upperLo: bool)

  function HexDigit(n: nat, upper: bool): (c: char)
    requires n < 16
    ensures HexValue(c) == Some(n)
  {
    if n < 10 then (n + '0' as int) as char
    else if upper then (n - 10 + 'A' as int) as char
    else (n - 10 + 'a' as int) as char
  }

  /** A choice is permitted when `%` is always escaped and separators never are. */
  predicate Permitted(s: string, how: seq<Spelling>) {
    && |how| == |s|
    && forall i :: 0 <= i < |s| ==>
         && (s[i] == '%' ==> how[i].Hex?)
         && (Separator(s[i]) ==> how[i].Verbatim?)
  }

  function Encode(s: string, how: seq<Spelling>): string
    requires Utf8.AllBytes(s) && Permitted(s, how)
  {
    if s == "" then ""
    else
      (match how[0]
       case Verbatim => [s[0]]
       case Hex(upHi, upLo) => ['%', HexDigit(s[0] as int / 16, upHi), HexDigit(s[0] as int % 16, upLo)])
      + Encode(s[1..], how[1..])
  }

  lemma {:induction false} UnescapeEncoded(s: string, how: seq<Spelling>)
    requires Utf8.AllBytes(s) && Permitted(s, how)
    ensures Unescape(Encode(s, how)) == Ok(s)
  {
    if s != "" {
      UnescapeEncoded(s[1..], how[1..]);
      var e := Encode(s, how);
      if how[0].Verbatim? {
        assert e[1..] == Encode(s[1..], how[1..]);
      } else {
        assert e[3..] == Encode(s[1..], how[1..]);
        assert 16 * (s[0] as int / 16) + s[0] as int % 16 == s[0] as int;
      }
      assert [s[0]] + s[1..] == s;
    }
  }

  /** Decoding inverts every permitted way of encoding valid UTF-8. */
  lemma DecodeInvertsEncode(s: string, how: seq<Spelling>)
    requires Utf8.Valid(s) && Permitted(s, how)
    ensures Utf8.AllBytes(s)
    ensures Decode(Encode(s, how)) == Ok(s)
  {
    Utf8.ValidAreBytes(s);
    UnescapeEncoded(s, how);
  }

  // ── Decoding and the segments of a path ──

  predicate AllDecode(parts: seq<string>) {
    forall i :: 0 <= i < |parts| ==> Decode(parts[i]).Ok?
  }

  function DecodeEach(parts: seq<string>): (out: seq<string>)
    requires AllDecode(parts)
    ensures |out| == |parts|
    ensures forall i :: 0 <= i < |parts| ==> out[i] == Decode(parts[i]).value
  {
    seq(|parts|, i requires 0 <= i < |parts| => Decode(parts[i]).value)
  }

  lemma DecodeEachConcat(a: seq<string>, b: seq<string>)
    requires AllDecode(a) && AllDecode(b)
    ensures AllDecode(a + b) && DecodeEach(a + b) == DecodeEach(a) + DecodeEach(b)
  {
    forall i | 0 <= i < |a + b| ensures Decode((a + b)[i]).Ok? {
      if i < |a| {
        assert (a + b)[i] == a[i];
      } else {
        assert (a + b)[i] == b[i - |a|];
      }
    }
  }

  /** Unescaping neither invents nor loses a slash. */
  lemma {:induction false} UnescapeSlash(s: string)
    requires Unescape(s).Ok?
    ensures '/' in Unescape(s).value ==> '/' in s
  {
    if s != "" {
      if s[0] != '%' {
        UnescapeSlash(s[1..]);
      } else {
        UnescapeSlash(s[3..]);
      }
    }
  }

  /** A slash cuts a path into two parts that unescape independently. */
  lemma {:induction false} UnescapeAtSlash(a: string, b: string)
    ensures Unescape(a).Err? ==> Unescape(a + "/" + b).Err?
    ensures Unescape(a).Ok? ==> Unescape(a + "/" + b) == Prepend(Unescape(a).value + "/", Unescape(b))
  {
    var s := a + "/" + b;
    if Unescape(a).Ok? {
      assert s == a + ("/" + b) && ("/" + b)[1..] == b;
      UnescapeConcat(a, "/" + b);
      PrependTwice(Unescape(a).value, "/", Unescape(b));
    } else if a[0] != '%' {
      assert s[1..] == a[1..] + "/" + b;
      UnescapeAtSlash(a[1..], b);
    } else if EscapeFault(a).None? {
      assert s[3..] == a[3..] + "/" + b;
      UnescapeAtSlash(a[3..], b);
    }
  }

  /**
   A path decodes exactly when each of its segments does, UTF-8 validity included,
   and then decoding commutes with splitting.
   */
  lemma {:induction false} DecodeBySegment(parts: seq<string>)
    requires |parts| >= 1 && Free(parts, '/')
    ensures Decode(Join(parts, '/')).Ok? <==> AllDecode(parts)
    ensures AllDecode(parts) ==> Split(Decode(Join(parts, '/')).value, '/') == DecodeEach(parts)
  {
    var head := parts[0];
    if |parts| == 1 {
      if Decode(head).Ok? {
        UnescapeSlash(head);
        SplitWhole(Decode(head).value, '/');
        assert DecodeEach(parts) == [Decode(head).value];
      }
      assert AllDecode(parts) <==> Decode(head).Ok?;
    } else {
      var tail := parts[1..];
      DecodeBySegment(tail);
      UnescapeAtSlash(head, Join(tail, '/'));
      assert AllDecode(parts) <==> Decode(head).Ok? && AllDecode(tail) by {
        if Decode(head).Ok? && AllDecode(tail) {
          forall i | 0 <= i < |parts| ensures Decode(parts[i]).Ok? {
            if i > 0 { assert parts[i] == tail[i - 1]; }
          }
        }
        if AllDecode(parts) {
          assert Decode(parts[0]).Ok?;
          forall i | 0 <= i < |tail| ensures Decode(tail[i]).Ok? { assert tail[i] == parts[i + 1]; }
        }
      }
      if Unescape(head).Ok? && Unescape(Join(tail, '/')).Ok? {
        var a, b := Unescape(head).value, Unescape(Join(tail, '/')).value;
        assert Unescape(Join(parts, '/')) == Ok(a + ['/'] + b);
        Utf8.ValidAtAscii(a, '/', b);
        if AllDecode(parts) {
          UnescapeSlash(head);
          SplitConcat(a, '/', b);
          SplitWhole(a, '/');
          assert DecodeEach(parts) == [a] + DecodeEach(tail);
        }
      }
    }
  }
}
