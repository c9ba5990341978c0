/**
 UTF-8 validity (section 4 of RFC 3629), the check `String::from_utf8` makes.
 */
module Utf8 {

  predicate Ascii(c: char) {
    c as int < 0x80
  }

  predicate In(c: char, lo: int, hi: int) {
    lo <= c as int <= hi
  }

  predicate Tail(c: char) {
    In(c, 0x80, 0xBF)
  }

  /** Length of the well-formed character `s` begins with, or 0 when there is none. */
  function LeadLength(s: string): (n: nat)
    ensures n <= |s| && n <= 4
  {
    if |s| >= 1 && Ascii(s[0]) then 1
    else if |s| >= 2 && In(s[0], 0xC2, 0xDF) && Tail(s[1]) then 2
    else if |s| >= 3 && ThreeByteStart(s[0], s[1]) && Tail(s[2]) then 3
    else if |s| >= 4 && FourByteStart(s[0], s[1]) && Tail(s[2]) && Tail(s[3]) then 4
    else 0
  }

  predicate ThreeByteStart(first: char, second: char) {
    || (first as int == 0xE0 && In(second, 0xA0, 0xBF))
    || ((In(first, 0xE1, 0xEC) || In(first, 0xEE, 0xEF)) && Tail(second))
    || (first as int == 0xED && In(second, 0x80, 0x9F))
  }

  predicate FourByteStart(first: char, second: char) {
    || (first as int == 0xF0 && In(second, 0x90, 0xBF))
    || (In(first, 0xF1, 0xF3) && Tail(second))
    || (first as int == 0xF4 && In(second, 0x80, 0x8F))
  }

  predicate Valid(s: string) {
    s == "" || (LeadLength(s) > 0 && Valid(s[LeadLength(s)..]))
  }

  predicate AllAscii(s: string) {
    forall i :: 0 <= i < |s| ==> Ascii(s[i])
  }

  predicate AllBytes(s: string) {
    forall i :: 0 <= i < |s| ==> s[i] as int < 0x100
  }

  lemma {:induction false} AsciiIsValid(s: string)
    requires AllAscii(s)
    ensures Valid(s)
  {
    if s != "" {
      AsciiIsValid(s[1..]);
    }
  }

  /** Every character of valid UTF-8 is a byte. */
  lemma {:induction false} ValidAreBytes(s: string)
    requires Valid(s)
    ensures AllBytes(s)
  {
    if s != "" {
      var n := LeadLength(s);
      ValidAreBytes(s[n..]);
      forall i | 0 <= i < |s| ensures s[i] as int < 0x100 {
        if i >= n {
          assert s[i] == s[n..][i - n];
        }
      }
    }
  }

  /** An ASCII byte is a character boundary on both sides. */
  lemma {:induction false} ValidAtAscii(a: string, c: char, b: string)
    requires Ascii(c)
    ensures Valid(a + [c] + b) <==> Valid(a) && Valid(b)
  {
    var s := a + [c] + b;
    if a == "" {
      assert s[1..] == b;
    } else {
      var n := LeadLength(s);
      if n > |a| {
        // The character would have to reach over `c`, which continues nothing.
        assert false;
      }
      if n > 0 {
        assert LeadLength(a) == n;
        assert s[n..] == a[n..] + [c] + b;
        ValidAtAscii(a[n..], c, b);
      } else {
        assert LeadLength(a) == 0;
      }
    }
  }

  // ── What valid UTF-8 is ──

  /** A Unicode scalar value: a code point that is no surrogate. */
  predicate Scalar(code: nat) {
    code < 0x11_0000 && !(0xD800 <= code < 0xE000)
  }

  /** The encoding of one character, by the table in section 3 of RFC 3629. */
  function Encoded(code: nat): (s: string)
    requires Scalar(code)
    ensures 1 <= |s| <= 4
  {
    if code < 0x80 then [code as char]
    else if code < 0x800 then [(0xC0 + code / 0x40) as char, Trailing(code)]
    else if code < 0x1_0000 then [(0xE0 + code / 0x1000) as char, Trailing(code / 0x40), Trailing(code)]
    else [(0xF0 + code / 0x4_0000) as char, Trailing(code / 0x1000), Trailing(code / 0x40), Trailing(code)]
  }

  /** A byte `10xxxxxx` with the low six bits of `bits`. */
  function Trailing(bits: nat): char {
    (0x80 + bits % 0x40) as char
  }

  predicate AllScalar(codes: seq<nat>) {
    forall i :: 0 <= i < |codes| ==> Scalar(codes[i])
  }

  function EncodedAll(codes: seq<nat>): string
    requires AllScalar(codes)
  {
    if |codes| == 0 then "" else Encoded(codes[0]) + EncodedAll(codes[1..])
  }

  lemma SixBits(a: nat, b: nat, c: nat, d: nat)
    requires b < 0x40 && c < 0x40 && d < 0x40
    ensures var code := 0x4_0000 * a + 0x1000 * b + 0x40 * c + d;
            && code / 0x4_0000 == a && code / 0x1000 == 0x40 * a + b && code / 0x40 == 0x1000 * a + 0x40 * b + c
            && code % 0x40 == d && (code / 0x40) % 0x40 == c && (code / 0x1000) % 0x40 == b
  {
  }

  lemma EncodedLeads(code: nat, rest: string)
    requires Scalar(code)
    ensures LeadLength(Encoded(code) + rest) == |Encoded(code)|
  {
    var e := Encoded(code);
    assert forall i :: 0 <= i < |e| ==> (e + rest)[i] == e[i];
    if code < 0x80 {
    } else if code < 0x800 {
      assert In(e[0], 0xC2, 0xDF) && Tail(e[1]);
    } else if code < 0x1_0000 {
      assert ThreeByteStart(e[0], e[1]) && Tail(e[2]);
    } else {
      assert FourByteStart(e[0], e[1]) && Tail(e[2]) && Tail(e[3]);
    }
  }

  function Bits(c: char): (b: nat)
    requires Tail(c)
    ensures b < 0x40
  {
    c as int - 0x80
  }

  lemma TwoEncoded(a: char, b: char) returns (code: nat)
    requires In(a, 0xC2, 0xDF) && Tail(b)
    ensures Scalar(code) && Encoded(code) == [a, b]
  {
    SixBits(0, 0, a as int - 0xC0, Bits(b));
    code := 0x40 * (a as int - 0xC0) + Bits(b);
  }

  lemma ThreeEncoded(a: char, b: char, c: char) returns (code: nat)
    requires ThreeByteStart(a, b) && Tail(c)
    ensures Scalar(code) && Encoded(code) == [a, b, c]
  {
    SixBits(0, a as int - 0xE0, Bits(b), Bits(c));
    code := 0x1000 * (a as int - 0xE0) + 0x40 * Bits(b) + Bits(c);
  }

  lemma FourEncoded(a: char, b: char, c: char, d: char) returns (code: nat)
    requires FourByteStart(a, b) && Tail(c) && Tail(d)
    ensures Scalar(code) && Encoded(code) == [a, b, c, d]
  {
    SixBits(a as int - 0xF0, Bits(b), Bits(c), Bits(d));
    code := 0x4_0000 * (a as int - 0xF0) + 0x1000 * Bits(b) + 0x40 * Bits(c) + Bits(d);
  }

  /** The character that `s` begins with. */
  lemma LeadIsEncoded(s: string) returns (code: nat)
    requires LeadLength(s) > 0
    ensures Scalar(code) && Encoded(code) == s[..LeadLength(s)]
  {
    var n := LeadLength(s);
    if n == 1 {
      code := s[0] as int;
    } else if n == 2 {
      code := TwoEncoded(s[0], s[1]);
    } else if n == 3 {
      code := ThreeEncoded(s[0], s[1], s[2]);
    } else {
      code := FourEncoded(s[0], s[1], s[2], s[3]);
    }
  }

  lemma {:induction false} EncodedIsValid(codes: seq<nat>)
    requires AllScalar(codes)
    ensures Valid(EncodedAll(codes))
  {
    if |codes| > 0 {
      var rest := EncodedAll(codes[1..]);
      EncodedLeads(codes[0], rest);
      EncodedIsValid(codes[1..]);
      assert (Encoded(codes[0]) + rest)[|Encoded(codes[0])|..] == rest;
    }
  }

  lemma {:induction false} ValidIsEncoded(s: string) returns (codes: seq<nat>)
    requires Valid(s)
    ensures AllScalar(codes) && EncodedAll(codes) == s
  {
    codes := [];
    if s != "" {
      var n := LeadLength(s);
      var code := LeadIsEncoded(s);
      var rest := ValidIsEncoded(s[n..]);
      codes := [code] + rest;
      assert codes[1..] == rest;
      assert s == s[..n] + s[n..];
    }
  }

  /**
   Valid are exactly the encodings of sequences of scalar values: no overlong form, no surrogate,
   nothing beyond the last plane.
   */
  lemma ValidExactly(s: string)
    ensures Valid(s) <==> exists codes :: AllScalar(codes) && EncodedAll(codes) == s
  {
    if Valid(s) {
      var codes := ValidIsEncoded(s);
    }
    if codes :| AllScalar(codes) && EncodedAll(codes) == s {
      EncodedIsValid(codes);
    }
  }

  lemma {:induction false} AsciiThenValid(front: string, s: string)
    requires AllAscii(front) && Valid(s)
    ensures Valid(front + s)
  {
    if front == "" {
      assert front + s == s;
    } else {
      assert (front + s)[1..] == front[1..] + s;
      AsciiThenValid(front[1..], s);
    }
  }
}
