/**
 `str::trim` and ASCII case folding on UTF-8 bytes.
 */
module Trimming {
  import opened Stripping
  import opened Text
  import Utf8

  predicate Is(c: char, code: int) {
    c as int == code
  }

  /** The three bytes of a White_Space character beyond U+07FF. */
  predicate WideSpace(a: char, b: char, c: char) {
    || (Is(a, 0xE1) && Is(b, 0x9A) && Is(c, 0x80))
    || (Is(a, 0xE2) && Is(b, 0x80) && (0x80 <= c as int <= 0x8A || Is(c, 0xA8) || Is(c, 0xA9) || Is(c, 0xAF)))
    || (Is(a, 0xE2) && Is(b, 0x81) && Is(c, 0x9F))
    || (Is(a, 0xE3) && Is(b, 0x80) && Is(c, 0x80))
  }

  predicate NarrowSpace(c: char) {
    0x09 <= c as int <= 0x0D || c == ' '
  }

  /** Whether `s` is the encoding of one White_Space character. */
  predicate Space(s: string) {
    || (|s| == 1 && NarrowSpace(s[0]))
    || (|s| == 2 && Is(s[0], 0xC2) && (Is(s[1], 0x85) || Is(s[1], 0xA0)))
    || (|s| == 3 && WideSpace(s[0], s[1], s[2]))
  }

  function Trim(s: string): string {
    TrimBy(Space, s)
  }

  function LowerChar(c: char): char {
    if 'A' <= c <= 'Z' then (c as int + 32) as char else c
  }

  /** `to_ascii_lowercase`. */
  function Lower(s: string): (t: string)
    ensures |t| == |s|
  {
    seq(|s|, i requires 0 <= i < |s| => LowerChar(s[i]))
  }

  /** Comma-separated values, trimmed, without the empty ones. */
  function SplitList(raw: string): seq<string> {
    NonEmpty(TrimEach(Split(raw, ',')))
  }

  function TrimEach(parts: seq<string>): seq<string> {
    seq(|parts|, i requires 0 <= i < |parts| => Trim(parts[i]))
  }

  // ── Spaces ──

  /** The code points with the property White_Space. */
  predicate WhiteSpace(code: nat) {
    || 0x09 <= code <= 0x0D || code == 0x20 || code == 0x85 || code == 0xA0 || code == 0x1680
    || 0x2000 <= code <= 0x200A || code == 0x2028 || code == 0x2029 || code == 0x202F || code == 0x205F
    || code == 0x3000
  }

  /** The spaces are the encodings of exactly these. */
  lemma SpaceExactly(s: string)
    ensures Space(s) <==> exists code: nat :: WhiteSpace(code) && Utf8.Scalar(code) && s == Utf8.Encoded(code)
  {
    if Space(s) {
      SpaceLeads(s);
      var code := Utf8.LeadIsEncoded(s);
      assert s[..|s|] == s;
      assert WhiteSpace(code);
    }
    if code: nat :| WhiteSpace(code) && Utf8.Scalar(code) && s == Utf8.Encoded(code) {
      EncodedSpace(code);
    }
  }

  lemma SpaceLeads(s: string)
    requires Space(s)
    ensures Utf8.LeadLength(s) == |s|
  {
  }

  lemma EncodedSpace(code: nat)
    requires WhiteSpace(code) && Utf8.Scalar(code)
    ensures Space(Utf8.Encoded(code))
  {
  }

  /** The first byte of a space tells its length, and its other bytes begin nothing. */
  lemma SpacesAreDelimited()
    ensures Delimited(Space)
  {
  }

  /** `t` is what is left of `s` without the spaces around it. */
  ghost predicate IsTrimmed(s: string, t: string) {
    IsTrimmedBy(Space, s, t)
  }

  /** Trimming leaves exactly what is between the spaces around it. */
  lemma TrimExactly(s: string, t: string)
    ensures Trim(s) == t <==> IsTrimmed(s, t)
  {
    SpacesAreDelimited();
    TrimByExactly(Space, s, t);
  }

  // ── Letters ──

  /** `low` is `text` with its capital letters made small. */
  predicate SameLetters(text: string, low: string) {
    |text| == |low| && forall i :: 0 <= i < |text| ==>
      if 'A' <= text[i] <= 'Z' then low[i] as int - 'a' as int == text[i] as int - 'A' as int
      else low[i] == text[i]
  }

  lemma LowerExactly(text: string, low: string)
    ensures Lower(text) == low <==> SameLetters(text, low)
  {
    if SameLetters(text, low) {
      assert forall i :: 0 <= i < |text| ==> Lower(text)[i] == low[i];
    }
  }

  // ── Lists ──

  /**
   What a list is read as: its pieces between commas, without the spaces around them, in order and
   without the empty ones. Every text is such pieces joined.
   */
  lemma SplitListOfPieces(pieces: seq<string>, values: seq<string>)
    requires |pieces| > 0 && |values| == |pieces| && Free(pieces, ',')
    requires forall i :: 0 <= i < |pieces| ==> IsTrimmed(pieces[i], values[i])
    ensures SplitList(Join(pieces, ',')) == NonEmpty(values)
  {
    SplitOfJoin(pieces, ',');
    forall i | 0 <= i < |pieces| ensures Trim(pieces[i]) == values[i] {
      TrimExactly(pieces[i], values[i]);
    }
    assert TrimEach(pieces) == values;
  }

  /** `value` stands in the list, somewhere between two commas. */
  ghost predicate Lists(raw: string, value: string) {
    value != "" && exists piece <- Split(raw, ',') :: IsTrimmed(piece, value)
  }

  lemma {:induction false} InNonEmpty(parts: seq<string>, value: string)
    ensures value in NonEmpty(parts) <==> value != "" && value in parts
  {
    if |parts| > 0 {
      InNonEmpty(parts[1..], value);
      assert parts == [parts[0]] + parts[1..];
    }
  }

  lemma SplitListExactly(raw: string, value: string)
    ensures value in SplitList(raw) <==> Lists(raw, value)
  {
    var pieces := Split(raw, ',');
    InNonEmpty(TrimEach(pieces), value);
    if value in TrimEach(pieces) {
      var i :| 0 <= i < |pieces| && TrimEach(pieces)[i] == value;
      TrimExactly(pieces[i], value);
    }
    if piece :| piece in pieces && IsTrimmed(piece, value) {
      TrimExactly(piece, value);
      var i :| 0 <= i < |pieces| && pieces[i] == piece;
      assert TrimEach(pieces)[i] == value;
    }
  }

  /** A list of trimmed, non-empty, comma-free values is read back as it was written. */
  lemma SplitListOfJoin(values: seq<string>)
    requires |values| > 0 && Free(values, ',')
    requires forall i :: 0 <= i < |values| ==> values[i] != "" && Trim(values[i]) == values[i]
    ensures SplitList(Join(values, ',')) == values
  {
    SplitOfJoin(values, ',');
    assert TrimEach(values) == values;
    NonEmptyAll(values);
  }
}
