/**
 Bounded request bodies: the contract of `http_body_util::Limited`, collecting a body, and the
 declared length (`oversized_declaration` and `body_error` in src/middleware.rs).
 */
module Bodies {
  import opened Results
  import opened Text

  /** How the client's side of a body ends. */
  datatype End = Complete | Broken

  /** How reading a limited body ends. */
  datatype Outcome = Whole | TooLong | Failed

  datatype Reading = Reading(delivered: string, outcome: Outcome)

  /**
   A frame longer than what is left of the allowance is dropped whole and ends the body with
   an error; any other frame is passed on and shrinks the allowance.
   */
  function Limited(frames: seq<string>, end: End, allowance: nat): Reading {
    if |frames| == 0 then Reading("", if end == Complete then Whole else Failed)
    else if |frames[0]| > allowance then Reading("", TooLong)
    else
      var rest := Limited(frames[1..], end, allowance - |frames[0]|);
      Reading(frames[0] + rest.delivered, rest.outcome)
  }

  /** `Limited::collect`, with the limit's error told apart from the others by `body_error`. */
  method Collect(frames: seq<string>, end: End, limit: nat) returns (result: Result<string>)
    ensures result == if |Concat(frames)| > limit then Err(TooLarge)
                      else if end == Broken then Err(Internal)
                      else Ok(Concat(frames))
  {
    var collected := "";
    var allowance: nat := limit;
    assert frames[0..] == frames;
    for i := 0 to |frames|
      invariant collected + Concat(frames[i..]) == Concat(frames)
      invariant |collected| + allowance == limit
    {
      var frame := frames[i];
      assert frames[i..][1..] == frames[i + 1..];
      assert Concat(frames[i..]) == frame + Concat(frames[i + 1..]);
      if |frame| > allowance {
        return Err(TooLarge);
      }
      collected := collected + frame;
      allowance := allowance - |frame|;
    }
    assert Concat(frames[|frames|..]) == "" && collected + "" == collected;
    return if end == Broken then Err(Internal) else Ok(collected);
  }

  /**
   A limited body delivers a prefix within its allowance. It is cut exactly when the whole body
   is longer than that, however it is divided into frames.
   */
  lemma {:induction false} LimitedDelivers(frames: seq<string>, end: End, allowance: nat)
    ensures var reading := Limited(frames, end, allowance);
            && reading.delivered <= Concat(frames)
            && |reading.delivered| <= allowance
            && (reading.outcome == TooLong <==> |Concat(frames)| > allowance)
            && (reading.outcome == Whole <==> |Concat(frames)| <= allowance && end == Complete)
            && (reading.outcome != TooLong ==> reading.delivered == Concat(frames))
  {
    if |frames| > 0 && |frames[0]| <= allowance {
      LimitedDelivers(frames[1..], end, allowance - |frames[0]|);
    }
  }

  /** What is cut is cut at a frame: the frames before it arrive whole, and it would have gone beyond the allowance. */
  lemma {:induction false} LimitedCuts(frames: seq<string>, end: End, allowance: nat) returns (n: nat)
    requires |Concat(frames)| > allowance
    ensures n < |frames| && Limited(frames, end, allowance).delivered == Concat(frames[..n])
    ensures |Concat(frames[..n])| <= allowance < |Concat(frames[..n + 1])|
  {
    if |frames[0]| > allowance {
      n := 0;
      assert frames[..1][0] == frames[0] && frames[..1][1..] == [];
    } else {
      var more := LimitedCuts(frames[1..], end, allowance - |frames[0]|);
      n := more + 1;
      assert frames[..n][1..] == frames[1..][..more];
      assert frames[..n + 1][1..] == frames[1..][..n];
    }
  }

  // ── Declared lengths ──

  const U64: nat := 0x1_0000_0000_0000_0000

  function Decimal(s: string): nat
    requires Digits(s)
  {
    if s == "" then 0 else 10 * Decimal(s[..|s| - 1]) + (s[|s| - 1] as int - '0' as int)
  }

  /** `str::parse::<u64>`: digits behind an optional `+`, below 2^64. */
  function ParseU64(s: string): Option<nat> {
    var digits := if "+" <= s then s[1..] else s;
    if digits != "" && Digits(digits) && Decimal(digits) < U64 then Some(Decimal(digits)) else None
  }

  /** The refusal of a declared length, read from the first `Content-Length` value if there is one. */
  function OversizedDeclaration(header: Option<string>, limit: nat): Option<ProxyError> {
    match header
    case None => None
    case Some(value) =>
      match ParseU64(value)
      case None => None
      case Some(declared) => if declared > limit then Some(TooLarge) else None
  }

  /** A number as a client writes it. */
  function Shown(n: nat): string {
    if n < 10 then [(n + '0' as int) as char] else Shown(n / 10) + [(n % 10 + '0' as int) as char]
  }

  lemma {:induction false} ShownIsDecimal(n: nat)
    ensures Shown(n) != "" && Digits(Shown(n)) && Decimal(Shown(n)) == n
  {
    var s := Shown(n);
    if n >= 10 {
      ShownIsDecimal(n / 10);
      assert s[..|s| - 1] == Shown(n / 10);
    } else {
      assert s[..|s| - 1] == "";
    }
  }

  function Zeros(k: nat): string {
    seq(k, _ => '0')
  }

  /** `text` states the length `n`: its decimal digits, behind any zeros and perhaps a `+`. */
  ghost predicate States(text: string, n: nat) {
    exists zeros: nat :: text == Zeros(zeros) + Shown(n) || text == "+" + Zeros(zeros) + Shown(n)
  }

  lemma {:induction false} ZerosAreWorthless(k: nat, digits: string)
    requires Digits(digits)
    ensures Digits(Zeros(k) + digits) && Decimal(Zeros(k) + digits) == Decimal(digits)
    decreases |digits|, k
  {
    var s := Zeros(k) + digits;
    if digits != "" {
      ZerosAreWorthless(k, digits[..|digits| - 1]);
      assert s[..|s| - 1] == Zeros(k) + digits[..|digits| - 1];
    } else if k > 0 {
      ZerosAreWorthless(k - 1, "");
      assert s[..|s| - 1] == Zeros(k - 1) + "";
    } else {
      assert s == "";
    }
  }

  /** All digits are zeros and the digits of a number. */
  lemma {:induction false} DigitsAreShown(s: string) returns (zeros: nat)
    requires s != "" && Digits(s)
    ensures s == Zeros(zeros) + Shown(Decimal(s))
  {
    var n := |s| - 1;
    var front, last := s[..n], s[n];
    assert s == front + [last];
    if front == "" {
      assert Decimal(front) == 0;
      zeros := 0;
      assert Zeros(0) + Shown(Decimal(s)) == s;
    } else {
      zeros := DigitsAreShown(front);
      LastDigit(s);
      if Decimal(front) == 0 {
        assert Shown(0) == "0";
        assert front == Zeros(zeros + 1);
        zeros := zeros + 1;
      } else {
        assert Zeros(zeros) + Shown(Decimal(front)) + [last] == Zeros(zeros) + (Shown(Decimal(front)) + [last]);
      }
    }
  }

  lemma LastDigit(s: string)
    requires s != "" && Digits(s)
    ensures var front, last := s[..|s| - 1], s[|s| - 1];
            Shown(Decimal(s)) == if Decimal(front) == 0 then [last] else Shown(Decimal(front)) + [last]
  {
    var d, last := Decimal(s[..|s| - 1]), s[|s| - 1];
    assert Decimal(s) == 10 * d + (last as int - '0' as int);
    assert d > 0 ==> Decimal(s) / 10 == d && Decimal(s) % 10 == last as int - '0' as int;
  }

  lemma ParsedIsStated(text: string, n: nat)
    requires ParseU64(text) == Some(n)
    ensures States(text, n)
  {
    if "+" <= text {
      var zeros := DigitsAreShown(text[1..]);
      assert text == "+" + text[1..];
      assert text == "+" + Zeros(zeros) + Shown(n);
    } else {
      var zeros := DigitsAreShown(text);
    }
  }

  /** What is read as a length: exactly the texts that state a number below 2^64. */
  lemma ParseU64Exactly(text: string, n: nat)
    ensures ParseU64(text) == Some(n) <==> n < 0x1_0000_0000_0000_0000 && States(text, n)
  {
    if ParseU64(text) == Some(n) {
      ParsedIsStated(text, n);
    }
    if n < U64 && States(text, n) {
      var zeros: nat :| text == Zeros(zeros) + Shown(n) || text == "+" + Zeros(zeros) + Shown(n);
      StatedIsParsed(zeros, n);
    }
  }

  lemma StatedIsParsed(zeros: nat, n: nat)
    requires n < U64
    ensures ParseU64(Zeros(zeros) + Shown(n)) == Some(n)
    ensures ParseU64("+" + Zeros(zeros) + Shown(n)) == Some(n)
  {
    ShownIsDecimal(n);
    ZerosAreWorthless(zeros, Shown(n));
    var digits := Zeros(zeros) + Shown(n);
    assert '0' <= digits[0] <= '9';
    assert "+" + Zeros(zeros) + Shown(n) == "+" + digits;
    assert ("+" + digits)[1..] == digits && "+" <= "+" + digits;
  }

  /** The request states a length beyond the limit. */
  ghost predicate StatesBeyond(header: Option<string>, limit: nat) {
    header.Some? && exists n :: limit < n < U64 && States(header.value, n)
  }

  /** A declaration is refused exactly when it is there and states a length beyond the limit. */
  lemma OversizedExactly(header: Option<string>, limit: nat)
    ensures OversizedDeclaration(header, limit) == if StatesBeyond(header, limit) then Some(TooLarge) else None
  {
    if header.Some? {
      var read := ParseU64(header.value);
      if read.Some? {
        ParseU64Exactly(header.value, read.value);
      }
      forall n | limit < n < U64 && States(header.value, n) ensures read == Some(n) {
        ParseU64Exactly(header.value, n);
      }
    }
  }

  /** Reading a length inverts writing it, up to 64 bits; what is longer declares nothing. */
  lemma LengthIsRead(n: nat)
    ensures ParseU64(Shown(n)) == if n < U64 then Some(n) else None
  {
    ShownIsDecimal(n);
    assert '0' <= Shown(n)[0] <= '9';
  }

  /** A truthful declaration, however it is written, is refused exactly when the limiter would have cut the body. */
  lemma TruthfulDeclaration(declaration: string, frames: seq<string>, end: End, limit: nat)
    requires States(declaration, |Concat(frames)|) && |Concat(frames)| < U64
    ensures OversizedDeclaration(Some(declaration), limit) == Some(TooLarge) <==>
            Limited(frames, end, limit).outcome == TooLong
  {
    ParseU64Exactly(declaration, |Concat(frames)|);
    LimitedDelivers(frames, end, limit);
  }
}
