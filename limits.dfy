/**
 * The `limit` query parameter of the two search handlers:
 * `Math.min(Math.max(parseInt(req.query.limit || "10", 10), 1), 20)`.
 * A parameter that does not parse gives NaN, which survives both
 * `Math.max` and `Math.min` and then never compares as reached: it is
 * modelled as `None`, "no limit".
 */
module Limits {
  import opened JsString
  import opened JsValue

  /** A positive integer. */
  type PosInt = n: int | n >= 1 witness 1

  predicate IsDigit(c: char) {
    '0' <= c <= '9'
  }

  /** The longest prefix of decimal digits. */
  function DigitRun(s: string): (r: string)
    ensures r <= s
    ensures forall i :: 0 <= i < |r| ==> IsDigit(r[i])
    ensures |r| < |s| ==> !IsDigit(s[|r|])
  {
    if s != [] && IsDigit(s[0]) then [s[0]] + DigitRun(s[1..]) else []
  }

  /** The value of a string of decimal digits, most significant first. */
  function DigitsValue(ds: string): nat
    requires forall i :: 0 <= i < |ds| ==> IsDigit(ds[i])
  {
    if ds == [] then 0
    else
      var last := ds[|ds| - 1];
      assert IsDigit(last);
      10 * DigitsValue(ds[..|ds| - 1]) + (last as int - '0' as int)
  }

  /**
   * `parseInt(s, 10)`: leading white space is skipped, an optional sign
   * is read, then the longest run of digits; no digits gives NaN (`None`).
   */
  function ParseInt10(s: string): (r: Option<int>)
    ensures r.None? <==> DigitRun(UnsignedPart(TrimStart(s))) == ""
  {
    var t := TrimStart(s);
    var run := DigitRun(UnsignedPart(t));
    var magnitude: int := if run == "" then 0 else DigitsValue(run);
    if run == "" then None
    else if t != [] && t[0] == '-' then Some(-magnitude)
    else Some(magnitude)
  }

  /** What follows an optional leading sign. */
  function UnsignedPart(t: string): (r: string)
    ensures r <= t || (t != [] && r == t[1..])
  {
    if t != [] && (t[0] == '-' || t[0] == '+') then t[1..] else t
  }

  /** `Math.min(Math.max(n, 1), 20)`, with NaN passed through. */
  function ClampLimit(parsed: Option<int>): (r: Option<PosInt>)
    ensures r.Some? <==> parsed.Some?
    ensures r.Some? ==> 1 <= r.value <= 20
    ensures parsed.Some? && 1 <= parsed.value <= 20 ==> r == Some(parsed.value)
    ensures parsed.Some? && parsed.value < 1 ==> r == Some(1)
    ensures parsed.Some? && parsed.value > 20 ==> r == Some(20)
  {
    match parsed
    case None => None
    case Some(n) =>
      var atLeastOne := if n < 1 then 1 else n;
      Some(if atLeastOne > 20 then 20 else atLeastOne)
  }

  /** The limit of a request whose `limit` parameter is `param` ("" when absent). */
  function RequestLimit(param: string): (r: Option<PosInt>)
    ensures r.Some? ==> 1 <= r.value <= 20
  {
    ClampLimit(ParseInt10(if param == "" then "10" else param))
  }

  /** The decimal text of a natural number parses back to it. */
  lemma {:induction false} DigitsValueOfDecimal(n: nat)
    ensures DigitsValue(NatToDecimal(n)) == n
  {
    var d := ['0' + (n % 10) as char];
    if n >= 10 {
      DigitsValueOfDecimal(n / 10);
      var ds := NatToDecimal(n / 10) + d;
      assert ds[..|ds| - 1] == NatToDecimal(n / 10);
    }
  }

  /** A string of digits is its own digit run. */
  lemma {:induction false} DigitRunOfDigits(s: string)
    requires forall i :: 0 <= i < |s| ==> IsDigit(s[i])
    ensures DigitRun(s) == s
  {
    if s != [] {
      DigitRunOfDigits(s[1..]);
      assert [s[0]] + s[1..] == s;
    }
  }

  /** `parseInt(String(n), 10) == n` for every integer. */
  lemma ParseIntOfDecimal(n: int)
    ensures n >= 0 ==> ParseInt10(NatToDecimal(n)) == Some(n)
    ensures n < 0 ==> ParseInt10("-" + NatToDecimal(-n)) == Some(n)
  {
    var ds := NatToDecimal(if n >= 0 then n else -n);
    var s := if n >= 0 then ds else "-" + ds;
    assert !IsSpace(s[0]);
    assert TrimStart(s) == s;
    assert UnsignedPart(s) == ds by {
      if n < 0 {
        assert s[1..] == ds;
      }
    }
    DigitRunOfDigits(ds);
    DigitsValueOfDecimal(if n >= 0 then n else -n);
  }

  /** Without a `limit` parameter the limit is 10; a written number is clamped into [1, 20]. */
  lemma RequestLimitOfNumber(n: nat)
    ensures RequestLimit("") == Some(10)
    ensures RequestLimit(NatToDecimal(n)) == ClampLimit(Some(n))
  {
    ParseIntOfDecimal(10);
    assert NatToDecimal(10) == "10";
    ParseIntOfDecimal(n);
  }
}
