/** Decimal integers as Go's strconv reads and writes them. */
module Strconv {
  import opened Wrappers

  predicate IsDecimalDigit(c: char) {
    '0' <= c <= '9'
  }

  predicate AllDigits(s: string) {
    forall k :: 0 <= k < |s| ==> IsDecimalDigit(s[k])
  }

  function DigitsValue(s: string): nat
    requires AllDigits(s)
  {
    if s == "" then 0 else 10 * DigitsValue(s[..|s| - 1]) + (s[|s| - 1] as int - '0' as int)
  }

  /** `strconv.ParseInt(s, 10, bits)` (and `Atoi`) for the range `lo..hi` of the
      target width: an optional sign, at least one digit, nothing else. */
  function ParseInt(s: string, lo: int, hi: int): Option<int> {
    var signed := s != "" && (s[0] == '+' || s[0] == '-');
    var digits := if signed then s[1..] else s;
    if digits == "" || !AllDigits(digits) then None
    else
      var n: int := DigitsValue(digits);
      var v := if signed && s[0] == '-' then -n else n;
      if lo <= v <= hi then Some(v) else None
  }

  function ParseInt32(s: string): Option<int> {
    ParseInt(s, -0x8000_0000, 0x7fff_ffff)
  }

  /** `Atoi` on a 64-bit platform. */
  function Atoi(s: string): Option<int> {
    ParseInt(s, -0x8000_0000_0000_0000, 0x7fff_ffff_ffff_ffff)
  }

  function DigitChar(d: nat): char
    requires d < 10
  {
    '0' + d as char
  }

  function NatText(n: nat): (s: string)
    ensures s != "" && AllDigits(s)
  {
    if n < 10 then [DigitChar(n)] else NatText(n / 10) + [DigitChar(n % 10)]
  }

  function IntText(n: int): string {
    if n < 0 then "-" + NatText(-n) else NatText(n)
  }

  lemma {:induction false} NatTextValue(n: nat)
    ensures DigitsValue(NatText(n)) == n
  {
    if n >= 10 {
      NatTextValue(n / 10);
      assert NatText(n)[..|NatText(n)| - 1] == NatText(n / 10);
    } else {
      assert NatText(n)[..0] == "";
    }
  }

  /** What is printed in decimal is read back, for every number in range. */
  lemma IntRoundTrip(n: int, lo: int, hi: int)
    requires lo <= n <= hi
    ensures ParseInt(IntText(n), lo, hi) == Some(n)
  {
    if n < 0 {
      NatTextValue(-n);
      assert IntText(n)[1..] == NatText(-n);
    } else {
      NatTextValue(n);
      assert IsDecimalDigit(NatText(n)[0]);
    }
  }

  // ---------------------------------------------------------------- what a number means

  function Power(n: nat): nat {
    if n == 0 then 1 else 10 * Power(n - 1)
  }

  function DigitOf(c: char): nat
    requires '0' <= c <= '9'
  {
    (c - '0') as nat
  }

  predicate Digits(s: string) {
    s != "" && forall k :: 0 <= k < |s| ==> '0' <= s[k] <= '9'
  }

  /** The digits weighted by their places. */
  function Weight(s: string): nat
    requires forall k :: 0 <= k < |s| ==> '0' <= s[k] <= '9'
  {
    if s == "" then 0 else DigitOf(s[0]) * Power(|s| - 1) + Weight(s[1..])
  }

  lemma Tenfold(d: nat, p: nat)
    ensures d * (10 * p) == 10 * (d * p)
  {
  }

  lemma {:induction false} WeightLast(s: string, c: char)
    requires (forall k :: 0 <= k < |s| ==> '0' <= s[k] <= '9') && '0' <= c <= '9'
    ensures Weight(s + [c]) == 10 * Weight(s) + DigitOf(c)
    decreases s
  {
    var t := s + [c];
    if s == "" {
      assert t[1..] == "";
    } else {
      assert t[1..] == s[1..] + [c];
      WeightLast(s[1..], c);
      var p := Power(|s| - 1);
      assert Power(|s|) == 10 * p;
      Tenfold(DigitOf(s[0]), p);
    }
  }

  lemma {:induction false} ValueIsWeight(s: string)
    requires forall k :: 0 <= k < |s| ==> '0' <= s[k] <= '9'
    ensures AllDigits(s) && DigitsValue(s) == Weight(s)
    decreases s
  {
    if s != "" {
      var front, last := s[..|s| - 1], s[|s| - 1];
      ValueIsWeight(front);
      WeightLast(front, last);
      assert s == front + [last];
    }
  }

  lemma SignCut(sign: string, d: string)
    requires (sign == "" || sign == "+" || sign == "-") && Digits(d)
    ensures var s := sign + d; s != "" && (sign != "" ==> s[0] == sign[0] && s[1..] == d) && (sign == "" ==> s == d)
  {
  }

  /** The value of the digits behind the sign. */
  function Signed(sign: string, d: string): int
    requires Digits(d)
  {
    var n: int := Weight(d);
    if sign == "-" then -n else n
  }

  lemma SignedParses(sign: string, d: string, lo: int, hi: int)
    requires (sign == "" || sign == "+" || sign == "-") && Digits(d)
    ensures ParseInt(sign + d, lo, hi) == if lo <= Signed(sign, d) <= hi then Some(Signed(sign, d)) else None
  {
    hide DigitsValue, Weight;
    SignCut(sign, d);
    ValueIsWeight(d);
  }

  lemma SignOf(s: string) returns (sign: string, d: string)
    ensures s == sign + d && (sign == "" || sign == "+" || sign == "-")
    ensures d == if s != "" && (s[0] == '+' || s[0] == '-') then s[1..] else s
  {
    if s != "" && (s[0] == '+' || s[0] == '-') {
      sign, d := [s[0]], s[1..];
    } else {
      sign, d := "", s;
    }
  }

  lemma DigitsAll(d: string)
    requires d != "" && AllDigits(d)
    ensures Digits(d)
  {
    forall k | 0 <= k < |d|
      ensures '0' <= d[k] <= '9'
    {
      assert IsDecimalDigit(d[k]);
    }
  }

  /** A text is read as a number if and only if it is an optional sign and digits, the
      number is theirs, and it is in range. */
  lemma ParseIntIff(s: string, lo: int, hi: int, n: int)
    ensures ParseInt(s, lo, hi) == Some(n) <==>
      exists sign, d :: (sign == "" || sign == "+" || sign == "-") && Digits(d) && s == sign + d
                        && n == Signed(sign, d) && lo <= n <= hi
  {
    hide DigitsValue, Weight;
    forall sign, d | (sign == "" || sign == "+" || sign == "-") && Digits(d) && s == sign + d
      ensures ParseInt(s, lo, hi) == if lo <= Signed(sign, d) <= hi then Some(Signed(sign, d)) else None
    {
      SignedParses(sign, d, lo, hi);
    }
    if ParseInt(s, lo, hi).Some? {
      var sign, d := SignOf(s);
      assert d != "" && AllDigits(d);
      DigitsAll(d);
    }
  }
}
