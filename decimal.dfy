/** Decimal spelling of integers: Python's `str(n)` for an `int`, and the subset of
    `int(text)` that accepts an optional sign followed by ASCII digits. */
module Decimal {
  import opened Wrappers
  import opened SeqFacts

  predicate IsDigit(c: char) {
    '0' <= c <= '9'
  }

  predicate AllDigits(s: string) {
    forall i :: 0 <= i < |s| ==> IsDigit(s[i])
  }

  function DigitChar(d: nat): (c: char)
    requires d < 10
    ensures IsDigit(c) && c as int - '0' as int == d
  {
    ('0' as int + d) as char
  }

  /** The number a string of digits denotes, most significant digit first. */
  function DigitsValue(s: string): nat
    requires AllDigits(s)
  {
    if s == [] then 0 else DigitsValue(s[..|s| - 1]) * 10 + (s[|s| - 1] as int - '0' as int)
  }

  /** `str(n)` for n >= 0: the shortest digit string denoting n. */
  function NatToString(n: nat): string {
    if n < 10 then [DigitChar(n)] else NatToString(n / 10) + [DigitChar(n % 10)]
  }

  /** `str(n)` prints at least one digit, no leading zero, and denotes n. */
  lemma {:induction false} NatToStringDigits(n: nat)
    ensures |NatToString(n)| >= 1 && AllDigits(NatToString(n))
    ensures |NatToString(n)| > 1 ==> NatToString(n)[0] != '0'
    ensures DigitsValue(NatToString(n)) == n
    decreases n
  {
    if n >= 10 {
      var init := NatToString(n / 10);
      NatToStringDigits(n / 10);
      var s := init + [DigitChar(n % 10)];
      assert s[..|s| - 1] == init;
      assert s == NatToString(n);
    }
  }

  /** `str(n)`: a '-' in front of negative numbers, never a '+'. */
  function IntToString(n: int): string {
    if n < 0 then "-" + NatToString(-n) else NatToString(n)
  }

  /** `str(n)` is one line: an optional '-', present exactly for negative n, then
      digits. */
  lemma IntToStringShape(n: int)
    ensures |IntToString(n)| >= 1 && '\n' !in IntToString(n)
    ensures IntToString(n)[0] == '-' <==> n < 0
    ensures n < 0 ==> |IntToString(n)| >= 2 && AllDigits(IntToString(n)[1..])
    ensures n >= 0 ==> AllDigits(IntToString(n))
  {
    var d := NatToString(if n < 0 then -n else n);
    NatToStringDigits(if n < 0 then -n else n);
    if n < 0 {
      assert IntToString(n)[1..] == d;
      assert IntToString(n)[0] == '-';
    }
  }

  /** `int(text)` restricted to an optional '+' or '-' and one or more ASCII digits. */
  function ParseInt(text: string): (r: Option<int>)
    ensures r.Some? <==>
      (|text| > 0 && AllDigits(text)) ||
      (|text| > 1 && (text[0] == '-' || text[0] == '+') && AllDigits(text[1..]))
    ensures r.Some? && text[0] == '-' ==> r.value == -(DigitsValue(text[1..]) as int)
    ensures r.Some? && text[0] == '+' ==> r.value == DigitsValue(text[1..])
    ensures r.Some? && IsDigit(text[0]) ==> r.value == DigitsValue(text)
  {
    if |text| > 0 && (text[0] == '-' || text[0] == '+') then
      var digits := text[1..];
      if |digits| > 0 && AllDigits(digits) then
        var v: int := DigitsValue(digits);
        Some(if text[0] == '-' then -v else v)
      else None
    else if |text| > 0 && AllDigits(text) then Some(DigitsValue(text))
    else None
  }

  /** Parsing what `str` prints gives the number back. */
  lemma ParseIntRoundTrip(n: int)
    ensures ParseInt(IntToString(n)) == Some(n)
  {
    NatToStringDigits(if n < 0 then -n else n);
    if n < 0 {
      assert IntToString(n)[1..] == NatToString(-n);
    }
  }

  /** Leading zeros do not change the value of a digit string. */
  lemma {:induction false} LeadingZero(d: string)
    requires AllDigits(d)
    ensures AllDigits("0" + d) && DigitsValue("0" + d) == DigitsValue(d)
    decreases |d|
  {
    if d != [] {
      var init := d[..|d| - 1];
      LeadingZero(init);
      assert ("0" + d)[..|"0" + d| - 1] == "0" + init;
      assert ("0" + d)[|"0" + d| - 1] == d[|d| - 1];
    }
  }

  /** `int` ignores leading zeros, so `int("007") == 7`, `int("+7") == 7` and
      `int("-0") == 0`: other spellings than `str` prints parse too. */
  lemma ParseIntLeadingZero(d: string)
    requires |d| > 0 && AllDigits(d)
    ensures ParseInt("0" + d) == ParseInt(d) == Some(DigitsValue(d) as int)
    ensures ParseInt("+" + d) == ParseInt(d) && ParseInt("-0") == Some(0)
  {
    LeadingZero(d);
    assert ("+" + d)[1..] == d;
    assert "-0"[1..] == "0";
  }

  /** The length of the run of digits that starts `s`. */
  function DigitRun(s: string): (n: nat)
    ensures n <= |s| && AllDigits(s[..n])
    ensures n < |s| ==> !IsDigit(s[n])
  {
    if s == [] || !IsDigit(s[0]) then 0
    else
      var n := 1 + DigitRun(s[1..]);
      assert s[..n] == [s[0]] + s[1..][..n - 1];
      n
  }

  /** Reads an optionally negative decimal number from the front of `s`, as a
      reader of the planner's table text does; returns the number and the rest. */
  function ReadInt(s: string): (r: Option<(int, string)>)
    ensures r.Some? ==> |r.value.1| < |s|
  {
    var neg := |s| > 0 && s[0] == '-';
    var body := if neg then s[1..] else s;
    var n := DigitRun(body);
    if n == 0 then None
    else
      var v: int := DigitsValue(body[..n]);
      Some((if neg then -v else v, body[n..]))
  }

  lemma {:induction false} DigitRunOfDigits(d: string, rest: string)
    requires AllDigits(d)
    requires rest == [] || !IsDigit(rest[0])
    ensures DigitRun(d + rest) == |d|
    decreases |d|
  {
    if d == [] {
      assert d + rest == rest;
    } else {
      assert (d + rest)[1..] == d[1..] + rest;
      DigitRunOfDigits(d[1..], rest);
    }
  }

  /** Reading back what `str` prints, followed by any non-digit, gives the number
      and leaves exactly that continuation. */
  lemma ReadIntRoundTrip(n: int, rest: string)
    requires rest == [] || !IsDigit(rest[0])
    ensures ReadInt(IntToString(n) + rest) == Some((n, rest))
  {
    var d := NatToString(if n < 0 then -n else n);
    NatToStringDigits(if n < 0 then -n else n);
    ReadDigits(d, rest);
    if n < 0 {
      AppendAssoc("-", d, rest);
      ReadNegative(d, rest);
    }
  }

  lemma ReadNegative(d: string, rest: string)
    requires |d| >= 1 && AllDigits(d)
    requires DigitRun(d + rest) == |d| && (d + rest)[..|d|] == d && (d + rest)[|d|..] == rest
    ensures ReadInt("-" + (d + rest)) == Some((-(DigitsValue(d) as int), rest))
  {
    ConsDigits('-', d + rest);
  }

  /** A run of digits followed by a non-digit is read whole. */
  lemma ReadDigits(d: string, rest: string)
    requires |d| >= 1 && AllDigits(d)
    requires rest == [] || !IsDigit(rest[0])
    ensures DigitRun(d + rest) == |d| && (d + rest)[..|d|] == d && (d + rest)[|d|..] == rest
    ensures (d + rest)[0] != '-'
  {
    DigitRunOfDigits(d, rest);
    assert (d + rest)[0] == d[0];
  }

  lemma ConsDigits(c: char, s: string)
    ensures ([c] + s)[0] == c && ([c] + s)[1..] == s
  {
  }
}
