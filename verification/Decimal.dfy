/** Decimal printing and parsing of 32-bit integers, as Rust's `to_string` and `str::parse::<i32>` do them. */
module Decimal {
  import opened Wrappers

  const I32_MIN: int := -0x8000_0000
  const I32_MAX: int := 0x7FFF_FFFF

  type i32 = n: int | I32_MIN <= n <= I32_MAX

  predicate IsDigit(c: char) {
    '0' <= c <= '9'
  }

  predicate AllDigits(s: string) {
    forall i | 0 <= i < |s| :: IsDigit(s[i])
  }

  function Digits(n: nat): string {
    var last := '0' + (n % 10) as char;
    if n < 10 then [last] else Digits(n / 10) + [last]
  }

  function Print(n: int): string {
    if n < 0 then "-" + Digits(-n) else Digits(n)
  }

  function Value(s: string): nat
    requires AllDigits(s)
  {
    if s == "" then 0
    else Value(s[..|s| - 1]) * 10 + (s[|s| - 1] - '0') as nat
  }

  /** An optional sign, at least one digit, nothing else, and the value must fit. */
  function Parse(s: string): Option<i32> {
    var signed := s != "" && (s[0] == '-' || s[0] == '+');
    var digits := if signed then s[1..] else s;
    if digits == "" || !AllDigits(digits) then None
    else
      var magnitude: int := Value(digits);
      var n := if signed && s[0] == '-' then -magnitude else magnitude;
      if I32_MIN <= n <= I32_MAX then Some(n) else None
  }

  lemma {:induction false} DigitsValue(n: nat)
    ensures Digits(n) != "" && AllDigits(Digits(n))
    ensures Value(Digits(n)) == n
  {
    if n >= 10 {
      DigitsValue(n / 10);
      var s := Digits(n);
      assert s[..|s| - 1] == Digits(n / 10);
    }
  }

  /** Printing a 32-bit integer and parsing the text gives the integer back. */
  lemma ParsePrint(n: i32)
    ensures Parse(Print(n)) == Some(n)
  {
    hide Digits, Value;
    var m: int := n;
    if m < 0 {
      DigitsValue(-m);
      assert Print(m)[1..] == Digits(-m);
    } else {
      DigitsValue(n);
      assert IsDigit(Print(n)[0]);
    }
  }

  // ---- what parses -------------------------------------------------------------------------------

  function Zeros(k: nat): string {
    seq(k, i => '0')
  }

  lemma {:induction false} ZerosValue(k: nat, s: string)
    requires AllDigits(s)
    ensures AllDigits(Zeros(k) + s) && Value(Zeros(k) + s) == Value(s)
    decreases |s|, k
  {
    var all := Zeros(k) + s;
    forall i | 0 <= i < |all| ensures IsDigit(all[i]) { if i >= k { assert all[i] == s[i - k]; } }
    if s != "" {
      ZerosValue(k, s[..|s| - 1]);
      assert all[..|all| - 1] == Zeros(k) + s[..|s| - 1];
    } else if k > 0 {
      ZerosValue(k - 1, "");
      assert all[..|all| - 1] == Zeros(k - 1) + "";
    }
  }

  /** Digits are leading zeros before the decimal form of their value. */
  lemma {:induction false} DigitsCanonical(s: string) returns (k: nat)
    requires s != "" && AllDigits(s)
    ensures s == Zeros(k) + Digits(Value(s))
  {
    var front, last := s[..|s| - 1], s[|s| - 1];
    var d := (last - '0') as nat;
    assert s == front + [last] && '0' + d as char == last;
    if front == "" {
      assert Value(front) == 0;
      return 0;
    }
    var zeros := DigitsCanonical(front);
    if Value(front) == 0 {
      assert Digits(0) == "0";
      k := zeros + 1;
      assert Zeros(k) == Zeros(zeros) + "0";
    } else {
      k := zeros;
      assert Digits(Value(s)) == Digits(Value(front)) + [last];
    }
  }

  /** `s` is the decimal form of `n` after an optional sign, which agrees with it, and any number of zeros. */
  predicate Denotes(s: string, sign: string, zeros: nat, n: int) {
    && sign in {"", "+", "-"} && (if sign == "-" then n <= 0 else n >= 0)
    && s == sign + (Zeros(zeros) + Digits(if n < 0 then -n else n))
  }

  lemma DenotedParses(s: string, sign: string, zeros: nat, n: i32)
    requires Denotes(s, sign, zeros, n)
    ensures Parse(s) == Some(n)
  {
    hide Digits, Value;
    var k: int := n;
    var m := if k < 0 then -k else k;
    DigitsValue(m);
    ZerosValue(zeros, Digits(m));
    var body := Zeros(zeros) + Digits(m);
    assert body != "" && IsDigit(body[0]);
    if sign == "" { assert s == body; } else { assert s[0] == sign[0] && s[1..] == body; }
  }

  lemma ParsedDenotes(s: string, n: i32) returns (sign: string, zeros: nat)
    requires Parse(s) == Some(n)
    ensures Denotes(s, sign, zeros, n)
  {
    hide Digits, Value;
    var signed := s[0] == '-' || s[0] == '+';
    var digits := if signed then s[1..] else s;
    zeros := DigitsCanonical(digits);
    sign := if signed then [s[0]] else "";
    assert s == sign + digits;
  }

  /** Exactly those texts are read as `n`. */
  lemma ParsedText(s: string, n: i32)
    ensures Parse(s) == Some(n) <==> exists sign, zeros :: Denotes(s, sign, zeros, n)
  {
    hide Parse, Denotes;
    if Parse(s) == Some(n) { var sign, zeros := ParsedDenotes(s, n); }
    if sign, zeros :| Denotes(s, sign, zeros, n) { DenotedParses(s, sign, zeros, n); }
  }
}
