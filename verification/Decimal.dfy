/** util.c: decimal printing and parsing of a `long long`. */
module Decimal {
  import opened Bytes

  const LLONG_MAX := 0x7FFF_FFFF_FFFF_FFFF
  const LLONG_MIN := -0x8000_0000_0000_0000
  const ULLONG_MAX := 0xFFFF_FFFF_FFFF_FFFF
  const MINUS: byte := 45
  const ZERO: byte := 48

  predicate InLL(v: int) { LLONG_MIN <= v <= LLONG_MAX }

  predicate IsDigit(b: byte) { ZERO <= b <= ZERO + 9 }

  function Digits(n: nat): (s: bytes)
    ensures s != [] && forall i :: 0 <= i < |s| ==> IsDigit(s[i])
    ensures s[0] == ZERO <==> n == 0
  {
    if n < 10 then [ZERO + n] else Digits(n / 10) + [ZERO + n % 10]
  }

  /** The decimal form that the server writes. */
  function Print(v: int): (s: bytes)
    ensures s != [] && forall i :: 0 <= i < |s| ==> IsDigit(s[i]) || s[i] == MINUS
  {
    if v < 0 then [MINUS] + Digits(-v) else Digits(v)
  }

  predicate AllDigits(s: bytes) { forall i :: 0 <= i < |s| ==> IsDigit(s[i]) }

  function Value(s: bytes): nat
    requires AllDigits(s)
  {
    if s == [] then 0 else Value(s[..|s| - 1]) * 10 + (s[|s| - 1] - ZERO)
  }

  lemma {:induction false} ValueOfDigits(n: nat)
    ensures Value(Digits(n)) == n
  {
    if n >= 10 {
      ValueOfDigits(n / 10);
      assert Digits(n)[..|Digits(n)| - 1] == Digits(n / 10);
    } else {
      assert Digits(n)[..0] == [];
    }
  }

  /** A digit string without a leading zero is the print of its value. */
  lemma {:induction false} DigitsOfValue(s: bytes)
    requires s != [] && AllDigits(s) && (s[0] != ZERO || |s| == 1)
    ensures Digits(Value(s)) == s
    ensures |s| > 1 ==> Value(s) >= 10
  {
    var n := |s| - 1;
    if n > 0 {
      var p := s[..n];
      assert s == p + [s[n]];
      assert p[0] == s[0];
      DigitsOfValue(p);
      assert Value(p) > 0 by { assert Digits(0) == [ZERO]; }
      assert Value(s) / 10 == Value(p) && Value(s) % 10 == s[n] as int - 48;
    } else {
      assert s[..0] == [] && s == [s[0]];
    }
  }

  /** Two numbers print alike only if they are equal. */
  lemma PrintInjective(v: int, w: int)
    requires Print(v) == Print(w)
    ensures v == w
  {
    PrintShape(v);
    PrintShape(w);
    ValueOfDigits(if v < 0 then -v else v);
    ValueOfDigits(if w < 0 then -w else w);
  }

  /** Where the digits of a printed number start. */
  function Start(s: bytes): (i: nat)
    ensures i <= |s|
  {
    if s != [] && s[0] == MINUS then 1 else 0
  }

  lemma {:induction false} DigitsLength(n: nat, k: nat, bound: nat)
    requires k > 0 && bound == Pow10(k) && n < bound
    ensures |Digits(n)| <= k
  {
    if n >= 10 {
      DigitsLength(n / 10, k - 1, Pow10(k - 1));
    }
  }

  function Pow10(k: nat): nat { if k == 0 then 1 else 10 * Pow10(k - 1) }

  /** A 32-bit number takes at most 11 characters. */
  lemma PrintWithin(v: int)
    requires -0x8000_0000 <= v <= 0x7FFF_FFFF
    ensures |Print(v)| <= 11
  {
    assert Pow10(5) == 100000;
    assert Pow10(10) == 100000 * Pow10(5);
    DigitsLength(if v < 0 then -v else v, 10, Pow10(10));
  }

  lemma PrintShape(v: int)
    ensures var s, n := Print(v), if v < 0 then -v else v;
      && (v < 0 <==> Start(s) == 1) && s[Start(s)..] == Digits(n) && Start(s) < |s|
      && AllDigits(s[Start(s)..]) && (s[Start(s)] == ZERO ==> n == 0 && |s| == 1)
  {
    var s, n := Print(v), if v < 0 then -v else v;
    assert IsDigit(Digits(n)[0]);
    assert s[Start(s)..] == Digits(n);
    assert s[Start(s)] == Digits(n)[0];
  }

  /** ll2string: digits from the last to the first, then the sign. */
  method Ll2string(value: int) returns (s: bytes)
    requires InLL(value)
    ensures s == Print(value)
  {
    var v: nat := if value < 0 then -value else value;
    ghost var n := v;
    s := [ZERO + v % 10];
    v := v / 10;
    while v > 0
      invariant Digits(n) == if v == 0 then s else Digits(v) + s
    {
      s := [ZERO + v % 10] + s;
      v := v / 10;
    }
    if value < 0 { s := [MINUS] + s; }
  }

  lemma DigitNext(s: bytes, start: nat, p: nat)
    requires start <= p < |s| && AllDigits(s[start..p]) && IsDigit(s[p])
    ensures AllDigits(s[start..p + 1]) && Value(s[start..p + 1]) == Value(s[start..p]) * 10 + (s[p] as int - ZERO as int)
  {
    var t := s[start..p + 1];
    assert t[..p - start] == s[start..p] && t[p - start] == s[p];
    assert forall i :: 0 <= i < |t| ==> t[i] == if i < p - start then s[start..p][i] else s[p];
  }

  /** The digit loop of string2ll, from a digit 1-9 at `start`; false on 64-bit overflow. */
  method Accumulate(s: bytes, start: nat) returns (fits: bool, p: nat, v: nat)
    requires start < |s| && ZERO + 1 <= s[start] <= ZERO + 9
    ensures fits ==> start < p <= |s| && AllDigits(s[start..p]) && v == Value(s[start..p])
    ensures fits && p < |s| ==> !IsDigit(s[p])
    ensures !fits && AllDigits(s[start..]) ==> Value(s[start..]) > ULLONG_MAX
  {
    fits, v, p := true, s[start] - ZERO, start + 1;
    assert s[start..p][..0] == [];
    while p < |s| && IsDigit(s[p])
      invariant start < p <= |s| && AllDigits(s[start..p]) && v == Value(s[start..p]) <= ULLONG_MAX
    {
      DigitNext(s, start, p);
      hide Value;
      var overflow := v > ULLONG_MAX / 10;
      if !overflow {
        v := v * 10;
        overflow := v > ULLONG_MAX - (s[p] - ZERO);
      }
      if overflow {
        ValueGrows(s, start, p + 1);
        fits := false;
        return;
      }
      v := v + (s[p] - ZERO);
      p := p + 1;
    }
  }

  lemma Parsed(s: bytes)
    requires Start(s) < |s| && AllDigits(s[Start(s)..]) && s[Start(s)] != ZERO
    ensures var v: int := Value(s[Start(s)..]); s == Print(if Start(s) == 1 then -v else v)
  {
    DigitsOfValue(s[Start(s)..]);
    assert s == s[..Start(s)] + s[Start(s)..];
    assert Digits(0) == [ZERO];
  }

  lemma ToEnd(s: bytes, start: nat, p: nat)
    requires start <= p == |s|
    ensures s[start..] == s[start..p]
  {}

  /** string2ll accepts exactly the strings that ll2string can produce. */
  method String2ll(s: bytes) returns (ok: bool, value: int)
    ensures ok ==> InLL(value) && s == Print(value)
    ensures !ok ==> forall v | InLL(v) :: s != Print(v)
  {
    ok, value := false, 0;
    if |s| == 0 { return; }
    assert Print(0) == [ZERO];
    if |s| == 1 && s[0] == ZERO { return true, 0; }
    hide Print, Value;
    var negative := s[0] == MINUS;
    var start := if negative then 1 else 0;
    if start == |s| || !(ZERO + 1 <= s[start] <= ZERO + 9) {
      NotPrinted(s, start);
      return;
    }
    var fits, p, v := Accumulate(s, start);
    if !fits {
      TooBig(s);
      return;
    }
    if p < |s| {
      NotPrinted(s, p);
      return;
    }
    ToEnd(s, start, p);
    Parsed(s);
    if v > (if negative then LLONG_MAX + 1 else LLONG_MAX) {
      TooBig(s);
      return;
    }
    ok, value := true, if negative then -v else v;
  }

  /** Not the form of a printed number: no digits, a leading zero, or something that is no digit. */
  lemma NotPrinted(s: bytes, i: nat)
    requires Start(s) == |s| || (i < |s| && Start(s) <= i && !IsDigit(s[i])) || (s[Start(s)] == ZERO && |s| > 1)
    ensures forall v | InLL(v) :: s != Print(v)
  {
    forall v | InLL(v) ensures s != Print(v) {
      PrintShape(v);
      assert i < |s| && Start(s) <= i ==> s[Start(s)..][i - Start(s)] == s[i];
    }
  }

  lemma {:induction false} ValueGrows(s: bytes, start: nat, p: nat)
    requires start <= p <= |s| && AllDigits(s[start..p])
    ensures AllDigits(s[start..]) ==> Value(s[start..]) >= Value(s[start..p])
    decreases |s| - p
  {
    if p == |s| {
      assert s[start..] == s[start..p];
    } else if IsDigit(s[p]) {
      DigitNext(s, start, p);
      ValueGrows(s, start, p + 1);
    } else {
      assert s[start..][p - start] == s[p];
    }
  }

  lemma TooBig(s: bytes)
    requires Start(s) < |s|
    requires AllDigits(s[Start(s)..]) ==> Value(s[Start(s)..]) > (if Start(s) == 1 then LLONG_MAX + 1 else LLONG_MAX)
    ensures forall v | InLL(v) :: s != Print(v)
  {
    forall v | InLL(v) ensures s != Print(v) {
      PrintShape(v);
      ValueOfDigits(if v < 0 then -v else v);
    }
  }
}
