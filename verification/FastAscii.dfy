/** Integer to decimal conversion with a table of two-digit pairs. */
module FastAscii {
  import opened CStrings

  const U32_VALUES: nat := 0x1_0000_0000
  const U64_VALUES: nat := 0x1_0000_0000_0000_0000

  /** `g_clog_digits_lut`, twenty characters a row. */
  function LutRow(k: nat): string
    requires k < 10
  {
    match k
    case 0 => "00010203040506070809"
    case 1 => "10111213141516171819"
    case 2 => "20212223242526272829"
    case 3 => "30313233343536373839"
    case 4 => "40414243444546474849"
    case 5 => "50515253545556575859"
    case 6 => "60616263646566676869"
    case 7 => "70717273747576777879"
    case 8 => "80818283848586878889"
    case _ => "90919293949596979899"
  }

  function Digit(d: nat): char
    requires d < 10
  {
    '0' + d as char
  }

  lemma RowPairsLow(k: nat, d: nat)
    requires 0 <= k < 3 && d < 10
    ensures |LutRow(k)| == 20 && LutRow(k)[2 * d] == Digit(k) && LutRow(k)[2 * d + 1] == Digit(d)
  {
  }

  lemma RowPairsMid(k: nat, d: nat)
    requires 3 <= k < 5 && d < 10
    ensures |LutRow(k)| == 20 && LutRow(k)[2 * d] == Digit(k) && LutRow(k)[2 * d + 1] == Digit(d)
  {
  }

  lemma RowPairsHigh(k: nat, d: nat)
    requires 5 <= k < 8 && d < 10
    ensures |LutRow(k)| == 20 && LutRow(k)[2 * d] == Digit(k) && LutRow(k)[2 * d + 1] == Digit(d)
  {
  }

  lemma RowPairsTop(k: nat, d: nat)
    requires 8 <= k < 10 && d < 10
    ensures |LutRow(k)| == 20 && LutRow(k)[2 * d] == Digit(k) && LutRow(k)[2 * d + 1] == Digit(d)
  {
  }

  lemma RowPairs(k: nat, d: nat)
    requires k < 10 && d < 10
    ensures |LutRow(k)| == 20 && LutRow(k)[2 * d] == Digit(k) && LutRow(k)[2 * d + 1] == Digit(d)
  {
    if k < 3 {
      RowPairsLow(k, d);
    } else if k < 5 {
      RowPairsMid(k, d);
    } else if k < 8 {
      RowPairsHigh(k, d);
    } else {
      RowPairsTop(k, d);
    }
  }

  function Lut(i: nat): char
    requires i < 200
  {
    RowPairs(i / 20, 0);
    LutRow(i / 20)[i % 20]
  }

  /** Entry d of the table is the two decimal digits of d. */
  lemma LutPair(d: nat)
    requires d < 100
    ensures Lut(2 * d) == Digit(d / 10) && Lut(2 * d + 1) == Digit(d % 10)
  {
    RowPairs(d / 10, d % 10);
    assert 2 * d / 20 == d / 10 && (2 * d) % 20 == 2 * (d % 10);
    assert (2 * d + 1) / 20 == d / 10 && (2 * d + 1) % 20 == 2 * (d % 10) + 1;
  }

  /** The two characters the table holds for d. */
  method Pair(d: nat) returns (hi: char, lo: char)
    requires d < 100
    ensures hi == Digit(d / 10) && lo == Digit(d % 10)
  {
    LutPair(d);
    hi, lo := Lut(2 * d), Lut(2 * d + 1);
  }

  // ---- decimal notation ----

  /** The shortest decimal notation of n. */
  function Decimal(n: nat): (s: string)
    ensures s != []
  {
    if n < 10 then [Digit(n)] else Decimal(n / 10) + [Digit(n % 10)]
  }

  function SignedDecimal(n: int): string
  {
    if n < 0 then "-" + Decimal(-n) else Decimal(n)
  }

  predicate IsDigit(c: char) { '0' <= c <= '9' }

  predicate AllDigits(s: string)
  {
    forall i :: 0 <= i < |s| ==> IsDigit(s[i])
  }

  /** The number a string of digits denotes. */
  function Value(s: string): nat
    requires AllDigits(s)
  {
    if s == [] then 0 else 10 * Value(s[..|s| - 1]) + (s[|s| - 1] as nat - '0' as nat)
  }

  lemma ValueSnoc(s: string, d: nat)
    requires AllDigits(s) && d < 10
    ensures AllDigits(s + [Digit(d)]) && Value(s + [Digit(d)]) == 10 * Value(s) + d
  {
    assert (s + [Digit(d)])[..|s|] == s;
  }

  /** Reading a decimal notation back gives the number; it has no leading zero. */
  lemma {:induction false} DecimalValue(n: nat)
    ensures AllDigits(Decimal(n)) && Value(Decimal(n)) == n
    ensures n > 0 ==> Decimal(n)[0] != '0'
    ensures n < 10 ==> |Decimal(n)| == 1
  {
    if n < 10 {
      ValueSnoc("", n);
      assert "" + [Digit(n)] == [Digit(n)];
    } else {
      DecimalValue(n / 10);
      ValueSnoc(Decimal(n / 10), n % 10);
    }
  }

  function Pow10(k: nat): nat
  {
    if k == 0 then 1 else 10 * Pow10(k - 1)
  }

  lemma {:induction false} DecimalLength(n: nat, k: nat)
    requires k > 0 && n < Pow10(k)
    ensures |Decimal(n)| <= k
  {
    if n >= 10 {
      assert k > 1;
      DecimalLength(n / 10, k - 1);
    }
  }

  lemma TwoDigits(n: nat)
    requires n >= 100
    ensures Decimal(n) == Decimal(n / 100) + [Digit(n % 100 / 10), Digit(n % 100 % 10)]
  {
    assert n / 10 / 10 == n / 100 && n / 10 % 10 == n % 100 / 10 && n % 10 == n % 100 % 10;
    assert Decimal(n / 10) == Decimal(n / 100) + [Digit(n / 10 % 10)];
  }

  lemma OnePair(n: nat)
    requires 10 <= n < 100
    ensures Decimal(n) == [Digit(n / 10), Digit(n % 10)]
  {
  }

  /** The digit loop: pairs from the right end of a scratch buffer of `size` characters. */
  method FillPairs(v: nat, size: nat) returns (s: string)
    requires |Decimal(v)| <= size
    ensures s == Decimal(v)
  {
    var tmp := new char[size];
    var p, val := size, v;
    while val >= 100
      invariant 0 <= p <= size && Decimal(v) == Decimal(val) + tmp[p..]
    {
      p := PutPair(tmp, p, val % 100, val, v);
      val := val / 100;
    }
    p := PutLast(tmp, p, val, v);
    s := tmp[p..];
  }

  method PutPair(tmp: array<char>, p: nat, d: nat, ghost val: nat, ghost v: nat) returns (p': nat)
    requires p <= tmp.Length && |Decimal(v)| <= tmp.Length && val >= 100 && d == val % 100
    requires Decimal(v) == Decimal(val) + tmp[p..]
    modifies tmp
    ensures p' <= tmp.Length && Decimal(v) == Decimal(val / 100) + tmp[p'..]
  {
    TwoDigits(val);
    var hi, lo := Pair(d);
    ghost var rest := tmp[p..];
    p' := p - 2;
    tmp[p'], tmp[p' + 1] := hi, lo;
    assert tmp[p'..] == [hi, lo] + rest;
    Regroup(Decimal(val / 100), [hi, lo], rest);
  }

  /** The last one or two digits. */
  method PutLast(tmp: array<char>, p: nat, val: nat, ghost v: nat) returns (p': nat)
    requires p <= tmp.Length && |Decimal(v)| <= tmp.Length && val < 100
    requires Decimal(v) == Decimal(val) + tmp[p..]
    modifies tmp
    ensures p' <= tmp.Length && Decimal(v) == tmp[p'..]
  {
    ghost var rest := tmp[p..];
    if val < 10 {
      p' := p - 1;
      tmp[p'] := '0' + val as char;
      assert tmp[p'..] == [Digit(val)] + rest;
    } else {
      OnePair(val);
      var hi, lo := Pair(val);
      p' := p - 2;
      tmp[p'], tmp[p' + 1] := hi, lo;
      assert tmp[p'..] == [hi, lo] + rest;
    }
  }

  /** `clog_u32toa`. */
  method U32ToA(val: nat) returns (s: string)
    requires val < U32_VALUES
    ensures s == Decimal(val)
  {
    if val < 10 {
      return ['0' + val as char];
    }
    if val < 100 {
      OnePair(val);
      var hi, lo := Pair(val);
      return [hi, lo];
    }
    U32Digits(val);
    s := FillPairs(val, 12);
  }

  lemma U32Digits(val: nat)
    requires val < U32_VALUES
    ensures |Decimal(val)| <= 10
  {
    assert Pow10(5) == 100_000;
    assert Pow10(10) == 10_000_000_000;
    DecimalLength(val, 10);
  }

  lemma U64Digits(val: nat)
    requires val < U64_VALUES
    ensures |Decimal(val)| <= 20
  {
    assert Pow10(5) == 100_000;
    assert Pow10(10) == 10_000_000_000;
    assert Pow10(15) == 1_000_000_000_000_000;
    assert Pow10(20) == 100_000_000_000_000_000_000;
    DecimalLength(val, 20);
  }

  /** `clog_u64toa`. */
  method U64ToA(val: nat) returns (s: string)
    requires val < U64_VALUES
    ensures s == Decimal(val)
  {
    if val <= 0xFFFF_FFFF {
      s := U32ToA(val);
    } else {
      U64Digits(val);
      s := FillPairs(val, 24);
    }
  }

  /** The conversion to an unsigned type with m values. */
  function Unsigned(x: int, m: nat): (u: nat)
    requires m > 0
    ensures 0 <= x < m ==> u == x
    ensures u < m
  {
    x % m
  }

  /** `clog_i32toa`: the magnitude is taken in 64 bits and fits 32 unsigned bits. */
  method I32ToA(val: int) returns (s: string)
    requires -0x8000_0000 <= val < 0x8000_0000
    ensures s == SignedDecimal(val)
  {
    if val < 0 {
      var digits := U32ToA(Unsigned(-val, U32_VALUES));
      return "-" + digits;
    }
    s := U32ToA(val);
  }

  /** `clog_i64toa`: `-(val + 1)` never overflows, adding 1 back is done unsigned. */
  method I64ToA(val: int) returns (s: string)
    requires -0x8000_0000_0000_0000 <= val < 0x8000_0000_0000_0000
    ensures s == SignedDecimal(val)
  {
    if val < 0 {
      assert 0 <= -(val + 1) < 0x8000_0000_0000_0000;
      var digits := U64ToA(Unsigned(-(val + 1) + 1, U64_VALUES));
      return "-" + digits;
    }
    s := U64ToA(val);
  }

  /** Six decimal digits. */
  function Pad6(val: nat): string
    requires val < 1_000_000
  {
    var a, b, c := val / 10000, val / 100 % 100, val % 100;
    [Digit(a / 10), Digit(a % 10), Digit(b / 10), Digit(b % 10), Digit(c / 10), Digit(c % 10)]
  }

  /** `clog_u32toa_pad6`: six digits that denote the value. */
  method U32ToAPad6(val: nat) returns (s: string)
    requires val < 1_000_000
    ensures s == Pad6(val) && |s| == 6 && AllDigits(s) && Value(s) == val
  {
    var v1 := val / 100;
    var a, b := Pair(v1 / 100);
    var c, d := Pair(v1 % 100);
    var e, f := Pair(val % 100);
    s := [a, b, c, d, e, f];
    PadValue(v1 / 100, v1 % 100, val % 100);
  }

  /** Digits of one length are determined by their value. */
  lemma {:induction false} SameDigits(s: string, t: string)
    requires |s| == |t| && AllDigits(s) && AllDigits(t) && Value(s) == Value(t)
    ensures s == t
    decreases |s|
  {
    if s == [] {
    } else {
      var n := |s| - 1;
      var d, e := s[n] as nat - '0' as nat, t[n] as nat - '0' as nat;
      assert IsDigit(s[n]) && IsDigit(t[n]);
      assert 10 * Value(s[..n]) + d == 10 * Value(t[..n]) + e && d < 10 && e < 10;
      SameDigits(s[..n], t[..n]);
      assert s == s[..n] + [s[n]] && t == t[..n] + [t[n]];
    }
  }

  lemma Pad6Value(val: nat)
    requires val < 1_000_000
    ensures |Pad6(val)| == 6 && AllDigits(Pad6(val)) && Value(Pad6(val)) == val
  {
    PadValue(val / 10000, val / 100 % 100, val % 100);
  }

  lemma PairValue(s: string, d: nat)
    requires AllDigits(s) && d < 100
    ensures var t := s + [Digit(d / 10), Digit(d % 10)]; AllDigits(t) && Value(t) == 100 * Value(s) + d
  {
    ValueSnoc(s, d / 10);
    ValueSnoc(s + [Digit(d / 10)], d % 10);
    assert s + [Digit(d / 10)] + [Digit(d % 10)] == s + [Digit(d / 10), Digit(d % 10)];
  }

  lemma PadValue(a: nat, b: nat, c: nat)
    requires a < 100 && b < 100 && c < 100
    ensures var s := [Digit(a / 10), Digit(a % 10), Digit(b / 10), Digit(b % 10), Digit(c / 10), Digit(c % 10)];
      AllDigits(s) && Value(s) == 10000 * a + 100 * b + c
  {
    PairValue("", a);
    var s1 := [Digit(a / 10), Digit(a % 10)];
    assert "" + s1 == s1;
    PairValue(s1, b);
    var s2 := s1 + [Digit(b / 10), Digit(b % 10)];
    PairValue(s2, c);
    assert s2 + [Digit(c / 10), Digit(c % 10)] ==
      [Digit(a / 10), Digit(a % 10), Digit(b / 10), Digit(b % 10), Digit(c / 10), Digit(c % 10)];
  }
}
