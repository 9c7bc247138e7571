/** Binary strings: conversion in both directions, and the ripple counter. */
module Binary {

  function Pow2(n: nat): (p: nat)
    ensures p > 0
  {
    if n == 0 then 1 else 2 * Pow2(n - 1)
  }

  function Bit(b: nat): char
    requires b < 2
  {
    if b == 0 then '0' else '1'
  }

  predicate IsBinary(s: string) {
    forall i :: 0 <= i < |s| ==> s[i] == '0' || s[i] == '1'
  }

  /** The number a binary string denotes, its last digit weighing least. */
  function Bin2Int(s: string): nat
    requires IsBinary(s)
  {
    if s == "" then 0
    else 2 * Bin2Int(s[..|s| - 1]) + (if s[|s| - 1] == '1' then 1 else 0)
  }

  /** The last `n` binary digits of `i`. */
  function LowBits(i: nat, n: nat): (s: string)
    ensures |s| == n && IsBinary(s)
  {
    if n == 0 then "" else LowBits(i / 2, n - 1) + [Bit(i % 2)]
  }

  lemma {:induction false} LowBitsDenote(i: nat, n: nat)
    requires i < Pow2(n)
    ensures Bin2Int(LowBits(i, n)) == i
  {
    if n > 0 {
      LowBitsDenote(i / 2, n - 1);
      var s := LowBits(i, n);
      assert s[..|s| - 1] == LowBits(i / 2, n - 1);
    }
  }

  lemma {:induction false} BinaryIsLowBits(s: string)
    requires IsBinary(s)
    ensures Bin2Int(s) < Pow2(|s|) && LowBits(Bin2Int(s), |s|) == s
  {
    if s != "" {
      var n := |s| - 1;
      BinaryIsLowBits(s[..n]);
      assert s == s[..n] + [s[n]];
    }
  }

  /** The first digit weighs most. */
  lemma {:induction false} FirstDigit(s: string)
    requires IsBinary(s)
    ensures Bin2Int("0" + s) == Bin2Int(s) && Bin2Int("1" + s) == Pow2(|s|) + Bin2Int(s)
  {
    if s == "" {
      assert "0" + s == "0" && "1" + s == "1";
      assert Bin2Int("0") == 0 && Bin2Int("1") == 1;
    } else {
      var init, zero, one := s[..|s| - 1], "0" + s, "1" + s;
      FirstDigit(init);
      assert zero[..|zero| - 1] == "0" + init && one[..|one| - 1] == "1" + init;
    }
  }

  // ----- int2bin -----

  /** The values of the hexadecimal digits of `i`, without leading zeros. */
  function Hex(i: nat): (s: seq<nat>)
    ensures |s| > 0 && AreHexDigits(s)
  {
    if i < 16 then [i] else Hex(i / 16) + [i % 16]
  }

  predicate AreHexDigits(s: seq<nat>) {
    forall k :: 0 <= k < |s| ==> s[k] < 16
  }

  /** The table from hexadecimal digits to binary strings. */
  function Hex2Bin(d: nat): string
    requires d < 16
  {
    ["0000", "0001", "0010", "0011", "0100", "0101", "0110", "0111",
     "1000", "1001", "1010", "1011", "1100", "1101", "1110", "1111"][d]
  }

  function HexToBin(digits: seq<nat>): string
    requires AreHexDigits(digits)
  {
    if digits == [] then ""
    else HexToBin(digits[..|digits| - 1]) + Hex2Bin(digits[|digits| - 1])
  }

  function Zeros(n: nat): (s: string)
    ensures |s| == n && forall k :: 0 <= k < n ==> s[k] == '0'
  {
    seq(n, _ => '0')
  }

  datatype Int2BinResult = Bits(s: string) | ValueError | KeyError

  /** Truncates or pads a binary string to `n` digits, unless that loses a 1. */
  function Fit(result: string, n: nat): Int2BinResult {
    if |result| <= n then Bits(Zeros(n - |result|) + result)
    else
      var cut := |result| - n;
      if '1' in result[..cut] then ValueError else Bits(result[cut..])
  }

  /** A minus sign spoils the stripping of the hexadecimal prefix. */
  function Int2Bin(i: int, n: nat): Int2BinResult
    requires n > 0
  {
    if i < 0 then KeyError else Fit(HexToBin(Hex(i)), n)
  }

  lemma LastFour(i: nat, n: nat)
    ensures LowBits(i, n + 4) == LowBits(i / 2 / 2 / 2 / 2, n)
      + [Bit(i / 2 / 2 / 2 % 2), Bit(i / 2 / 2 % 2), Bit(i / 2 % 2), Bit(i % 2)]
  {
    var a, b, c := i / 2, i / 2 / 2, i / 2 / 2 / 2;
    assert LowBits(c, n + 1) == LowBits(c / 2, n) + [Bit(c % 2)];
    assert LowBits(b, n + 2) == LowBits(c, n + 1) + [Bit(b % 2)];
    assert LowBits(a, n + 3) == LowBits(b, n + 2) + [Bit(a % 2)];
    assert LowBits(i, n + 4) == LowBits(a, n + 3) + [Bit(i % 2)];
  }

  lemma FourBits(d: nat)
    requires d < 16
    ensures Hex2Bin(d) == [Bit(d / 2 / 2 / 2 % 2), Bit(d / 2 / 2 % 2), Bit(d / 2 % 2), Bit(d % 2)]
  {
    var table := Hex2Bin(d);
    if d < 8 {
      if d < 4 {
        assert d == 0 || d == 1 || d == 2 || d == 3;
      } else {
        assert d == 4 || d == 5 || d == 6 || d == 7;
      }
    } else if d < 12 {
      assert d == 8 || d == 9 || d == 10 || d == 11;
    } else {
      assert d == 12 || d == 13 || d == 14 || d == 15;
    }
  }

  lemma NibbleIsLowBits(d: nat)
    requires d < 16
    ensures Hex2Bin(d) == LowBits(d, 4)
  {
    LastFour(d, 0);
    FourBits(d);
    assert LowBits(d / 2 / 2 / 2 / 2, 0) == "";
    hide LowBits, Hex2Bin, Bit;
  }

  lemma FourDigits(i: nat)
    ensures var r := i % 16;
      && i / 2 / 2 / 2 / 2 == i / 16
      && r % 2 == i % 2 && r / 2 % 2 == i / 2 % 2
      && r / 2 / 2 % 2 == i / 2 / 2 % 2 && r / 2 / 2 / 2 % 2 == i / 2 / 2 / 2 % 2
  {
    var q, r := i / 16, i % 16;
    assert i == 16 * q + r;
    assert i / 2 == 8 * q + r / 2;
    assert i / 2 / 2 == 4 * q + r / 2 / 2;
    assert i / 2 / 2 / 2 == 2 * q + r / 2 / 2 / 2;
  }

  /** Splitting off the last four digits. */
  lemma LowBitsNibble(i: nat, n: nat)
    ensures LowBits(i, n + 4) == LowBits(i / 16, n) + LowBits(i % 16, 4)
  {
    LastFour(i, n);
    LastFour(i % 16, 0);
    FourDigits(i);
    assert LowBits(i % 16 / 2 / 2 / 2 / 2, 0) == "";
    hide LowBits;
  }

  lemma Pow2Nibble(n: nat)
    ensures Pow2(n + 4) == 16 * Pow2(n)
  {
    assert Pow2(n + 2) == 4 * Pow2(n);
  }

  lemma OneHexDigit(i: nat)
    requires i < 16
    ensures |Hex(i)| == 1 && HexToBin(Hex(i)) == Hex2Bin(i)
  {
  }

  lemma HexStep(i: nat)
    requires i >= 16
    ensures |Hex(i)| == |Hex(i / 16)| + 1 && HexToBin(Hex(i)) == HexToBin(Hex(i / 16)) + Hex2Bin(i % 16)
  {
  }

  /** The binary digits read off the hexadecimal ones are those of the number. */
  ghost predicate HexExact(i: nat) {
    HexToBin(Hex(i)) == LowBits(i, 4 * |Hex(i)|) && i < Pow2(4 * |Hex(i)|)
  }

  lemma HexExactBase(i: nat)
    requires i < 16
    ensures HexExact(i)
  {
    NibbleIsLowBits(i);
    OneHexDigit(i);
    Pow2Nibble(0);
    assert Pow2(0) == 1 && 4 * |Hex(i)| == 4;
    hide Hex2Bin, LowBits, HexToBin, Hex, Pow2;
  }

  lemma HexExactStep(i: nat)
    requires i >= 16 && HexExact(i / 16)
    ensures HexExact(i)
  {
    var n := 4 * |Hex(i / 16)|;
    NibbleIsLowBits(i % 16);
    HexStep(i);
    LowBitsNibble(i, n);
    Pow2Nibble(n);
    assert n + 4 == 4 * |Hex(i)| && i < 16 * (i / 16) + 16;
    hide Hex2Bin, LowBits, HexToBin, Hex, Pow2;
  }

  lemma {:induction false} HexToBinIsLowBits(i: nat)
    ensures HexExact(i)
  {
    if i < 16 {
      HexExactBase(i);
    } else {
      HexToBinIsLowBits(i / 16);
      HexExactStep(i);
    }
  }

  lemma {:induction false} LowBitsZero(n: nat)
    ensures LowBits(0, n) == Zeros(n)
  {
    if n > 0 {
      LowBitsZero(n - 1);
    }
  }

  /** A value of at most `m` digits has zeros before them. */
  lemma {:induction false} LowBitsPadded(i: nat, n: nat, m: nat)
    requires m <= n && i < Pow2(m)
    ensures LowBits(i, n) == Zeros(n - m) + LowBits(i, m)
    decreases m
  {
    if m == 0 {
      LowBitsZero(n);
    } else {
      LowBitsPadded(i / 2, n - 1, m - 1);
    }
  }

  /** The last `m` of the last `n` digits, and what stands before them if the value needs more. */
  lemma {:induction false} LowBitsSplit(i: nat, n: nat, m: nat)
    requires m <= n
    ensures LowBits(i, n)[n - m..] == LowBits(i, m)
    ensures Pow2(m) <= i < Pow2(n) ==> '1' in LowBits(i, n)[..n - m]
    decreases m
  {
    var s := LowBits(i, n);
    if m == 0 {
      if 0 < i < Pow2(n) {
        NonzeroHasOne(i, n);
      }
      assert s[..n] == s;
    } else {
      var t := LowBits(i / 2, n - 1);
      LowBitsSplit(i / 2, n - 1, m - 1);
      assert s == t + [Bit(i % 2)];
      assert s[n - m..] == t[n - m..] + [Bit(i % 2)] && s[..n - m] == t[..n - m];
    }
  }

  lemma {:induction false} NonzeroHasOne(i: nat, n: nat)
    requires 0 < i < Pow2(n)
    ensures '1' in LowBits(i, n)
  {
    assert LowBits(i, n)[n - 1] == Bit(i % 2);
    if i % 2 == 0 {
      NonzeroHasOne(i / 2, n - 1);
    }
  }

  lemma FitShort(result: string, n: nat)
    requires |result| <= n
    ensures Fit(result, n) == Bits(Zeros(n - |result|) + result)
  {
  }

  lemma FitPads(i: nat, m: nat, n: nat)
    requires i < Pow2(m) && m <= n
    ensures i < Pow2(n) && Fit(LowBits(i, m), n) == Bits(LowBits(i, n))
  {
    hide *;
    FitShort(LowBits(i, m), n);
    Pow2Grows(m, n);
    LowBitsPadded(i, n, m);
  }

  lemma FitCuts(i: nat, m: nat, n: nat)
    requires i < Pow2(m) && m > n
    ensures Fit(LowBits(i, m), n) == if i < Pow2(n) then Bits(LowBits(i, n)) else ValueError
  {
    LowBitsSplit(i, m, n);
    if i < Pow2(n) {
      LowBitsPadded(i, m, n);
      assert '1' !in Zeros(m - n) && LowBits(i, m)[..m - n] == Zeros(m - n);
    }
  }

  /** `int2bin` succeeds exactly when the value fits, and then gives the one string of that length
      that denotes the value. */
  lemma Int2BinExact(i: nat, n: nat)
    requires n > 0
    ensures Int2Bin(i, n) == if i < Pow2(n) then Bits(LowBits(i, n)) else ValueError
  {
    HexToBinIsLowBits(i);
    var m := 4 * |Hex(i)|;
    if m <= n {
      FitPads(i, m, n);
    } else {
      FitCuts(i, m, n);
    }
    hide LowBits, Pow2, Fit, Hex, HexToBin;
  }

  lemma Int2BinExamples()
    ensures Int2Bin(123, 8) == Bits("01111011") && Int2Bin(15, 2) == ValueError
  {
    Int2BinExact(123, 8);
    Int2BinExact(15, 2);
    assert LowBits(123, 8) == LowBits(7, 4) + "1011" == "01111011";
    assert Pow2(8) == 256 && Pow2(2) == 4;
  }

  lemma {:induction false} Pow2Grows(m: nat, n: nat)
    requires m <= n
    ensures Pow2(m) <= Pow2(n)
  {
    if m < n {
      Pow2Grows(m, n - 1);
    }
  }

  /** Both round trips between numbers and binary strings of a given length. */
  lemma BinaryRoundTrip(i: nat, s: string)
    requires IsBinary(s) && s != "" && i < Pow2(|s|)
    ensures Int2Bin(Bin2Int(s), |s|) == Bits(s)
    ensures Int2Bin(i, |s|).Bits? && Bin2Int(LowBits(i, |s|)) == i && Int2Bin(i, |s|).s == LowBits(i, |s|)
  {
    BinaryIsLowBits(s);
    Int2BinExact(Bin2Int(s), |s|);
    Int2BinExact(i, |s|);
    LowBitsDenote(i, |s|);
  }

  // ----- binary_range -----

  /** The number whose binary digits `v` lists, the lightest first. */
  function Value(v: seq<char>): nat {
    if v == [] then 0 else (if v[0] == '1' then 1 else 0) + 2 * Value(v[1..])
  }

  function Reverse(v: seq<char>): (r: string)
    ensures |r| == |v|
  {
    if v == [] then "" else Reverse(v[1..]) + [v[0]]
  }

  lemma {:induction false} ReverseIsLowBits(v: seq<char>)
    requires IsBinary(v)
    ensures Reverse(v) == LowBits(Value(v), |v|) && Value(v) < Pow2(|v|)
  {
    if v != [] {
      ReverseIsLowBits(v[1..]);
      assert Value(v) / 2 == Value(v[1..]);
    }
  }

  lemma {:induction false} ValueUpdate(v: seq<char>, i: nat, c: char)
    requires i < |v| && IsBinary(v) && (c == '0' || c == '1')
    ensures Value(v[i := c]) + (if v[i] == '1' then Pow2(i) else 0)
         == Value(v) + (if c == '1' then Pow2(i) else 0)
  {
    if i > 0 {
      ValueUpdate(v[1..], i - 1, c);
      assert v[i := c][1..] == v[1..][i - 1 := c];
    } else {
      assert v[i := c][1..] == v[1..];
    }
  }

  lemma {:induction false} ValueZeros(n: nat)
    ensures Value(Zeros(n)) == 0
  {
    if n > 0 {
      ValueZeros(n - 1);
      assert Zeros(n)[1..] == Zeros(n - 1);
    }
  }

  /** One turn of the counter: the carry ripples from the first digit until it meets a 0. */
  method Ripple(v0: seq<char>) returns (v: seq<char>, toggle: seq<int>)
    requires |v0| > 0 && IsBinary(v0)
    ensures |v| == |v0| && IsBinary(v) && |toggle| == |v| + 1
    ensures toggle[|v|] == 0 || toggle[|v|] == 1
    ensures Value(v) + toggle[|v|] * Pow2(|v|) == Value(v0) + 1
  {
    var bits := |v0|;
    v, toggle := v0, [1] + seq(bits, _ => 0);
    var i := 0;
    while i < bits && toggle[i] == 1
      invariant 0 <= i <= bits && |v| == bits && IsBinary(v) && |toggle| == bits + 1
      invariant toggle[i] == 0 || toggle[i] == 1
      invariant forall k :: i < k <= bits ==> toggle[k] == 0
      invariant Value(v) + toggle[i] * Pow2(i) == Value(v0) + 1
    {
      if v[i] == '0' {
        ValueUpdate(v, i, '1');
        v := v[i := '1'];
        toggle := toggle[i + 1 := 0];
      } else {
        ValueUpdate(v, i, '0');
        v := v[i := '0'];
        toggle := toggle[i + 1 := 1];
      }
      i := i + 1;
      hide Value;
    }
  }

  /** All binary strings of the given width, in order; for width 0 the counter never starts. */
  method BinaryRange(bits: nat) returns (l: seq<string>)
    ensures |l| == (if bits == 0 then 0 else Pow2(bits))
    ensures forall k :: 0 <= k < |l| ==> l[k] == LowBits(k, bits)
  {
    l := [];
    var v := Zeros(bits);
    var toggle := [1] + seq(bits, _ => 0);
    ValueZeros(bits);
    hide LowBits, Pow2, Value;
    while toggle[bits] != 1
      invariant |v| == bits && IsBinary(v) && |toggle| == bits + 1
      invariant toggle[bits] == 0 || toggle[bits] == 1
      invariant if bits == 0 then toggle[bits] == 1 && l == [] else Value(v) + toggle[bits] * Pow2(bits) == |l|
      invariant |l| <= Pow2(bits)
      invariant forall k :: 0 <= k < |l| ==> l[k] == LowBits(k, bits)
      decreases Pow2(bits) - |l|
    {
      ReverseIsLowBits(v);
      l := l + [Reverse(v)];
      v, toggle := Ripple(v);
    }
  }
}
