/**
 * The two number conversions the assembler relies on: Go's `fmt` verbs
 * `%b` and `%0<width>b` (unsigned binary, optionally zero-padded), and
 * `strconv.ParseUint(s, 16, 32)` (an unsigned hexadecimal numeral that
 * must fit in 32 bits).
 */
module Numerals {
  import opened Options

  function Pow2(n: nat): (p: nat)
    ensures p >= 1
  {
    if n == 0 then 1 else 2 * Pow2(n - 1)
  }

  // ---------------------------------------------------------------------------
  // Bit strings

  /** A string of the characters '0' and '1' only. */
  predicate IsBits(s: string) {
    forall k :: 0 <= k < |s| ==> s[k] == '0' || s[k] == '1'
  }

  /** The unsigned value of a bit string, most significant bit first. */
  function BitsValue(s: string): nat
    requires IsBits(s)
  {
    if s == [] then 0
    else 2 * BitsValue(s[..|s| - 1]) + (if s[|s| - 1] == '1' then 1 else 0)
  }

  function BitChar(b: nat): char
    requires b < 2
  {
    if b == 0 then '0' else '1'
  }

  /** `fmt.Sprintf("%b", v)`: the shortest binary numeral for `v`. */
  function FormatBin(v: nat): (r: string)
    ensures r != [] && IsBits(r)
    ensures BitsValue(r) == v
    ensures r[0] == '1' || r == "0"
  {
    if v < 2 then [BitChar(v)]
    else
      var r := FormatBin(v / 2) + [BitChar(v % 2)];
      assert r[..|r| - 1] == FormatBin(v / 2);
      r
  }

  /** `fmt.Sprintf("%0<width>b", v)`: the binary numeral of `v`, padded on the
      left with zeros to `width` characters; a longer numeral is not cut. */
  function FormatBinPadded(v: nat, width: nat): (r: string)
    ensures IsBits(r)
    ensures BitsValue(r) == v
    ensures |r| == if |FormatBin(v)| < width then width else |FormatBin(v)|
    decreases width
  {
    if width <= |FormatBin(v)| then FormatBin(v)
    else
      var rest := FormatBinPadded(v, width - 1);
      BitsValueAppend("0", rest);
      "0" + rest
  }

  lemma ShiftArith(x: int, p: int, v: int, b: int)
    ensures 2 * (x * p + v) + b == x * (2 * p) + (2 * v + b)
  {}

  lemma BitsConcat(s: string, t: string)
    requires IsBits(s) && IsBits(t)
    ensures IsBits(s + t)
  {
    assert forall k :: 0 <= k < |s + t| ==> (s + t)[k] == if k < |s| then s[k] else t[k - |s|];
  }

  lemma BitsConcat3(a: string, b: string, c: string)
    requires IsBits(a) && IsBits(b) && IsBits(c)
    ensures IsBits(a + b + c)
  {
    BitsConcat(a, b);
    BitsConcat(a + b, c);
  }

  lemma BitsConcat5(a: string, b: string, c: string, d: string, e: string)
    requires IsBits(a) && IsBits(b) && IsBits(c) && IsBits(d) && IsBits(e)
    ensures IsBits(a + b + c + d + e)
  {
    BitsConcat3(a, b, c);
    BitsConcat3(a + b + c, d, e);
  }

  /** The value of a concatenation: the left part is shifted by the width of
      the right part. */
  lemma {:induction false} BitsValueAppend(s: string, t: string)
    requires IsBits(s) && IsBits(t)
    ensures IsBits(s + t)
    ensures BitsValue(s + t) == BitsValue(s) * Pow2(|t|) + BitsValue(t)
    decreases |t|
  {
    BitsConcat(s, t);
    if t == [] {
      assert s + t == s;
    } else {
      var u, t' := s + t, t[..|t| - 1];
      assert IsBits(t');
      var b := if t[|t| - 1] == '1' then 1 else 0;
      assert u[..|u| - 1] == s + t' && u[|u| - 1] == t[|t| - 1];
      BitsValueAppend(s, t');
      ShiftArith(BitsValue(s), Pow2(|t'|), BitsValue(t'), b);
    }
  }

  /** A value fits in `w` binary digits exactly when it is below 2^w. */
  lemma {:induction false} FormatBinLength(v: nat, w: nat)
    requires w >= 1
    ensures |FormatBin(v)| <= w <==> v < Pow2(w)
    decreases v
  {
    if v >= 2 {
      if w == 1 {
        assert |FormatBin(v)| >= 2;
      } else {
        FormatBinLength(v / 2, w - 1);
      }
    }
  }

  /** A value below 2^w formats to exactly `w` characters under `%0<w>b`,
      and a larger one to more than `w`. */
  lemma FormatBinPaddedWidth(v: nat, w: nat)
    requires w >= 1
    ensures v < Pow2(w) <==> |FormatBinPadded(v, w)| == w
    ensures v >= Pow2(w) ==> |FormatBinPadded(v, w)| > w
  {
    FormatBinLength(v, w);
  }

  function BitOf(c: char): nat {
    if c == '1' then 1 else 0
  }

  /** The value of a 4-bit field, digit by digit. */
  lemma BitsValueOfNibble(s: string)
    requires IsBits(s) && |s| == 4
    ensures BitsValue(s) == 8 * BitOf(s[0]) + 4 * BitOf(s[1]) + 2 * BitOf(s[2]) + BitOf(s[3])
  {
    var s1, s2, s3 := s[..1], s[..2], s[..3];
    assert s3[..2] == s2 && s2[..1] == s1 && s1[..0] == [];
    assert BitsValue(s1) == BitOf(s[0]);
    assert BitsValue(s2) == 2 * BitOf(s[0]) + BitOf(s[1]);
    assert BitsValue(s3) == 4 * BitOf(s[0]) + 2 * BitOf(s[1]) + BitOf(s[2]);
  }

  /** Two bit strings of the same length with the same value are equal: the
      value together with the width determines a field completely. */
  lemma {:induction false} BitsValueInjective(s: string, t: string)
    requires IsBits(s) && IsBits(t) && |s| == |t|
    requires BitsValue(s) == BitsValue(t)
    ensures s == t
    decreases |s|
  {
    if s != [] {
      var n := |s| - 1;
      assert s[n] == t[n];
      BitsValueInjective(s[..n], t[..n]);
      assert s == s[..n] + [s[n]] && t == t[..n] + [t[n]];
    }
  }

  // ---------------------------------------------------------------------------
  // Hexadecimal numerals

  predicate IsHexDigit(c: char) {
    '0' <= c <= '9' || 'a' <= c <= 'f' || 'A' <= c <= 'F'
  }

  function HexDigitValue(c: char): (d: nat)
    requires IsHexDigit(c)
    ensures d < 16
  {
    if '0' <= c <= '9' then c as int - '0' as int
    else if 'a' <= c <= 'f' then c as int - 'a' as int + 10
    else c as int - 'A' as int + 10
  }

  predicate IsHexString(s: string) {
    forall k :: 0 <= k < |s| ==> IsHexDigit(s[k])
  }

  /** The value of the hexadecimal digits `s` read after a prefix worth `acc`. */
  function HexValueFrom(acc: nat, s: string): nat
    requires IsHexString(s)
    decreases |s|
  {
    if s == [] then acc else HexValueFrom(16 * acc + HexDigitValue(s[0]), s[1..])
  }

  /** The unbounded value of a hexadecimal numeral, most significant digit first. */
  function HexValue(s: string): nat
    requires IsHexString(s)
  {
    HexValueFrom(0, s)
  }

  lemma {:induction false} HexValueFromAtLeast(acc: nat, s: string)
    ensures IsHexString(s) ==> HexValueFrom(acc, s) >= acc
    decreases |s|
  {
    if s != [] && IsHexString(s) {
      HexValueFromAtLeast(16 * acc + HexDigitValue(s[0]), s[1..]);
    }
  }

  const Max32: nat := 0x1_0000_0000

  /** The digit loop of `strconv.ParseUint` for base 16 and 32 bits: each step
      multiplies the value so far by 16 and adds the digit, and gives up with
      an error as soon as the value no longer fits in 32 bits. */
  function ScanHex32(acc: nat, s: string): (r: Option<nat>)
    requires acc < Max32
    ensures r.Some? <==> IsHexString(s) && HexValueFrom(acc, s) < Max32
    ensures r.Some? ==> r.value == HexValueFrom(acc, s)
    decreases |s|
  {
    if s == [] then Some(acc)
    else if !IsHexDigit(s[0]) then
      assert !IsHexString(s);
      None
    else
      var n := 16 * acc + HexDigitValue(s[0]);
      assert IsHexString(s) <==> IsHexString(s[1..]);
      if n >= Max32 then
        HexValueFromAtLeast(n, s[1..]);
        None
      else ScanHex32(n, s[1..])
  }

  /** `strconv.ParseUint(s, 16, 32)`: a non-empty string of hexadecimal digits
      (either case, no sign, no "0x", no underscores) whose value is below 2^32;
      anything else is an error. */
  function ParseUintHex32(s: string): (r: Option<nat>)
    ensures r.Some? <==> s != [] && IsHexString(s) && HexValue(s) < Max32
    ensures r.Some? ==> r.value == HexValue(s) && r.value < Max32
  {
    if s == [] then None else ScanHex32(0, s)
  }
}
