/**
 The JavaScript string primitives the payload builder relies on, restricted to
 the inputs it gives them: `Number.prototype.toString(radix)` on non-negative
 integers, `String.prototype.padStart` with a one-character pad, and
 `String.prototype.toUpperCase` on ASCII.  Each comes with the reading-back
 function that gives it meaning: `ParseRadix` recovers the number a digit
 string denotes.
 */
module Text {

  /** Characters that denote a digit in some radix up to 16, in either case. */
  predicate IsHexDigit(c: char) {
    '0' <= c <= '9' || 'a' <= c <= 'f' || 'A' <= c <= 'F'
  }

  /** The value of a digit character; upper and lower case letters agree. */
  function DigitValue(c: char): (v: nat)
    requires IsHexDigit(c)
    ensures v < 16
    ensures '0' <= c <= '9' <==> v < 10
  {
    if '0' <= c <= '9' then c as int - '0' as int
    else if 'a' <= c <= 'f' then c as int - 'a' as int + 10
    else c as int - 'A' as int + 10
  }

  /** The digit `toString(radix)` writes for `d`: `0`-`9`, then lower-case `a`-`f`. */
  function DigitChar(d: nat): (c: char)
    requires d < 16
    ensures IsHexDigit(c) && DigitValue(c) == d
    ensures '0' <= c <= '9' || 'a' <= c <= 'f'
  {
    if d < 10 then ('0' as int + d) as char else ('a' as int + d - 10) as char
  }

  /** Every character of `s` is a digit of the given radix. */
  predicate IsDigitString(s: string, radix: nat) {
    forall i :: 0 <= i < |s| ==> IsHexDigit(s[i]) && DigitValue(s[i]) < radix
  }

  /** Every character of `s` is `0`-`9` or `A`-`F`. */
  predicate IsUpperHex(s: string) {
    forall i :: 0 <= i < |s| ==> '0' <= s[i] <= '9' || 'A' <= s[i] <= 'F'
  }

  /** The number a digit string denotes, most significant digit first. */
  function ParseRadix(s: string, radix: nat): nat
    requires IsDigitString(s, radix)
    decreases |s|
  {
    if |s| == 0 then 0
    else ParseRadix(s[..|s| - 1], radix) * radix + DigitValue(s[|s| - 1])
  }

  function Pow(b: nat, k: nat): nat
    decreases k
  {
    if k == 0 then 1 else b * Pow(b, k - 1)
  }

  /** Euclidean division facts for a positive radix, stated once so that proofs need no non-linear search. */
  lemma DivMod(n: nat, radix: nat)
    requires radix >= 2
    ensures 0 <= n / radix && 0 <= n % radix < radix
    ensures n == (n / radix) * radix + n % radix
    ensures n >= radix ==> 0 < n / radix < n
  {
  }

  /**
   `n.toString(radix)` for a non-negative integer: the shortest digit string,
   so that only zero itself is written with a leading `0`.
   */
  function ToRadix(n: nat, radix: nat): (s: string)
    requires 2 <= radix <= 16
    ensures |s| >= 1
    ensures IsDigitString(s, radix)
    ensures forall i :: 0 <= i < |s| ==> '0' <= s[i] <= '9' || 'a' <= s[i] <= 'f'
    ensures ParseRadix(s, radix) == n
    ensures s[0] == '0' <==> n == 0
    ensures n == 0 ==> s == "0"
    decreases n
  {
    if n < radix then
      var s := [DigitChar(n)];
      assert s[..0] == [];
      s
    else
      DivMod(n, radix);
      var high := ToRadix(n / radix, radix);
      var s := high + [DigitChar(n % radix)];
      assert s[..|s| - 1] == high;
      s
  }

  /** Multiplying by a positive radix keeps a strict order. */
  lemma MulStrict(q: nat, p: nat, radix: nat)
    requires radix > 0 && q * radix < p * radix
    ensures q < p
  {
  }

  /** A number below `radix * p` has a quotient below `p`. */
  lemma QuotientBound(n: nat, radix: nat, p: nat)
    requires radix >= 2 && n < radix * p
    ensures n / radix < p
  {
    DivMod(n, radix);
    MulStrict(n / radix, p, radix);
  }

  /** A number below `radix^k` takes at most `k` digits. */
  lemma {:induction false} ToRadixLength(n: nat, radix: nat, k: nat)
    requires 2 <= radix <= 16 && 1 <= k
    requires n < Pow(radix, k)
    ensures |ToRadix(n, radix)| <= k
    decreases k
  {
    if n >= radix {
      assert k != 1;
      QuotientBound(n, radix, Pow(radix, k - 1));
      ToRadixLength(n / radix, radix, k - 1);
    }
  }

  /** `s.padStart(width, pad)` with a one-character pad string. */
  function PadStart(s: string, width: nat, pad: char): (r: string)
    ensures |s| >= width ==> r == s
    ensures |s| < width ==> |r| == width
    ensures |r| >= |s| && r[|r| - |s|..] == s
    ensures forall i :: 0 <= i < |r| - |s| ==> r[i] == pad
  {
    if |s| >= width then s else seq(width - |s|, _ => pad) + s
  }

  /** Zeros in front of a digit string do not change its value. */
  lemma {:induction false} LeadingZeros(z: string, s: string, radix: nat)
    requires 2 <= radix <= 16
    requires forall i :: 0 <= i < |z| ==> z[i] == '0'
    requires IsDigitString(s, radix)
    ensures IsDigitString(z + s, radix)
    ensures ParseRadix(z + s, radix) == ParseRadix(s, radix)
    decreases |s|, |z|
  {
    var t := z + s;
    if |s| == 0 {
      assert t == z;
      if |z| > 0 {
        LeadingZeros(z[..|z| - 1], [], radix);
        assert z[..|z| - 1] + [] == t[..|t| - 1];
      }
    } else {
      assert t[..|t| - 1] == z + s[..|s| - 1];
      LeadingZeros(z, s[..|s| - 1], radix);
    }
  }

  /** Padding a digit string with zeros keeps the number it denotes and keeps it upper-case. */
  lemma PadWithZeros(s: string, width: nat, radix: nat)
    requires 2 <= radix <= 16 && IsDigitString(s, radix)
    ensures IsDigitString(PadStart(s, width, '0'), radix)
    ensures ParseRadix(PadStart(s, width, '0'), radix) == ParseRadix(s, radix)
    ensures IsUpperHex(s) ==> IsUpperHex(PadStart(s, width, '0'))
  {
    var r := PadStart(s, width, '0');
    var k := |r| - |s|;
    assert r == r[..k] + s;
    LeadingZeros(r[..k], s, radix);
  }

  /** ASCII upper-casing of one character, as `toUpperCase` does for it. */
  function UpperChar(c: char): char {
    if 'a' <= c <= 'z' then (c as int - 32) as char else c
  }

  /**
   * `s.toUpperCase()`, restricted to ASCII letters: no lower-case letter is
   * left, every other character is kept, and each lower-case letter becomes
   * the upper-case letter at the same place in the alphabet.
   */
  function ToUpperCase(s: string): (r: string)
    ensures |r| == |s|
    ensures forall i :: 0 <= i < |s| ==> r[i] == UpperChar(s[i])
    ensures forall i :: 0 <= i < |r| ==> !('a' <= r[i] <= 'z')
    ensures forall i :: 0 <= i < |s| && !('a' <= s[i] <= 'z') ==> r[i] == s[i]
    ensures forall i :: 0 <= i < |s| && 'a' <= s[i] <= 'z' ==>
              'A' <= r[i] <= 'Z' && r[i] as int - 'A' as int == s[i] as int - 'a' as int
  {
    seq(|s|, i requires 0 <= i < |s| => UpperChar(s[i]))
  }

  /** Upper-casing a lower-case hexadecimal string keeps the number it denotes. */
  lemma {:induction false} UpperKeepsValue(s: string, radix: nat)
    requires 2 <= radix <= 16
    requires IsDigitString(s, radix)
    requires forall i :: 0 <= i < |s| ==> '0' <= s[i] <= '9' || 'a' <= s[i] <= 'f'
    ensures IsDigitString(ToUpperCase(s), radix)
    ensures IsUpperHex(ToUpperCase(s))
    ensures ParseRadix(ToUpperCase(s), radix) == ParseRadix(s, radix)
    decreases |s|
  {
    var u := ToUpperCase(s);
    if |s| > 0 {
      assert u[..|u| - 1] == ToUpperCase(s[..|s| - 1]);
      UpperKeepsValue(s[..|s| - 1], radix);
    }
  }

  /** `n.toString(radix).padStart(width, "0")`: exactly `width` digits that read back as `n`. */
  function PaddedDigits(n: nat, radix: nat, width: nat): (r: string)
    requires 2 <= radix <= 16 && 1 <= width
    requires n < Pow(radix, width)
    ensures |r| == width && IsDigitString(r, radix) && ParseRadix(r, radix) == n
  {
    var digits := ToRadix(n, radix);
    ToRadixLength(n, radix, width);
    PadWithZeros(digits, width, radix);
    PadStart(digits, width, '0')
  }

  /**
   `n.toString(16).toUpperCase().padStart(width, "0")`: exactly `width`
   upper-case hexadecimal digits that read back as `n`.
   */
  function PaddedUpperHex(n: nat, width: nat): (r: string)
    requires 1 <= width && n < Pow(16, width)
    ensures |r| == width && IsUpperHex(r)
    ensures IsDigitString(r, 16) && ParseRadix(r, 16) == n
  {
    var digits := ToRadix(n, 16);
    ToRadixLength(n, 16, width);
    var upper := ToUpperCase(digits);
    UpperKeepsValue(digits, 16);
    PadWithZeros(upper, width, 16);
    PadStart(upper, width, '0')
  }

  /** Multiplying by a positive radix keeps a weak order. */
  lemma MulMono(q: nat, p: nat, radix: nat)
    requires q <= p
    ensures q * radix <= p * radix
  {
  }

  /** The last digit and the leading part of a number are determined by its value. */
  lemma LastDigitDetermined(x: nat, d: nat, y: nat, e: nat, radix: nat)
    requires d < radix && e < radix && x * radix + d == y * radix + e
    ensures x == y && d == e
  {
    if x < y {
      MulMono(x + 1, y, radix);
    } else if y < x {
      MulMono(y + 1, x, radix);
    }
  }

  /** A decimal digit string is upper-case hexadecimal too: it holds only `0`-`9`. */
  lemma DecimalIsUpperHex(s: string)
    requires IsDigitString(s, 10)
    ensures IsUpperHex(s)
  {
    forall i | 0 <= i < |s|
      ensures '0' <= s[i] <= '9'
    {
      assert DigitValue(s[i]) < 10;
    }
  }

  /**
   Two upper-case digit strings of one length that denote the same number
   are the same string: the rendering of a number at a fixed width is unique.
   */
  lemma {:induction false} DigitsUnique(a: string, b: string, radix: nat)
    requires 2 <= radix <= 16 && |a| == |b| && IsUpperHex(a) && IsUpperHex(b)
    requires IsDigitString(a, radix) && IsDigitString(b, radix)
    requires ParseRadix(a, radix) == ParseRadix(b, radix)
    ensures a == b
    decreases |a|
  {
    if |a| > 0 {
      var n := |a| - 1;
      var a', b' := a[..n], b[..n];
      assert IsUpperHex(a') && IsUpperHex(b');
      assert IsDigitString(a', radix) && IsDigitString(b', radix);
      LastDigitDetermined(ParseRadix(a', radix), DigitValue(a[n]), ParseRadix(b', radix), DigitValue(b[n]), radix);
      DigitsUnique(a', b', radix);
      assert a[n] == b[n];
      assert a == a' + [a[n]] && b == b' + [b[n]];
    }
  }

  /** Every character of `s` has a code below `bound`. */
  predicate Below(s: string, bound: int) {
    forall i :: 0 <= i < |s| ==> s[i] as int < bound
  }

  lemma BelowJoin(a: string, b: string, bound: int)
    requires Below(a, bound) && Below(b, bound)
    ensures Below(a + b, bound)
  {
  }

  /** `(100).toString()` is "100". */
  lemma HundredDigits(n: nat)
    requires n == 100
    ensures ToRadix(n, 10) == "100"
  {
    TenDigits(n / 10);
    assert ToRadix(n, 10) == ToRadix(n / 10, 10) + [DigitChar(n % 10)];
  }

  /** `(10).toString()` is "10". */
  lemma TenDigits(n: nat)
    requires n == 10
    ensures ToRadix(n, 10) == "10"
  {
    assert ToRadix(n / 10, 10) == "1";
    assert ToRadix(n, 10) == ToRadix(n / 10, 10) + [DigitChar(n % 10)];
  }
}
