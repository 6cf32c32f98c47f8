/**
 * The compact-ID codec of the categorisation stage: a base-62 encoder over the
 * alphabet 0-9, a-z, A-Z (in that order) that left-pads with '0' to a requested
 * width but never truncates, and the fixed ID width a run derives from its record count.
 */
module Base62 {
  import opened Text

  /** The symbol for digit d: digits first, then lower case, then upper case letters. */
  function DigitChar(d: nat): (c: char)
    requires d < 62
    ensures IsBase62Char(c)
  {
    if d < 10 then (48 + d) as char
    else if d < 36 then (97 + d - 10) as char
    else (65 + d - 36) as char
  }

  predicate IsBase62Char(c: char)
  {
    '0' <= c <= '9' || 'a' <= c <= 'z' || 'A' <= c <= 'Z'
  }

  /** The digit a symbol stands for, the inverse of DigitChar. */
  function DigitValue(c: char): (d: nat)
    requires IsBase62Char(c)
    ensures d < 62 && DigitChar(d) == c
  {
    if '0' <= c <= '9' then c as int - 48
    else if 'a' <= c <= 'z' then c as int - 97 + 10
    else c as int - 65 + 36
  }

  lemma DigitValueOfChar(d: nat)
    requires d < 62
    ensures DigitValue(DigitChar(d)) == d
  {
  }

  predicate AllBase62(s: string)
  {
    forall i :: 0 <= i < |s| ==> IsBase62Char(s[i])
  }

  /** The base-62 digits of n, most significant first; empty for 0. */
  function Digits(n: nat): string
  {
    if n == 0 then [] else Digits(n / 62) + [DigitChar(n % 62)]
  }

  function Pow62(k: nat): (r: nat)
    ensures r >= 1
  {
    if k == 0 then 1 else 62 * Pow62(k - 1)
  }

  /** A string of k copies of c; empty when k is not positive. */
  function Repeat(c: char, k: int): (r: string)
    ensures |r| == (if k <= 0 then 0 else k)
    ensures forall i :: 0 <= i < |r| ==> r[i] == c
  {
    if k <= 0 then [] else [c] + Repeat(c, k - 1)
  }

  /** s.zfill(width) for a string without a sign. */
  function ZFill(s: string, width: int): string
  {
    if |s| >= width then s else Repeat('0', width - |s|) + s
  }

  /** What to_base_62(n, padToLength) returns. */
  function Encode(n: nat, padToLength: int): string
  {
    if n == 0 then Repeat('0', padToLength) else ZFill(Digits(n), padToLength)
  }

  /** to_base_62: repeated divmod by 62 prepends one symbol per step, then zfill pads. */
  method ToBase62(n: nat, padToLength: int) returns (encoded: string)
    ensures encoded == Encode(n, padToLength)
  {
    if n == 0 {
      encoded := Repeat('0', padToLength);
      return;
    }
    encoded := "";
    var m := n;
    while m > 0
      invariant Digits(n) == Digits(m) + encoded
    {
      var rem := m % 62;
      m := m / 62;
      encoded := [DigitChar(rem)] + encoded;
    }
    if |encoded| < padToLength {
      encoded := Repeat('0', padToLength - |encoded|) + encoded;
    }
  }

  /** The value a string of base-62 symbols denotes, most significant first. */
  function Decode(s: string): nat
    requires AllBase62(s)
  {
    if s == [] then 0 else Decode(s[..|s| - 1]) * 62 + DigitValue(s[|s| - 1])
  }

  lemma {:induction false} DigitsAreBase62(n: nat)
    ensures AllBase62(Digits(n))
  {
    if n > 0 {
      DigitsAreBase62(n / 62);
    }
  }

  /** Every symbol of an encoding is drawn from the 62-symbol alphabet. */
  lemma EncodeIsBase62(n: nat, w: int)
    ensures AllBase62(Encode(n, w))
  {
    DigitsAreBase62(n);
  }

  lemma {:induction false} DecodeDigits(n: nat)
    ensures AllBase62(Digits(n)) && Decode(Digits(n)) == n
  {
    DigitsAreBase62(n);
    if n > 0 {
      DecodeDigits(n / 62);
      var d := Digits(n);
      assert d[..|d| - 1] == Digits(n / 62);
      DigitValueOfChar(n % 62);
    }
  }

  /** Leading zeros do not change the value. */
  lemma {:induction false} DecodeLeadingZeros(k: nat, s: string)
    requires AllBase62(s)
    ensures AllBase62(Repeat('0', k) + s) && Decode(Repeat('0', k) + s) == Decode(s)
  {
    if s == [] {
      assert Repeat('0', k) + s == Repeat('0', k);
      DecodeZeros(k);
    } else {
      var t := Repeat('0', k) + s;
      assert t[..|t| - 1] == Repeat('0', k) + s[..|s| - 1];
      DecodeLeadingZeros(k, s[..|s| - 1]);
    }
  }

  lemma {:induction false} DecodeZeros(k: nat)
    ensures AllBase62(Repeat('0', k)) && Decode(Repeat('0', k)) == 0
  {
    if k > 0 {
      var z := Repeat('0', k);
      assert z[..|z| - 1] == Repeat('0', k - 1);
      DecodeZeros(k - 1);
    }
  }

  /** Decoding inverts encoding, whatever the padding: distinct numbers get distinct IDs. */
  lemma DecodeEncode(n: nat, w: int)
    ensures AllBase62(Encode(n, w)) && Decode(Encode(n, w)) == n
  {
    var d := Digits(n);
    if n == 0 {
      var k: nat := if w <= 0 then 0 else w;
      assert Encode(n, w) == Repeat('0', k);
      DecodeZeros(k);
    } else if |d| < w {
      DecodeDigits(n);
      assert Encode(n, w) == Repeat('0', w - |d|) + d;
      DecodeLeadingZeros(w - |d|, d);
    } else {
      DecodeDigits(n);
      assert Encode(n, w) == d;
    }
  }

  lemma EncodeInjective(i: nat, j: nat, w: int)
    requires Encode(i, w) == Encode(j, w)
    ensures i == j
  {
    DecodeEncode(i, w);
    DecodeEncode(j, w);
  }

  /** to_base_62(0, w) is exactly w copies of '0' (none when w is not positive). */
  lemma EncodeZero(w: int)
    ensures |Encode(0, w)| == (if w <= 0 then 0 else w)
    ensures forall i :: 0 <= i < |Encode(0, w)| ==> Encode(0, w)[i] == '0'
  {
  }

  /** For n > 0 the digit count k is the one with 62^(k-1) <= n < 62^k. */
  lemma {:induction false} DigitsCount(n: nat)
    ensures n < Pow62(|Digits(n)|)
    ensures n > 0 ==> |Digits(n)| >= 1 && Pow62(|Digits(n)| - 1) <= n
  {
    if n > 0 {
      DigitsCount(n / 62);
    }
  }

  /** For n > 0 the encoding is n's digits left-padded to w: its length is max(w, digit count). */
  lemma EncodeLength(n: nat, w: int)
    requires n > 0
    ensures |Encode(n, w)| == (if w <= |Digits(n)| then |Digits(n)| else w)
    ensures EndsWith(Encode(n, w), Digits(n))
    ensures forall i :: 0 <= i < |Encode(n, w)| - |Digits(n)| ==> Encode(n, w)[i] == '0'
  {
  }

  /** A larger number never has fewer digits. */
  lemma {:induction false} DigitsMonotone(i: nat, j: nat)
    requires i <= j
    ensures |Digits(i)| <= |Digits(j)|
  {
    if i > 0 {
      DigitsMonotone(i / 62, j / 62);
    }
  }

  /** The fixed ID width of a run over total records: the length of to_base_62(total - 1, 1). */
  function IdLength(total: nat): (w: nat)
    requires total >= 1
    ensures w >= 1
  {
    |Encode(total - 1, 1)|
  }

  /** The width is the least k >= 1 with 62^k >= total. */
  lemma IdLengthIsMinimal(total: nat)
    requires total >= 1
    ensures IdLength(total) >= 1
    ensures total <= Pow62(IdLength(total))
    ensures IdLength(total) > 1 ==> Pow62(IdLength(total) - 1) < total
  {
    var n := total - 1;
    DigitsCount(n);
    if n > 0 {
      EncodeLength(n, 1);
    }
  }

  /** Every index of the run encodes to exactly the run's width, and distinct indices to distinct IDs. */
  lemma FixedWidthIds(total: nat, i: nat, j: nat)
    requires total >= 1 && i < total && j < total
    ensures |Encode(i, IdLength(total))| == IdLength(total)
    ensures Encode(i, IdLength(total)) == Encode(j, IdLength(total)) ==> i == j
  {
    var w := IdLength(total);
    DigitsMonotone(i, total - 1);
    if total - 1 > 0 {
      EncodeLength(total - 1, 1);
    }
    if i > 0 {
      EncodeLength(i, w);
    }
    if Encode(i, w) == Encode(j, w) {
      EncodeInjective(i, j, w);
    }
  }
}
