/**
 * Fixed-width report columns (FormatHelpers.PadByNumberSize): a value rendered as
 * upper-case hexadecimal, left-aligned and padded on the right with spaces.
 */
module FormatHelpers {
  import opened Numerics

  const HEX_DIGITS: string := "0123456789ABCDEF"

  function HexDigit(d: nat): char
    requires d < 16
  {
    HEX_DIGITS[d]
  }

  predicate IsHexDigit(c: char)
  {
    '0' <= c <= '9' || 'A' <= c <= 'F'
  }

  function HexDigitValue(c: char): nat
    requires IsHexDigit(c)
  {
    if '0' <= c <= '9' then c as int - '0' as int else c as int - 'A' as int + 10
  }

  /** The `X` format of a non-negative value: upper-case hex digits, no leading zeros. */
  function Hex(n: nat): (s: string)
    ensures 1 <= |s|
    ensures forall i :: 0 <= i < |s| ==> IsHexDigit(s[i])
    ensures n > 0 ==> s[0] != '0'
  {
    if n < 16 then [HexDigit(n)] else Hex(n / 16) + [HexDigit(n % 16)]
  }

  /** Reads hex digits back into a number. */
  function HexValue(s: string): nat
    requires forall i :: 0 <= i < |s| ==> IsHexDigit(s[i])
  {
    if s == [] then 0 else HexValue(s[..|s| - 1]) * 16 + HexDigitValue(s[|s| - 1])
  }

  lemma HexDigitRoundTrip(d: nat)
    requires d < 16
    ensures IsHexDigit(HexDigit(d)) && HexDigitValue(HexDigit(d)) == d
  {
  }

  /** The rendering loses nothing: reading the digits back gives the value. */
  lemma {:induction false} HexRoundTrip(n: nat)
    ensures HexValue(Hex(n)) == n
  {
    HexDigitRoundTrip(n % 16);
    if n >= 16 {
      HexRoundTrip(n / 16);
      var s := Hex(n);
      assert s[..|s| - 1] == Hex(n / 16);
    }
  }

  function Pow16(k: nat): (r: nat)
    ensures r >= 1
  {
    if k == 0 then 1 else 16 * Pow16(k - 1)
  }

  /** `Hex(n)` has at most `k` digits exactly when `n < 16^k`. */
  lemma {:induction false} HexWidth(n: nat, k: nat)
    requires k >= 1
    ensures |Hex(n)| <= k <==> n < Pow16(k)
  {
    if n >= 16 {
      if k == 1 {
        assert |Hex(n)| >= 2 by { assert |Hex(n)| == |Hex(n / 16)| + 1; }
      } else {
        HexWidth(n / 16, k - 1);
      }
    }
  }

  /** Every 64-bit value fits the 16 hex columns. */
  lemma HexWidth64(n: nat)
    ensures |Hex(n)| <= 16 <==> n < TWO_64
  {
    HexWidth(n, 16);
    assert Pow16(4) == 0x1_0000 by {
      assert Pow16(1) == 0x10 && Pow16(2) == 0x100 && Pow16(3) == 0x1000;
    }
    assert Pow16(8) == 0x1_0000_0000 by {
      assert Pow16(5) == 0x10_0000 && Pow16(6) == 0x100_0000 && Pow16(7) == 0x1000_0000;
    }
    assert Pow16(12) == 0x1_0000_0000_0000 by {
      assert Pow16(9) == 0x10_0000_0000 && Pow16(10) == 0x100_0000_0000 && Pow16(11) == 0x1000_0000_0000;
    }
    assert Pow16(16) == TWO_64 by {
      assert Pow16(13) == 0x10_0000_0000_0000 && Pow16(14) == 0x100_0000_0000_0000;
      assert Pow16(15) == 0x1000_0000_0000_0000;
    }
  }

  predicate IsDecimalDigit(c: char)
  {
    '0' <= c <= '9'
  }

  /** The default format of a non-negative value: decimal digits, no leading zeros. */
  function Decimal(n: nat): (s: string)
    ensures 1 <= |s|
    ensures forall i :: 0 <= i < |s| ==> IsDecimalDigit(s[i])
    ensures n > 0 ==> s[0] != '0'
  {
    if n < 10 then [('0' as int + n) as char] else Decimal(n / 10) + [('0' as int + n % 10) as char]
  }

  /** Reads decimal digits back into a number. */
  function DecimalValue(s: string): nat
    requires forall i :: 0 <= i < |s| ==> IsDecimalDigit(s[i])
  {
    if s == [] then 0
    else
      assert IsDecimalDigit(s[|s| - 1]);
      DecimalValue(s[..|s| - 1]) * 10 + (s[|s| - 1] as int - '0' as int)
  }

  lemma {:induction false} DecimalRoundTrip(n: nat)
    ensures DecimalValue(Decimal(n)) == n
  {
    if n >= 10 {
      DecimalRoundTrip(n / 10);
      var s := Decimal(n);
      assert s[..|s| - 1] == Decimal(n / 10);
    }
  }

  /** `{i}` for an `int`: a minus sign before the digits of a negative value. */
  function IntText(i: int): string
  {
    if i < 0 then "-" + Decimal(-i) else Decimal(i)
  }

  /** The sign and the digits of an `int`'s text read back as the value. */
  lemma IntTextRoundTrip(i: int)
    ensures |IntText(i)| >= 1
    ensures IntText(i)[0] == '-' <==> i < 0
    ensures i < 0 ==> DecimalValue(IntText(i)[1..]) == -i
    ensures i >= 0 ==> DecimalValue(IntText(i)) == i
  {
    if i < 0 {
      var d := Decimal(-i);
      assert IntText(i)[1..] == d;
      DecimalRoundTrip(-i);
    } else {
      var d := Decimal(i);
      assert IsDecimalDigit(d[0]);
      DecimalRoundTrip(i);
    }
  }

  function Max(a: nat, b: nat): nat
  {
    if a < b then b else a
  }

  /** `{s,-width}`: `s` left-aligned in at least `width` columns. */
  function PadRight(s: string, width: nat): (r: string)
    ensures |r| == Max(|s|, width)
    ensures r[..|s|] == s
    ensures forall i :: |s| <= i < |r| ==> r[i] == ' '
  {
    if |s| >= width then s else s + Spaces(width - |s|)
  }

  /** `s.TrimEnd(' ')`. */
  function TrimEnd(s: string): string
  {
    if s != [] && s[|s| - 1] == ' ' then TrimEnd(s[..|s| - 1]) else s
  }

  function Spaces(k: nat): (r: string)
    ensures |r| == k && forall i :: 0 <= i < k ==> r[i] == ' '
  {
    seq(k, _ => ' ')
  }

  lemma {:induction false} TrimEndSpaces(s: string, k: nat)
    requires s == [] || s[|s| - 1] != ' '
    ensures TrimEnd(s + Spaces(k)) == s
  {
    if k > 0 {
      var r := s + Spaces(k);
      assert r[|r| - 1] == ' ';
      assert r[..|r| - 1] == s + Spaces(k - 1);
      TrimEndSpaces(s, k - 1);
    } else {
      assert s + Spaces(0) == s;
    }
  }

  /** Trimming the padding gives back a text that did not itself end in a space. */
  lemma TrimEndPadRight(s: string, width: nat)
    requires s == [] || s[|s| - 1] != ' '
    ensures TrimEnd(PadRight(s, width)) == s
  {
    if |s| < width {
      assert PadRight(s, width) == s + Spaces(width - |s|);
      TrimEndSpaces(s, width - |s|);
    } else {
      TrimEndSpaces(s, 0);
      assert s + Spaces(0) == s;
    }
  }

  /** `PadByNumberSize(item)` for a number `item`: `0x` and the hex digits in 16 columns,
      or, without the signifier, the hex digits alone in 18 columns. */
  function PadByNumberSize(n: nat, prependHexSignifier: bool): (r: string)
    ensures prependHexSignifier ==> |r| == 2 + Max(|Hex(n)|, 16) && r[..2] == "0x"
    ensures !prependHexSignifier ==> |r| == Max(|Hex(n)|, 18)
    ensures var digits := if prependHexSignifier then r[2..] else r;
            (forall i :: 0 <= i < |TrimEnd(digits)| ==> IsHexDigit(TrimEnd(digits)[i]))
            && HexValue(TrimEnd(digits)) == n
  {
    var r := if prependHexSignifier then "0x" + PadRight(Hex(n), 16) else PadRight(Hex(n), 18);
    TrimEndPadRight(Hex(n), if prependHexSignifier then 16 else 18);
    assert prependHexSignifier ==> r[2..] == PadRight(Hex(n), 16);
    HexRoundTrip(n);
    r
  }

  /** A 64-bit value always takes exactly 18 columns, with or without the signifier. */
  lemma PadByNumberSizeWidth(n: U64, prependHexSignifier: bool)
    ensures |PadByNumberSize(n, prependHexSignifier)| == 18
  {
    HexWidth64(n);
  }

  /** The signifier only prefixes: with it the columns are `0x` followed by the 16-column
      digits, and the digits are the same as without it. */
  lemma PadByNumberSizeSignifier(n: nat)
    ensures TrimEnd(PadByNumberSize(n, true)[2..]) == TrimEnd(PadByNumberSize(n, false)) == Hex(n)
  {
    TrimEndPadRight(Hex(n), 16);
    TrimEndPadRight(Hex(n), 18);
    assert PadByNumberSize(n, true)[2..] == PadRight(Hex(n), 16);
  }

  /** `PadByNumberSize(header, false)` for a string `header` (a column title): the `X`
      format does not apply to strings, so the title is only padded to 18 columns. */
  function PadHeader(header: string): (r: string)
    ensures |r| == Max(|header|, 18)
    ensures r[..|header|] == header
    ensures (header == [] || header[|header| - 1] != ' ') ==> TrimEnd(r) == header
  {
    if header == [] || header[|header| - 1] != ' ' then
      TrimEndPadRight(header, 18);
      PadRight(header, 18)
    else
      PadRight(header, 18)
  }
}
