/**
 * The two number renderings that reach the prover's output strings: Rust's
 * `{}` for an unsigned integer (decimal, no leading zeros), and the `{:?}`
 * rendering of a Pasta field element ("0x" and 64 lower-case hex digits,
 * most significant first). Each comes with the parser that inverts it.
 */
module Text {

  // ---------------------------------------------------------------------------
  // Decimal

  predicate IsDigits(s: string) {
    forall i | 0 <= i < |s| :: '0' <= s[i] <= '9'
  }

  function DigitChar(d: nat): (c: char)
    requires d < 10
    ensures '0' <= c <= '9' && c as int - '0' as int == d
  {
    ('0' as int + d) as char
  }

  /** `format!("{}", n)`. */
  function Decimal(n: nat): (s: string)
    ensures |s| >= 1 && IsDigits(s)
    ensures |s| > 1 ==> s[0] != '0'
  {
    if n < 10 then [DigitChar(n)] else Decimal(n / 10) + [DigitChar(n % 10)]
  }

  function ParseDecimal(s: string): nat
    requires IsDigits(s)
  {
    if s == [] then 0
    else ParseDecimal(s[..|s| - 1]) * 10 + (s[|s| - 1] as int - '0' as int)
  }

  lemma {:induction false} DecimalRoundTrip(n: nat)
    ensures ParseDecimal(Decimal(n)) == n
  {
    if n >= 10 {
      var s := Decimal(n);
      assert s[..|s| - 1] == Decimal(n / 10);
      DecimalRoundTrip(n / 10);
    }
  }

  /** Distinct numbers render differently. */
  lemma DecimalInjective(m: nat, n: nat)
    requires m != n
    ensures Decimal(m) != Decimal(n)
  {
    DecimalRoundTrip(m);
    DecimalRoundTrip(n);
  }

  // ---------------------------------------------------------------------------
  // Hexadecimal

  function Pow16(n: nat): (r: nat)
    ensures r >= 1
  {
    if n == 0 then 1 else 16 * Pow16(n - 1)
  }

  function HexChar(d: nat): char
    requires d < 16
  {
    "0123456789abcdef"[d]
  }

  function HexValue(c: char): (d: nat)
    ensures d < 16
  {
    if '0' <= c <= '9' then c as int - '0' as int
    else if 'a' <= c <= 'f' then c as int - 'a' as int + 10
    else 0
  }

  /** The low `width` hex digits of `v`, most significant first. */
  function HexDigits(v: nat, width: nat): (s: string)
    ensures |s| == width
  {
    if width == 0 then [] else HexDigits(v / 16, width - 1) + [HexChar(v % 16)]
  }

  function ParseHex(s: string): nat {
    if s == [] then 0 else ParseHex(s[..|s| - 1]) * 16 + HexValue(s[|s| - 1])
  }

  lemma {:induction false} HexRoundTrip(v: nat, width: nat)
    requires v < Pow16(width)
    ensures ParseHex(HexDigits(v, width)) == v
  {
    if width > 0 {
      var s := HexDigits(v, width);
      assert s[..|s| - 1] == HexDigits(v / 16, width - 1);
      assert HexValue(HexChar(v % 16)) == v % 16;
      HexRoundTrip(v / 16, width - 1);
    }
  }

  lemma {:induction false} Pow16Monotone(m: nat, n: nat)
    requires m <= n
    ensures Pow16(m) <= Pow16(n)
  {
    if m < n {
      Pow16Monotone(m, n - 1);
    }
  }

  /** Every u64 fits in 16 hex digits, hence in the 64 of a field element. */
  lemma U64FitsHex()
    ensures 0x1_0000_0000_0000_0000 == Pow16(16) <= Pow16(64)
  {
    assert Pow16(4) == 0x1_0000;
    assert Pow16(8) == 0x1_0000_0000 by { assert Pow16(8) == Pow16(4) * Pow16(4) by { PowAdd(4, 4); } }
    assert Pow16(16) == 0x1_0000_0000_0000_0000 by { PowAdd(8, 8); }
    Pow16Monotone(16, 64);
  }

  lemma {:induction false} PowAdd(m: nat, n: nat)
    ensures Pow16(m + n) == Pow16(m) * Pow16(n)
  {
    if n > 0 {
      PowAdd(m, n - 1);
    }
  }

  /** `format!("{:?}", f)` for a Pasta field element whose canonical value is `v`. */
  function FieldDebug(v: nat): (s: string)
    ensures |s| == 66 && s[..2] == "0x"
  {
    "0x" + HexDigits(v, 64)
  }

  /** Distinct field elements render differently. */
  lemma FieldDebugInjective(u: nat, v: nat)
    requires u < Pow16(64) && v < Pow16(64) && u != v
    ensures FieldDebug(u) != FieldDebug(v)
  {
    assert FieldDebug(u)[2..] == HexDigits(u, 64);
    assert FieldDebug(v)[2..] == HexDigits(v, 64);
    HexRoundTrip(u, 64);
    HexRoundTrip(v, 64);
  }
}
