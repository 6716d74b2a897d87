/** Decimal rendering used by every generated code and number:
    Java's `String.format("%0Nd", n)` for a non-negative `n`, and the
    `yyyyMMdd` date pattern. Each rendering has a parser as its partner. */
module Digits {
  import opened Common

  predicate IsDigit(c: char)
  {
    '0' <= c <= '9'
  }

  predicate AllDigits(s: string)
  {
    forall i :: 0 <= i < |s| ==> IsDigit(s[i])
  }

  function DigitChar(d: nat): (c: char)
    requires d < 10
    ensures IsDigit(c)
    ensures (c as int) - ('0' as int) == d
  {
    ('0' as int + d) as char
  }

  /** The shortest decimal rendering of `n` ("0" for zero). */
  function NatToString(n: nat): (s: string)
    ensures |s| >= 1
    ensures AllDigits(s)
    decreases n
  {
    if n < 10 then [DigitChar(n)] else NatToString(n / 10) + [DigitChar(n % 10)]
  }

  /** `%0<width>d`: left-pad the rendering of `n` with zeros up to `width`. */
  function ZeroPad(n: nat, width: nat): (s: string)
    ensures AllDigits(s)
  {
    var digits := NatToString(n);
    if |digits| >= width then digits else Zeros(width - |digits|) + digits
  }

  function Zeros(k: nat): (s: string)
    ensures |s| == k
    ensures forall i :: 0 <= i < k ==> s[i] == '0'
  {
    if k == 0 then [] else Zeros(k - 1) + ['0']
  }

  /** The value of a string of decimal digits, most significant first. */
  function ParseDigits(s: string): nat
    requires AllDigits(s)
  {
    if |s| == 0 then 0 else 10 * ParseDigits(s[..|s| - 1]) + ((s[|s| - 1] as int) - ('0' as int))
  }

  /** Powers of ten bound the length of a rendering. */
  function Pow10(k: nat): (p: nat)
    ensures p >= 1
  {
    if k == 0 then 1 else 10 * Pow10(k - 1)
  }

  lemma {:induction false} NatToStringRoundTrip(n: nat)
    ensures ParseDigits(NatToString(n)) == n
    decreases n
  {
    if n >= 10 {
      NatToStringRoundTrip(n / 10);
      var s := NatToString(n);
      assert s[..|s| - 1] == NatToString(n / 10);
    }
  }

  lemma {:induction false} NatToStringLength(n: nat, k: nat)
    requires n < Pow10(k)
    requires k >= 1
    ensures |NatToString(n)| <= k
    decreases k
  {
    if n >= 10 {
      assert k >= 2;
      NatToStringLength(n / 10, k - 1);
    }
  }

  /** A value of at least 10^k needs more than k digits. */
  lemma {:induction false} NatToStringLongueurMin(n: nat, k: nat)
    requires n >= Pow10(k)
    ensures |NatToString(n)| >= k + 1
    decreases k
  {
    if k > 0 {
      assert n / 10 >= Pow10(k - 1);
      NatToStringLongueurMin(n / 10, k - 1);
    }
  }

  lemma {:induction false} ParseLeadingZeros(k: nat, s: string)
    requires AllDigits(s)
    ensures AllDigits(Zeros(k) + s)
    ensures ParseDigits(Zeros(k) + s) == ParseDigits(s)
    decreases |s|
  {
    var z := Zeros(k) + s;
    if |s| == 0 {
      assert z == Zeros(k);
      ZerosParse(k);
    } else {
      ParseLeadingZeros(k, s[..|s| - 1]);
      assert z[..|z| - 1] == Zeros(k) + s[..|s| - 1];
    }
  }

  lemma {:induction false} ZerosParse(k: nat)
    ensures ParseDigits(Zeros(k)) == 0
    decreases k
  {
    if k > 0 {
      ZerosParse(k - 1);
      assert Zeros(k)[..k - 1] == Zeros(k - 1);
    }
  }

  /** `%0<width>d` has exactly `width` digits when `n` fits, and parses back to `n`. */
  lemma ZeroPadRoundTrip(n: nat, width: nat)
    requires width >= 1 && n < Pow10(width)
    ensures |ZeroPad(n, width)| == width
    ensures ParseDigits(ZeroPad(n, width)) == n
  {
    NatToStringLength(n, width);
    NatToStringRoundTrip(n);
    if |NatToString(n)| < width {
      ParseLeadingZeros(width - |NatToString(n)|, NatToString(n));
    }
  }

  /** `%03d`: three digits for every value below 1000. */
  function Pad3(n: nat): (s: string)
    ensures AllDigits(s)
    ensures n < 1000 ==> |s| == 3 && ParseDigits(s) == n
    ensures n >= 1000 ==> ParseDigits(s) == n
  {
    assert Pow10(3) == 1000;
    if n < 1000 then
      ZeroPadRoundTrip(n, 3);
      ZeroPad(n, 3)
    else
      NatToStringRoundTrip(n);
      ZeroPad(n, 3)
  }

  /** The `yyyyMMdd` pattern of DateTimeFormatter. */
  function FormatYmd(d: CalendarDate): (s: string)
    ensures |s| == 8 && AllDigits(s)
    ensures ParseDigits(s[..4]) == d.year
    ensures ParseDigits(s[4..6]) == d.month
    ensures ParseDigits(s[6..]) == d.day
  {
    assert Pow10(4) == 10000 && Pow10(2) == 100;
    ZeroPadRoundTrip(d.year, 4);
    ZeroPadRoundTrip(d.month, 2);
    ZeroPadRoundTrip(d.day, 2);
    var s := ZeroPad(d.year, 4) + ZeroPad(d.month, 2) + ZeroPad(d.day, 2);
    assert s[..4] == ZeroPad(d.year, 4);
    assert s[4..6] == ZeroPad(d.month, 2);
    assert s[6..] == ZeroPad(d.day, 2);
    s
  }

  /** Distinct dates render distinctly, so a date prefix identifies its day. */
  lemma FormatYmdInjective(a: CalendarDate, b: CalendarDate)
    requires FormatYmd(a) == FormatYmd(b)
    ensures a == b
  {
  }

  /** Distinct counters below 1000 give distinct three-digit suffixes. */
  lemma Pad3Injective(m: nat, n: nat)
    requires m < 1000 && n < 1000 && Pad3(m) == Pad3(n)
    ensures m == n
  {
  }
}
