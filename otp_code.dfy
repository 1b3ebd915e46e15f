/** The one-time code of `/api/send-otp`: `Math.floor(100000 + Math.random() * 900000)`,
    rendered with `toString()`, valid for ten minutes. */
module OtpCode {
  import opened Text
  import OtpLedger

  const CodeMin: int := 100000
  const CodeSpan: int := 900000

  /** The code drawn for a random number `random` in [0, 1), computed over exact reals. */
  function GenerateCode(random: real): (code: int)
    requires 0.0 <= random < 1.0
    ensures CodeMin <= code < CodeMin + CodeSpan
  {
    assert random * 900000.0 < 900000.0;
    (100000.0 + random * 900000.0).Floor
  }

  /** Every six-digit code can be drawn. */
  lemma EveryCodeReachable(n: int)
    requires CodeMin <= n < CodeMin + CodeSpan
    ensures exists random: real :: 0.0 <= random < 1.0 && GenerateCode(random) == n
  {
    var random := (n - CodeMin) as real / 900000.0;
    assert random * 900000.0 == (n - CodeMin) as real;
    assert 100000.0 + random * 900000.0 == n as real;
    assert GenerateCode(random) == n;
  }

  /** The expiry stored with a code sent at `now`. */
  function ExpiresAt(now: int): int
  {
    now + OtpLedger.CodeLifetimeMs
  }

  function DigitChar(d: nat): (c: char)
    requires d < 10
    ensures IsDigit(c) && c as int - '0' as int == d
  {
    ('0' as int + d) as char
  }

  /** `Number.prototype.toString()` of a non-negative integer: its decimal digits. */
  function DecimalString(n: nat): (s: string)
    ensures |s| >= 1 && AllDigits(s)
    decreases n
  {
    if n < 10 then [DigitChar(n)] else DecimalString(n / 10) + [DigitChar(n % 10)]
  }

  /** The number a string of decimal digits denotes. */
  function DigitsValue(s: string): nat
    requires AllDigits(s)
    decreases |s|
  {
    if |s| == 0 then 0
    else DigitsValue(s[..|s| - 1]) * 10 + (s[|s| - 1] as int - '0' as int)
  }

  /** Reading the digits back gives the number: distinct codes have distinct strings. */
  lemma {:induction false} DecimalRoundTrip(n: nat)
    ensures DigitsValue(DecimalString(n)) == n
    decreases n
  {
    var s := DecimalString(n);
    if n >= 10 {
      DecimalRoundTrip(n / 10);
      assert s[..|s| - 1] == DecimalString(n / 10);
    }
  }

  function Pow10(k: nat): nat
  {
    if k == 0 then 1 else 10 * Pow10(k - 1)
  }

  /** A number with `k` digits renders as exactly `k` characters. */
  lemma {:induction false} DecimalLength(n: nat, k: nat)
    requires 1 <= k && Pow10(k - 1) <= n < Pow10(k)
    ensures |DecimalString(n)| == k
    decreases k
  {
    PowAbove(k - 1);
    if n >= 10 {
      DecimalLength(n / 10, k - 1);
    }
  }

  /** Powers of ten from the first on are at least ten. */
  lemma {:induction false} PowAbove(k: nat)
    ensures Pow10(k) >= 1
    ensures k >= 1 ==> Pow10(k) >= 10
  {
    if k > 0 {
      PowAbove(k - 1);
    }
  }

  /** The string stored and sent is six decimal digits: it fits the six-box code input. */
  lemma CodeStringIsSixDigits(random: real)
    requires 0.0 <= random < 1.0
    ensures |DecimalString(GenerateCode(random))| == 6
    ensures AllDigits(DecimalString(GenerateCode(random)))
  {
    assert Pow10(5) == 100000 && Pow10(6) == 1000000;
    DecimalLength(GenerateCode(random), 6);
  }
}
