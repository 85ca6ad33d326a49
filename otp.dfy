/**
 * One-time passcodes (otpService.js): a six-digit code, its five-minute
 * lifetime, and the verification of a provided code. The clock and the
 * random source are parameters.
 */
module Otp {
  import opened Records
  import opened Text

  /** Five minutes in milliseconds. */
  const Lifetime: Time := 5 * 60 * 1000

  /** getOTPExpiry at time `now`. */
  function Expiry(now: Time): Time {
    now + Lifetime
  }

  datatype Verification = Verified | ExpiredCode | WrongCode

  /** verifyOTP: expiry is checked first, then the codes are compared. */
  function Verify(stored: string, provided: string, expiresAt: Time, now: Time): Verification {
    if now > expiresAt then ExpiredCode
    else if stored != provided then WrongCode
    else Verified
  }

  // ------------------------------------------------------------ generateOTP

  /** `Math.floor(100000 + u * 900000)` for a draw `u` in [0, 1). */
  function Draw(u: real): (n: int)
    requires 0.0 <= u < 1.0
    ensures 100000 <= n <= 999999
  {
    var x := 100000.0 + u * 900000.0;
    assert 100000.0 <= x < 1000000.0;
    x.Floor
  }

  /** generateOTP: the decimal string of a draw. */
  function Generate(u: real): string
    requires 0.0 <= u < 1.0
  {
    Decimal(Draw(u))
  }

  // ----------------------------------------------------------------- lemmas

  /**
   * A code is accepted exactly when it is not past its expiry and equals the
   * stored one; an expired code is refused as expired even when it matches.
   */
  lemma {:induction false} VerifySpec(stored: string, provided: string, expiresAt: Time, now: Time)
    ensures Verify(stored, provided, expiresAt, now) == Verified <==> now <= expiresAt && stored == provided
    ensures now > expiresAt ==> Verify(stored, provided, expiresAt, now) == ExpiredCode
    ensures now <= expiresAt && stored != provided ==> Verify(stored, provided, expiresAt, now) == WrongCode
  {
  }

  /**
   * A code issued at `issued` verifies at `now` exactly when it is presented
   * unchanged at most five minutes later.
   */
  lemma {:induction false} IssuedCodeWindow(code: string, provided: string, issued: Time, now: Time)
    ensures Verify(code, provided, Expiry(issued), now) == Verified <==> now - issued <= 300000 && provided == code
  {
  }

  /** A number of k + 1 digits, between 10^k and 10^(k+1), has a decimal string of that length. */
  lemma {:induction false} DecimalLength(n: nat, k: nat)
    requires Pow10(k) <= n < Pow10(k + 1)
    ensures |Decimal(n)| == k + 1
    decreases k
  {
    if k > 0 {
      DecimalLength(n / 10, k - 1);
    }
  }

  function Pow10(k: nat): nat {
    if k == 0 then 1 else 10 * Pow10(k - 1)
  }

  /** Every generated code is six decimal digits naming a number in [100000, 999999]. */
  lemma {:induction false} GenerateRange(u: real)
    requires 0.0 <= u < 1.0
    ensures var s := Generate(u);
      && |s| == 6
      && (forall i :: 0 <= i < |s| ==> IsDigit(s[i]))
      && 100000 <= Parse(s) <= 999999
  {
    var n := Draw(u);
    assert Pow10(5) == 100000 && Pow10(6) == 1000000 by {
      assert Pow10(0) == 1 && Pow10(1) == 10 && Pow10(2) == 100 && Pow10(3) == 1000;
    }
    DecimalLength(n, 5);
    DecimalRoundTrip(n);
  }
}
