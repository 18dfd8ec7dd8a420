/** `OtpService`: issues six-digit codes into the OTP table and consumes them.
    The clock (`LocalDateTime.now()`) and the random source (`Random.nextInt(10)`) are
    parameters: `now` is an instant in seconds and `draws` are the six values drawn. */
module OtpService {
  import opened Options
  import opened Text
  import opened OtpRepository

  const OTP_LENGTH: nat := 6
  const OTP_EXPIRATION_MINUTES: int := 5

  /** `now.plusMinutes(minutes)` on instants counted in seconds. */
  function PlusMinutes(now: int, minutes: int): int
  {
    now + 60 * minutes
  }

  /** Random draws that `Random.nextInt(10)` can produce, one per code position. */
  predicate AreDigitDraws(draws: seq<nat>)
  {
    |draws| == OTP_LENGTH && forall k :: 0 <= k < |draws| ==> draws[k] < 10
  }

  /** The code spelled by the draws, one decimal digit per draw. */
  function CodeOf(draws: seq<nat>): (code: string)
    requires AreDigitDraws(draws)
  {
    seq(OTP_LENGTH, k requires 0 <= k < OTP_LENGTH => DigitChar(draws[k]))
  }

  /** The draws that spell a given code. */
  function DrawsOf(code: string): (draws: seq<nat>)
    requires |code| == OTP_LENGTH && AllDigits(code)
  {
    seq(OTP_LENGTH, k requires 0 <= k < OTP_LENGTH => DigitValue(code[k]))
  }

  /** Every string of six decimal digits, leading zeros included, is a possible code,
      and every possible code is such a string. */
  lemma CodesAreSixDigitStrings(code: string, draws: seq<nat>)
    ensures |code| == OTP_LENGTH && AllDigits(code) ==>
      AreDigitDraws(DrawsOf(code)) && CodeOf(DrawsOf(code)) == code
    ensures AreDigitDraws(draws) ==> |CodeOf(draws)| == OTP_LENGTH && AllDigits(CodeOf(draws))
  {
    if |code| == OTP_LENGTH && AllDigits(code) {
      var d := DrawsOf(code);
      assert AreDigitDraws(d);
      assert forall k :: 0 <= k < OTP_LENGTH ==> CodeOf(d)[k] == code[k];
    }
  }

  /** The table after `generateAndSaveOtp(email)` stored `code` at instant `now`. */
  function Issued(rows: seq<Otp>, email: string, code: string, now: int): (r: seq<Otp>)
    ensures |r| == |rows| + 1 && r[..|rows|] == rows
    ensures r[|rows|].email == email && r[|rows|].code == code && !r[|rows|].used
    ensures r[|rows|].expiryTime == now + 300
    ensures forall later :: IsValidOtp(r[|rows|], email, code, later) <==> later < now + 300
  {
    rows + [Otp(email, code, PlusMinutes(now, OTP_EXPIRATION_MINUTES), false)]
  }

  /** The outcome of `verifyOtp(email, code)` at instant `now`, and the table after it. */
  function Verified(rows: seq<Otp>, email: string, code: string, now: int): (r: (bool, seq<Otp>))
    ensures r.0 <==> exists i :: 0 <= i < |rows| && IsValidOtp(rows[i], email, code, now)
    ensures |r.1| == |rows|
    ensures !r.0 ==> r.1 == rows
    ensures r.0 ==> exists i :: 0 <= i < |rows| && IsValidOtp(rows[i], email, code, now) && r.1[i].used
  {
    match FindValidOtp(rows, email, code, now)
    case Some(i) => (true, MarkUsed(rows, i))
    case None => (false, rows)
  }

  /** Verification succeeds exactly when some row is valid for the query; then exactly
      one such row is marked used and nothing else changes; otherwise nothing changes. */
  lemma VerifiedSpec(rows: seq<Otp>, email: string, code: string, now: int)
    ensures var (ok, after) := Verified(rows, email, code, now);
      && (ok <==> exists i :: 0 <= i < |rows| && IsValidOtp(rows[i], email, code, now))
      && |after| == |rows|
      && (!ok ==> after == rows)
      && (ok ==> exists i :: 0 <= i < |rows| && IsValidOtp(rows[i], email, code, now)
                   && after[i] == rows[i].(used := true)
                   && forall j :: 0 <= j < |rows| && j != i ==> after[j] == rows[j])
  {
    var r := FindValidOtp(rows, email, code, now);
    if r.Some? {
      var i := r.value;
      assert IsValidOtp(rows[i], email, code, now);
      var after := MarkUsed(rows, i);
      assert after[i] == rows[i].(used := true);
    }
  }

  /** A freshly issued code verifies for its address at any instant before its expiry. */
  lemma IssuedCodeVerifies(rows: seq<Otp>, email: string, code: string, now: int, later: int)
    requires later < PlusMinutes(now, OTP_EXPIRATION_MINUTES)
    ensures Verified(Issued(rows, email, code, now), email, code, later).0
  {
    FindAfterAppend(rows, Otp(email, code, PlusMinutes(now, OTP_EXPIRATION_MINUTES), false), email, code, later);
  }

  /** From the expiry instant on, the issued row plays no part: verification behaves as
      on the table without it, and the row itself stays unused. */
  lemma IssuedCodeExpires(rows: seq<Otp>, email: string, code: string, now: int, later: int)
    requires later >= PlusMinutes(now, OTP_EXPIRATION_MINUTES)
    ensures var o := Otp(email, code, PlusMinutes(now, OTP_EXPIRATION_MINUTES), false);
      var (ok, after) := Verified(rows, email, code, later);
      Verified(Issued(rows, email, code, now), email, code, later) == (ok, after + [o])
  {
    var o := Otp(email, code, PlusMinutes(now, OTP_EXPIRATION_MINUTES), false);
    FindAfterAppend(rows, o, email, code, later);
    var r := FindValidOtp(rows, email, code, later);
    if r.Some? {
      assert MarkUsed(rows + [o], r.value) == MarkUsed(rows, r.value) + [o];
    }
  }

  /** Issuing a new code does not invalidate earlier ones: any query that succeeded on the
      old table succeeds on the new one and consumes the same row. */
  lemma IssueKeepsEarlierCodes(rows: seq<Otp>, email: string, code: string, now: int,
                               email': string, code': string, later: int)
    requires Verified(rows, email', code', later).0
    ensures var (ok, after) := Verified(Issued(rows, email, code, now), email', code', later);
      ok && after == Verified(rows, email', code', later).1 + [Otp(email, code, PlusMinutes(now, OTP_EXPIRATION_MINUTES), false)]
  {
    var o := Otp(email, code, PlusMinutes(now, OTP_EXPIRATION_MINUTES), false);
    FindAfterAppend(rows, o, email', code', later);
    var i := FindValidOtp(rows, email', code', later).value;
    assert MarkUsed(rows + [o], i) == MarkUsed(rows, i) + [o];
  }

  /** A code is single-use: when the table holds one row for (email, code), verifying
      that code a second time fails, at any later instant. */
  lemma VerifiedCodeIsConsumed(rows: seq<Otp>, email: string, code: string, now: int, later: int)
    requires forall i, j ::
               (0 <= i < |rows| && 0 <= j < |rows| && rows[i].email == email && rows[i].code == code
                && rows[j].email == email && rows[j].code == code) ==> i == j
    requires Verified(rows, email, code, now).0
    ensures !Verified(Verified(rows, email, code, now).1, email, code, later).0
  {
    var i := FindValidOtp(rows, email, code, now).value;
    var after := MarkUsed(rows, i);
    forall j | 0 <= j < |after| ensures !IsValidOtp(after[j], email, code, later) {
      if j != i {
        assert after[j] == rows[j];
        assert rows[i].email == email && rows[i].code == code;
      }
    }
  }

  /** The service object; `otps` stands for the rows of the OTP table. */
  class OtpService {
    var otps: seq<Otp>

    constructor (rows: seq<Otp>)
      ensures otps == rows
    {
      otps := rows;
    }

    /** `generateOtp`: appends one digit per draw. */
    method GenerateOtp(draws: seq<nat>) returns (code: string)
      requires AreDigitDraws(draws)
      ensures code == CodeOf(draws)
      ensures |code| == OTP_LENGTH && AllDigits(code)
    {
      code := [];
      var i := 0;
      while i < OTP_LENGTH
        invariant 0 <= i <= OTP_LENGTH
        invariant code == CodeOf(draws)[..i]
      {
        code := code + [DigitChar(draws[i])];
        i := i + 1;
      }
      CodesAreSixDigitStrings([], draws);
    }

    /** `generateAndSaveOtp`: saves one new unused row for `email` that expires five
        minutes after `now`, and returns its code. Earlier rows stay as they were. */
    method GenerateAndSaveOtp(email: string, now: int, draws: seq<nat>) returns (code: string)
      requires AreDigitDraws(draws)
      modifies this
      ensures code == CodeOf(draws)
      ensures otps == Issued(old(otps), email, code, now)
    {
      code := GenerateOtp(draws);
      var expiryTime := PlusMinutes(now, OTP_EXPIRATION_MINUTES);
      otps := otps + [Otp(email, code, expiryTime, false)];
    }

    /** `verifyOtp`: consumes a valid row for (email, code) at `now` if there is one. */
    method VerifyOtp(email: string, code: string, now: int) returns (ok: bool)
      modifies this
      ensures (ok, otps) == Verified(old(otps), email, code, now)
    {
      var validOtp := FindValidOtp(otps, email, code, now);
      if validOtp.Some? {
        otps := otps[validOtp.value := otps[validOtp.value].(used := true)];
        return true;
      }
      return false;
    }
  }
}
