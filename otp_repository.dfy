/** The OTP table and its one custom query, `findValidOtp`. */
module OtpRepository {
  import opened Options

  /** A row of the OTP table: the address the code was issued for, the six-digit code,
      the instant (in seconds) after which it is expired, and whether it was consumed. */
  datatype Otp = Otp(email: string, code: string, expiryTime: int, used: bool)

  /** The WHERE clause of `findValidOtp`: same address, same code, expiry strictly after
      `now`, and not yet used. */
  predicate IsValidOtp(o: Otp, email: string, code: string, now: int)
  {
    o.email == email && o.code == code && o.expiryTime > now && !o.used
  }

  /** The position of the first row at or after `from` that satisfies the query. */
  function FindValidOtpFrom(rows: seq<Otp>, email: string, code: string, now: int, from: nat): (r: Option<nat>)
    requires from <= |rows|
    ensures r.Some? ==> from <= r.value < |rows| && IsValidOtp(rows[r.value], email, code, now)
    ensures r.Some? ==> forall i :: from <= i < r.value ==> !IsValidOtp(rows[i], email, code, now)
    ensures r.None? <==> forall i :: from <= i < |rows| ==> !IsValidOtp(rows[i], email, code, now)
    decreases |rows| - from
  {
    if from == |rows| then None
    else if IsValidOtp(rows[from], email, code, now) then Some(from)
    else FindValidOtpFrom(rows, email, code, now, from + 1)
  }

  /** `findValidOtp(email, code, now)`: a row whose address is `email`, whose code is
      `code`, whose expiry is strictly later than `now` and which is unused; empty when
      no row meets all four conditions. Among several such rows the first is returned. */
  function FindValidOtp(rows: seq<Otp>, email: string, code: string, now: int): (r: Option<nat>)
    ensures r.Some? ==> r.value < |rows|
    ensures r.Some? ==> rows[r.value].email == email && rows[r.value].code == code
    ensures r.Some? ==> rows[r.value].expiryTime > now && !rows[r.value].used
    ensures r.Some? ==> forall i :: 0 <= i < r.value ==> !IsValidOtp(rows[i], email, code, now)
    ensures r.None? <==> forall i :: 0 <= i < |rows| ==> !IsValidOtp(rows[i], email, code, now)
  {
    FindValidOtpFrom(rows, email, code, now, 0)
  }

  /** A row whose expiry instant is `now` itself is already expired. */
  lemma ExpiryIsStrict(rows: seq<Otp>, i: nat, now: int)
    requires i < |rows| && rows[i].expiryTime == now
    ensures FindValidOtp(rows, rows[i].email, rows[i].code, now) != Some(i)
  {
  }

  /** The table after `otpEntity.setUsed(true); save(otpEntity)` on row `i`. */
  function MarkUsed(rows: seq<Otp>, i: nat): (r: seq<Otp>)
    requires i < |rows|
    ensures |r| == |rows| && r[i] == rows[i].(used := true)
    ensures forall j :: 0 <= j < |rows| && j != i ==> r[j] == rows[j]
  {
    rows[i := rows[i].(used := true)]
  }

  /** Appending a row never hides a row that the query already finds, and the new row is
      found only when no earlier row satisfies the query. */
  lemma FindAfterAppend(rows: seq<Otp>, o: Otp, email: string, code: string, now: int)
    ensures FindValidOtp(rows + [o], email, code, now) ==
      if FindValidOtp(rows, email, code, now).Some? then FindValidOtp(rows, email, code, now)
      else if IsValidOtp(o, email, code, now) then Some(|rows|)
      else None
  {
    var before := FindValidOtp(rows, email, code, now);
    var after := FindValidOtp(rows + [o], email, code, now);
    assert forall i :: 0 <= i < |rows| ==> (rows + [o])[i] == rows[i];
    assert (rows + [o])[|rows|] == o;
    if before.Some? {
      assert after.Some?;
      assert !(after.value < before.value);
      assert !(before.value < after.value);
    } else if IsValidOtp(o, email, code, now) {
      assert after.Some?;
    }
  }

  /** Once row `i` is marked used, the same query never finds it again: whatever it finds
      afterwards is another row that was already valid before. */
  lemma MarkUsedIsFinal(rows: seq<Otp>, i: nat, email: string, code: string, now: int, later: int)
    requires i < |rows|
    ensures FindValidOtp(MarkUsed(rows, i), email, code, later) != Some(i)
    ensures var r := FindValidOtp(MarkUsed(rows, i), email, code, later);
      r.Some? ==> r.value != i && IsValidOtp(rows[r.value], email, code, later)
  {
  }
}
