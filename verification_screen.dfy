/** `VerificationScreen`: the five-minute countdown, its `m:ss` display, the resend
    button and the handler that stores the new user once the code is accepted. One
    interval tick is one call of `Tick`; the backend calls are parameters. */
module VerificationScreen {
  import opened Options
  import opened Text
  import opened AppStorage

  /** The countdown's start: five minutes, in seconds. */
  const INITIAL_TIME_LEFT: int := 300

  /** One interval tick: `prevTime <= 1 ? 0 : prevTime - 1`. */
  function TickValue(t: int): int
  {
    if t <= 1 then 0 else t - 1
  }

  /** The countdown after `n` ticks from `t`. */
  function Ticks(t: int, n: nat): int
    decreases n
  {
    if n == 0 then t else Ticks(TickValue(t), n - 1)
  }

  /** From a non-negative start, `n` ticks count down by `n` and stop at zero: the value
      never goes negative and never increases. */
  lemma {:induction false} TicksCountDown(t: int, n: nat)
    requires t >= 0
    ensures Ticks(t, n) == if t - n > 0 then t - n else 0
    ensures 0 <= Ticks(t, n) <= t
  {
    if n > 0 {
      TicksCountDown(TickValue(t), n - 1);
    }
  }

  /** The countdown as the screen holds it: the seconds left, and whether the interval
      that ticks it is still scheduled. */
  datatype Countdown = Countdown(timeLeft: int, running: bool)

  /** One second of wall-clock time: a scheduled interval ticks, and clears itself on
      the tick that reaches zero; a cleared one changes nothing. */
  function TickCountdown(c: Countdown): (r: Countdown)
    ensures !c.running ==> r == c
    ensures c.running ==> r.timeLeft == TickValue(c.timeLeft) && (r.running <==> r.timeLeft > 0)
    ensures c.timeLeft >= 0 ==> 0 <= r.timeLeft <= c.timeLeft
  {
    if !c.running then c
    else if c.timeLeft <= 1 then Countdown(0, false)
    else Countdown(c.timeLeft - 1, true)
  }

  /** The countdown after `n` seconds. */
  function CountdownAfter(c: Countdown, n: nat): Countdown
    decreases n
  {
    if n == 0 then c else CountdownAfter(TickCountdown(c), n - 1)
  }

  /** A successful resend as written: the time is set back to five minutes, but the
      interval, cleared when the countdown reached zero, is not scheduled again. */
  function ResendAsWritten(c: Countdown): (r: Countdown)
    ensures r.timeLeft == INITIAL_TIME_LEFT && r.running == c.running
    ensures !c.running ==> TickCountdown(r) == r
  {
    Countdown(INITIAL_TIME_LEFT, c.running)
  }

  /** A successful resend as intended: five more minutes, counted down again. */
  function Resend(c: Countdown): (r: Countdown)
    ensures r.timeLeft == INITIAL_TIME_LEFT
    ensures TickCountdown(r) == Countdown(INITIAL_TIME_LEFT - 1, true)
  {
    Countdown(INITIAL_TIME_LEFT, true)
  }

  /** A cleared interval leaves the countdown as it is for good. */
  lemma {:induction false} StoppedStays(t: int, n: nat)
    ensures CountdownAfter(Countdown(t, false), n) == Countdown(t, false)
    decreases n
  {
    if n > 0 {
      StoppedStays(t, n - 1);
    }
  }

  /** A running countdown follows `Ticks`, and stays scheduled exactly while time is
      left. */
  lemma {:induction false} RunningCountdown(t: int, n: nat)
    requires t > 0
    ensures CountdownAfter(Countdown(t, true), n) == Countdown(Ticks(t, n), Ticks(t, n) > 0)
    decreases n
  {
    if n > 0 {
      if t <= 1 {
        StoppedStays(0, n - 1);
        TicksCountDown(0, n - 1);
      } else {
        RunningCountdown(t - 1, n - 1);
      }
    }
  }

  /** As written, the resend that the button allows (at zero, with the interval
      cleared) freezes the countdown: however many seconds pass it shows five minutes,
      and the resend button stays disabled. */
  lemma ResendFreezesCountdown(n: nat)
    ensures var c := CountdownAfter(ResendAsWritten(Countdown(0, false)), n);
      c == Countdown(INITIAL_TIME_LEFT, false) && c.timeLeft > 0
  {
    StoppedStays(INITIAL_TIME_LEFT, n);
  }

  /** As intended, a resend restarts the countdown: after `n` seconds `300 - n` are
      left, and after five minutes it is back at zero, so the code can be re-sent. */
  lemma ResendRestartsCountdown(c: Countdown, n: nat)
    ensures CountdownAfter(Resend(c), n).timeLeft == if INITIAL_TIME_LEFT - n > 0 then INITIAL_TIME_LEFT - n else 0
    ensures n >= INITIAL_TIME_LEFT ==> CountdownAfter(Resend(c), n) == Countdown(0, false)
  {
    RunningCountdown(INITIAL_TIME_LEFT, n);
    TicksCountDown(INITIAL_TIME_LEFT, n);
  }

  /** A countdown display: digits, a colon, then two digits. */
  predicate IsClockDisplay(r: string)
  {
    |r| >= 4 && r[|r| - 3] == ':' && AllDigits(r[..|r| - 3]) && AllDigits(r[|r| - 2..])
  }

  /** `formatTime(seconds)`: whole minutes, a colon, then the remaining seconds padded
      to two digits. */
  function FormatTime(seconds: nat): (r: string)
    ensures IsClockDisplay(r)
  {
    var secs := seconds % 60;
    assert secs < 60;
    Clock(seconds / 60, secs)
  }

  /** `m:ss` for given minutes and seconds. */
  function Clock(minutes: nat, secs: nat): (r: string)
    requires secs < 60
    ensures IsClockDisplay(r)
  {
    var a := Decimal(minutes);
    var b := PadStart(Decimal(secs), 2, '0');
    SecondsField(secs);
    ClockShape(a, b, a + ":" + b);
    a + ":" + b
  }

  /** The positions of the colon and the digits in `r == a + ":" + b`, `b` of two digits. */
  lemma ClockShape(a: string, b: string, r: string)
    requires |a| >= 1 && AllDigits(a) && |b| == 2 && AllDigits(b)
    requires r == a + ":" + b
    ensures IsClockDisplay(r)
  {
    assert r[..|r| - 3] == a && r[|r| - 2..] == b;
  }

  /** The seconds field is two digits that read back as the seconds. */
  lemma SecondsField(secs: nat)
    requires secs < 60
    ensures var f := PadStart(Decimal(secs), 2, '0');
      |f| == 2 && AllDigits(f) && DecimalValue(f) == secs
  {
    ZeroPadKeepsValue(Decimal(secs), 2);
    DecimalRoundTrip(secs);
  }

  /** The shape of `a + ":" + b` for numerals `a` and `b`, `b` of two digits. */
  lemma ColonJoin(a: string, b: string)
    requires |a| >= 1 && AllDigits(a) && |b| == 2 && AllDigits(b)
    ensures var r := a + ":" + b;
      |r| >= 4 && r[|r| - 3] == ':' && r[..|r| - 3] == a && r[|r| - 2..] == b
      && Before(r, ':') == a && r[|a| + 1..] == b
  {
    var r := a + ":" + b;
    assert r[..|r| - 3] == a && r[|r| - 2..] == b && r[|a| + 1..] == b;
    assert ':' !in a by {
      forall k | 0 <= k < |a| ensures a[k] != ':' { assert IsDigit(a[k]); }
    }
    var m := Before(r, ':');
    assert r[|a|] == ':';
    assert |m| == |a|;
    assert m == r[..|m|];
  }

  /** Reads an `m:ss` display back: the digits before the first colon are minutes, the
      two digits after it are seconds below 60. */
  function ParseTime(display: string): Option<nat>
  {
    var minutes := Before(display, ':');
    if |minutes| == |display| then None
    else
      var secs := display[|minutes| + 1..];
      if AllDigits(minutes) && AllDigits(secs) && |secs| == 2 && DecimalValue(secs) < 60
      then Some(60 * DecimalValue(minutes) + DecimalValue(secs))
      else None
  }

  /** The display determines the time left: reading it back gives the seconds. */
  lemma FormatTimeRoundTrip(seconds: nat)
    ensures ParseTime(FormatTime(seconds)) == Some(seconds)
  {
    var q, rem := seconds / 60, seconds % 60;
    assert seconds == 60 * q + rem;
    ClockRoundTrip(q, rem);
  }

  lemma ClockRoundTrip(minutes: nat, secs: nat)
    requires secs < 60
    ensures ParseTime(Clock(minutes, secs)) == Some(60 * minutes + secs)
  {
    SecondsField(secs);
    DecimalRoundTrip(minutes);
    ParseJoined(Decimal(minutes), PadStart(Decimal(secs), 2, '0'), minutes, secs);
  }

  /** Reading `a:b` back for a numeral `a` and a two-digit `b`. */
  lemma ParseJoined(a: string, b: string, m: nat, s: nat)
    requires |a| >= 1 && AllDigits(a) && |b| == 2 && AllDigits(b)
    requires DecimalValue(a) == m && DecimalValue(b) == s && s < 60
    ensures ParseTime(a + ":" + b) == Some(60 * m + s)
  {
    ColonJoin(a, b);
  }

  /** The user record stored after a successful verification: the address, the part of
      it before the first `@` as the name, and no avatar. */
  function VerifiedUser(email: string): (u: JsObject)
    ensures u.Keys == {"email", "name", "avatar"}
    ensures u["email"] == JStr(email) && u["avatar"] == JNull
    ensures u["name"].JStr? && '@' !in u["name"].s && StartsWith(email, u["name"].s)
    ensures '@' in email ==> email[|u["name"].s|] == '@'
    ensures '@' !in email ==> u["name"] == JStr(email)
  {
    map["email" := JStr(email), "name" := JStr(Before(email, '@')), "avatar" := JNull]
  }

  class VerificationScreen {
    const email: string
    const password: string
    const storage: KeyValueStore
    var timeLeft: int
    /** Whether the one interval started on mount is still scheduled; the tick that
        reaches zero clears it and nothing schedules it again. */
    var timerRunning: bool
    var isResending: bool
    /** The (email, password) pairs sent to `authService.signup` by resends. */
    var signupCalls: seq<(string, string)>

    /** The countdown stays within its start and zero, and a running timer has time
        left. */
    predicate Valid()
      reads this
    {
      0 <= timeLeft <= INITIAL_TIME_LEFT && (timerRunning ==> timeLeft > 0)
    }

    constructor (email: string, password: string, storage: KeyValueStore)
      ensures this.email == email && this.password == password && this.storage == storage
      ensures timeLeft == INITIAL_TIME_LEFT && timerRunning && !isResending && signupCalls == []
      ensures Valid()
    {
      this.email := email;
      this.password := password;
      this.storage := storage;
      timeLeft := INITIAL_TIME_LEFT;
      timerRunning := true;
      isResending := false;
      signupCalls := [];
    }

    /** One second of wall-clock time: the interval fires only while it is scheduled,
        and stops itself on the tick that reaches zero. */
    method Tick()
      requires Valid()
      modifies this
      ensures Valid()
      ensures Countdown(timeLeft, timerRunning) == TickCountdown(Countdown(old(timeLeft), old(timerRunning)))
      ensures old(timerRunning) ==> timeLeft == TickValue(old(timeLeft)) && timerRunning == (timeLeft > 0)
      ensures timeLeft <= old(timeLeft)
      ensures isResending == old(isResending) && signupCalls == old(signupCalls)
    {
      if !timerRunning {
        return;
      }
      if timeLeft <= 1 {
        timerRunning := false;
        timeLeft := 0;
      } else {
        timeLeft := timeLeft - 1;
      }
    }

    /** The resend button's `disabled` condition. */
    predicate ResendDisabled()
      reads this
    {
      timeLeft > 0 || isResending
    }

    /** `handleResendCode`: nothing while a resend is in flight; otherwise one sign-up
        call, the countdown restarted at five minutes if it succeeded, and `isResending`
        false again whatever the outcome. The restart is the intended one, with the
        interval scheduled again (see `ResendAsWritten`). */
    method HandleResendCode(succeeds: bool)
      requires Valid()
      modifies this
      ensures Valid()
      ensures old(isResending) ==>
        timeLeft == old(timeLeft) && timerRunning == old(timerRunning) && isResending
        && signupCalls == old(signupCalls)
      ensures !old(isResending) ==>
        signupCalls == old(signupCalls) + [(email, password)] && !isResending
        && Countdown(timeLeft, timerRunning)
           == if succeeds then Resend(Countdown(old(timeLeft), old(timerRunning)))
              else Countdown(old(timeLeft), old(timerRunning))
    {
      if isResending {
        return;
      }
      isResending := true;
      signupCalls := signupCalls + [(email, password)];
      if succeeds {
        timeLeft := INITIAL_TIME_LEFT;
        timerRunning := true;
      }
      isResending := false;
    }

    /** A press of the resend button: a disabled button does nothing, so a code can only
        be re-sent once the countdown has reached zero and its interval was cleared. A
        successful resend starts five more minutes of countdown, during which the button
        is disabled again. */
    method PressResend(succeeds: bool)
      requires Valid()
      modifies this
      ensures Valid()
      ensures old(ResendDisabled()) ==>
        timeLeft == old(timeLeft) && timerRunning == old(timerRunning) && isResending == old(isResending)
        && signupCalls == old(signupCalls)
      ensures signupCalls != old(signupCalls) ==> old(timeLeft) == 0 && !old(timerRunning)
      ensures signupCalls != old(signupCalls) && succeeds ==>
        timeLeft == INITIAL_TIME_LEFT && timerRunning && ResendDisabled()
      ensures signupCalls != old(signupCalls) && !succeeds ==> timeLeft == 0 && !timerRunning
    {
      if !ResendDisabled() {
        HandleResendCode(succeeds);
      }
    }

    /** `handleVerify`: when the backend accepts the code (`response` holds the token
        field of its answer), the user record of `VerifiedUser` replaces the stored one
        and the token is stored only if present and non-empty; when the call fails the
        store is untouched. */
    method HandleVerify(response: Option<Option<string>>)
      modifies storage
      ensures response.None? ==> storage.items == old(storage.items)
      ensures response.Some? ==>
        var withUser := old(storage.items)[USER_KEY := UserItem(VerifiedUser(email))];
        storage.items == match response.value
          case Some(token) => if token != "" then withUser[TOKEN_KEY := TokenItem(token)] else withUser
          case None => withUser
    {
      if response.None? {
        return;
      }
      storage.SetItem(USER_KEY, UserItem(VerifiedUser(email)));
      if response.value.Some? && response.value.value != "" {
        storage.SetItem(TOKEN_KEY, TokenItem(response.value.value));
      }
    }
  }
}
