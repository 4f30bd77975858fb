/**
 The login view-model: validation, the one-shot countdown and the two
 simulated requests, as pure transitions of the shared controller state.

 The work each request wraps in a `Task` before its first suspension
 (starting the countdown, raising the loading flag) is applied at the call;
 the part after the sleep is the pending completion that `Complete` runs.
 */
module LoginViewModel {
  import opened Wrappers
  import opened InputFilter
  import opened LoginModels
  import opened PhoneRule
  import opened LoginState

  /** What `login` leaves behind, and the request it built when validation passed. */
  datatype LoginCall = LoginCall(state: State, request: Option<LoginRequest>)

  /** The "get code" button is enabled. */
  predicate CanRequestCode(s: State) {
    !s.isCountingDown && s.phoneNumber != ""
  }

  /** The login button is enabled. */
  predicate CanLogin(s: State) {
    !s.isLoading && s.phoneNumber != "" && s.verificationCode != "" && s.isAgreed
  }

  /** Surfaces an error: its message becomes the one new alert. */
  function ShowError(s: State, e: LoginError): (t: State)
    ensures t.showAlert && t.alertMessage == e.Message()
    ensures t.raised == s.raised + [e.Message()]
    ensures SameExceptAlert(s, t)
  {
    Alert(s, e.Message())
  }

  function ValidatePhoneNumber(s: State): (c: Checked)
    ensures c.valid <==> IsValidPhone(s.phoneNumber)
    ensures c.valid ==> c.state == s
    ensures !c.valid ==> SameExceptAlert(s, c.state)
    ensures !c.valid ==> c.state.showAlert && c.state.alertMessage == InvalidPhoneNumber.Message()
    ensures !c.valid ==> c.state.raised == s.raised + [InvalidPhoneNumber.Message()]
  {
    var ok := Matches(s.phoneNumber, PhonePattern);
    if ok then Checked(true, s) else Checked(false, ShowError(s, InvalidPhoneNumber))
  }

  /** Checks the length only; the characters are not examined. */
  function ValidateVerificationCode(s: State): (c: Checked)
    ensures c.valid <==> |s.verificationCode| == CodeLimit
    ensures c.valid ==> c.state == s
    ensures !c.valid ==> SameExceptAlert(s, c.state)
    ensures !c.valid ==> c.state.showAlert && c.state.alertMessage == InvalidVerificationCode.Message()
    ensures !c.valid ==> c.state.raised == s.raised + [InvalidVerificationCode.Message()]
  {
    if |s.verificationCode| == CodeLimit then Checked(true, s)
    else Checked(false, ShowError(s, InvalidVerificationCode))
  }

  /** Counting starts from the full cooldown and a timer is scheduled. */
  function StartCountdown(s: State): (t: State)
    ensures t.isCountingDown && t.timerScheduled && t.countdown == CountdownStart
    ensures SameExceptCountdown(s, t)
    ensures CountdownInv(t)
  {
    s.(isCountingDown := true, countdown := CountdownStart, timerScheduled := true)
  }

  /** Invalidates the timer and returns the countdown to rest, whatever its state. */
  function StopCountdown(s: State): (t: State)
    ensures Idle(t) && CountdownInv(t)
    ensures SameExceptCountdown(s, t)
  {
    s.(timerScheduled := false, isCountingDown := false, countdown := CountdownStart)
  }

  /**
   One firing of the repeating timer: a positive countdown goes down by one,
   a countdown at zero stops; with no timer scheduled nothing happens.
   */
  function Tick(s: State): (t: State)
    ensures SameExceptCountdown(s, t)
    ensures !s.timerScheduled ==> t == s
    ensures CountdownInv(s) ==> CountdownInv(t)
    ensures s.timerScheduled ==> (t.countdown == s.countdown - 1 && t.isCountingDown == s.isCountingDown) || Idle(t)
  {
    if !s.timerScheduled then s
    else if s.countdown > 0 then s.(countdown := s.countdown - 1)
    else StopCountdown(s)
  }

  /**
   Requests a code: an invalid phone only raises its alert; a valid one starts
   the countdown and schedules the "code sent" completion.
   */
  function SendVerificationCode(s: State): (t: State)
    ensures !IsValidPhone(s.phoneNumber) ==>
      && SameExceptAlert(s, t)
      && t.showAlert && t.alertMessage == InvalidPhoneNumber.Message()
      && t.raised == s.raised + [InvalidPhoneNumber.Message()]
    ensures IsValidPhone(s.phoneNumber) ==>
      && t.raised == s.raised
      && t.isCountingDown && t.timerScheduled && t.countdown == CountdownStart
      && t.pending == s.pending + multiset{CodeSent}
      && t.(countdown := s.countdown, isCountingDown := s.isCountingDown,
            timerScheduled := s.timerScheduled, pending := s.pending) == s
  {
    var v := ValidatePhoneNumber(s);
    if !v.valid then v.state
    else
      var t := StartCountdown(v.state);
      t.(pending := t.pending + multiset{CodeSent})
  }

  /**
   Logs in: the phone is checked before the code and only the first failure
   raises an alert; when both pass, the request carries the current phone and
   code, the loading flag goes up and the login completion is scheduled.
   */
  function Login(s: State): (r: LoginCall)
    ensures !IsValidPhone(s.phoneNumber) ==>
      && r.request.None?
      && SameExceptAlert(s, r.state)
      && r.state.showAlert && r.state.alertMessage == InvalidPhoneNumber.Message()
      && r.state.raised == s.raised + [InvalidPhoneNumber.Message()]
    ensures IsValidPhone(s.phoneNumber) && |s.verificationCode| != CodeLimit ==>
      && r.request.None?
      && SameExceptAlert(s, r.state)
      && r.state.showAlert && r.state.alertMessage == InvalidVerificationCode.Message()
      && r.state.raised == s.raised + [InvalidVerificationCode.Message()]
    ensures IsValidPhone(s.phoneNumber) && |s.verificationCode| == CodeLimit ==>
      && r.request == Some(LoginRequest(s.phoneNumber, s.verificationCode))
      && r.state.isLoading
      && r.state.pending == s.pending + multiset{LoginSucceeded}
      && r.state.(isLoading := s.isLoading, pending := s.pending) == s
  {
    var p := ValidatePhoneNumber(s);
    if !p.valid then LoginCall(p.state, None)
    else
      var c := ValidateVerificationCode(p.state);
      if !c.valid then LoginCall(c.state, None)
      else
        var request := LoginRequest(s.phoneNumber, s.verificationCode);
        LoginCall(s.(isLoading := true, pending := s.pending + multiset{LoginSucceeded}), Some(request))
  }

  /**
   Runs a pending completion: it leaves the pending set, raises exactly its own
   alert, and the login completion also lowers the loading flag.
   */
  function Complete(s: State, c: Completion): (t: State)
    requires c in s.pending
    ensures t.pending == s.pending - multiset{c}
    ensures t.raised == s.raised + [CompletionMessage(c)]
    ensures t.showAlert && t.alertMessage == CompletionMessage(c)
    ensures t.isLoading == (s.isLoading && c != LoginSucceeded)
    ensures t.(isLoading := s.isLoading, pending := s.pending, alertMessage := s.alertMessage,
               showAlert := s.showAlert, raised := s.raised) == s
  {
    var s' := s.(pending := s.pending - multiset{c});
    match c
    case CodeSent => Alert(s', CodeSentMessage)
    case LoginSucceeded => Alert(s'.(isLoading := false), LoginSuccessMessage)
  }

  // ----- Countdown -----

  /** `n` consecutive timer firings. */
  function Ticks(s: State, n: nat): State
    decreases n
  {
    if n == 0 then s else Ticks(Tick(s), n - 1)
  }

  /** While the countdown has not reached zero, each firing takes exactly one off it. */
  lemma {:induction false} TicksCountDown(s: State, n: nat)
    requires s.timerScheduled && n <= s.countdown
    ensures Ticks(s, n) == s.(countdown := s.countdown - n)
    decreases n
  {
    if n > 0 {
      TicksCountDown(Tick(s), n - 1);
    }
  }

  /**
   From a fresh start the countdown runs 60, 59, ..., 0 while counting, and the
   61st firing returns to rest exactly as `StopCountdown` would; the "get code"
   button stays disabled throughout and is enabled again only then.
   */
  lemma CountdownLifecycle(s: State, k: nat)
    requires k <= CountdownStart
    ensures Ticks(StartCountdown(s), k).isCountingDown
    ensures Ticks(StartCountdown(s), k).countdown == CountdownStart - k
    ensures !CanRequestCode(Ticks(StartCountdown(s), k))
    ensures Ticks(StartCountdown(s), CountdownStart + 1) == StopCountdown(s)
    ensures CanRequestCode(Ticks(StartCountdown(s), CountdownStart + 1)) <==> s.phoneNumber != ""
  {
    var t := StartCountdown(s);
    TicksCountDown(t, k);
    TicksCountDown(t, CountdownStart);
    TicksAppend(t, CountdownStart, 1);
  }

  lemma {:induction false} TicksAppend(s: State, m: nat, n: nat)
    ensures Ticks(s, m + n) == Ticks(Ticks(s, m), n)
    decreases m
  {
    if m > 0 {
      TicksAppend(Tick(s), m - 1, n);
    }
  }

  /** Stopping twice is the same as stopping once. */
  lemma StopCountdownIdempotent(s: State)
    ensures StopCountdown(StopCountdown(s)) == StopCountdown(s)
  {
  }
}
