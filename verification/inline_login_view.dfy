/**
 The older login screen that keeps the controller inline in the view. It
 works on the same state as the view-model but is written out separately:
 its validators use message literals, the phone check for "get code" sits in
 the button's action rather than in the request, and leaving the screen
 stops the countdown.
 */
module InlineLoginView {
  import opened InputFilter
  import opened PhoneRule
  import opened LoginState

  /** `.disabled(isCountingDown || phoneNumber.isEmpty)` on the "get code" button. */
  predicate RequestCodeDisabled(s: State) {
    s.isCountingDown || s.phoneNumber == ""
  }

  /** `.disabled(!isAgreed || isLoading || ...)` on the login button. */
  predicate LoginDisabled(s: State) {
    !s.isAgreed || s.isLoading || s.phoneNumber == "" || s.verificationCode == ""
  }

  function ValidatePhoneNumber(s: State): (c: Checked)
    ensures c.valid <==> IsValidPhone(s.phoneNumber)
    ensures c.valid ==> c.state == s
    ensures !c.valid ==> SameExceptAlert(s, c.state) && c.state.raised == s.raised + ["请输入正确的手机号码"]
    ensures !c.valid ==> c.state.showAlert && c.state.alertMessage == "请输入正确的手机号码"
  {
    if Matches(s.phoneNumber, PhonePattern) then Checked(true, s)
    else Checked(false, Alert(s, "请输入正确的手机号码"))
  }

  function ValidateVerificationCode(s: State): (c: Checked)
    ensures c.valid <==> |s.verificationCode| == CodeLimit
    ensures c.valid ==> c.state == s
    ensures !c.valid ==> SameExceptAlert(s, c.state) && c.state.raised == s.raised + ["请输入6位验证码"]
    ensures !c.valid ==> c.state.showAlert && c.state.alertMessage == "请输入6位验证码"
  {
    if |s.verificationCode| == CodeLimit then Checked(true, s)
    else Checked(false, Alert(s, "请输入6位验证码"))
  }

  function StartCountdown(s: State): (t: State)
    ensures t.isCountingDown && t.timerScheduled && t.countdown == CountdownStart
    ensures SameExceptCountdown(s, t)
  {
    s.(isCountingDown := true, countdown := CountdownStart, timerScheduled := true)
  }

  function StopCountdown(s: State): (t: State)
    ensures Idle(t) && SameExceptCountdown(s, t)
  {
    s.(timerScheduled := false, isCountingDown := false, countdown := CountdownStart)
  }

  /** The timer's closure; a timer that was invalidated no longer fires. */
  function Tick(s: State): (t: State)
    ensures SameExceptCountdown(s, t)
    ensures !s.timerScheduled ==> t == s
    ensures s.timerScheduled ==> (t.countdown == s.countdown - 1 && t.isCountingDown == s.isCountingDown) || Idle(t)
  {
    if !s.timerScheduled then s
    else if s.countdown > 0 then s.(countdown := s.countdown - 1)
    else StopCountdown(s)
  }

  /** Only schedules the "code sent" alert; it validates nothing. */
  function SendVerificationCode(s: State): (t: State)
    ensures t.pending == s.pending + multiset{CodeSent}
    ensures t.(pending := s.pending) == s
  {
    s.(pending := s.pending + multiset{CodeSent})
  }

  /** Raises the loading flag and schedules the login completion; it validates nothing. */
  function Login(s: State): (t: State)
    ensures t.isLoading && t.pending == s.pending + multiset{LoginSucceeded}
    ensures t.(isLoading := s.isLoading, pending := s.pending) == s
  {
    s.(isLoading := true, pending := s.pending + multiset{LoginSucceeded})
  }

  /** The "get code" button's action: the phone is checked here, before anything starts. */
  function RequestCodeTapped(s: State): (t: State)
    ensures !IsValidPhone(s.phoneNumber) ==>
      && SameExceptAlert(s, t)
      && t.showAlert && t.alertMessage == "请输入正确的手机号码"
      && t.raised == s.raised + ["请输入正确的手机号码"]
    ensures IsValidPhone(s.phoneNumber) ==>
      && t.isCountingDown && t.timerScheduled && t.countdown == CountdownStart
      && t.pending == s.pending + multiset{CodeSent} && t.raised == s.raised
  {
    var v := ValidatePhoneNumber(s);
    if v.valid then SendVerificationCode(StartCountdown(v.state)) else v.state
  }

  /** The login button's action: phone first, then code, then the request. */
  function ValidateAndLogin(s: State): (t: State)
    ensures !IsValidPhone(s.phoneNumber) ==>
      && SameExceptAlert(s, t)
      && t.showAlert && t.alertMessage == "请输入正确的手机号码"
      && t.raised == s.raised + ["请输入正确的手机号码"]
    ensures IsValidPhone(s.phoneNumber) && |s.verificationCode| != CodeLimit ==>
      && SameExceptAlert(s, t)
      && t.showAlert && t.alertMessage == "请输入6位验证码"
      && t.raised == s.raised + ["请输入6位验证码"]
    ensures IsValidPhone(s.phoneNumber) && |s.verificationCode| == CodeLimit ==>
      t.pending == s.pending + multiset{LoginSucceeded} && t.raised == s.raised
    ensures t.isLoading <==> s.isLoading || (IsValidPhone(s.phoneNumber) && |s.verificationCode| == CodeLimit)
  {
    var p := ValidatePhoneNumber(s);
    if !p.valid then p.state
    else
      var c := ValidateVerificationCode(p.state);
      if !c.valid then c.state else Login(c.state)
  }

  /** The delayed closures scheduled by `sendVerificationCode` and `login`. */
  function Complete(s: State, c: Completion): (t: State)
    requires c in s.pending
    ensures t.pending == s.pending - multiset{c}
    ensures t.raised == s.raised + [CompletionMessage(c)]
    ensures t.isLoading == (s.isLoading && c != LoginSucceeded)
  {
    var s' := s.(pending := s.pending - multiset{c});
    match c
    case CodeSent => s'.(alertMessage := "验证码已发送", showAlert := true, raised := s'.raised + ["验证码已发送"])
    case LoginSucceeded =>
      var l := s'.(isLoading := false);
      l.(alertMessage := "登录成功", showAlert := true, raised := l.raised + ["登录成功"])
  }

  /** Leaving the screen stops the countdown. */
  function Disappear(s: State): (t: State)
    ensures Idle(t) && SameExceptCountdown(s, t)
  {
    StopCountdown(s)
  }

  function Step(s: State, e: Event): State {
    match e
    case EditPhone(text) => EditPhoneNumber(s, text)
    case ClearPhone => ClearPhoneNumber(s)
    case EditCode(text) => EditVerificationCode(s, text)
    case ClearCode => ClearVerificationCode(s)
    case ToggleAgreement => ToggleAgreed(s)
    case TapRequestCode => if RequestCodeDisabled(s) then s else RequestCodeTapped(s)
    case TapLogin => if LoginDisabled(s) then s else ValidateAndLogin(s)
    case DismissAlert => Dismiss(s)
    case TimerTick => Tick(s)
    case Fire(c) => if c in s.pending then Complete(s, c) else s
  }

  function Run(s: State, events: seq<Event>): State
    decreases |events|
  {
    if events == [] then s else Run(Step(s, events[0]), events[1..])
  }

  /**
   After the screen is torn down no timer is left: further timer firings change
   nothing, whatever state the countdown was in.
   */
  lemma TeardownLeavesNoTimer(s: State)
    ensures !Disappear(s).timerScheduled
    ensures Tick(Disappear(s)) == Disappear(s)
  {
  }
}
