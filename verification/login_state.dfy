/**
 The login screen's controller state, shared by the view-model and by the
 older controller written inline in a view, together with the events that
 drive it and the invariant every reachable state keeps.

 Time is not modelled. The repeating one-second timer becomes a `TimerTick`
 event that only does something while a timer is scheduled, and each delayed
 completion (`Task.sleep`, `asyncAfter`) becomes an entry of `pending` that a
 `Fire` event consumes, in any order.
 */
module LoginState {
  import opened InputFilter
  import opened LoginModels

  /** Seconds of the "get code" cooldown; `countdown` rests at this value when idle. */
  const CountdownStart: int := 60

  /** Alert raised when the simulated code delivery completes. */
  const CodeSentMessage: string := "验证码已发送"

  /** Alert raised when the simulated login completes. */
  const LoginSuccessMessage: string := "登录成功"

  /** A delayed completion that has been scheduled and has not fired yet. */
  datatype Completion = CodeSent | LoginSucceeded

  datatype State = State(
    phoneNumber: string,
    verificationCode: string,
    countdown: int,
    isCountingDown: bool,
    isLoading: bool,
    isAgreed: bool,
    alertMessage: string,
    showAlert: bool,
    // the source's `timer != nil`
    timerScheduled: bool,
    // completions scheduled but not yet fired
    pending: multiset<Completion>,
    // every alert raised so far, oldest first; the source keeps only the latest
    raised: seq<string>)

  /** Every field at its declared initial value; nothing scheduled, nothing raised. */
  const Initial: State :=
    State("", "", CountdownStart, false, false, false, "", false, false, multiset{}, [])

  /** Something that can happen to the login screen. */
  datatype Event =
    | EditPhone(text: string)   // the phone field's binding receives `text`
    | ClearPhone                // the phone field's clear button
    | EditCode(text: string)    // the code field's binding receives `text`
    | ClearCode                 // the code field's clear button
    | ToggleAgreement           // the agreement check box
    | TapRequestCode            // the "get code" button
    | TapLogin                  // the login button
    | DismissAlert              // the alert's confirm button
    | TimerTick                 // the repeating timer fires
    | Fire(c: Completion)       // a delayed completion runs

  /** A validator's verdict together with the state it leaves behind. */
  datatype Checked = Checked(valid: bool, state: State)

  function CompletionMessage(c: Completion): string {
    match c
    case CodeSent => CodeSentMessage
    case LoginSucceeded => LoginSuccessMessage
  }

  /** The latest alert message, or the initial empty message when none was raised. */
  function LastAlert(raised: seq<string>): string {
    if raised == [] then "" else raised[|raised| - 1]
  }

  /** A message some path of the controller can put in the alert. */
  predicate KnownAlert(m: string) {
    || m == InvalidPhoneNumber.Message()
    || m == InvalidVerificationCode.Message()
    || m == CodeSentMessage
    || m == LoginSuccessMessage
  }

  /** `alertMessage = m; showAlert = true`, recorded in the alert log. */
  function Alert(s: State, m: string): State {
    s.(alertMessage := m, showAlert := true, raised := s.raised + [m])
  }

  /** `t` differs from `s` at most in the alert fields. */
  predicate SameExceptAlert(s: State, t: State) {
    t.(alertMessage := s.alertMessage, showAlert := s.showAlert, raised := s.raised) == s
  }

  /** `t` differs from `s` at most in the countdown fields. */
  predicate SameExceptCountdown(s: State, t: State) {
    t.(countdown := s.countdown, isCountingDown := s.isCountingDown, timerScheduled := s.timerScheduled) == s
  }

  /** The countdown is idle: not counting, resting at the start value, no timer. */
  predicate Idle(s: State) {
    !s.isCountingDown && !s.timerScheduled && s.countdown == CountdownStart
  }

  predicate CountdownInv(s: State) {
    && 0 <= s.countdown <= CountdownStart
    && (!s.isCountingDown ==> s.countdown == CountdownStart)
    && s.timerScheduled == s.isCountingDown
  }

  predicate InputInv(s: State) {
    && AllDigits(s.phoneNumber) && |s.phoneNumber| <= PhoneLimit
    && AllDigits(s.verificationCode) && |s.verificationCode| <= CodeLimit
  }

  /** The loading flag is up exactly while one login completion is outstanding. */
  predicate LoadingInv(s: State) {
    s.pending[LoginSucceeded] == if s.isLoading then 1 else 0
  }

  /** The alert shows the latest raised message, and only known messages are raised. */
  predicate AlertInv(s: State) {
    && s.alertMessage == LastAlert(s.raised)
    && (s.showAlert ==> s.raised != [])
    && forall i :: 0 <= i < |s.raised| ==> KnownAlert(s.raised[i])
  }

  predicate Inv(s: State) {
    CountdownInv(s) && InputInv(s) && LoadingInv(s) && AlertInv(s)
  }

  lemma InitialInv()
    ensures Inv(Initial) && Idle(Initial)
  {
  }

  /** Raising a known alert keeps every part of the invariant. */
  lemma AlertKeepsInv(s: State, m: string)
    requires Inv(s) && KnownAlert(m)
    ensures Inv(Alert(s, m))
  {
    var t := Alert(s, m);
    assert forall i :: 0 <= i < |s.raised| ==> t.raised[i] == s.raised[i];
  }

  // ----- The text-field bindings, buttons and alert shared by both screens -----

  /** The phone field's binding setter: keep the digits, at most eleven of them. */
  function EditPhoneNumber(s: State, text: string): (t: State)
    ensures t.phoneNumber == PhoneField(text)
    ensures t.(phoneNumber := s.phoneNumber) == s
  {
    s.(phoneNumber := PhoneField(text))
  }

  /** The code field's binding setter: keep the digits, at most six of them. */
  function EditVerificationCode(s: State, text: string): (t: State)
    ensures t.verificationCode == CodeField(text)
    ensures t.(verificationCode := s.verificationCode) == s
  {
    s.(verificationCode := CodeField(text))
  }

  /** The phone clear button, shown only while the field is non-empty. */
  function ClearPhoneNumber(s: State): (t: State)
    ensures t.phoneNumber == ""
    ensures t.(phoneNumber := s.phoneNumber) == s
  {
    if s.phoneNumber != "" then s.(phoneNumber := "") else s
  }

  /** The code clear button, shown only while the field is non-empty. */
  function ClearVerificationCode(s: State): (t: State)
    ensures t.verificationCode == ""
    ensures t.(verificationCode := s.verificationCode) == s
  {
    if s.verificationCode != "" then s.(verificationCode := "") else s
  }

  /** The agreement check box flips `isAgreed` and nothing else. */
  function ToggleAgreed(s: State): (t: State)
    ensures t.isAgreed == !s.isAgreed
    ensures t.(isAgreed := s.isAgreed) == s
  {
    s.(isAgreed := !s.isAgreed)
  }

  /** Confirming the alert hides it; the message stays. */
  function Dismiss(s: State): (t: State)
    ensures !t.showAlert
    ensures t.(showAlert := s.showAlert) == s
  {
    s.(showAlert := false)
  }

  /** None of the field and alert bindings can break the invariant. */
  lemma BindingsKeepInv(s: State, text: string)
    requires Inv(s)
    ensures Inv(EditPhoneNumber(s, text)) && Inv(EditVerificationCode(s, text))
    ensures Inv(ClearPhoneNumber(s)) && Inv(ClearVerificationCode(s))
    ensures Inv(ToggleAgreed(s)) && Inv(Dismiss(s))
  {
  }
}
