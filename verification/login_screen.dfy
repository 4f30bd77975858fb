/**
 The login screen built on the view-model: how each event reaches the
 view-model, with the two buttons disabled exactly when the view-model's
 `canRequestCode` / `canLogin` are false.
 */
module LoginScreen {
  import opened InputFilter
  import opened LoginModels
  import opened PhoneRule
  import opened LoginState
  import opened LoginViewModel

  /** The screen's response to one event. A disabled button does nothing. */
  function Step(s: State, e: Event): State {
    match e
    case EditPhone(text) => EditPhoneNumber(s, text)
    case ClearPhone => ClearPhoneNumber(s)
    case EditCode(text) => EditVerificationCode(s, text)
    case ClearCode => ClearVerificationCode(s)
    case ToggleAgreement => ToggleAgreed(s)
    case TapRequestCode => if CanRequestCode(s) then SendVerificationCode(s) else s
    case TapLogin => if CanLogin(s) then Login(s).state else s
    case DismissAlert => Dismiss(s)
    case TimerTick => Tick(s)
    case Fire(c) => if c in s.pending then Complete(s, c) else s
  }

  /** The state after a sequence of events, applied in order. */
  function Run(s: State, events: seq<Event>): State
    decreases |events|
  {
    if events == [] then s else Run(Step(s, events[0]), events[1..])
  }

  /** The "get code" button does something only while the view-model allows a request. */
  lemma RequestCodeGate(s: State)
    ensures !CanRequestCode(s) ==> Step(s, TapRequestCode) == s
    ensures CanRequestCode(s) ==> Step(s, TapRequestCode) == SendVerificationCode(s)
  {
  }

  /**
   A login tap either does nothing (button disabled), or raises exactly one
   validation alert for the first failing check and schedules nothing, or
   raises no alert, turns loading on and schedules exactly one login completion.
   */
  lemma LoginTapOutcome(s: State)
    requires Inv(s)
    ensures var t := Step(s, TapLogin);
      || (!CanLogin(s) && t == s)
      || (CanLogin(s) && !IsValidPhone(s.phoneNumber) && !t.isLoading && t.pending == s.pending
          && t.showAlert && t.alertMessage == InvalidPhoneNumber.Message()
          && t.raised == s.raised + [InvalidPhoneNumber.Message()])
      || (CanLogin(s) && IsValidPhone(s.phoneNumber) && |s.verificationCode| != CodeLimit
          && !t.isLoading && t.pending == s.pending
          && t.showAlert && t.alertMessage == InvalidVerificationCode.Message()
          && t.raised == s.raised + [InvalidVerificationCode.Message()])
      || (CanLogin(s) && IsValidPhone(s.phoneNumber) && |s.verificationCode| == CodeLimit
          && t.isLoading && t.raised == s.raised
          && t.pending == s.pending + multiset{LoginSucceeded})
  {
  }

  lemma CompleteKeepsInv(s: State, c: Completion)
    requires Inv(s) && c in s.pending
    ensures Inv(Complete(s, c))
  {
    var t := Complete(s, c);
    assert forall i :: 0 <= i < |s.raised| ==> t.raised[i] == s.raised[i];
    assert c == LoginSucceeded ==> s.isLoading;
  }

  lemma SendKeepsInv(s: State)
    requires Inv(s)
    ensures Inv(SendVerificationCode(s))
  {
    if !IsValidPhone(s.phoneNumber) {
      AlertKeepsInv(s, InvalidPhoneNumber.Message());
    }
  }

  lemma LoginKeepsInv(s: State)
    requires Inv(s) && !s.isLoading
    ensures Inv(Login(s).state)
  {
    if !IsValidPhone(s.phoneNumber) {
      AlertKeepsInv(s, InvalidPhoneNumber.Message());
    } else if |s.verificationCode| != CodeLimit {
      AlertKeepsInv(s, InvalidVerificationCode.Message());
    }
  }

  /** Every event keeps the invariant. */
  lemma StepKeepsInv(s: State, e: Event)
    requires Inv(s)
    ensures Inv(Step(s, e))
  {
    match e
    case EditPhone(text) => BindingsKeepInv(s, text);
    case EditCode(text) => BindingsKeepInv(s, text);
    case TapRequestCode =>
      if CanRequestCode(s) { SendKeepsInv(s); }
    case TapLogin =>
      if CanLogin(s) { LoginKeepsInv(s); }
    case Fire(c) =>
      if c in s.pending { CompleteKeepsInv(s, c); }
    case _ =>
  }

  /** Every state the screen can reach from its initial state satisfies the invariant. */
  lemma {:induction false} RunKeepsInv(s: State, events: seq<Event>)
    requires Inv(s)
    ensures Inv(Run(s, events))
    decreases |events|
  {
    if events != [] {
      StepKeepsInv(s, events[0]);
      RunKeepsInv(Step(s, events[0]), events[1..]);
    }
  }

  /**
   The login completion fires once: afterwards loading is off, it is no longer
   pending, and firing it again changes nothing.
   */
  lemma LoginCompletionFiresOnce(s: State)
    requires Inv(s) && LoginSucceeded in s.pending
    ensures var t := Step(s, Fire(LoginSucceeded));
      && !t.isLoading
      && LoginSucceeded !in t.pending
      && t.raised == s.raised + [LoginSuccessMessage]
      && Step(t, Fire(LoginSucceeded)) == t
  {
  }

  /** Events that are neither a scheduled completion nor a button tap leave the pending set alone. */
  lemma OnlyTapsSchedule(s: State, e: Event)
    requires !e.TapRequestCode? && !e.TapLogin?
    ensures Step(s, e).pending <= s.pending
  {
    match e
    case Fire(c) =>
      if c in s.pending {
        assert Complete(s, c).pending == s.pending - multiset{c};
      }
    case _ =>
  }

  lemma {:induction false} RunAppendOne(s: State, events: seq<Event>, e: Event)
    ensures Run(s, events + [e]) == Step(Run(s, events), e)
    decreases |events|
  {
    if events != [] {
      assert (events + [e])[0] == events[0];
      assert (events + [e])[1..] == events[1..] + [e];
      RunAppendOne(Step(s, events[0]), events[1..], e);
    } else {
      assert Run(Step(s, e), []) == Step(s, e);
    }
  }

  /** The typed-in phone and code, the box ticked, ready to log in. */
  lemma FilledForm(p: string, c: string)
    requires AllDigits(p) && |p| == PhoneLimit && AllDigits(c) && |c| == CodeLimit
    ensures Run(Initial, [EditPhone(p), EditCode(c), ToggleAgreement])
      == Initial.(phoneNumber := p, verificationCode := c, isAgreed := true)
  {
    SanitizeKeepsCleanText(p, PhoneLimit);
    SanitizeKeepsCleanText(c, CodeLimit);
    var s1 := Initial.(phoneNumber := p);
    var s2 := s1.(verificationCode := c);
    assert Step(Initial, EditPhone(p)) == s1;
    assert Step(s1, EditCode(c)) == s2;
    RunAppendOne(Initial, [], EditPhone(p));
    assert [EditPhone(p)] + [EditCode(c)] == [EditPhone(p), EditCode(c)];
    RunAppendOne(Initial, [EditPhone(p)], EditCode(c));
    assert [EditPhone(p), EditCode(c)] + [ToggleAgreement] == [EditPhone(p), EditCode(c), ToggleAgreement];
    RunAppendOne(Initial, [EditPhone(p), EditCode(c)], ToggleAgreement);
  }

  /**
   A complete login: typing a valid phone and a six-digit code, agreeing and
   tapping login turns loading on with one completion scheduled; when it
   fires, loading is off and "登录成功" is the single alert ever raised.
   */
  lemma SuccessfulLogin(p: string, c: string)
    requires IsValidPhone(p) && AllDigits(c) && |c| == CodeLimit
    ensures var s := Run(Initial, [EditPhone(p), EditCode(c), ToggleAgreement, TapLogin]);
      && s.isLoading && s.pending == multiset{LoginSucceeded} && s.raised == []
      && var t := Step(s, Fire(LoginSucceeded));
      && !t.isLoading && t.showAlert && t.alertMessage == LoginSuccessMessage
      && t.raised == [LoginSuccessMessage] && t.pending == multiset{}
  {
    ValidPhoneIsFieldValue(p);
    FilledForm(p, c);
    var s3 := Initial.(phoneNumber := p, verificationCode := c, isAgreed := true);
    assert [EditPhone(p), EditCode(c), ToggleAgreement] + [TapLogin]
        == [EditPhone(p), EditCode(c), ToggleAgreement, TapLogin];
    RunAppendOne(Initial, [EditPhone(p), EditCode(c), ToggleAgreement], TapLogin);
    assert CanLogin(s3);
    var s4 := Step(s3, TapLogin);
    assert s4.isLoading && s4.pending == multiset{LoginSucceeded} && s4.raised == [];
    var t := Step(s4, Fire(LoginSucceeded));
    assert t.pending == multiset{};
  }

  /**
   The same run with phone "13521032797" and code "000000". The literals are
   passed as parameters so that the solver does not unfold the run on them.
   */
  lemma EndToEndLogin(p: string, c: string)
    requires p == "13521032797" && c == "000000"
    ensures var s := Run(Initial, [EditPhone(p), EditCode(c), ToggleAgreement, TapLogin]);
      && s.isLoading
      && var t := Step(s, Fire(LoginSucceeded));
      && !t.isLoading && t.raised == [LoginSuccessMessage]
  {
    assert IsValidPhone(p) by { PhoneExamples(); }
    assert AllDigits(c);
    SuccessfulLogin(p, c);
  }
}
