/**
 The two copies of the login controller agree: for every state and every
 event both screens share, the inline screen and the screen built on the
 view-model move to the same state, although the inline copy checks the phone
 in the button's action and the view-model checks it inside the request.
 Leaving the screen is not such an event: only the inline screen stops its
 countdown on disappearing (`InlineLoginView.Disappear`).
 */
module CrossCheck {
  import opened LoginModels
  import opened LoginState
  import VM = LoginViewModel
  import Screen = LoginScreen
  import Inline = InlineLoginView

  /** The inline alert literals are exactly the error messages of `LoginError`. */
  lemma MessagesAgree()
    ensures "请输入正确的手机号码" == InvalidPhoneNumber.Message()
    ensures "请输入6位验证码" == InvalidVerificationCode.Message()
    ensures "验证码已发送" == CodeSentMessage && "登录成功" == LoginSuccessMessage
  {
  }

  /** Each button is disabled in one screen exactly when it is disabled in the other. */
  lemma GatesAgree(s: State)
    ensures Inline.RequestCodeDisabled(s) <==> !VM.CanRequestCode(s)
    ensures Inline.LoginDisabled(s) <==> !VM.CanLogin(s)
  {
  }

  lemma ValidatorsAgree(s: State)
    ensures Inline.ValidatePhoneNumber(s) == VM.ValidatePhoneNumber(s)
    ensures Inline.ValidateVerificationCode(s) == VM.ValidateVerificationCode(s)
  {
  }

  /** Validating in the button and then requesting equals requesting with validation inside. */
  lemma RequestCodeAgrees(s: State)
    ensures Inline.RequestCodeTapped(s) == VM.SendVerificationCode(s)
  {
    ValidatorsAgree(s);
  }

  lemma LoginAgrees(s: State)
    ensures Inline.ValidateAndLogin(s) == VM.Login(s).state
  {
    ValidatorsAgree(s);
    ValidatorsAgree(Inline.ValidatePhoneNumber(s).state);
  }

  lemma CountdownAgrees(s: State)
    ensures Inline.StartCountdown(s) == VM.StartCountdown(s)
    ensures Inline.StopCountdown(s) == VM.StopCountdown(s)
    ensures Inline.Tick(s) == VM.Tick(s)
  {
  }

  lemma CompletionsAgree(s: State, c: Completion)
    requires c in s.pending
    ensures Inline.Complete(s, c) == VM.Complete(s, c)
  {
  }

  /** One event moves both screens to the same state. */
  lemma StepsAgree(s: State, e: Event)
    ensures Inline.Step(s, e) == Screen.Step(s, e)
  {
    match e
    case TapRequestCode => RequestCodeAgrees(s);
    case TapLogin => LoginAgrees(s);
    case TimerTick => CountdownAgrees(s);
    case Fire(c) => if c in s.pending { CompletionsAgree(s, c); }
    case _ =>
  }

  /** Any sequence of events moves both screens to the same state. */
  lemma {:induction false} RunsAgree(s: State, events: seq<Event>)
    ensures Inline.Run(s, events) == Screen.Run(s, events)
    decreases |events|
  {
    if events != [] {
      StepsAgree(s, events[0]);
      RunsAgree(Inline.Step(s, events[0]), events[1..]);
    }
  }

  /** Hence the invariant holds on every state the inline screen reaches too. */
  lemma InlineRunKeepsInv(events: seq<Event>)
    ensures Inv(Inline.Run(Initial, events))
  {
    InitialInv();
    RunsAgree(Initial, events);
    Screen.RunKeepsInv(Initial, events);
  }

  /** Leaving the inline screen keeps the invariant as well. */
  lemma DisappearKeepsInv(s: State)
    requires Inv(s)
    ensures Inv(Inline.Disappear(s))
  {
  }
}
