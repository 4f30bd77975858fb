/** The value types of the login feature: the submitted request and the error kinds. */
module LoginModels {

  /** The pair of strings a login submits. */
  datatype LoginRequest = LoginRequest(phoneNumber: string, verificationCode: string)

  /** The closed set of login failures, each with the message the alert shows. */
  datatype LoginError = InvalidPhoneNumber | InvalidVerificationCode | NetworkError {

    function Message(): (m: string)
      ensures m != []
    {
      match this
      case InvalidPhoneNumber => "请输入正确的手机号码"
      case InvalidVerificationCode => "请输入6位验证码"
      case NetworkError => "网络错误，请稍后重试"
    }
  }

  /** There is no fourth kind of error. */
  lemma ErrorCasesExhaustive(e: LoginError)
    ensures e == InvalidPhoneNumber || e == InvalidVerificationCode || e == NetworkError
  {
  }

  /** Different errors show different messages, so an alert names its error. */
  lemma {:induction false} MessageInjective(e1: LoginError, e2: LoginError)
    ensures e1.Message() == e2.Message() <==> e1 == e2
  {
    var p, c, n := InvalidPhoneNumber.Message(), InvalidVerificationCode.Message(), NetworkError.Message();
    assert |p| == 10 && |c| == 8 && |n| == 10;
    assert p[0] != n[0];
  }
}
