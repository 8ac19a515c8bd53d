/**
 * The e-mail login form (`LoginButton`): one form that either signs in or
 * signs up, a button that switches between the two and empties the fields,
 * a minimum password length for sign-up, and an alert for every outcome.
 */
module LoginForm {
  import opened Strings

  datatype Mode = Login | SignUp

  /** A call made to the auth service. */
  datatype Request = SignInRequest(email: string, password: string) | SignUpRequest(email: string, password: string)

  /** How a sign-up call ended: accepted, refused with an error message, or thrown. */
  datatype SignUpOutcome = Accepted | Refused(message: string) | Threw

  const MinPasswordLength := 6

  const LoginFailed := "로그인에 실패했습니다"
  const PasswordTooShort := "비밀번호는 최소 6자 이상이어야 합니다"
  const EmailInUse := "이미 사용 중인 이메일입니다"
  const ConfirmationSent := "가입 확인 이메일을 발송했습니다. 이메일을 확인해주세요."
  const SignUpFailed := "회원가입에 실패했습니다"

  /** `password.length`: characters outside the Basic Multilingual Plane count as two UTF-16 units. */
  function Utf16Length(s: string): (n: nat)
    ensures |s| <= n <= 2 * |s|
    ensures (forall i :: 0 <= i < |s| ==> s[i] as int <= 0xFFFF) ==> n == |s|
    decreases |s|
  {
    if |s| == 0 then 0
    else (if s[0] as int > 0xFFFF then 2 else 1) + Utf16Length(s[1..])
  }

  /** `mode === 'login' ? 'signup' : 'login'` */
  function Toggled(mode: Mode): (r: Mode)
    ensures r != mode
  {
    if mode == Login then SignUp else Login
  }

  /** Two toggles restore the mode. */
  lemma ToggleTwice(mode: Mode)
    ensures Toggled(Toggled(mode)) == mode
  {
  }

  /**
   * The alert a sign-up call ends with: the "in use" message for a refusal
   * that mentions `email`, the generic failure for any other refusal or a
   * throw, the confirmation otherwise.
   */
  function SignUpAlert(outcome: SignUpOutcome): (alert: string)
    ensures alert == EmailInUse <==> outcome.Refused? && Includes(outcome.message, "email")
    ensures alert == ConfirmationSent <==> outcome.Accepted?
    ensures alert == SignUpFailed <==> outcome.Threw? || (outcome.Refused? && !Includes(outcome.message, "email"))
  {
    match outcome
    case Accepted => ConfirmationSent
    case Refused(message) => if Includes(message, "email") then EmailInUse else SignUpFailed
    case Threw => SignUpFailed
  }

  class Form {
    var email: string
    var password: string
    var loading: bool
    var mode: Mode
    /** The alerts shown so far. */
    var alerts: seq<string>
    /** The modes reported through `onModeChange` so far. */
    var reported: seq<Mode>
    /** The calls made to the auth service so far. */
    var requests: seq<Request>

    constructor ()
      ensures email == "" && password == "" && !loading && mode == Login
      ensures alerts == [] && reported == [] && requests == []
    {
      email := "";
      password := "";
      loading := false;
      mode := Login;
      alerts := [];
      reported := [];
      requests := [];
    }

    /** handleEmailLogin. `refused` is whether the sign-in call failed. */
    method HandleEmailLogin(refused: bool)
      modifies this`loading, this`alerts, this`requests
      ensures requests == old(requests) + [SignInRequest(email, password)]
      ensures alerts == old(alerts) + if refused then [LoginFailed] else []
      ensures !loading
    {
      loading := true;
      requests := requests + [SignInRequest(email, password)];
      if refused {
        alerts := alerts + [LoginFailed];
      }
      loading := false;
    }

    /**
     * handleSignUp. A password shorter than six UTF-16 units is refused
     * before any call, with `loading` untouched. Otherwise one call is made,
     * its outcome alerted, the fields emptied only on success, and loading
     * ends false.
     */
    method HandleSignUp(outcome: SignUpOutcome)
      modifies this`email, this`password, this`loading, this`alerts, this`requests
      ensures Utf16Length(old(password)) < MinPasswordLength ==>
        && alerts == old(alerts) + [PasswordTooShort] && requests == old(requests)
        && loading == old(loading) && email == old(email) && password == old(password)
      ensures Utf16Length(old(password)) >= MinPasswordLength ==>
        && requests == old(requests) + [SignUpRequest(old(email), old(password))]
        && alerts == old(alerts) + [SignUpAlert(outcome)]
        && !loading
        && (if outcome.Accepted? then email == "" && password == "" else email == old(email) && password == old(password))
    {
      if Utf16Length(password) < MinPasswordLength {
        alerts := alerts + [PasswordTooShort];
        return;
      }
      loading := true;
      requests := requests + [SignUpRequest(email, password)];
      match outcome {
        case Refused(message) =>
          if Includes(message, "email") {
            alerts := alerts + [EmailInUse];
          } else {
            alerts := alerts + [SignUpFailed];
          }
        case Threw =>
          alerts := alerts + [SignUpFailed];
        case Accepted =>
          alerts := alerts + [ConfirmationSent];
          email := "";
          password := "";
      }
      loading := false;
    }

    /** toggleMode: the other mode, reported to the page, with both fields emptied. */
    method ToggleMode()
      modifies this`mode, this`reported, this`email, this`password
      ensures mode == Toggled(old(mode))
      ensures reported == old(reported) + [mode]
      ensures email == "" && password == ""
    {
      mode := Toggled(mode);
      reported := reported + [mode];
      email := "";
      password := "";
    }

    /** The form's submit handler: sign in in login mode, sign up otherwise. */
    method Submit(loginRefused: bool, signUpOutcome: SignUpOutcome)
      modifies this`email, this`password, this`loading, this`alerts, this`requests
      ensures |old(requests)| <= |requests| <= |old(requests)| + 1 && requests[..|old(requests)|] == old(requests)
      ensures old(mode) == Login ==> requests == old(requests) + [SignInRequest(old(email), old(password))]
      ensures old(mode) == SignUp ==> forall r :: r in requests[|old(requests)|..] ==> r.SignUpRequest?
      ensures old(mode) == Login ==>
        && alerts == old(alerts) + (if loginRefused then [LoginFailed] else [])
        && !loading && email == old(email) && password == old(password)
      ensures old(mode) == SignUp && Utf16Length(old(password)) < MinPasswordLength ==>
        && alerts == old(alerts) + [PasswordTooShort] && requests == old(requests)
        && loading == old(loading) && email == old(email) && password == old(password)
      ensures old(mode) == SignUp && Utf16Length(old(password)) >= MinPasswordLength ==>
        && requests == old(requests) + [SignUpRequest(old(email), old(password))]
        && alerts == old(alerts) + [SignUpAlert(signUpOutcome)]
        && !loading
        && (if signUpOutcome.Accepted? then email == "" && password == ""
            else email == old(email) && password == old(password))
    {
      if mode == Login {
        HandleEmailLogin(loginRefused);
      } else {
        HandleSignUp(signUpOutcome);
      }
    }
  }
}
