/** The four-step registration page: basic information, verification by a one-time code,
    documents, done.  The page's state is the current step, whether a code has been sent
    and the chosen channel; each handler is one transition of that state.  A handler is
    only reachable through the control the page renders for it, which `Enabled` states. */
module Registration {
  import opened Wrappers

  /** `'email' | 'sms'`. */
  datatype Channel = Email | Sms

  /** The `type` sent to `/api/send-otp` and `/api/verify-otp`. */
  function ChannelType(c: Channel): (t: string)
    ensures t == "email" <==> c == Email
    ensures c == Sms ==> t == "sms"
  {
    match c
    case Email => "email"
    case Sms => "sms"
  }

  const StepCount: nat := 4

  /** The fields of `registrationSchema`. */
  datatype FormValues = FormValues(email: string, phone: string, role: string, trade: Option<string>,
                                   experienceLevel: string)

  /** `registrationSchema`: a well-formed email (decided by the validation library, given here
      as `emailValid`), a phone of at least ten characters, a role and an experience level;
      the trade is optional. */
  predicate FormValid(f: FormValues, emailValid: bool)
  {
    emailValid && |f.phone| >= 10 && |f.role| >= 1 && |f.experienceLevel| >= 1
  }

  /** The identifier both `handleSendOtp` and `handleVerifyOtp` send: the email for the
      email channel, the phone otherwise. */
  function OtpIdentifier(f: FormValues, c: Channel): (id: string)
    ensures c == Email ==> id == f.email
    ensures c == Sms ==> id == f.phone
  {
    if c == Email then f.email else f.phone
  }

  datatype State = State(currentStep: int, otpSent: bool, verificationMethod: Channel)

  /** `useState(1)`, `useState(false)`, `useState('email')`. */
  const Initial: State := State(1, false, Email)

  /** What can happen on the page.  The two mutation outcomes that only show a toast are
      `SendFailed` and `VerifyFailed`. */
  datatype Event =
    | NextStep(form: FormValues, emailValid: bool)
    | ChooseMethod(channel: Channel)
    | SendSucceeded
    | SendFailed
    | ChangeMethod
    | VerifySucceeded
    | VerifyFailed
    | DocumentsDone

  /** The controls the page renders in a state: the Continue button on step 1; the channel
      buttons and Send on step 2 before a code is sent; the code input and "Change
      Verification Method" on step 2 after; the upload box and Skip on step 3. */
  predicate Enabled(s: State, e: Event)
  {
    match e
    case NextStep(_, _) => s.currentStep == 1
    case ChooseMethod(_) => s.currentStep == 2 && !s.otpSent
    case SendSucceeded => s.currentStep == 2 && !s.otpSent
    case SendFailed => s.currentStep == 2 && !s.otpSent
    case ChangeMethod => s.currentStep == 2 && s.otpSent
    case VerifySucceeded => s.currentStep == 2 && s.otpSent
    case VerifyFailed => s.currentStep == 2 && s.otpSent
    case DocumentsDone => s.currentStep == 3
  }

  /** What each handler does to the state, as written: `handleNextStep` submits only on step
      1 and the submit runs only on a valid form; the others set their field outright. */
  function Step(s: State, e: Event): State
  {
    match e
    case NextStep(f, ok) => if s.currentStep == 1 && FormValid(f, ok) then s.(currentStep := 2) else s
    case ChooseMethod(c) => s.(verificationMethod := c)
    case SendSucceeded => s.(otpSent := true)
    case SendFailed => s
    case ChangeMethod => s.(otpSent := false)
    case VerifySucceeded => s.(currentStep := 3)
    case VerifyFailed => s
    case DocumentsDone => s.(currentStep := 4)
  }

  /** The page always shows one of its four steps. */
  predicate InRange(s: State)
  {
    1 <= s.currentStep <= StepCount
  }

  /** A rendered control keeps the page on one of its steps and never goes back a step; the
      step changes only by a valid submit on step 1, a verified code on step 2 or the
      documents step. */
  lemma StepForward(s: State, e: Event)
    requires InRange(s) && Enabled(s, e)
    ensures InRange(Step(s, e))
    ensures s.currentStep <= Step(s, e).currentStep
    ensures Step(s, e).currentStep != s.currentStep <==>
      (e.NextStep? && FormValid(e.form, e.emailValid)) || e == VerifySucceeded || e == DocumentsDone
  {
  }

  /** The state after a sequence of events. */
  function Run(s: State, es: seq<Event>): State
    decreases |es|
  {
    if |es| == 0 then s else Run(Step(s, es[0]), es[1..])
  }

  /** Every event of the sequence goes through a control rendered at that moment. */
  predicate Feasible(s: State, es: seq<Event>)
    decreases |es|
  {
    |es| == 0 || (Enabled(s, es[0]) && Feasible(Step(s, es[0]), es[1..]))
  }

  /** Along any sequence of user actions the step stays in range and never decreases. */
  lemma {:induction false} RunMovesForward(s: State, es: seq<Event>)
    requires InRange(s) && Feasible(s, es)
    ensures InRange(Run(s, es))
    ensures s.currentStep <= Run(s, es).currentStep
    decreases |es|
  {
    if |es| > 0 {
      StepForward(s, es[0]);
      RunMovesForward(Step(s, es[0]), es[1..]);
    }
  }

  /** Leaving step 1 takes a submit of a valid form. */
  lemma {:induction false} LeavingStepOneNeedsValidForm(s: State, es: seq<Event>)
    requires s.currentStep == 1 && Feasible(s, es) && Run(s, es).currentStep != 1
    ensures exists i :: 0 <= i < |es| && es[i].NextStep? && FormValid(es[i].form, es[i].emailValid)
    decreases |es|
  {
    var e := es[0];
    if e.NextStep? && FormValid(e.form, e.emailValid) {
      assert es[0].NextStep? && FormValid(es[0].form, es[0].emailValid);
    } else {
      StepForward(s, e);
      LeavingStepOneNeedsValidForm(Step(s, e), es[1..]);
      var i :| 0 <= i < |es[1..]| && es[1..][i].NextStep? && FormValid(es[1..][i].form, es[1..][i].emailValid);
      assert es[i + 1] == es[1..][i];
    }
  }

  /** Reaching the documents step from an earlier one takes a verified code. */
  lemma {:induction false} DocumentsNeedVerification(s: State, es: seq<Event>)
    requires InRange(s) && s.currentStep <= 2 && Feasible(s, es) && Run(s, es).currentStep >= 3
    ensures exists i :: 0 <= i < |es| && es[i] == VerifySucceeded
    decreases |es|
  {
    var e := es[0];
    if e != VerifySucceeded {
      StepForward(s, e);
      DocumentsNeedVerification(Step(s, e), es[1..]);
      var i :| 0 <= i < |es[1..]| && es[1..][i] == VerifySucceeded;
      assert es[i + 1] == es[1..][i];
    }
  }

  /** `(currentStep / steps.length) * 100`. */
  function Progress(step: int): real
  {
    (step as real / StepCount as real) * 100.0
  }

  /** The bar shows 25, 50, 75 or 100 percent on the four steps. */
  lemma ProgressQuarters(step: int)
    requires 1 <= step <= StepCount
    ensures Progress(step) == 25.0 * step as real
    ensures 0.0 < Progress(step) <= 100.0
  {
  }

  /** The step indicator: a check mark for finished steps, the number otherwise. */
  datatype Marker = Check | Number(id: int)

  function StepMarker(currentStep: int, id: int): (m: Marker)
    ensures m == Check <==> currentStep > id
    ensures m.Number? ==> m.id == id
  {
    if currentStep > id then Check else Number(id)
  }

  /** The page's state held in fields that its handlers update. */
  class RegistrationFlow {
    var currentStep: int
    var otpSent: bool
    var verificationMethod: Channel

    function Current(): State
      reads this
    {
      State(currentStep, otpSent, verificationMethod)
    }

    constructor ()
      ensures Current() == Initial
    {
      currentStep := 1;
      otpSent := false;
      verificationMethod := Email;
    }

    /** `handleNextStep`: on step 1, submit the form; a valid form moves to step 2. */
    method HandleNextStep(form: FormValues, emailValid: bool)
      modifies this
      ensures Current() == Step(old(Current()), NextStep(form, emailValid))
    {
      if currentStep == 1 {
        if FormValid(form, emailValid) {
          currentStep := 2;
        }
      }
    }

    /** The email and SMS buttons: `setVerificationMethod`. */
    method SelectMethod(c: Channel)
      modifies this
      ensures Current() == Step(old(Current()), ChooseMethod(c))
    {
      verificationMethod := c;
    }

    /** `handleSendOtp`: the request the page sends. */
    method SendOtpRequest(form: FormValues) returns (identifier: string, kind: string)
      ensures identifier == OtpIdentifier(form, verificationMethod)
      ensures kind == ChannelType(verificationMethod)
    {
      identifier := OtpIdentifier(form, verificationMethod);
      kind := ChannelType(verificationMethod);
    }

    /** `handleVerifyOtp(code)`: the request the page sends for a completed code; it names the
        same identifier and type as the send request while the channel is unchanged. */
    method VerifyOtpRequest(form: FormValues, code: string) returns (identifier: string, sent: string, kind: string)
      ensures identifier == OtpIdentifier(form, verificationMethod) && sent == code
      ensures kind == ChannelType(verificationMethod)
    {
      identifier := OtpIdentifier(form, verificationMethod);
      sent := code;
      kind := ChannelType(verificationMethod);
    }

    /** `sendOtpMutation.onSuccess`: the code input replaces the channel buttons. */
    method OnSendOtpSuccess()
      modifies this
      ensures Current() == Step(old(Current()), SendSucceeded)
    {
      otpSent := true;
    }

    /** "Change Verification Method": `setOtpSent(false)`. */
    method ChangeVerificationMethod()
      modifies this
      ensures Current() == Step(old(Current()), ChangeMethod)
    {
      otpSent := false;
    }

    /** `verifyOtpMutation.onSuccess`: on to the documents step. */
    method OnVerifyOtpSuccess()
      modifies this
      ensures Current() == Step(old(Current()), VerifySucceeded)
    {
      currentStep := 3;
    }

    /** `handleDocumentUpload`, from an upload or from "Skip for Now". */
    method HandleDocumentUpload()
      modifies this
      ensures Current() == Step(old(Current()), DocumentsDone)
    {
      currentStep := 4;
    }
  }
}
