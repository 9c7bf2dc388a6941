/**
 * The login page: the sign-in form's rules, the country search, the six
 * one-digit code inputs, and the steps from sign-in to code to profile.
 */
module Login {
  import opened Common

  // ---------------------------------------------------------------------
  // The sign-in form
  // ---------------------------------------------------------------------

  /** A field the schema maps to null when its input is blank, else keeps. */
  function Transformed(input: string): (r: Option<string>)
    ensures r.None? <==> Trim(input) == ""
    ensures r.Some? ==> r.value == input && input != ""
  {
    if Trim(input) == "" then None else Some(input)
  }

  /** What the validated form hands to `onLoginSubmit`. */
  datatype LoginCheck = LoginRejected | LoginAccepted(phoneNumber: Option<string>, email: Option<string>)

  /** `loginValidationSchema`: blank inputs count as absent; a phone number
      must be digits only (untrimmed, as typed); an email must pass the
      email rule (`isEmail`, yup's pattern); and one of the two is required. */
  function CheckLogin(phoneInput: string, emailInput: string, isEmail: string -> bool): (r: LoginCheck)
    ensures r.LoginAccepted? <==>
      && (Trim(phoneInput) == "" || IsDigits(phoneInput))
      && (Trim(emailInput) == "" || isEmail(emailInput))
      && (Trim(phoneInput) != "" || Trim(emailInput) != "")
    ensures r.LoginAccepted? ==> r.phoneNumber == Transformed(phoneInput) && r.email == Transformed(emailInput)
    ensures r.LoginAccepted? ==> r.phoneNumber.Some? || r.email.Some?
    ensures r.LoginAccepted? && r.email.Some? ==> Truthy(r.email)
  {
    var phone := Transformed(phoneInput);
    var email := Transformed(emailInput);
    if phone.Some? && !IsDigits(phone.value) then LoginRejected
    else if email.Some? && !isEmail(email.value) then LoginRejected
    else if phone.None? && email.None? then LoginRejected
    else LoginAccepted(phone, email)
  }

  /** Where the code goes: the email when one was given, else the phone. */
  datatype LoginData = EmailLogin(email: string) | PhoneLogin(phoneNumber: string, phoneSuffix: string)

  function Channel(phoneNumber: Option<string>, email: Option<string>, dialCode: string): (r: LoginData)
    requires phoneNumber.Some? || Truthy(email)
    ensures Truthy(email) ==> r == EmailLogin(email.value)
    ensures !Truthy(email) ==> r == PhoneLogin(phoneNumber.value, dialCode)
  {
    if Truthy(email) then EmailLogin(email.value) else PhoneLogin(phoneNumber.value, dialCode)
  }

  /** A form that names both is sent to the email. */
  lemma {:induction false} EmailPreferred(phoneInput: string, emailInput: string, isEmail: string -> bool, dialCode: string)
    requires CheckLogin(phoneInput, emailInput, isEmail).LoginAccepted?
    requires Trim(emailInput) != ""
    ensures var c := CheckLogin(phoneInput, emailInput, isEmail);
      Channel(c.phoneNumber, c.email, dialCode) == EmailLogin(emailInput)
  {
    var c := CheckLogin(phoneInput, emailInput, isEmail);
    assert c.email == Some(emailInput);
  }

  // ---------------------------------------------------------------------
  // filterCountries
  // ---------------------------------------------------------------------

  datatype Country = Country(name: string, dialCode: string)

  predicate CountryMatches(c: Country, search: string) {
    Contains(ToLower(c.name), ToLower(search)) || Contains(c.dialCode, search)
  }

  /** `countries.filter(...)`: the countries whose name contains the search
      ignoring case, or whose dial code contains it, in list order. */
  function FilterCountries(countries: seq<Country>, search: string): (r: seq<Country>)
    ensures |r| <= |countries|
    ensures forall c :: c in r <==> c in countries && CountryMatches(c, search)
  {
    if countries == [] then []
    else
      var rest := FilterCountries(countries[1..], search);
      assert forall c :: c in countries <==> c == countries[0] || c in countries[1..];
      if CountryMatches(countries[0], search) then [countries[0]] + rest else rest
  }

  /** An empty search keeps every country. */
  lemma {:induction false} EmptySearchKeepsAll(countries: seq<Country>)
    ensures FilterCountries(countries, "") == countries
  {
    if countries != [] {
      ContainsEmpty(ToLower(countries[0].name));
      assert ToLower("") == "";
      EmptySearchKeepsAll(countries[1..]);
    }
  }

  // ---------------------------------------------------------------------
  // The code inputs
  // ---------------------------------------------------------------------

  const Slots: nat := 6

  /** `/^\d?$/`: empty, or one digit. */
  predicate SlotValue(v: string) {
    v == "" || (|v| == 1 && IsDigit(v[0]))
  }

  predicate SlotsOk(otp: seq<string>) {
    forall i :: 0 <= i < |otp| ==> SlotValue(otp[i])
  }

  /** `/^\d{6}$/`. */
  predicate SixDigits(s: string) {
    |s| == Slots && IsDigits(s)
  }

  /** How many slots hold a digit. */
  function Filled(otp: seq<string>): (n: nat)
    ensures n <= |otp|
  {
    if otp == [] then 0 else (if otp[0] != "" then 1 else 0) + Filled(otp[1..])
  }

  lemma {:induction false} FilledAll(otp: seq<string>)
    ensures Filled(otp) == |otp| <==> forall i :: 0 <= i < |otp| ==> otp[i] != ""
  {
    if otp != [] {
      FilledAll(otp[1..]);
      assert forall i :: 1 <= i < |otp| ==> otp[i] == otp[1..][i - 1];
    }
  }

  /** `otp.join("")` of slots that are empty or one digit: as long as the
      number of filled slots, and all digits. */
  lemma {:induction false} JoinedSlots(otp: seq<string>)
    requires SlotsOk(otp)
    ensures |Join(otp, "")| == Filled(otp)
    ensures forall k :: 0 <= k < |Join(otp, "")| ==> IsDigit(Join(otp, "")[k])
  {
    if |otp| > 1 {
      JoinedSlots(otp[1..]);
      var rest := Join(otp[1..], "");
      assert Join(otp, "") == otp[0] + "" + rest;
      assert Join(otp, "") == otp[0] + rest;
      assert forall k :: |otp[0]| <= k < |otp[0] + rest| ==> (otp[0] + rest)[k] == rest[k - |otp[0]|];
    } else if |otp| == 1 {
      assert otp[1..] == [];
    }
  }

  /** The submitted code passes `/^\d{6}$/` exactly when all six slots are
      filled. */
  lemma {:induction false} CodeCompleteIffAllFilled(otp: seq<string>)
    requires |otp| == Slots && SlotsOk(otp)
    ensures SixDigits(Join(otp, "")) <==> forall i :: 0 <= i < |otp| ==> otp[i] != ""
  {
    JoinedSlots(otp);
    FilledAll(otp);
  }

  // ---------------------------------------------------------------------
  // The flow
  // ---------------------------------------------------------------------

  /** What `sendOtp` gives back. */
  datatype SendReply = SendThrows(message: Option<string>) | SendReturned(success: bool)

  /** The user in a `verifyOtp` reply. */
  datatype SignedIn = SignedIn(username: Option<string>, profilePicture: Option<string>)

  /** What `verifyOtp` gives back; a thrown value may be a string. */
  datatype VerifyReply = VerifyThrows(asString: Option<string>) | VerifyReturned(success: bool, user: Option<SignedIn>)

  datatype VerifyRequest = VerifyByEmail(otp: string, email: string)
                         | VerifyByPhone(phoneNumber: string, phoneSuffix: string, otp: string)

  class LoginFlow {
    var step: int
    /** `userPhoneData` of the login store. */
    var userData: Option<LoginData>
    var otp: seq<string>
    /** The `otp` field of the code form, kept equal to the joined slots. */
    var otpValue: string
    var error: string
    /** The slot that last received focus. */
    var focus: Option<nat>
    /** `verifyOtp` calls, in order. */
    var requests: seq<VerifyRequest>
    /** The user finished logging in (stored, navigated home, store reset). */
    var finished: bool

    /** One of three steps; past the first, there is a login to verify; six
        slots, each empty or one digit. */
    ghost predicate Valid()
      reads this
    {
      && 1 <= step <= 3
      && (step >= 2 ==> userData.Some?)
      && |otp| == Slots
      && SlotsOk(otp)
    }

    constructor ()
      ensures Valid() && step == 1 && userData.None? && otp == ["", "", "", "", "", ""]
      ensures error == "" && focus.None? && requests == [] && !finished
    {
      step, userData, otp, otpValue, error := 1, None, ["", "", "", "", "", ""], "", "";
      focus, requests, finished := None, [], false;
    }

    /** `onLoginSubmit` on an accepted form: send the code to the chosen
        channel; on success remember it and move to step two; when the call
        throws, show its message or a fallback. */
    method OnLoginSubmit(phoneNumber: Option<string>, email: Option<string>, dialCode: string, reply: SendReply)
      requires Valid() && (phoneNumber.Some? || Truthy(email))
      modifies this`step, this`userData, this`error
      ensures Valid()
      ensures reply == SendReturned(true) ==> step == 2 && userData == Some(Channel(phoneNumber, email, dialCode))
      ensures reply.SendReturned? && !reply.success ==> step == old(step) && userData == old(userData) && error == old(error)
      ensures reply.SendReturned? ==> error == old(error)
      ensures reply.SendThrows? ==> step == old(step) && userData == old(userData)
      ensures reply.SendThrows? ==> error == if Truthy(reply.message) then reply.message.value else "Failed to send OTP"
    {
      match reply
      case SendThrows(message) =>
        error := if Truthy(message) then message.value else "Failed to send OTP";
      case SendReturned(success) =>
        if success {
          userData := Some(Channel(phoneNumber, email, dialCode));
          step := 2;
        }
    }

    /** `handleOtpChange(index, value)`: anything other than empty or one
        digit is ignored; otherwise only that slot changes, the form field
        follows, and focus moves on after a digit in the first five slots. */
    method HandleOtpChange(index: nat, value: string)
      requires Valid() && index < Slots
      modifies this`otp, this`otpValue, this`focus
      ensures Valid()
      ensures !SlotValue(value) ==> otp == old(otp) && otpValue == old(otpValue) && focus == old(focus)
      ensures SlotValue(value) ==> otp == old(otp)[index := value] && otpValue == Join(otp, "")
      ensures SlotValue(value) && value != "" && index < Slots - 1 ==> focus == Some(index + 1)
      ensures !(SlotValue(value) && value != "" && index < Slots - 1) ==> focus == old(focus)
    {
      if !SlotValue(value) {
        return;
      }
      var newOtp := otp[index := value];
      otp := newOtp;
      otpValue := Join(newOtp, "");
      if value != "" && index < Slots - 1 {
        focus := Some(index + 1);
      }
    }

    /** `onOtpSubmit`: without a login it fails with the generic message;
        a code that is not six digits is refused before any request; else
        the code is verified by email when the login has one, by phone
        otherwise. A user with both a name and a picture is done; any other
        moves on to the profile step. */
    method OnOtpSubmit(reply: VerifyReply)
      requires Valid()
      modifies this`step, this`error, this`requests, this`finished
      ensures Valid()
      ensures old(userData).None? ==> error == "Something went wrong" && requests == old(requests) && step == old(step)
      ensures old(userData).Some? && !SixDigits(Join(otp, "")) ==>
        requests == old(requests) && step == old(step) && error == old(error) && finished == old(finished)
      ensures old(userData).Some? && SixDigits(Join(otp, "")) ==>
        requests == old(requests) + [match userData.value
                                     case EmailLogin(e) => VerifyByEmail(Join(otp, ""), e)
                                     case PhoneLogin(p, s) => VerifyByPhone(p, s, Join(otp, ""))]
      ensures finished <==> (old(finished) ||
        (old(userData).Some? && SixDigits(Join(otp, "")) && reply.VerifyReturned? && reply.success
         && reply.user.Some? && Truthy(reply.user.value.username) && Truthy(reply.user.value.profilePicture)))
      ensures step == 3 <==> (old(step) == 3 ||
        (old(userData).Some? && SixDigits(Join(otp, "")) && reply.VerifyReturned? && reply.success
         && !(reply.user.Some? && Truthy(reply.user.value.username) && Truthy(reply.user.value.profilePicture))))
      ensures reply.VerifyThrows? && old(userData).Some? && SixDigits(Join(otp, "")) ==>
        error == if reply.asString.Some? then reply.asString.value else "Something went wrong"
      ensures old(userData).Some? && reply.VerifyReturned? ==> error == old(error)
      ensures !(old(userData).Some? && SixDigits(Join(otp, "")) && reply.VerifyReturned? && reply.success
                && !(reply.user.Some? && Truthy(reply.user.value.username) && Truthy(reply.user.value.profilePicture)))
        ==> step == old(step)
    {
      if userData.None? {
        error := "Something went wrong";
        return;
      }
      var code := Join(otp, "");
      if !SixDigits(code) {
        return;
      }
      var request := match userData.value
                     case EmailLogin(e) => VerifyByEmail(code, e)
                     case PhoneLogin(p, s) => VerifyByPhone(p, s, code);
      requests := requests + [request];
      match reply
      case VerifyThrows(asString) =>
        error := if asString.Some? then asString.value else "Something went wrong";
      case VerifyReturned(success, user) =>
        if success {
          if user.Some? && Truthy(user.value.username) && Truthy(user.value.profilePicture) {
            finished := true;
          } else {
            step := 3;
          }
        }
    }

    /** `handleBack`: back to the first step with no login, six empty slots
        and no error. */
    method HandleBack()
      modifies this`step, this`userData, this`otp, this`error
      ensures Valid() && step == 1 && userData.None? && otp == ["", "", "", "", "", ""] && error == ""
    {
      step, userData, otp, error := 1, None, ["", "", "", "", "", ""], "";
    }
  }
}
