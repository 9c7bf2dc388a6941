/**
 * The authentication controller: one-time passwords by e-mail or by phone,
 * profile updates and the user directory. The SMS provider, the mailer and
 * the media store are collaborators whose outcomes arrive as parameters.
 */
module AuthController {
  import opened Common
  import opened Domain
  import opened Database

  /** An e-mail code is valid for five minutes after it is issued. */
  const OtpLifetimeMs: int := 5 * MinuteMs

  /** A collaborator call that either completes or throws into the handler's catch. */
  datatype Provider = ProviderOk | ProviderThrows

  /** What the SMS provider's verification check gives back. */
  datatype PhoneCheck = CheckThrows | Checked(status: Option<string>)

  // ---------------------------------------------------------------------
  // Phone numbers
  // ---------------------------------------------------------------------

  /** The full international number: the suffix (country code) followed by
      the number, with a "+" put in front unless the suffix already has one. */
  function FullPhoneNumber(suffix: string, number: string): (r: string)
    ensures StartsWith(r, "+")
    ensures StartsWith(suffix, "+") ==> r == suffix + number
    ensures !StartsWith(suffix, "+") ==> r == "+" + suffix + number
  {
    if StartsWith(suffix, "+") then suffix + number else "+" + suffix + number
  }

  /** Writing the country code with or without its "+" names the same number. */
  lemma {:induction false} PlusIsOptional(suffix: string, number: string)
    requires !StartsWith(suffix, "+")
    ensures FullPhoneNumber("+" + suffix, number) == FullPhoneNumber(suffix, number)
  {
    assert StartsWith("+" + suffix, "+");
    assert ("+" + suffix) + number == "+" + suffix + number;
  }

  // ---------------------------------------------------------------------
  // Looking users up
  // ---------------------------------------------------------------------

  /** The two `User.findOne` filters the handlers use. */
  datatype UserKey = ByEmail(email: string) | ByPhone(phone: string)

  predicate Matches(u: User, key: UserKey) {
    match key
    case ByEmail(e) => u.email == Some(e)
    case ByPhone(p) => u.phoneNumber == Some(p)
  }

  /** `findOne` answers with the earliest stored match. */
  ghost predicate FirstUser(users: map<UserId, User>, id: UserId, key: UserKey) {
    id in users && Matches(users[id], key) && forall k :: k in users && k < id ==> !Matches(users[k], key)
  }

  ghost predicate NoUser(users: map<UserId, User>, key: UserKey) {
    forall k :: k in users ==> !Matches(users[k], key)
  }

  method FindUser(db: Db, key: UserKey) returns (r: Option<UserId>)
    requires db.Valid()
    ensures r.Some? ==> FirstUser(db.users, r.value, key)
    ensures r.None? ==> NoUser(db.users, key)
  {
    var i := 0;
    while i < db.nextId
      invariant 0 <= i <= db.nextId
      invariant forall k :: k in db.users && k < i ==> !Matches(db.users[k], key)
    {
      if i in db.users && Matches(db.users[i], key) {
        return Some(i);
      }
      i := i + 1;
    }
    return None;
  }

  /** A document built by `new User({...})` with only the given fields set;
      every flag starts false and every other field is empty. */
  function NewUser(phone: Option<string>, suffix: Option<string>, email: Option<string>): (u: User)
    ensures u.phoneNumber == phone && u.phoneSuffix == suffix && u.email == email
    ensures !u.isVerified && !u.agreed && !u.isOnline && u.emailOtp.None?
  {
    User(phone, suffix, email, None, None, None, false, false, None, None, false, None)
  }

  // ---------------------------------------------------------------------
  // sendOtp
  // ---------------------------------------------------------------------

  /** `sendOtp`. With an e-mail the code and its expiry are stored on the
      account with that address, created if needed, and mailed. Otherwise a
      phone number and suffix are both required (400); the account with the
      full number is created if needed and the provider sends the code. A
      provider that throws gives 500 after the account was saved. */
  method SendOtp(db: Db, phoneNumber: Option<string>, phoneSuffix: Option<string>, email: Option<string>,
                 otp: string, now: Time, provider: Provider)
    returns (code: nat, account: Option<UserId>)
    requires db.Valid()
    modifies db`users, db`nextId
    ensures db.Valid()
    ensures Truthy(email) ==>
      && account.Some?
      && (FirstUser(old(db.users), account.value, ByEmail(email.value))
          || (NoUser(old(db.users), ByEmail(email.value)) && account.value == old(db.nextId)))
      && (var before := if account.value in old(db.users) then old(db.users)[account.value] else NewUser(None, None, email);
          db.users == old(db.users)[account.value := before.(emailOtp := Some(otp), emailOtpExpiry := Some(now + OtpLifetimeMs))])
      && code == (if provider.ProviderOk? then 200 else 500)
    ensures !Truthy(email) && (!Truthy(phoneNumber) || !Truthy(phoneSuffix)) ==>
      code == 400 && account.None? && db.users == old(db.users)
    ensures !Truthy(email) && Truthy(phoneNumber) && Truthy(phoneSuffix) ==>
      var full := FullPhoneNumber(phoneSuffix.value, phoneNumber.value);
      && account.Some?
      && (if FirstUser(old(db.users), account.value, ByPhone(full)) then db.users == old(db.users)
          else NoUser(old(db.users), ByPhone(full)) && account.value == old(db.nextId)
               && db.users == old(db.users)[account.value := NewUser(Some(full), phoneSuffix, None)])
      && code == (if provider.ProviderOk? then 200 else 500)
  {
    if Truthy(email) {
      var found := FindUser(db, ByEmail(email.value));
      var id: UserId;
      var user: User;
      if found.Some? {
        id, user := found.value, db.users[found.value];
      } else {
        id := db.NewId();
        user := NewUser(None, None, email);
      }
      user := user.(emailOtp := Some(otp));
      user := user.(emailOtpExpiry := Some(now + OtpLifetimeMs));
      db.users := db.users[id := user];
      account := Some(id);
      code := if provider.ProviderOk? then 200 else 500;
      return;
    }
    if !Truthy(phoneNumber) || !Truthy(phoneSuffix) {
      return 400, None;
    }
    var full := FullPhoneNumber(phoneSuffix.value, phoneNumber.value);
    var found := FindUser(db, ByPhone(full));
    if found.None? {
      var id := db.NewId();
      db.users := db.users[id := NewUser(Some(full), phoneSuffix, None)];
      account := Some(id);
    } else {
      account := found;
    }
    code := if provider.ProviderOk? then 200 else 500;
  }

  // ---------------------------------------------------------------------
  // verifyOtp
  // ---------------------------------------------------------------------

  /** `new Date(expiry)` in milliseconds; a cleared (null) expiry is the epoch. */
  function ExpiryMs(expiry: Option<Time>): Time {
    if expiry.Some? then expiry.value else 0
  }

  /** The e-mail check: a code is stored, its text equals the submitted one,
      and the current time is not past the expiry. */
  predicate OtpAccepted(u: User, otp: Option<string>, now: Time) {
    Truthy(u.emailOtp) && u.emailOtp.value == Interpolated(otp) && !(now > ExpiryMs(u.emailOtpExpiry))
  }

  /** A successful e-mail verification: the account is verified and the code
      and its expiry are cleared. */
  function ConsumeOtp(u: User): (r: User)
    ensures r.isVerified && r.emailOtp.None? && r.emailOtpExpiry.None?
    ensures r.(isVerified := u.isVerified, emailOtp := u.emailOtp, emailOtpExpiry := u.emailOtpExpiry) == u
  {
    u.(isVerified := true, emailOtp := None, emailOtpExpiry := None)
  }

  /** A code cannot be used twice: after it was consumed nothing is accepted. */
  lemma {:induction false} OtpSingleUse(u: User, otp: Option<string>, now: Time)
    ensures !OtpAccepted(ConsumeOtp(u), otp, now)
  {
    assert ConsumeOtp(u).emailOtp == None;
  }

  /** A digit code issued at `issued` is accepted exactly for that code and
      up to five minutes later; an omitted code never matches. */
  lemma {:induction false} IssuedOtpWindow(u: User, codeText: string, issued: Time, otp: Option<string>, now: Time)
    requires IsDigits(codeText)
    ensures OtpAccepted(u.(emailOtp := Some(codeText), emailOtpExpiry := Some(issued + OtpLifetimeMs)), otp, now)
       <==> otp == Some(codeText) && now <= issued + 5 * 60 * 1000
  {
    if otp.None? {
      assert Interpolated(otp)[0] == 'u';
      assert !IsDigit(Interpolated(otp)[0]);
      assert codeText != Interpolated(otp);
    }
  }

  /** `verifyOtp`. By e-mail: 404 for an unknown address, 400 unless the
      stored code is accepted, otherwise the code is consumed. By phone: the
      full number is built from the suffix (500 when it is missing, because
      the handler calls a method on it) and the number as interpolated; 404
      for an unknown number, 400 unless the provider approves, otherwise the
      account is verified. A provider that throws gives 500. */
  method VerifyOtp(db: Db, phoneNumber: Option<string>, phoneSuffix: Option<string>, otp: Option<string>,
                   email: Option<string>, now: Time, check: PhoneCheck)
    returns (code: nat, account: Option<UserId>)
    requires db.Valid()
    modifies db`users
    ensures Truthy(email) ==>
      var key := ByEmail(email.value);
      && (account.None? <==> NoUser(old(db.users), key))
      && (account.None? ==> code == 404 && db.users == old(db.users))
      && (account.Some? ==>
            && FirstUser(old(db.users), account.value, key)
            && (code == 200 <==> OtpAccepted(old(db.users)[account.value], otp, now))
            && (code == 200 ==> db.users == old(db.users)[account.value := ConsumeOtp(old(db.users)[account.value])])
            && (code != 200 ==> code == 400 && db.users == old(db.users)))
    ensures !Truthy(email) && phoneSuffix.None? ==> code == 500 && account.None? && db.users == old(db.users)
    ensures !Truthy(email) && phoneSuffix.Some? ==>
      var key := ByPhone(FullPhoneNumber(phoneSuffix.value, Interpolated(phoneNumber)));
      && (account.None? <==> NoUser(old(db.users), key))
      && (account.None? ==> code == 404 && db.users == old(db.users))
      && (account.Some? ==>
            && FirstUser(old(db.users), account.value, key)
            && code == (if check.CheckThrows? then 500 else if check.status == Some("approved") then 200 else 400)
            && db.users == if code == 200 then old(db.users)[account.value := old(db.users)[account.value].(isVerified := true)]
                           else old(db.users))
  {
    if Truthy(email) {
      account := FindUser(db, ByEmail(email.value));
      if account.None? {
        return 404, None;
      }
      var user := db.users[account.value];
      if !Truthy(user.emailOtp) || user.emailOtp.value != Interpolated(otp) || now > ExpiryMs(user.emailOtpExpiry) {
        return 400, account;
      }
      user := user.(isVerified := true);
      user := user.(emailOtp := None);
      user := user.(emailOtpExpiry := None);
      db.users := db.users[account.value := user];
      return 200, account;
    }
    if phoneSuffix.None? {
      return 500, None;
    }
    var full := FullPhoneNumber(phoneSuffix.value, Interpolated(phoneNumber));
    account := FindUser(db, ByPhone(full));
    if account.None? {
      return 404, None;
    }
    if check.CheckThrows? {
      return 500, account;
    }
    if check.status != Some("approved") {
      return 400, account;
    }
    db.users := db.users[account.value := db.users[account.value].(isVerified := true)];
    code := 200;
  }

  // ---------------------------------------------------------------------
  // updateProfile
  // ---------------------------------------------------------------------

  /** The `agreed` field of a request body: absent, a string, or any other
      value, of which only its JavaScript truthiness matters. */
  datatype AgreedValue = AgreedUndefined | AgreedString(s: string) | AgreedOther(truthy: bool)

  /** The stored `agreed` flag after a request: unchanged when the field is
      absent, true for a string exactly when it reads "true" in any case,
      otherwise the value's truthiness. */
  function AgreedAfter(current: bool, a: AgreedValue): (r: bool)
    ensures a.AgreedUndefined? ==> r == current
    ensures a.AgreedString? ==> (r <==> ToLower(a.s) == "true")
    ensures a.AgreedOther? ==> r == a.truthy
  {
    match a
    case AgreedUndefined => current
    case AgreedString(s) => ToLower(s) == "true"
    case AgreedOther(t) => t
  }

  /** Lowercasing the submitted string first makes no difference. */
  lemma {:induction false} AgreedIgnoresCase(current: bool, s: string)
    ensures AgreedAfter(current, AgreedString(ToLower(s))) == AgreedAfter(current, AgreedString(s))
  {
    ToLowerIdempotent(s);
  }

  datatype ProfileForm = ProfileForm(
    username: Option<string>,
    agreed: AgreedValue,
    about: Option<string>,
    profilePicture: Option<string>)

  /** The profile after an update. An uploaded file decides the picture (its
      URL, even a missing one), ahead of a truthy `profilePicture` field;
      username and about change only when truthy; nothing else changes. */
  function ApplyProfile(u: User, form: ProfileForm, file: Option<File>, upload: Upload): (r: User)
    requires file.Some? ==> upload.Uploaded?
    ensures file.Some? ==> r.profilePicture == upload.secureUrl
    ensures file.None? && Truthy(form.profilePicture) ==> r.profilePicture == form.profilePicture
    ensures file.None? && !Truthy(form.profilePicture) ==> r.profilePicture == u.profilePicture
    ensures r.username == if Truthy(form.username) then form.username else u.username
    ensures r.about == if Truthy(form.about) then form.about else u.about
    ensures r.agreed == AgreedAfter(u.agreed, form.agreed)
    ensures r.(profilePicture := u.profilePicture, username := u.username, about := u.about, agreed := u.agreed) == u
  {
    var picture := if file.Some? then upload.secureUrl else if Truthy(form.profilePicture) then form.profilePicture else u.profilePicture;
    u.(profilePicture := picture,
       username := if Truthy(form.username) then form.username else u.username,
       agreed := AgreedAfter(u.agreed, form.agreed),
       about := if Truthy(form.about) then form.about else u.about)
  }

  /** Submitting the same form twice leaves the profile as after the first time. */
  lemma {:induction false} ApplyProfileIdempotent(u: User, form: ProfileForm, file: Option<File>, upload: Upload)
    requires file.Some? ==> upload.Uploaded?
    ensures ApplyProfile(ApplyProfile(u, form, file, upload), form, file, upload) == ApplyProfile(u, form, file, upload)
  {
    var once := ApplyProfile(u, form, file, upload);
    var twice := ApplyProfile(once, form, file, upload);
    assert twice.profilePicture == once.profilePicture;
    assert twice.agreed == once.agreed;
  }

  /** `updateProfile`: 404 for an unknown account, 500 when the upload throws
      (nothing saved), otherwise 200 with the fields assigned one by one. */
  method UpdateProfile(db: Db, id: UserId, form: ProfileForm, file: Option<File>, upload: Upload) returns (code: nat)
    modifies db`users
    ensures id !in old(db.users) ==> code == 404 && db.users == old(db.users)
    ensures id in old(db.users) && file.Some? && upload.UploadThrows? ==> code == 500 && db.users == old(db.users)
    ensures id in old(db.users) && (file.Some? ==> upload.Uploaded?) ==>
      code == 200 && db.users == old(db.users)[id := ApplyProfile(old(db.users)[id], form, file, upload)]
  {
    if id !in db.users {
      return 404;
    }
    var user := db.users[id];
    var picture := user.profilePicture;
    if file.Some? {
      if upload.UploadThrows? {
        return 500;
      }
      picture := upload.secureUrl;
    } else if Truthy(form.profilePicture) {
      picture := form.profilePicture;
    }
    var username := user.username;
    if Truthy(form.username) {
      username := form.username;
    }
    var agreed := user.agreed;
    if !form.agreed.AgreedUndefined? {
      if form.agreed.AgreedString? {
        agreed := ToLower(form.agreed.s) == "true";
      } else {
        agreed := form.agreed.truthy;
      }
    }
    var about := user.about;
    if Truthy(form.about) {
      about := form.about;
    }
    user := user.(profilePicture := picture, username := username, agreed := agreed, about := about);
    db.users := db.users[id := user];
    return 200;
  }

  // ---------------------------------------------------------------------
  // getAllUsers
  // ---------------------------------------------------------------------

  /** `User.find({_id: {$ne: me}})`: every other account once, in id order. */
  method GetAllUsers(db: Db, me: UserId) returns (list: seq<UserId>)
    requires db.Valid()
    ensures forall k :: k in list <==> k in db.users && k != me
    ensures me !in list
    ensures forall i, j :: 0 <= i < j < |list| ==> list[i] < list[j]
    ensures Distinct(list)
  {
    list := [];
    var i := 0;
    while i < db.nextId
      invariant 0 <= i <= db.nextId
      invariant forall k :: k in list <==> k < i && k in db.users && k != me
      invariant forall p, q :: 0 <= p < q < |list| ==> list[p] < list[q]
      invariant forall p :: 0 <= p < |list| ==> list[p] < i
    {
      if i in db.users && i != me {
        list := list + [i];
      }
      i := i + 1;
    }
  }
}
