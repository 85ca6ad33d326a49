/**
 * Accounts (authController.js): registration with an emailed passcode,
 * activation by that passcode, resending it, logging in, and editing a
 * profile. Users are identified by their position in the store. Password
 * hashing and comparison are abstract: a `Matcher` says whether an entered
 * password matches the stored secret.
 */
module Accounts {
  import opened Wrappers
  import opened Records
  import Otp

  /** A nested document (address, preferences); its values are opaque here. */
  type Object = map<string, string>

  datatype OtpRecord = OtpRecord(code: string, expiresAt: Time)

  datatype User = User(
    username: string,
    email: string,
    password: string,
    firstName: string,
    lastName: string,
    phone: string,
    address: Option<Object>,
    termsAccepted: bool,
    isEmailVerified: bool,
    isPhoneVerified: bool,
    accountActive: bool,
    isActive: bool,
    isAdmin: bool,
    emailOtp: Option<OtpRecord>,
    sellerVerified: bool,
    sellerLevel: Option<string>,
    totalItemsSold: int,
    profilePhoto: string,
    avatar: string,
    billingAddress: Option<Object>,
    notificationPreferences: Object,
    privacySettings: Object,
    language: string,
    currency: string,
    shippingPreferences: Option<Object>)

  /** `user.matchPassword(entered)`: whether `entered` matches the stored secret. */
  type Matcher = (string, string) -> bool

  datatype AuthError =
    | TermsRequired                          // 400
    | EmailTaken                             // 400 'Email already exists'
    | UsernameTaken                          // 400 'Username already exists'
    | MissingFields                          // 400
    | UserNotFound                           // 404
    | NoCodeOnFile                           // 400
    | CodeRejected(reason: Otp.Verification) // 400, expired or wrong
    | AlreadyVerified                        // 400
    | InvalidCredentials                     // 401 'Invalid email or password'
    | NotActivated                           // 403
    | Deactivated                            // 401 'Account is deactivated'
    | CurrentPasswordRequired                // 400
    | CurrentPasswordIncorrect               // 401

  // ---------------------------------------------------------------- lookups

  /** `User.findOne({ email })`: the first user with that email, or |users|. */
  function IndexOfEmail(users: seq<User>, email: string): (k: nat)
    ensures k <= |users|
    ensures k < |users| ==> users[k].email == email
    ensures forall j :: 0 <= j < k ==> users[j].email != email
  {
    if users == [] then 0
    else if users[0].email == email then 0
    else 1 + IndexOfEmail(users[1..], email)
  }

  /** `User.findOne({ $or: [{ email }, { username }] })`: the first user sharing either. */
  function IndexOfClash(users: seq<User>, email: string, username: string): (k: nat)
    ensures k <= |users|
    ensures k < |users| ==> users[k].email == email || users[k].username == username
    ensures forall j :: 0 <= j < k ==> users[j].email != email && users[j].username != username
  {
    if users == [] then 0
    else if users[0].email == email || users[0].username == username then 0
    else 1 + IndexOfClash(users[1..], email, username)
  }

  // --------------------------------------------------------------- register

  datatype Registration = Registration(
    username: string, email: string, password: string, firstName: string, lastName: string,
    phone: string, address: Option<Object>, termsAccepted: bool)

  datatype RegisterReply = RegisterReply(id: nat, warning: bool)

  /** The schema's default notification preferences (booleans written as text). */
  const DefaultNotificationPreferences: Object := map[
    "emailNotifications" := "true", "smsNotifications" := "false", "pushNotifications" := "true",
    "auctionUpdates" := "true", "promotions" := "true", "weeklyDigest" := "true"]

  /** The schema's default privacy settings. */
  const DefaultPrivacySettings: Object := map[
    "profileVisibility" := "public", "showEmail" := "false", "showPhone" := "false",
    "showAddress" := "false", "allowMessages" := "true"]

  /** The schema's defaults for a newly created, not yet activated user holding a passcode. */
  function NewUser(r: Registration, code: string, now: Time): User {
    User(r.username, r.email, r.password, r.firstName, r.lastName, r.phone, r.address, r.termsAccepted,
         false, false, false, true, false, Some(OtpRecord(code, Otp.Expiry(now))),
         false, None, 0, "", "", None, DefaultNotificationPreferences, DefaultPrivacySettings, "en", "INR", None)
  }

  /**
   * register, with `code` the generated passcode and `emailSent` whether
   * sending it worked; a failed send still registers, with a warning.
   */
  function Register(users: seq<User>, r: Registration, code: string, now: Time, emailSent: bool)
    : Result<(seq<User>, RegisterReply), AuthError>
  {
    if !r.termsAccepted then Err(TermsRequired)
    else
      var k := IndexOfClash(users, r.email, r.username);
      if k < |users| then Err(if users[k].email == r.email then EmailTaken else UsernameTaken)
      else Ok((users + [NewUser(r, code, now)], RegisterReply(|users|, !emailSent)))
  }

  // ------------------------------------------------------------ verifyEmail

  function VerifyEmail(users: seq<User>, email: string, otp: string, now: Time): Result<seq<User>, AuthError> {
    if email == "" || otp == "" then Err(MissingFields)
    else
      var k := IndexOfEmail(users, email);
      if k == |users| then Err(UserNotFound)
      else
        var u := users[k];
        if u.emailOtp.None? || u.emailOtp.value.code == "" then Err(NoCodeOnFile)
        else
          var v := Otp.Verify(u.emailOtp.value.code, otp, u.emailOtp.value.expiresAt, now);
          if v != Otp.Verified then Err(CodeRejected(v))
          else Ok(users[k := u.(isEmailVerified := true, accountActive := true, emailOtp := None)])
  }

  // -------------------------------------------------------------- resendOTP

  function ResendOtp(users: seq<User>, email: string, code: string, now: Time): Result<seq<User>, AuthError> {
    if email == "" then Err(MissingFields)
    else
      var k := IndexOfEmail(users, email);
      if k == |users| then Err(UserNotFound)
      else if users[k].isEmailVerified then Err(AlreadyVerified)
      else Ok(users[k := users[k].(emailOtp := Some(OtpRecord(code, Otp.Expiry(now))))])
  }

  // ------------------------------------------------------------------ login

  datatype Role = Seller | Buyer

  datatype LoginReply = LoginReply(id: nat, isAdmin: bool, role: Role)

  /** `!!(sellerVerified || sellerLevel || (totalItemsSold && totalItemsSold > 0))`. */
  predicate IsSeller(u: User) {
    u.sellerVerified || (u.sellerLevel.Some? && u.sellerLevel.value != "") || u.totalItemsSold > 0
  }

  /** Activation is checked before the password, the deactivation flag only after it. */
  function Login(users: seq<User>, email: string, password: string, matches: Matcher): Result<LoginReply, AuthError> {
    var k := IndexOfEmail(users, email);
    if k == |users| then Err(InvalidCredentials)
    else
      var u := users[k];
      if !u.accountActive then Err(NotActivated)
      else if !matches(password, u.password) then Err(InvalidCredentials)
      else if !u.isActive then Err(Deactivated)
      else Ok(LoginReply(k, u.isAdmin, if IsSeller(u) then Seller else Buyer))
  }

  // ---------------------------------------------------------- updateProfile

  /** The request body of a profile update; "" and None are fields that are absent. */
  datatype ProfileChange = ProfileChange(
    password: string, currentPassword: string,
    firstName: string, lastName: string, address: Option<Object>,
    profilePhoto: string, avatar: string, billingAddress: Option<Object>,
    notificationPreferences: Option<Object>, privacySettings: Option<Object>,
    language: string, currency: string, shippingPreferences: Option<Object>)

  function OrKeep(x: string, old_: string): string {
    if x != "" then x else old_
  }

  function OrKeepObject(x: Option<Object>, old_: Option<Object>): Option<Object> {
    if x.Some? then x else old_
  }

  /** `{ ...old, ...new }` when the new object is present. */
  function Merge(old_: Object, x: Option<Object>): Object {
    if x.Some? then old_ + x.value else old_
  }

  /** The editable fields of lines 385-401; email, username and phone are never touched. */
  function EditFields(u: User, c: ProfileChange): User {
    u.(firstName := OrKeep(c.firstName, u.firstName),
       lastName := OrKeep(c.lastName, u.lastName),
       address := OrKeepObject(c.address, u.address),
       profilePhoto := OrKeep(c.profilePhoto, u.profilePhoto),
       avatar := OrKeep(c.avatar, u.avatar),
       billingAddress := OrKeepObject(c.billingAddress, u.billingAddress),
       notificationPreferences := Merge(u.notificationPreferences, c.notificationPreferences),
       privacySettings := Merge(u.privacySettings, c.privacySettings),
       language := OrKeep(c.language, u.language),
       currency := OrKeep(c.currency, u.currency),
       shippingPreferences := OrKeepObject(c.shippingPreferences, u.shippingPreferences))
  }

  /** The password check of lines 369-382; None when the change may go ahead. */
  function PasswordGuard(u: User, c: ProfileChange, matches: Matcher): Option<AuthError> {
    if c.password == "" then None
    else if c.currentPassword == "" then Some(CurrentPasswordRequired)
    else if !matches(c.currentPassword, u.password) then Some(CurrentPasswordIncorrect)
    else None
  }

  function UpdateProfile(users: seq<User>, id: nat, c: ProfileChange, matches: Matcher): Result<seq<User>, AuthError> {
    if id >= |users| then Err(UserNotFound)
    else
      var u := users[id];
      match PasswordGuard(u, c, matches)
      case Some(e) => Err(e)
      case None =>
        var u1 := if c.password != "" then u.(password := c.password) else u;
        Ok(users[id := EditFields(u1, c)])
  }

  // ----------------------------------------------------------------- lemmas

  /**
   * Registration requires accepted terms and no user sharing the email or
   * the username; the refusal names the email exactly when the first such
   * user has that email.
   */
  lemma {:induction false} RegisterAcceptance(users: seq<User>, r: Registration, code: string, now: Time, emailSent: bool)
    ensures Register(users, r, code, now, emailSent).Ok? <==>
      r.termsAccepted && forall j :: 0 <= j < |users| ==> users[j].email != r.email && users[j].username != r.username
    ensures !r.termsAccepted ==> Register(users, r, code, now, emailSent) == Err(TermsRequired)
    ensures Register(users, r, code, now, emailSent) == Err(EmailTaken) <==>
      r.termsAccepted && IndexOfClash(users, r.email, r.username) < |users| &&
      users[IndexOfClash(users, r.email, r.username)].email == r.email
  {
  }

  /**
   * A registered user is appended unverified, not activated and not an
   * admin, with the schema's default settings, holding the passcode, which verifies for five minutes; the reply warns exactly when
   * sending failed, and no earlier user changes.
   */
  lemma {:induction false} RegisterNewUser(users: seq<User>, r: Registration, code: string, now: Time, emailSent: bool)
    requires Register(users, r, code, now, emailSent).Ok?
    ensures var (users', reply) := Register(users, r, code, now, emailSent).value;
      && users' == users + [users'[|users|]]
      && reply.id == |users| && reply.warning == !emailSent
      && var u := users'[|users|];
      && u.email == r.email && u.username == r.username
      && !u.isEmailVerified && !u.accountActive && u.isActive && !u.isAdmin
      && u.language == "en" && u.currency == "INR"
      && u.notificationPreferences["emailNotifications"] == "true"
      && u.privacySettings["profileVisibility"] == "public"
      && u.emailOtp == Some(OtpRecord(code, now + 300000))
      && (forall t :: Otp.Verify(code, code, u.emailOtp.value.expiresAt, t) == Otp.Verified <==> t <= now + 300000)
  {
    var users' := Register(users, r, code, now, emailSent).value.0;
    assert users' == users + [NewUser(r, code, now)];
  }

  /** A freshly registered user cannot log in, whatever the password, until activated. */
  lemma {:induction false} RegisteredCannotLogin(users: seq<User>, r: Registration, code: string, now: Time,
                                                 emailSent: bool, password: string, matches: Matcher)
    requires Register(users, r, code, now, emailSent).Ok?
    ensures Login(Register(users, r, code, now, emailSent).value.0, r.email, password, matches) == Err(NotActivated)
  {
    var users' := Register(users, r, code, now, emailSent).value.0;
    assert forall j :: 0 <= j < |users| ==> users'[j] == users[j];
    IndexOfEmailAt(users', r.email, |users|);
  }

  /**
   * Email verification succeeds exactly when both fields are given, the user
   * exists, holds a code, and the code verifies; it then activates the
   * account and removes the code.
   */
  lemma {:induction false} VerifyEmailSpec(users: seq<User>, email: string, otp: string, now: Time)
    ensures VerifyEmail(users, email, otp, now).Ok? <==>
      && email != "" && otp != ""
      && IndexOfEmail(users, email) < |users|
      && var u := users[IndexOfEmail(users, email)];
      && u.emailOtp.Some? && u.emailOtp.value.code != ""
      && now <= u.emailOtp.value.expiresAt && u.emailOtp.value.code == otp
    ensures VerifyEmail(users, email, otp, now).Ok? ==>
      var k := IndexOfEmail(users, email);
      var users' := VerifyEmail(users, email, otp, now).value;
      && |users'| == |users|
      && users'[k] == users[k].(isEmailVerified := true, accountActive := true, emailOtp := None)
      && forall j :: 0 <= j < |users| && j != k ==> users'[j] == users[j]
  {
  }

  /** A code is single-use: replaying a successful verification is refused. */
  lemma {:induction false} VerifyEmailReplay(users: seq<User>, email: string, otp: string, now: Time, later: Time)
    requires VerifyEmail(users, email, otp, now).Ok?
    ensures VerifyEmail(VerifyEmail(users, email, otp, now).value, email, otp, later) == Err(NoCodeOnFile)
  {
    var k := IndexOfEmail(users, email);
    var users' := VerifyEmail(users, email, otp, now).value;
    IndexOfEmailAt(users', email, k);
  }

  /** Only the user at `k` matters to the lookup when it is the first with the email. */
  lemma {:induction false} IndexOfEmailAt(users: seq<User>, email: string, k: nat)
    requires k < |users| && users[k].email == email
    requires forall j :: 0 <= j < k ==> users[j].email != email
    ensures IndexOfEmail(users, email) == k
  {
  }

  /** After activation the login gate opens: the outcome depends on the password only. */
  lemma {:induction false} VerifiedCanPassGate(users: seq<User>, email: string, otp: string, now: Time,
                                               password: string, matches: Matcher)
    requires VerifyEmail(users, email, otp, now).Ok?
    ensures var users' := VerifyEmail(users, email, otp, now).value;
      var u := users[IndexOfEmail(users, email)];
      && Login(users', email, password, matches) != Err(NotActivated)
      && (Login(users', email, password, matches).Ok? <==> matches(password, u.password) && u.isActive)
  {
    var k := IndexOfEmail(users, email);
    var users' := VerifyEmail(users, email, otp, now).value;
    IndexOfEmailAt(users', email, k);
  }

  /**
   * A resend is refused for unknown or verified users; otherwise it replaces
   * the code and expiry of exactly that user, so the new code verifies for
   * five minutes and a different old code no longer does.
   */
  lemma {:induction false} ResendOtpSpec(users: seq<User>, email: string, code: string, now: Time)
    ensures email != "" && IndexOfEmail(users, email) == |users| ==> ResendOtp(users, email, code, now) == Err(UserNotFound)
    ensures email != "" && IndexOfEmail(users, email) < |users| && users[IndexOfEmail(users, email)].isEmailVerified ==>
      ResendOtp(users, email, code, now) == Err(AlreadyVerified)
    ensures ResendOtp(users, email, code, now).Ok? ==>
      var k := IndexOfEmail(users, email);
      var users' := ResendOtp(users, email, code, now).value;
      && !users[k].isEmailVerified
      && |users'| == |users|
      && users'[k] == users[k].(emailOtp := Some(OtpRecord(code, now + 300000)))
      && (forall j :: 0 <= j < |users| && j != k ==> users'[j] == users[j])
      && (forall p, t :: VerifyEmail(users', email, p, t).Ok? ==> p == code && t <= now + 300000)
  {
    if ResendOtp(users, email, code, now).Ok? {
      var k := IndexOfEmail(users, email);
      var users' := ResendOtp(users, email, code, now).value;
      IndexOfEmailAt(users', email, k);
      forall p, t | VerifyEmail(users', email, p, t).Ok? ensures p == code && t <= now + 300000 {
        VerifyEmailSpec(users', email, p, t);
      }
    }
  }

  /**
   * The login gate: an unknown email and a wrong password both give the
   * generic refusal; an inactive account is refused first, whatever the
   * password; the deactivation flag is reported only to a matching password.
   */
  lemma {:induction false} LoginGating(users: seq<User>, email: string, password: string, other: string, matches: Matcher)
    ensures IndexOfEmail(users, email) == |users| ==> Login(users, email, password, matches) == Err(InvalidCredentials)
    ensures IndexOfEmail(users, email) < |users| && !users[IndexOfEmail(users, email)].accountActive ==>
      Login(users, email, password, matches) == Err(NotActivated) &&
      Login(users, email, other, matches) == Err(NotActivated)
    ensures Login(users, email, password, matches) == Err(Deactivated) ==>
      matches(password, users[IndexOfEmail(users, email)].password)
    ensures Login(users, email, password, matches).Ok? <==>
      && IndexOfEmail(users, email) < |users|
      && var u := users[IndexOfEmail(users, email)];
      && u.accountActive && matches(password, u.password) && u.isActive
  {
  }

  /** The role reported at login: seller exactly for verified or levelled sellers or those who sold. */
  lemma {:induction false} LoginRole(users: seq<User>, email: string, password: string, matches: Matcher)
    requires Login(users, email, password, matches).Ok?
    ensures var u := users[IndexOfEmail(users, email)];
      var reply := Login(users, email, password, matches).value;
      && reply.id == IndexOfEmail(users, email)
      && reply.isAdmin == u.isAdmin
      && (reply.role == Seller <==>
           u.sellerVerified || (u.sellerLevel.Some? && u.sellerLevel.value != "") || u.totalItemsSold > 0)
  {
  }

  /**
   * A profile update changes the password only when a new one is given with a
   * matching current password; otherwise it is refused, before any field
   * changes.
   */
  lemma {:induction false} UpdateProfilePassword(users: seq<User>, id: nat, c: ProfileChange, matches: Matcher)
    requires id < |users|
    ensures c.password != "" && c.currentPassword == "" ==> UpdateProfile(users, id, c, matches) == Err(CurrentPasswordRequired)
    ensures c.password != "" && c.currentPassword != "" && !matches(c.currentPassword, users[id].password) ==>
      UpdateProfile(users, id, c, matches) == Err(CurrentPasswordIncorrect)
    ensures UpdateProfile(users, id, c, matches).Ok? ==>
      var u' := UpdateProfile(users, id, c, matches).value[id];
      && (c.password == "" ==> u'.password == users[id].password)
      && (c.password != "" ==> u'.password == c.password && matches(c.currentPassword, users[id].password))
  {
  }

  /**
   * A profile update never touches the verified fields or the account flags,
   * keeps every absent or empty field, and merges the preference objects
   * over the stored ones; other users are untouched.
   */
  lemma {:induction false} UpdateProfileFields(users: seq<User>, id: nat, c: ProfileChange, matches: Matcher)
    requires UpdateProfile(users, id, c, matches).Ok?
    ensures var users' := UpdateProfile(users, id, c, matches).value;
      var u := users[id];
      var u' := users'[id];
      && |users'| == |users|
      && (forall j :: 0 <= j < |users| && j != id ==> users'[j] == users[j])
      && u'.email == u.email && u'.username == u.username && u'.phone == u.phone
      && u'.isEmailVerified == u.isEmailVerified && u'.accountActive == u.accountActive
      && u'.isActive == u.isActive && u'.isAdmin == u.isAdmin && u'.emailOtp == u.emailOtp
      && u'.sellerVerified == u.sellerVerified && u'.sellerLevel == u.sellerLevel
      && u'.totalItemsSold == u.totalItemsSold && u'.termsAccepted == u.termsAccepted
      && u'.isPhoneVerified == u.isPhoneVerified
      && u'.firstName == (if c.firstName != "" then c.firstName else u.firstName)
      && u'.lastName == (if c.lastName != "" then c.lastName else u.lastName)
      && u'.profilePhoto == (if c.profilePhoto != "" then c.profilePhoto else u.profilePhoto)
      && u'.avatar == (if c.avatar != "" then c.avatar else u.avatar)
      && u'.language == (if c.language != "" then c.language else u.language)
      && u'.currency == (if c.currency != "" then c.currency else u.currency)
      && u'.address == (if c.address.Some? then c.address else u.address)
      && u'.billingAddress == (if c.billingAddress.Some? then c.billingAddress else u.billingAddress)
      && u'.shippingPreferences == (if c.shippingPreferences.Some? then c.shippingPreferences else u.shippingPreferences)
      && MergedOver(u'.notificationPreferences, u.notificationPreferences, c.notificationPreferences)
      && MergedOver(u'.privacySettings, u.privacySettings, c.privacySettings)
  {
    var u := users[id];
    var u1 := if c.password != "" then u.(password := c.password) else u;
    assert UpdateProfile(users, id, c, matches).value == users[id := EditFields(u1, c)];
    MergeSpec(u.notificationPreferences, c.notificationPreferences);
    MergeSpec(u.privacySettings, c.privacySettings);
  }

  /**
   * `m` is `{ ...o, ...x }`: it holds the keys of both, a key of `x` takes
   * the value from `x`, and any other key keeps its value from `o`.
   */
  ghost predicate MergedOver(m: Object, o: Object, x: Option<Object>) {
    && (forall key :: key in m <==> key in o || (x.Some? && key in x.value))
    && (forall key :: x.Some? && key in x.value ==> key in m && m[key] == x.value[key])
    && (forall key :: key in o && (x.None? || key !in x.value) ==> key in m && m[key] == o[key])
  }

  /** `{ ...old, ...new }`: the keys of both, the new value winning. */
  lemma {:induction false} MergeSpec(o: Object, x: Option<Object>)
    ensures MergedOver(Merge(o, x), o, x)
  {
  }
}
