/**
 * The user collection as a mutable object: each account handler fetches a
 * user, assigns its fields in place and saves, and is proved to leave the
 * collection its specification function in Accounts describes.
 */
module Directories {
  import opened Wrappers
  import opened Records
  import Otp
  import opened Accounts

  /** The user collection, updated in place by the handlers. */
  class Directory {
    var users: seq<User>

    constructor ()
      ensures users == []
    {
      users := [];
    }

    method Register(r: Registration, code: string, now: Time, emailSent: bool) returns (reply: Result<RegisterReply, AuthError>)
      modifies this
      ensures reply.Ok? <==> Accounts.Register(old(users), r, code, now, emailSent).Ok?
      ensures reply.Err? ==> Accounts.Register(old(users), r, code, now, emailSent) == Err(reply.error) && users == old(users)
      ensures reply.Ok? ==> (users, reply.value) == Accounts.Register(old(users), r, code, now, emailSent).value
    {
      if !r.termsAccepted {
        return Err(TermsRequired);
      }
      var k := IndexOfClash(users, r.email, r.username);
      if k < |users| {
        return Err(if users[k].email == r.email then EmailTaken else UsernameTaken);
      }
      var u := NewUser(r, "", now).(emailOtp := None);
      users := users + [u];
      // the passcode is attached after creation and the user saved again
      ghost var before := users[..|users| - 1];
      assert users == before + [u];
      users := users[|users| - 1 := u.(emailOtp := Some(OtpRecord(code, Otp.Expiry(now))))];
      assert users == before + [NewUser(r, code, now)];
      reply := Ok(RegisterReply(|users| - 1, !emailSent));
    }

    method VerifyEmail(email: string, otp: string, now: Time) returns (r: Option<AuthError>)
      modifies this
      ensures r.None? <==> Accounts.VerifyEmail(old(users), email, otp, now).Ok?
      ensures r.Some? ==> Accounts.VerifyEmail(old(users), email, otp, now) == Err(r.value) && users == old(users)
      ensures r.None? ==> users == Accounts.VerifyEmail(old(users), email, otp, now).value
    {
      if email == "" || otp == "" {
        return Some(MissingFields);
      }
      var k := IndexOfEmail(users, email);
      if k == |users| {
        return Some(UserNotFound);
      }
      var u := users[k];
      if u.emailOtp.None? || u.emailOtp.value.code == "" {
        return Some(NoCodeOnFile);
      }
      var v := Otp.Verify(u.emailOtp.value.code, otp, u.emailOtp.value.expiresAt, now);
      if v != Otp.Verified {
        return Some(CodeRejected(v));
      }
      u := u.(isEmailVerified := true);
      u := u.(emailOtp := None);
      u := u.(accountActive := true);
      users := users[k := u];
      r := None;
    }

    method ResendOtp(email: string, code: string, now: Time) returns (r: Option<AuthError>)
      modifies this
      ensures r.None? <==> Accounts.ResendOtp(old(users), email, code, now).Ok?
      ensures r.Some? ==> Accounts.ResendOtp(old(users), email, code, now) == Err(r.value) && users == old(users)
      ensures r.None? ==> users == Accounts.ResendOtp(old(users), email, code, now).value
    {
      if email == "" {
        return Some(MissingFields);
      }
      var k := IndexOfEmail(users, email);
      if k == |users| {
        return Some(UserNotFound);
      }
      if users[k].isEmailVerified {
        return Some(AlreadyVerified);
      }
      users := users[k := users[k].(emailOtp := Some(OtpRecord(code, Otp.Expiry(now))))];
      r := None;
    }

    method UpdateProfile(id: nat, c: ProfileChange, matches: Matcher) returns (r: Option<AuthError>)
      modifies this
      ensures r.None? <==> Accounts.UpdateProfile(old(users), id, c, matches).Ok?
      ensures r.Some? ==> Accounts.UpdateProfile(old(users), id, c, matches) == Err(r.value) && users == old(users)
      ensures r.None? ==> users == Accounts.UpdateProfile(old(users), id, c, matches).value
    {
      if id >= |users| {
        return Some(UserNotFound);
      }
      var u := users[id];
      if c.password != "" {
        if c.currentPassword == "" {
          return Some(CurrentPasswordRequired);
        }
        if !matches(c.currentPassword, u.password) {
          return Some(CurrentPasswordIncorrect);
        }
        u := u.(password := c.password);
      }
      // lines 385-401: each present field is assigned, the preferences merged
      u := EditFields(u, c);
      users := users[id := u];
      r := None;
    }
  }
}
