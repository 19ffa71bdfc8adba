/** The three-step password recovery: request a one-time code, verify it,
    reset the password with it. The state is the pair (hashed code, expiry)
    on the user record. The random digits, the salt of the hash, the outcome
    of the email delivery and the clock are parameters. */
module PasswordRecovery {
  import opened Common
  import opened Crypto
  import opened Store
  import AuthService

  const CODE_EXPIRE_MINUTES: int := 15
  /** How long an issued code is accepted: fifteen minutes. */
  const CODE_TTL: int := CODE_EXPIRE_MINUTES * MINUTE
  const CODE_LENGTH: nat := 4
  /** The alphabet codes are drawn from (`string.digits`). */
  const DIGITS: string := "0123456789"

  const MSG_REQUEST_UNKNOWN: string := "If this email exists, a recovery code has been sent"
  const MSG_DELIVERY_FAILED: string := "Failed to send recovery email. Please try again later."
  const MSG_CODE_SENT: string := "Recovery code sent to your email"
  const MSG_INVALID_EMAIL_OR_CODE: string := "Invalid email or code"
  const MSG_NO_CODE: string := "No recovery code requested for this email"
  const MSG_EXPIRED: string := "Recovery code has expired. Please request a new one."
  const MSG_INVALID_CODE: string := "Invalid recovery code"
  const MSG_VERIFIED: string := "Recovery code verified successfully"
  const MSG_USER_NOT_FOUND: string := "User not found"
  const MSG_RESET_DONE: string := "Password reset successfully"

  /** The dict every step returns. */
  datatype RecoveryResponse = RecoveryResponse(success: bool, message: string, email: string)

  /** A step's response together with the user table afterwards. */
  datatype Outcome = Outcome(response: RecoveryResponse, users: seq<User>)

  /** The positions in `DIGITS` the random generator drew, one per character. */
  ghost predicate ValidPicks(picks: seq<nat>)
  {
    |picks| == CODE_LENGTH && forall i :: 0 <= i < |picks| ==> picks[i] < |DIGITS|
  }

  /** `generate_recovery_code`: four characters, each the decimal digit drawn at that position. */
  function GenerateRecoveryCode(picks: seq<nat>): (code: string)
    requires ValidPicks(picks)
    ensures |code| == CODE_LENGTH
    ensures forall i :: 0 <= i < |code| ==> '0' <= code[i] <= '9'
    ensures forall i :: 0 <= i < |code| ==> code[i] as int - '0' as int == picks[i]
  {
    seq(|picks|, i requires 0 <= i < |picks| => DIGITS[picks[i]])
  }

  /** Every four-digit string, leading zeros included, is a code the generator can produce. */
  lemma EveryCodeDrawable(code: string)
    requires |code| == CODE_LENGTH && forall i :: 0 <= i < |code| ==> '0' <= code[i] <= '9'
    ensures exists picks :: ValidPicks(picks) && GenerateRecoveryCode(picks) == code
  {
    var picks := seq(|code|, i requires 0 <= i < |code| => (code[i] as int - '0' as int) as nat);
    assert ValidPicks(picks);
    assert GenerateRecoveryCode(picks) == code;
  }

  /** The recovery fields are both set or both empty. */
  ghost predicate Paired(u: User)
  {
    u.tempPassword.Some? <==> u.tempPasswordExpires.Some?
  }

  /** Every user's recovery fields are paired. */
  ghost predicate AllPaired(users: seq<User>)
  {
    forall i :: 0 <= i < |users| ==> Paired(users[i])
  }

  /** The user with both recovery fields emptied. */
  function Cleared(u: User): User
  {
    u.(tempPassword := None, tempPasswordExpires := None)
  }

  // ---------------------------------------------------------------- the steps, as functions

  /** Step 1, `request_password_recovery_service`: for an unknown email, report success and
      change nothing; otherwise store the hashed code with its expiry, and empty both fields
      again when the email could not be delivered. */
  function Request(users: seq<User>, email: string, picks: seq<nat>, salt: nat, now: int, delivered: bool): Outcome
    requires ValidPicks(picks)
  {
    match UserByEmail(users, email)
    case None => Outcome(RecoveryResponse(true, MSG_REQUEST_UNKNOWN, email), users)
    case Some(i) =>
      if delivered then
        var issued := users[i].(tempPassword := Some(HashSecret(GenerateRecoveryCode(picks), salt)),
                                tempPasswordExpires := Some(now + CODE_TTL));
        Outcome(RecoveryResponse(true, MSG_CODE_SENT, email), users[i := issued])
      else
        Outcome(RecoveryResponse(false, MSG_DELIVERY_FAILED, email), users[i := Cleared(users[i])])
  }

  /** Step 2, `verify_recovery_code_service`: the failures in the order the source tests them.
      Only an expired code changes anything (both fields are emptied). */
  function Verify(users: seq<User>, email: string, code: string, now: int): Outcome
  {
    match UserByEmail(users, email)
    case None => Outcome(RecoveryResponse(false, MSG_INVALID_EMAIL_OR_CODE, email), users)
    case Some(i) =>
      var u := users[i];
      if u.tempPassword.None? || u.tempPasswordExpires.None? then
        Outcome(RecoveryResponse(false, MSG_NO_CODE, email), users)
      else if now > u.tempPasswordExpires.value then
        Outcome(RecoveryResponse(false, MSG_EXPIRED, email), users[i := Cleared(u)])
      else if !Verifies(code, u.tempPassword.value) then
        Outcome(RecoveryResponse(false, MSG_INVALID_CODE, email), users)
      else
        Outcome(RecoveryResponse(true, MSG_VERIFIED, email), users)
  }

  /** Step 3, `reset_password_service`: run step 2; on failure hand back its result as is,
      otherwise store the new password's hash and empty both recovery fields. */
  function Reset(users: seq<User>, email: string, code: string, newPassword: string, salt: nat, now: int): Outcome
  {
    var v := Verify(users, email, code, now);
    if !v.response.success then v
    else match UserByEmail(v.users, email)
      case None => Outcome(RecoveryResponse(false, MSG_USER_NOT_FOUND, email), v.users)
      case Some(i) =>
        var u := Cleared(v.users[i]).(password := HashSecret(newPassword, salt));
        Outcome(RecoveryResponse(true, MSG_RESET_DONE, email), v.users[i := u])
  }

  // ---------------------------------------------------------------- properties

  /** A request for an email no user has reports success and changes no user. */
  lemma RequestUnknownEmail(users: seq<User>, email: string, picks: seq<nat>, salt: nat, now: int, delivered: bool)
    requires ValidPicks(picks)
    requires forall j :: 0 <= j < |users| ==> users[j].email != email
    ensures Request(users, email, picks, salt, now, delivered)
         == Outcome(RecoveryResponse(true, MSG_REQUEST_UNKNOWN, email), users)
  {
  }

  /** A delivered request stores the hash of the drawn code, which that code and no other
      verifies, valid until fifteen minutes after `now`; nothing else changes. */
  lemma RequestDelivered(users: seq<User>, email: string, picks: seq<nat>, salt: nat, now: int, i: nat)
    requires ValidPicks(picks)
    requires UserByEmail(users, email) == Some(i)
    ensures var o, code := Request(users, email, picks, salt, now, true), GenerateRecoveryCode(picks);
      && o.response == RecoveryResponse(true, MSG_CODE_SENT, email)
      && |o.users| == |users|
      && o.users[i].tempPasswordExpires == Some(now + 15 * 60)
      && o.users[i].tempPassword.Some?
      && (forall other :: Verifies(other, o.users[i].tempPassword.value) <==> other == code)
      && o.users[i] == users[i].(tempPassword := o.users[i].tempPassword, tempPasswordExpires := Some(now + CODE_TTL))
      && o.users[i].email == email
      && (forall j :: 0 <= j < |users| && j != i ==> o.users[j] == users[j])
  {
  }

  /** A request whose email was not delivered leaves the user with no code at all, even one
      issued earlier, and reports failure. */
  lemma RequestUndelivered(users: seq<User>, email: string, picks: seq<nat>, salt: nat, now: int, i: nat)
    requires ValidPicks(picks)
    requires UserByEmail(users, email) == Some(i)
    ensures var o := Request(users, email, picks, salt, now, false);
      && o.response == RecoveryResponse(false, MSG_DELIVERY_FAILED, email)
      && o.users == users[i := Cleared(users[i])]
      && o.users[i].tempPassword.None? && o.users[i].tempPasswordExpires.None?
  {
  }

  /** The order of the checks of step 2, and the fact that only an expired code changes state. */
  lemma VerifyCases(users: seq<User>, email: string, code: string, now: int)
    ensures var o := Verify(users, email, code, now);
      && (UserByEmail(users, email).None? ==>
            o == Outcome(RecoveryResponse(false, MSG_INVALID_EMAIL_OR_CODE, email), users))
      && (UserByEmail(users, email).Some? ==>
            var i := UserByEmail(users, email).value;
            var u := users[i];
            && (u.tempPassword.None? || u.tempPasswordExpires.None? ==>
                  o == Outcome(RecoveryResponse(false, MSG_NO_CODE, email), users))
            && (u.tempPassword.Some? && u.tempPasswordExpires.Some? && now > u.tempPasswordExpires.value ==>
                  o == Outcome(RecoveryResponse(false, MSG_EXPIRED, email), users[i := Cleared(u)]))
            && (u.tempPassword.Some? && u.tempPasswordExpires.Some? && now <= u.tempPasswordExpires.value ==>
                  o == Outcome(RecoveryResponse(Verifies(code, u.tempPassword.value),
                                                if Verifies(code, u.tempPassword.value) then MSG_VERIFIED else MSG_INVALID_CODE,
                                                email), users)))
      && (o.users != users ==> o.response.message == MSG_EXPIRED)
  {
  }

  /** A successful verification changes nothing, so it can be repeated with the same
      answer and does not consume the code. */
  lemma VerifySucceedsTwice(users: seq<User>, email: string, code: string, now: int, later: int)
    requires Verify(users, email, code, now).response.success
    requires now <= later <= users[UserByEmail(users, email).value].tempPasswordExpires.value
    ensures Verify(users, email, code, now).users == users
    ensures Verify(users, email, code, later) == Verify(users, email, code, now)
  {
  }

  /** A failed verification makes the reset return exactly that failure and leave every
      password as it was. */
  lemma ResetFailurePropagates(users: seq<User>, email: string, code: string, newPassword: string, salt: nat, now: int)
    requires !Verify(users, email, code, now).response.success
    ensures Reset(users, email, code, newPassword, salt, now) == Verify(users, email, code, now)
    ensures var r := Reset(users, email, code, newPassword, salt, now).users;
      |r| == |users| && forall j :: 0 <= j < |users| ==> r[j].password == users[j].password
  {
  }

  /** A successful reset stores the hash of the new password, which the new password verifies,
      empties both recovery fields, and leaves every other user alone; the same code then no
      longer verifies or resets anything. */
  lemma ResetSucceeds(users: seq<User>, email: string, code: string, newPassword: string, salt: nat,
                      now: int, later: int, salt': nat, another: string)
    requires Verify(users, email, code, now).response.success
    ensures var o, i := Reset(users, email, code, newPassword, salt, now), UserByEmail(users, email).value;
      && o.response == RecoveryResponse(true, MSG_RESET_DONE, email)
      && |o.users| == |users|
      && o.users[i] == Cleared(users[i]).(password := HashSecret(newPassword, salt))
      && Verifies(newPassword, o.users[i].password)
      && (forall j :: 0 <= j < |users| && j != i ==> o.users[j] == users[j])
      && Verify(o.users, email, code, later).response == RecoveryResponse(false, MSG_NO_CODE, email)
      && Reset(o.users, email, code, another, salt', later).response == RecoveryResponse(false, MSG_NO_CODE, email)
  {
    var i := UserByEmail(users, email).value;
    var o := Reset(users, email, code, newPassword, salt, now);
    IndexOfFirstUpdate(users, (u: User) => u.email == email, i, o.users[i]);
  }

  /** Every step keeps each user's recovery fields paired. */
  lemma StepsKeepFieldsPaired(users: seq<User>, email: string, code: string, newPassword: string,
                              picks: seq<nat>, salt: nat, now: int, delivered: bool)
    requires ValidPicks(picks)
    requires AllPaired(users)
    ensures AllPaired(Request(users, email, picks, salt, now, delivered).users)
    ensures AllPaired(Verify(users, email, code, now).users)
    ensures AllPaired(Reset(users, email, code, newPassword, salt, now).users)
  {
  }

  /** Verifying too late reports expiry and empties the fields, so verifying again with the
      same code reports that no code was requested. */
  lemma ExpiredCodeIsDiscarded(users: seq<User>, email: string, code: string, now: int, later: int, i: nat)
    requires UserByEmail(users, email) == Some(i)
    requires users[i].tempPassword.Some? && users[i].tempPasswordExpires.Some?
    requires now > users[i].tempPasswordExpires.value
    ensures var o := Verify(users, email, code, now);
      && o.response == RecoveryResponse(false, MSG_EXPIRED, email)
      && Verify(o.users, email, code, later).response == RecoveryResponse(false, MSG_NO_CODE, email)
  {
    var o := Verify(users, email, code, now);
    IndexOfFirstUpdate(users, (u: User) => u.email == email, i, o.users[i]);
  }

  /** The whole flow for one account: after a delivered request, a wrong code is rejected,
      the right code verifies, the reset succeeds, and from then on the old password no
      longer logs in while the new one does. */
  lemma RecoveryThenLogin(users: seq<User>, email: string, login: string, picks: seq<nat>, salt: nat,
                          wrong: string, newPassword: string, salt': nat, oldPassword: string,
                          t0: int, t1: int, t2: int, t3: int)
    requires ValidPicks(picks)
    requires UserByEmail(users, email).Some? && UserByEmail(users, email) == UserByLogin(users, login)
    requires wrong != GenerateRecoveryCode(picks) && oldPassword != newPassword
    requires t0 <= t1 && t1 <= t0 + CODE_TTL && t2 <= t0 + CODE_TTL && t3 <= t0 + CODE_TTL
    ensures var code := GenerateRecoveryCode(picks);
      var s0 := Request(users, email, picks, salt, t0, true);
      var s1 := Verify(s0.users, email, wrong, t1);
      var s2 := Verify(s1.users, email, code, t2);
      var s3 := Reset(s2.users, email, code, newPassword, salt', t3);
      && s0.response.success
      && s1.response == RecoveryResponse(false, MSG_INVALID_CODE, email)
      && s2.response == RecoveryResponse(true, MSG_VERIFIED, email)
      && s3.response == RecoveryResponse(true, MSG_RESET_DONE, email)
      && AuthService.Authenticate(s3.users, login, oldPassword).None?
      && AuthService.Authenticate(s3.users, login, newPassword).Some?
  {
    var i := UserByEmail(users, email).value;
    var code := GenerateRecoveryCode(picks);
    var s0 := Request(users, email, picks, salt, t0, true);
    IndexOfFirstUpdate(users, (u: User) => u.email == email, i, s0.users[i]);
    IndexOfFirstUpdate(users, (u: User) => u.login == login, i, s0.users[i]);
    var s3 := Reset(s0.users, email, code, newPassword, salt', t3);
    IndexOfFirstUpdate(s0.users, (u: User) => u.login == login, i, s3.users[i]);
  }

  // ---------------------------------------------------------------- what the request endpoint answers

  /** The body the request endpoint sends back: the service's message and the email. */
  datatype Reply = Reply(message: string, email: string)

  /** The request endpoint's body as written: it passes the service's message through. */
  function RequestReply(response: RecoveryResponse): (r: Reply)
    ensures r.message == response.message && r.email == response.email
  {
    Reply(response.message, response.email)
  }

  /** As written, the answer to a request tells an unknown email from a registered one:
      the two successful requests below differ only in whether the account exists. */
  lemma RequestReplyRevealsAccount(account: User, picks: seq<nat>, salt: nat, now: int)
    requires ValidPicks(picks)
    ensures var known := Request([account], account.email, picks, salt, now, true);
      var unknown := Request([], account.email, picks, salt, now, true);
      && known.response.success && unknown.response.success
      && RequestReply(known.response) != RequestReply(unknown.response)
  {
    assert |MSG_CODE_SENT| == 32 && |MSG_REQUEST_UNKNOWN| == 51;
    assert UserByEmail([account], account.email) == Some(0);
  }

  /** The answer the request endpoint evidently intends: one neutral message for every
      successful request; a delivery failure is still reported. */
  function NeutralRequestReply(response: RecoveryResponse): (r: Reply)
    ensures response.success ==> r == Reply(MSG_REQUEST_UNKNOWN, response.email)
    ensures !response.success ==> r == Reply(response.message, response.email)
  {
    if response.success then Reply(MSG_REQUEST_UNKNOWN, response.email)
    else Reply(response.message, response.email)
  }

  /** With the neutral answer, a delivered request for an email gets the same answer
      whichever accounts exist, and so does a request for an email nobody has. */
  lemma NeutralReplyHidesAccount(users1: seq<User>, users2: seq<User>, email: string,
                                 picks: seq<nat>, salt: nat, now: int)
    requires ValidPicks(picks)
    ensures NeutralRequestReply(Request(users1, email, picks, salt, now, true).response)
         == NeutralRequestReply(Request(users2, email, picks, salt, now, true).response)
         == Reply(MSG_REQUEST_UNKNOWN, email)
  {
  }

  // ---------------------------------------------------------------- the services, on the store

  /** `request_password_recovery_service`; `delivered` is what the email sender reported. */
  method RequestPasswordRecovery(db: Database, email: string, picks: seq<nat>, salt: nat, now: int, delivered: bool)
    returns (response: RecoveryResponse)
    requires ValidPicks(picks)
    modifies db
    ensures db.refreshTokens == old(db.refreshTokens)
    ensures Outcome(response, db.users) == Request(old(db.users), email, picks, salt, now, delivered)
  {
    var found := UserByEmail(db.users, email);
    if found.None? {
      return RecoveryResponse(true, MSG_REQUEST_UNKNOWN, email);
    }
    var i := found.value;
    var recoveryCode := GenerateRecoveryCode(picks);
    var hashedCode := HashSecret(recoveryCode, salt);
    var expiresAt := now + CODE_TTL;
    db.users := db.users[i := db.users[i].(tempPassword := Some(hashedCode), tempPasswordExpires := Some(expiresAt))];
    var emailSent := delivered;
    if !emailSent {
      db.users := db.users[i := db.users[i].(tempPassword := None, tempPasswordExpires := None)];
      return RecoveryResponse(false, MSG_DELIVERY_FAILED, email);
    }
    return RecoveryResponse(true, MSG_CODE_SENT, email);
  }

  /** `verify_recovery_code_service`. */
  method VerifyRecoveryCode(db: Database, email: string, code: string, now: int)
    returns (response: RecoveryResponse)
    modifies db
    ensures db.refreshTokens == old(db.refreshTokens)
    ensures Outcome(response, db.users) == Verify(old(db.users), email, code, now)
  {
    var found := UserByEmail(db.users, email);
    if found.None? {
      return RecoveryResponse(false, MSG_INVALID_EMAIL_OR_CODE, email);
    }
    var i := found.value;
    var user := db.users[i];
    if user.tempPassword.None? || user.tempPasswordExpires.None? {
      return RecoveryResponse(false, MSG_NO_CODE, email);
    }
    if now > user.tempPasswordExpires.value {
      db.users := db.users[i := user.(tempPassword := None, tempPasswordExpires := None)];
      return RecoveryResponse(false, MSG_EXPIRED, email);
    }
    if !Verifies(code, user.tempPassword.value) {
      return RecoveryResponse(false, MSG_INVALID_CODE, email);
    }
    return RecoveryResponse(true, MSG_VERIFIED, email);
  }

  /** `reset_password_service`. */
  method ResetPassword(db: Database, email: string, code: string, newPassword: string, salt: nat, now: int)
    returns (response: RecoveryResponse)
    modifies db
    ensures db.refreshTokens == old(db.refreshTokens)
    ensures Outcome(response, db.users) == Reset(old(db.users), email, code, newPassword, salt, now)
  {
    var verification := VerifyRecoveryCode(db, email, code, now);
    if !verification.success {
      return verification;
    }
    var found := UserByEmail(db.users, email);
    if found.None? {
      return RecoveryResponse(false, MSG_USER_NOT_FOUND, email);
    }
    var i := found.value;
    db.users := db.users[i := db.users[i].(password := HashSecret(newPassword, salt))];
    db.users := db.users[i := db.users[i].(tempPassword := None, tempPasswordExpires := None)];
    return RecoveryResponse(true, MSG_RESET_DONE, email);
  }
}
