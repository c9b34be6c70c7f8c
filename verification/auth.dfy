/** The account views of the API over an abstract database: accounts keyed
    by email, one profile per account, and the password-reset codes issued
    so far. Password hashing is abstracted: an account stores the password
    it was last given and a login compares against it. Times are whole
    microseconds. */
module Accounts {
  import opened Common
  import opened Http
  import opened Profiles

  /** A password-reset code issued to the account `owner` at `createdAt`. */
  datatype Otp = Otp(owner: string, code: string, createdAt: int)

  datatype Db = Db(passwords: map<string, string>, profiles: map<string, Profile>, otps: seq<Otp>)

  /** Every account has its profile and every code belongs to an account. */
  ghost predicate Consistent(db: Db) {
    && db.profiles.Keys == db.passwords.Keys
    && forall i :: 0 <= i < |db.otps| ==> db.otps[i].owner in db.passwords
  }

  /** A request field that is there and not empty (`if not x` rejects both
      a missing field and an empty one). */
  predicate Present(f: Option<string>) {
    f.Some? && |f.value| > 0
  }

  /** How long a reset code stays usable: three minutes. */
  const OtpLifetime := 3 * 60 * 1_000_000

  // ---------------------------------------------------------------------
  // Registration

  /** The sign-up view. `valid` is the sign-up serializer's verdict on the
      request; an email that already has an account is rejected too. A new
      account gets its default profile from the post-save handler. */
  function Register(db: Db, email: string, password: string, valid: bool): (r: (Reply, Db))
    ensures r.0.status == StatusCreated <==> valid && email !in db.passwords
    ensures r.0.status != StatusCreated ==> r.0 == Reply(StatusBadRequest, ValidationErrors) && r.1 == db
    ensures r.0.status == StatusCreated ==>
      && r.0.body == Tokens("User created successfully", email)
      && r.1.passwords == db.passwords[email := password]
      && r.1.profiles == db.profiles[email := DefaultProfile(email)]
      && r.1.otps == db.otps
    ensures Consistent(db) ==> Consistent(r.1)
  {
    if valid && email !in db.passwords then
      var profile := ProfileOnSave(email, true);
      (Reply(StatusCreated, Tokens("User created successfully", email)),
       Db(db.passwords[email := password], db.profiles[email := profile.value], db.otps))
    else
      (Reply(StatusBadRequest, ValidationErrors), db)
  }

  // ---------------------------------------------------------------------
  // Login

  /** The login view: a missing field first, then an unknown account, then
      a wrong password; only the right password gets tokens. */
  function Login(db: Db, email: Option<string>, password: Option<string>): (r: Reply)
    ensures r.status == StatusBadRequest <==> !Present(email) || !Present(password)
    ensures r.status == StatusNotFound <==>
      Present(email) && Present(password) && email.value !in db.passwords
    ensures r.status == StatusUnauthorized <==>
      Present(email) && Present(password) && email.value in db.passwords &&
      db.passwords[email.value] != password.value
    ensures r.status == StatusOk <==>
      Present(email) && Present(password) && email.value in db.passwords &&
      db.passwords[email.value] == password.value
    ensures r.status == StatusOk ==> r.body == Tokens("Login successful", email.value)
  {
    if !Present(email) || !Present(password) then
      Reply(StatusBadRequest, Failure("Email and password are required."))
    else if email.value !in db.passwords then
      Reply(StatusNotFound, Failure("User does not exist. Please create an account."))
    else if db.passwords[email.value] != password.value then
      Reply(StatusUnauthorized, Failure("Incorrect password."))
    else
      Reply(StatusOk, Tokens("Login successful", email.value))
  }

  /** An account just created signs in with the password it was created with. */
  lemma RegisterThenLogin(db: Db, email: string, password: string)
    requires email !in db.passwords && |email| > 0 && |password| > 0
    ensures var after := Register(db, email, password, true).1;
      Login(after, Some(email), Some(password)) == Reply(StatusOk, Tokens("Login successful", email))
  {
  }

  // ---------------------------------------------------------------------
  // Forgotten password

  /** The forgot-password view. The new code's value and the outcome of
      sending the mail come from outside (`code`, `mailSent`). The code is
      stored before the mail is sent, so it stays stored when sending fails. */
  function ForgotPassword(db: Db, email: Option<string>, code: string, now: int, mailSent: bool): (r: (Reply, Db))
    ensures !Present(email) ==> r == (Reply(StatusBadRequest, Failure("Email is required")), db)
    ensures Present(email) && email.value !in db.passwords ==>
      r == (Reply(StatusNotFound, Failure("User not found")), db)
    ensures Present(email) && email.value in db.passwords ==>
      && r.1 == db.(otps := db.otps + [Otp(email.value, code, now)])
      && (r.0.status == StatusOk <==> mailSent)
      && (!mailSent ==> r.0 == Reply(StatusServerError, Failure("Something went wrong")))
    ensures Consistent(db) ==> Consistent(r.1)
  {
    if !Present(email) then
      (Reply(StatusBadRequest, Failure("Email is required")), db)
    else if email.value !in db.passwords then
      (Reply(StatusNotFound, Failure("User not found")), db)
    else
      var stored := db.(otps := db.otps + [Otp(email.value, code, now)]);
      if mailSent then (Reply(StatusOk, Message("OTP sent to your email")), stored)
      else (Reply(StatusServerError, Failure("Something went wrong")), stored)
  }

  /** The number of codes issued to `owner`. */
  function CodesOf(os: seq<Otp>, owner: string): nat {
    if |os| == 0 then 0
    else CodesOf(os[..|os| - 1], owner) + (if os[|os| - 1].owner == owner then 1 else 0)
  }

  /** A request for a known account adds exactly one code, for that account. */
  lemma ForgotAddsOneCode(db: Db, email: string, code: string, now: int, mailSent: bool, other: string)
    requires email in db.passwords && |email| > 0 && other != email
    ensures var after := ForgotPassword(db, Some(email), code, now, mailSent).1;
      && CodesOf(after.otps, email) == CodesOf(db.otps, email) + 1
      && CodesOf(after.otps, other) == CodesOf(db.otps, other)
  {
    var after := ForgotPassword(db, Some(email), code, now, mailSent).1;
    assert after.otps[..|after.otps| - 1] == db.otps;
  }

  // ---------------------------------------------------------------------
  // Reset with a code

  predicate IsMatch(o: Otp, owner: string, code: string) {
    o.owner == owner && o.code == code
  }

  /** `filter(user, code).latest('created_at')`: the creation time of the
      newest matching code, if any. Only the time decides what follows, so
      which of several equally new codes is picked does not matter. */
  function Newest(os: seq<Otp>, owner: string, code: string): (r: Option<int>)
    ensures r.None? <==> forall i :: 0 <= i < |os| ==> !IsMatch(os[i], owner, code)
    ensures r.Some? ==> exists i :: 0 <= i < |os| && IsMatch(os[i], owner, code) && os[i].createdAt == r.value
    ensures r.Some? ==> forall i :: 0 <= i < |os| && IsMatch(os[i], owner, code) ==> os[i].createdAt <= r.value
  {
    if |os| == 0 then None
    else
      var rest := Newest(os[1..], owner, code);
      assert forall i :: 1 <= i < |os| ==> os[i] == os[1..][i - 1];
      if !IsMatch(os[0], owner, code) then rest
      else match rest
        case None => Some(os[0].createdAt)
        case Some(t) => Some(if os[0].createdAt > t then os[0].createdAt else t)
  }

  /** A code created at `t` is expired at `now` when more than three
      minutes have passed; exactly three minutes is still in time. */
  predicate Expired(t: int, now: int) {
    now > t + OtpLifetime
  }

  /** The owner's codes are all dropped; everyone else's stay, in order. */
  function DropCodesOf(os: seq<Otp>, owner: string): (r: seq<Otp>)
    ensures forall o :: o in r <==> o in os && o.owner != owner
    ensures forall o :: multiset(r)[o] == if o.owner != owner then multiset(os)[o] else 0
    ensures IsSubsequence(r, os)
  {
    var keep := (o: Otp) => o.owner != owner;
    KeepIsSubsequence(os, keep);
    KeepMembers(os, keep);
    KeepMultiset(os, keep);
    Keep(os, keep)
  }

  /** The reset view: missing fields, then an unknown account, then no
      matching code, then an expired one; otherwise the password is
      replaced and every code of that account is removed. The account's
      second save makes no new profile. */
  function ResetPassword(db: Db, email: Option<string>, otp: Option<string>, newPassword: Option<string>, now: int): (r: (Reply, Db))
    ensures !(Present(email) && Present(otp) && Present(newPassword)) ==>
      r == (Reply(StatusBadRequest, Failure("Email, OTP, and new password are required")), db)
    ensures Present(email) && Present(otp) && Present(newPassword) && email.value !in db.passwords ==>
      r == (Reply(StatusNotFound, Failure("User not found")), db)
    ensures (&& Present(email) && Present(otp) && Present(newPassword) && email.value in db.passwords
             && Newest(db.otps, email.value, otp.value).None?) ==>
      r == (Reply(StatusBadRequest, Failure("Invalid OTP")), db)
    ensures (&& Present(email) && Present(otp) && Present(newPassword) && email.value in db.passwords
             && Newest(db.otps, email.value, otp.value).Some?
             && Expired(Newest(db.otps, email.value, otp.value).value, now)) ==>
      r == (Reply(StatusBadRequest, Failure("OTP expired")), db)
    ensures r.0.status != StatusOk ==> r.1 == db
    ensures r.0.status == StatusOk ==>
      && Present(email) && Present(otp) && Present(newPassword) && email.value in db.passwords
      && r.1.passwords == db.passwords[email.value := newPassword.value]
      && r.1.profiles == db.profiles
      && r.1.otps == DropCodesOf(db.otps, email.value)
    ensures Consistent(db) ==> Consistent(r.1)
  {
    if !(Present(email) && Present(otp) && Present(newPassword)) then
      (Reply(StatusBadRequest, Failure("Email, OTP, and new password are required")), db)
    else if email.value !in db.passwords then
      (Reply(StatusNotFound, Failure("User not found")), db)
    else match Newest(db.otps, email.value, otp.value)
      case None => (Reply(StatusBadRequest, Failure("Invalid OTP")), db)
      case Some(t) =>
        if Expired(t, now) then (Reply(StatusBadRequest, Failure("OTP expired")), db)
        else
          assert ProfileOnSave(email.value, false).None?;
          (Reply(StatusOk, Message("Password reset successful")),
           Db(db.passwords[email.value := newPassword.value], db.profiles, DropCodesOf(db.otps, email.value)))
  }

  /** The reset goes through exactly when some code matching the account
      and the value is still in time: judging only the newest matching code
      accepts and rejects the same requests as judging all of them. */
  lemma ResetSucceedsIffSomeCodeInTime(db: Db, email: string, otp: string, newPassword: string, now: int)
    requires |email| > 0 && |otp| > 0 && |newPassword| > 0 && email in db.passwords
    ensures ResetPassword(db, Some(email), Some(otp), Some(newPassword), now).0.status == StatusOk <==>
      exists i :: 0 <= i < |db.otps| && IsMatch(db.otps[i], email, otp) && !Expired(db.otps[i].createdAt, now)
  {
    var n := Newest(db.otps, email, otp);
    if n.Some? {
      var i :| 0 <= i < |db.otps| && IsMatch(db.otps[i], email, otp) && db.otps[i].createdAt == n.value;
      assert !Expired(n.value, now) ==> !Expired(db.otps[i].createdAt, now);
    }
  }

  /** A code asked for at `t` resets the password at any time up to and
      including `t` plus three minutes, and the new password then signs in. */
  lemma ForgotThenReset(db: Db, email: string, code: string, t: int, mailSent: bool, newPassword: string, now: int)
    requires email in db.passwords && |email| > 0 && |code| > 0 && |newPassword| > 0
    requires now <= t + OtpLifetime
    ensures var issued := ForgotPassword(db, Some(email), code, t, mailSent).1;
      var reset := ResetPassword(issued, Some(email), Some(code), Some(newPassword), now);
      && reset.0 == Reply(StatusOk, Message("Password reset successful"))
      && Login(reset.1, Some(email), Some(newPassword)).status == StatusOk
  {
    var issued := ForgotPassword(db, Some(email), code, t, mailSent).1;
    var last := |issued.otps| - 1;
    assert IsMatch(issued.otps[last], email, code) && issued.otps[last].createdAt == t;
    ResetSucceedsIffSomeCodeInTime(issued, email, code, newPassword, now);
  }

  /** One second past the three minutes the same code is refused. */
  lemma CodeExpiresAfterThreeMinutes(db: Db, email: string, code: string, t: int, newPassword: string)
    requires email in db.passwords && |email| > 0 && |code| > 0 && |newPassword| > 0
    requires forall i :: 0 <= i < |db.otps| ==> !IsMatch(db.otps[i], email, code)
    ensures var issued := ForgotPassword(db, Some(email), code, t, true).1;
      ResetPassword(issued, Some(email), Some(code), Some(newPassword), t + OtpLifetime + 1_000_000).0 ==
        Reply(StatusBadRequest, Failure("OTP expired"))
  {
    var issued := ForgotPassword(db, Some(email), code, t, true).1;
    var n := Newest(issued.otps, email, code);
    var last := |issued.otps| - 1;
    assert IsMatch(issued.otps[last], email, code);
    assert forall i :: 0 <= i < last ==> issued.otps[i] == db.otps[i];
    assert n == Some(t);
  }

  /** A code works once: after a successful reset no code of that account
      is left, so the same request is refused. */
  lemma CodeIsSingleUse(db: Db, email: string, otp: string, newPassword: string, now: int, later: int)
    requires |email| > 0 && |otp| > 0 && |newPassword| > 0
    requires ResetPassword(db, Some(email), Some(otp), Some(newPassword), now).0.status == StatusOk
    ensures var after := ResetPassword(db, Some(email), Some(otp), Some(newPassword), now).1;
      ResetPassword(after, Some(email), Some(otp), Some(newPassword), later).0 ==
        Reply(StatusBadRequest, Failure("Invalid OTP"))
  {
    var after := ResetPassword(db, Some(email), Some(otp), Some(newPassword), now).1;
    assert forall i :: 0 <= i < |after.otps| ==> after.otps[i] in after.otps;
  }

  // ---------------------------------------------------------------------
  // Deleting the account

  /** The delete view: the signed-in account goes, and with it its profile
      and its codes. */
  function DeleteAccount(db: Db, email: string): (r: (Reply, Db))
    requires email in db.passwords
    ensures r.0 == Reply(StatusNoContent, Message("Profile deleted and user removed"))
    ensures r.1.passwords.Keys == db.passwords.Keys - {email}
    ensures forall e :: e in r.1.passwords ==> r.1.passwords[e] == db.passwords[e]
    ensures r.1.profiles == db.profiles - {email}
    ensures forall e :: e in r.1.profiles ==> e in db.profiles && e != email && r.1.profiles[e] == db.profiles[e]
    ensures forall o :: o in r.1.otps <==> o in db.otps && o.owner != email
    ensures forall o :: multiset(r.1.otps)[o] == if o.owner != email then multiset(db.otps)[o] else 0
    ensures IsSubsequence(r.1.otps, db.otps)
    ensures Consistent(db) ==> Consistent(r.1)
  {
    var after := Db(db.passwords - {email}, db.profiles - {email}, DropCodesOf(db.otps, email));
    assert forall i :: 0 <= i < |after.otps| ==> after.otps[i] in after.otps;
    (Reply(StatusNoContent, Message("Profile deleted and user removed")), after)
  }

  /** A deleted account can no longer sign in. */
  lemma DeletedAccountCannotLogIn(db: Db, email: string, password: string)
    requires email in db.passwords && |email| > 0 && |password| > 0
    ensures Login(DeleteAccount(db, email).1, Some(email), Some(password)).status == StatusNotFound
  {
  }
}
