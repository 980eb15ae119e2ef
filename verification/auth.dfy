/** Login with the optional one-time-password step (server.js:1124-1278):
    the OTP table as a state machine driven by login, forgot-password,
    resend-otp, verify-otp and update-password, and the Two-Factor
    Authentication setting that gates it.

    The random code is a parameter in 1000..9999, the clock is the
    parameter `now` (milliseconds), and sending the mail appends to the
    ghost `outbox` of the store. */
module Auth {
  import opened Common
  import opened Tables

  // ---------------------------------------------------------------- codes

  /** Expiry window of a code: `diffMins > 5` with diffMins in minutes. */
  const FiveMinutes: int := 300000

  predicate IsCode(code: int)
  {
    1000 <= code <= 9999
  }

  function DigitChar(d: int): char
    requires 0 <= d <= 9
  {
    ('0' as int + d) as char
  }

  function DigitValue(c: char): int
  {
    c as int - '0' as int
  }

  /** `Math.floor(1000 + Math.random() * 9000).toString()` for the drawn
      value `code`: four decimal digits, the first not '0'. */
  function CodeText(code: int): (r: string)
    requires IsCode(code)
    ensures |r| == 4 && r[0] != '0'
    ensures forall i :: 0 <= i < 4 ==> '0' <= r[i] <= '9'
  {
    var tens := code / 10;
    var hundreds := tens / 10;
    [DigitChar(hundreds / 10), DigitChar(hundreds % 10), DigitChar(tens % 10), DigitChar(code % 10)]
  }

  /** The number four decimal digits spell. */
  function CodeValue(s: string): int
    requires |s| == 4
  {
    ((DigitValue(s[0]) * 10 + DigitValue(s[1])) * 10 + DigitValue(s[2])) * 10 + DigitValue(s[3])
  }

  /** The stored text reads back as the drawn code, so distinct codes are
      stored as distinct texts. */
  lemma CodeRoundTrip(code: int, other: int)
    requires IsCode(code) && IsCode(other)
    ensures CodeValue(CodeText(code)) == code
    ensures CodeText(code) == CodeText(other) ==> code == other
  {
    ReadsBack(code);
    ReadsBack(other);
  }

  lemma ReadsBack(code: int)
    requires IsCode(code)
    ensures CodeValue(CodeText(code)) == code
  {
    var tens := code / 10;
    var hundreds := tens / 10;
    var t := CodeText(code);
    assert DigitValue(t[0]) == hundreds / 10 && DigitValue(t[1]) == hundreds % 10;
    assert DigitValue(t[2]) == tens % 10 && DigitValue(t[3]) == code % 10;
    assert hundreds == (hundreds / 10) * 10 + hundreds % 10;
    assert tens == hundreds * 10 + tens % 10;
    assert code == tens * 10 + code % 10;
  }

  /** `(now - createdAt) / 1000 / 60 > 5`. */
  predicate Expired(createdAt: int, now: int)
  {
    now - createdAt > FiveMinutes
  }

  /** The millisecond test is the minute test of the source: a code exactly
      five minutes old is still accepted, one a millisecond older is not. */
  lemma ExpiredInMinutes(createdAt: int, now: int)
    ensures Expired(createdAt, now) <==> (now - createdAt) as real / 1000.0 / 60.0 > 5.0
    ensures !Expired(createdAt, createdAt + FiveMinutes) && Expired(createdAt, createdAt + FiveMinutes + 1)
  {
  }

  // ---------------------------------------------------------------- the otp table

  /** Row `row` is selected by `WHERE user_id = ? AND otp = ?`. */
  predicate Matches(row: OtpRow, userId: nat, code: Option<string>)
  {
    row.userId == userId && SqlEq(row.code, code)
  }

  /** `SELECT * FROM otp WHERE user_id = ? AND otp = ? ORDER BY created_at
      DESC LIMIT 1`: a matching row created no earlier than any other
      matching row (the earliest such row on a tie). */
  function NewestMatch(otps: seq<OtpRow>, userId: nat, code: Option<string>): (r: Option<nat>)
    ensures r.Some? ==> r.value < |otps| && Matches(otps[r.value], userId, code)
    ensures r.Some? ==> forall j :: 0 <= j < |otps| && Matches(otps[j], userId, code) ==>
      otps[j].createdAt <= otps[r.value].createdAt
    ensures r.None? <==> forall j :: 0 <= j < |otps| ==> !Matches(otps[j], userId, code)
  {
    if otps == [] then None
    else
      var n := |otps| - 1;
      var earlier := NewestMatch(otps[..n], userId, code);
      if Matches(otps[n], userId, code) && (earlier.None? || otps[earlier.value].createdAt < otps[n].createdAt)
      then Some(n)
      else earlier
  }

  /** The user has a row in the otp table (`SELECT * FROM otp WHERE user_id = ?`). */
  predicate HasOtp(otps: seq<OtpRow>, userId: nat)
  {
    exists i :: 0 <= i < |otps| && otps[i].userId == userId
  }

  /** `UPDATE otp SET otp = ?, created_at = ? WHERE user_id = ?`. */
  function SetOtp(otps: seq<OtpRow>, userId: nat, code: string, createdAt: int): (r: seq<OtpRow>)
    ensures |r| == |otps|
    ensures forall i :: 0 <= i < |r| ==>
      r[i] == (if otps[i].userId == userId then OtpRow(userId, code, createdAt) else otps[i])
  {
    if otps == [] then []
    else
      [if otps[0].userId == userId then OtpRow(userId, code, createdAt) else otps[0]]
        + SetOtp(otps[1..], userId, code, createdAt)
  }

  /** The upsert of login and forgot-password: every row of the user gets
      the new code and time, or one row is inserted when there is none. */
  function UpsertOtp(otps: seq<OtpRow>, userId: nat, code: string, createdAt: int): (r: seq<OtpRow>)
    ensures forall i :: 0 <= i < |r| && r[i].userId == userId ==> r[i] == OtpRow(userId, code, createdAt)
    ensures HasOtp(r, userId)
    ensures forall row :: row in r && row.userId != userId <==> row in otps && row.userId != userId
    // an update in place when the user has rows: other rows keep their position
    ensures HasOtp(otps, userId) ==>
      |r| == |otps| && forall i :: 0 <= i < |otps| && otps[i].userId != userId ==> r[i] == otps[i]
    // otherwise one insert at the end
    ensures !HasOtp(otps, userId) ==> r == otps + [OtpRow(userId, code, createdAt)]
  {
    if HasOtp(otps, userId) then
      var r := SetOtp(otps, userId, code, createdAt);
      assert forall row :: row in otps && row.userId != userId ==> row in r by {
        forall row | row in otps && row.userId != userId ensures row in r {
          var i :| 0 <= i < |otps| && otps[i] == row;
          assert r[i] == row;
        }
      }
      var i :| 0 <= i < |otps| && otps[i].userId == userId;
      assert r[i].userId == userId;
      r
    else
      var r := otps + [OtpRow(userId, code, createdAt)];
      assert r[|otps|].userId == userId;
      r
  }

  /** `DELETE FROM otp WHERE user_id = ?`. */
  function RemoveOtps(otps: seq<OtpRow>, userId: nat): (r: seq<OtpRow>)
    ensures forall row :: row in r <==> row in otps && row.userId != userId
  {
    if otps == [] then []
    else if otps[0].userId == userId then RemoveOtps(otps[1..], userId)
    else [otps[0]] + RemoveOtps(otps[1..], userId)
  }

  // ---------------------------------------------------------------- verify-otp

  datatype VerifyOutcome = VerifyUserNotFound | InvalidOtp | OtpExpired | Verified(user: User)
  {
    function Message(): Option<string>
    {
      match this
      case VerifyUserNotFound => Some("User not found.")
      case InvalidOtp => Some("Invalid OTP.")
      case OtpExpired => Some("OTP expired. Please request a new one.")
      case Verified(_) => None
    }
  }

  /** The answer of verify-otp (server.js:1227-1253). */
  function VerifyVerdict(users: seq<User>, otps: seq<OtpRow>, email: Option<string>, code: Option<string>,
                         now: int): VerifyOutcome
  {
    match UserByEmail(users, email)
    case None => VerifyUserNotFound
    case Some(k) =>
      match NewestMatch(otps, users[k].id, code)
      case None => InvalidOtp
      case Some(j) => if Expired(otps[j].createdAt, now) then OtpExpired else Verified(users[k])
  }

  /** `POST /api/verify-otp`: reads the tables and writes nothing. */
  method VerifyOtp(db: Database, email: Option<string>, code: Option<string>, now: int) returns (outcome: VerifyOutcome)
    ensures outcome == VerifyVerdict(db.users, db.otps, email, code, now)
    ensures outcome.Verified? ==> UserByEmail(db.users, email).Some? && outcome.user.email == email.value
  {
    var k := UserByEmail(db.users, email);
    if k.None? {
      return VerifyUserNotFound;
    }
    var user := db.users[k.value];
    var record := NewestMatch(db.otps, user.id, code);
    if record.None? {
      return InvalidOtp;
    }
    if Expired(db.otps[record.value].createdAt, now) {
      return OtpExpired;
    }
    outcome := Verified(user);
  }

  /** When every row of a user holds the same code and time, that code
      selects one of them and any other code selects none. */
  lemma NewestOfUniformRows(otps: seq<OtpRow>, userId: nat, code: string, createdAt: int, submitted: Option<string>)
    requires HasOtp(otps, userId)
    requires forall i :: 0 <= i < |otps| && otps[i].userId == userId ==> otps[i] == OtpRow(userId, code, createdAt)
    ensures submitted != Some(code) ==> NewestMatch(otps, userId, submitted).None?
    ensures submitted == Some(code) ==>
      NewestMatch(otps, userId, submitted).Some? && otps[NewestMatch(otps, userId, submitted).value].createdAt == createdAt
  {
    var j :| 0 <= j < |otps| && otps[j].userId == userId;
    if submitted == Some(code) {
      assert Matches(otps[j], userId, submitted);
    }
  }

  /** After the upsert for user `users[k]`, exactly the new code verifies
      for that user, until it is more than five minutes old. */
  lemma UpsertDecidesVerification(users: seq<User>, otps: seq<OtpRow>, k: nat, code: int, createdAt: int,
                                  submitted: Option<string>, now: int)
    requires k < |users| && UserByEmail(users, Some(users[k].email)) == Some(k)
    requires IsCode(code)
    ensures var after := UpsertOtp(otps, users[k].id, CodeText(code), createdAt);
      VerifyVerdict(users, after, Some(users[k].email), submitted, now)
        == if submitted != Some(CodeText(code)) then InvalidOtp
           else if Expired(createdAt, now) then OtpExpired
           else Verified(users[k])
  {
    var after := UpsertOtp(otps, users[k].id, CodeText(code), createdAt);
    NewestOfUniformRows(after, users[k].id, CodeText(code), createdAt, submitted);
  }

  /** Appending a row for another code leaves the answer for every other
      code unchanged: resending keeps the earlier codes verifiable. */
  lemma AppendKeepsOtherCodes(users: seq<User>, otps: seq<OtpRow>, row: OtpRow, email: Option<string>,
                              submitted: Option<string>, now: int)
    requires submitted != Some(row.code)
    ensures VerifyVerdict(users, otps + [row], email, submitted, now) == VerifyVerdict(users, otps, email, submitted, now)
  {
    assert (otps + [row])[..|otps|] == otps;
  }

  /** Once a user's rows are deleted, no code verifies for that user. */
  lemma RemovedOtpsNeverVerify(users: seq<User>, otps: seq<OtpRow>, k: nat, submitted: Option<string>, now: int)
    requires k < |users| && UserByEmail(users, Some(users[k].email)) == Some(k)
    ensures VerifyVerdict(users, RemoveOtps(otps, users[k].id), Some(users[k].email), submitted, now) == InvalidOtp
  {
    var r := RemoveOtps(otps, users[k].id);
    forall j | 0 <= j < |r| ensures !Matches(r[j], users[k].id, submitted) {
      assert r[j] in r;
    }
  }

  // ---------------------------------------------------------------- login

  datatype LoginOutcome = InvalidCredentials | LoggedIn(user: User) | OtpRequired
  {
    predicate Success()
    {
      !InvalidCredentials?
    }

    function Message(): string
    {
      match this
      case InvalidCredentials => "Invalid credentials"
      case LoggedIn(_) => "Login successful (2FA disabled)."
      case OtpRequired => "OTP sent to your email."
    }
  }

  /** The OTP upsert on the store, with the mail handed to the transport. */
  method IssueOtp(db: Database, k: nat, code: int, now: int)
    requires db.Valid() && k < |db.users| && IsCode(code)
    modifies db`otps, db`outbox
    ensures db.Valid()
    ensures db.otps == UpsertOtp(old(db.otps), db.users[k].id, CodeText(code), now)
    ensures db.outbox == old(db.outbox) + [Mail(db.users[k].email, CodeText(code))]
  {
    var user := db.users[k];
    var otp := CodeText(code);
    if HasOtp(db.otps, user.id) {
      db.otps := SetOtp(db.otps, user.id, otp, now);
    } else {
      db.otps := db.otps + [OtpRow(user.id, otp, now)];
    }
    db.outbox := db.outbox + [Mail(user.email, otp)];
  }

  /** `POST /api/login` (server.js:1124-1180). */
  method Login(db: Database, email: Option<string>, password: Option<string>, code: int, now: int)
    returns (outcome: LoginOutcome)
    requires db.Valid() && IsCode(code)
    modifies db`otps, db`outbox
    ensures db.Valid()
    ensures outcome == InvalidCredentials <==> UserByCredentials(db.users, email, password).None?
    ensures outcome.LoggedIn? <==> UserByCredentials(db.users, email, password).Some? && !TwoFactorOn(db.settings)
    ensures outcome.LoggedIn? ==> outcome.user == db.users[UserByCredentials(db.users, email, password).value]
    ensures !outcome.OtpRequired? ==> db.otps == old(db.otps) && db.outbox == old(db.outbox)
    ensures outcome.OtpRequired? ==>
      var user := db.users[UserByCredentials(db.users, email, password).value];
      && db.otps == UpsertOtp(old(db.otps), user.id, CodeText(code), now)
      && db.outbox == old(db.outbox) + [Mail(user.email, CodeText(code))]
  {
    var k := UserByCredentials(db.users, email, password);
    if k.None? {
      return InvalidCredentials;
    }
    if !TwoFactorOn(db.settings) {
      return LoggedIn(db.users[k.value]);
    }
    IssueOtp(db, k.value, code, now);
    outcome := OtpRequired;
  }

  datatype ForgotOutcome = EmailNotFound | ResetOtpSent
  {
    function Message(): string
    {
      match this
      case EmailNotFound => "Email not found."
      case ResetOtpSent => "OTP sent successfully!"
    }
  }

  /** `POST /api/forgot-password` (server.js:1181-1207): the same upsert as
      login, for any registered email and regardless of the 2FA setting. */
  method ForgotPassword(db: Database, email: Option<string>, code: int, now: int) returns (outcome: ForgotOutcome)
    requires db.Valid() && IsCode(code)
    modifies db`otps, db`outbox
    ensures db.Valid()
    ensures outcome == EmailNotFound <==> UserByEmail(db.users, email).None?
    ensures outcome == EmailNotFound ==> db.otps == old(db.otps) && db.outbox == old(db.outbox)
    ensures outcome == ResetOtpSent ==>
      var user := db.users[UserByEmail(db.users, email).value];
      && db.otps == UpsertOtp(old(db.otps), user.id, CodeText(code), now)
      && db.outbox == old(db.outbox) + [Mail(user.email, CodeText(code))]
  {
    var k := UserByEmail(db.users, email);
    if k.None? {
      return EmailNotFound;
    }
    IssueOtp(db, k.value, code, now);
    outcome := ResetOtpSent;
  }

  datatype ResendOutcome = ResendUserNotFound | Resent
  {
    function Message(): string
    {
      match this
      case ResendUserNotFound => "User not found."
      case Resent => "OTP resent successfully."
    }
  }

  /** `POST /api/resend-otp` (server.js:1256-1271): appends a row, so a user
      may hold several codes at once. */
  method ResendOtp(db: Database, email: Option<string>, code: int, now: int) returns (outcome: ResendOutcome)
    requires db.Valid() && IsCode(code)
    modifies db`otps, db`outbox
    ensures db.Valid()
    ensures outcome == ResendUserNotFound <==> UserByEmail(db.users, email).None?
    ensures outcome == ResendUserNotFound ==> db.otps == old(db.otps) && db.outbox == old(db.outbox)
    ensures outcome == Resent ==>
      var user := db.users[UserByEmail(db.users, email).value];
      && db.otps == old(db.otps) + [OtpRow(user.id, CodeText(code), now)]
      && db.outbox == old(db.outbox) + [Mail(user.email, CodeText(code))]
  {
    var k := UserByEmail(db.users, email);
    if k.None? {
      return ResendUserNotFound;
    }
    var user := db.users[k.value];
    var otp := CodeText(code);
    db.otps := db.otps + [OtpRow(user.id, otp, now)];
    db.outbox := db.outbox + [Mail(user.email, otp)];
    outcome := Resent;
  }

  /** The resent code verifies (unless expired), while every earlier code
      keeps the answer it had. */
  lemma ResendVerification(users: seq<User>, otps: seq<OtpRow>, k: nat, code: int, now: int,
                           submitted: Option<string>, later: int)
    requires k < |users| && UserByEmail(users, Some(users[k].email)) == Some(k)
    requires IsCode(code)
    requires forall i :: 0 <= i < |otps| ==> otps[i].createdAt <= now
    ensures var after := otps + [OtpRow(users[k].id, CodeText(code), now)];
      && (submitted == Some(CodeText(code)) ==>
            VerifyVerdict(users, after, Some(users[k].email), submitted, later)
              == if Expired(now, later) then OtpExpired else Verified(users[k]))
      && (submitted != Some(CodeText(code)) ==>
            VerifyVerdict(users, after, Some(users[k].email), submitted, later)
              == VerifyVerdict(users, otps, Some(users[k].email), submitted, later))
  {
    var row := OtpRow(users[k].id, CodeText(code), now);
    var after := otps + [row];
    if submitted == Some(CodeText(code)) {
      assert after[..|otps|] == otps;
      assert Matches(after[|otps|], users[k].id, submitted);
    } else {
      AppendKeepsOtherCodes(users, otps, row, Some(users[k].email), submitted, later);
    }
  }

  datatype UpdatePasswordOutcome = FieldsRequired | UpdateUserNotFound | PasswordUpdated
  {
    function Message(): string
    {
      match this
      case FieldsRequired => "Email and new password required."
      case UpdateUserNotFound => "User not found."
      case PasswordUpdated => "Password updated successfully."
    }
  }

  /** A request field that JavaScript treats as truthy (present, non-empty). */
  predicate Given(field: Option<string>)
  {
    field.Some? && field.value != ""
  }

  /** `POST /api/update-password` (server.js:1209-1223): replaces the
      password and deletes every OTP row of the user. */
  method UpdatePassword(db: Database, email: Option<string>, newPassword: Option<string>)
    returns (outcome: UpdatePasswordOutcome)
    requires db.Valid()
    modifies db`users, db`otps
    ensures db.Valid()
    ensures outcome == FieldsRequired <==> !Given(email) || !Given(newPassword)
    ensures outcome == UpdateUserNotFound <==> Given(email) && Given(newPassword) && UserByEmail(old(db.users), email).None?
    ensures outcome != PasswordUpdated ==> db.users == old(db.users) && db.otps == old(db.otps)
    ensures outcome == PasswordUpdated ==>
      var user := old(db.users)[UserByEmail(old(db.users), email).value];
      && db.users == SetPassword(old(db.users), user.id, newPassword.value)
      && db.otps == RemoveOtps(old(db.otps), user.id)
  {
    if !Given(email) || !Given(newPassword) {
      return FieldsRequired;
    }
    var k := UserByEmail(db.users, email);
    if k.None? {
      return UpdateUserNotFound;
    }
    var id := db.users[k.value].id;
    db.SetUserPassword(id, newPassword.value);
    db.otps := RemoveOtps(db.otps, id);
    outcome := PasswordUpdated;
  }

  // ---------------------------------------------------------------- the 2FA setting

  /** Every setting's flag is 0 or 1, as the handlers and startup write it. */
  predicate FlagsAreBits(settings: seq<SecuritySetting>)
  {
    forall i :: 0 <= i < |settings| ==> settings[i].enabled == 0 || settings[i].enabled == 1
  }

  /** `UPDATE security_settings SET enabled = ? WHERE id = ?`. */
  function SetEnabled(settings: seq<SecuritySetting>, id: Option<int>, enabled: int): (r: seq<SecuritySetting>)
    ensures |r| == |settings|
    ensures forall i :: 0 <= i < |r| ==>
      r[i] == (if SqlEq(settings[i].id, id) then settings[i].(enabled := enabled) else settings[i])
  {
    if settings == [] then []
    else
      [if SqlEq(settings[0].id, id) then settings[0].(enabled := enabled) else settings[0]]
        + SetEnabled(settings[1..], id, enabled)
  }

  lemma SetEnabledKeepsOk(settings: seq<SecuritySetting>, next: nat, id: Option<int>, enabled: int)
    requires SettingsOk(settings, next)
    ensures SettingsOk(SetEnabled(settings, id, enabled), next)
  {
    var r := SetEnabled(settings, id, enabled);
    assert forall i :: 0 <= i < |r| ==> r[i].id == settings[i].id;
  }

  /** `POST /update-security-setting` (server.js:1043-1052), `truthy` being
      the JavaScript truth value of the submitted `enabled`; it always
      answers success. */
  method UpdateSecuritySetting(db: Database, id: Option<int>, truthy: bool)
    requires db.Valid()
    modifies db`settings
    ensures db.Valid()
    ensures db.settings == SetEnabled(old(db.settings), id, if truthy then 1 else 0)
  {
    SetEnabledKeepsOk(db.settings, db.nextSettingId, id, if truthy then 1 else 0);
    db.settings := SetEnabled(db.settings, id, if truthy then 1 else 0);
  }

  /** `GET /api/security-status`: the first 2FA row's flag, 0 without one. */
  function SecurityStatus(settings: seq<SecuritySetting>): (r: int)
    ensures r == 1 <==> TwoFactorOn(settings)
    ensures TwoFactorSetting(settings).None? ==> r == 0
  {
    match TwoFactorSetting(settings)
    case None => 0
    case Some(s) => s.enabled
  }

  /** Toggling keeps every flag a bit, and then the status the admin page
      shows is non-zero exactly when login asks for a code. */
  lemma SecurityStatusMatchesLogin(settings: seq<SecuritySetting>, id: Option<int>, truthy: bool)
    requires FlagsAreBits(settings)
    ensures FlagsAreBits(SetEnabled(settings, id, if truthy then 1 else 0))
    ensures SecurityStatus(settings) != 0 <==> TwoFactorOn(settings)
  {
    match FirstIndex(settings, (s: SecuritySetting) => s.name == TwoFactorName)
    case None =>
    case Some(k) => assert settings[k].enabled == 0 || settings[k].enabled == 1;
  }
}
