/** Account handlers of server.js: customer registration, password change,
    the admin's delete-user, and the superadmin's add-admin and
    update-admin forms with their validators. Each write states which
    constraint of the users table (NOT NULL, UNIQUE email, role CHECK)
    decides its failure. */
module Accounts {
  import opened Common
  import opened Tables
  import opened Validators

  // ---------------------------------------------------------------- register

  datatype RegisterRequest = RegisterRequest(
    name: Option<string>, email: Option<string>, phone: Option<string>, password: Option<string>)

  /** Every NOT NULL column of the INSERT has a value. */
  predicate Complete(req: RegisterRequest)
  {
    req.name.Some? && req.email.Some? && req.phone.Some? && req.password.Some?
  }

  datatype RegisterOutcome = Registered | EmailExists | RegisterServerError | Crashed
  {
    /** The message of the JSON answer; `Crashed` sends none (HTTP 500). */
    function Message(): Option<string>
    {
      match this
      case Registered => None
      case EmailExists => Some("Registration failed. Email already exists.")
      case RegisterServerError => Some("Registration failed. Server error.")
      case Crashed => None
    }
  }

  /** Register as server.js:13-31 is written: the catch block's non-UNIQUE
      branch logs an undeclared `error`, so a NOT NULL failure throws again
      and the request ends in an unhandled error. */
  function RegisterVerdictAsWritten(users: seq<User>, req: RegisterRequest): RegisterOutcome
  {
    if !Complete(req) then Crashed
    else if EmailTaken(users, req.email.value) then EmailExists
    else Registered
  }

  /** Register with the catch block answering its server-error message. */
  function RegisterVerdict(users: seq<User>, req: RegisterRequest): (r: RegisterOutcome)
    ensures r != Crashed
    ensures r == Registered <==> Complete(req) && !EmailTaken(users, req.email.value)
    ensures r == EmailExists <==> Complete(req) && EmailTaken(users, req.email.value)
    ensures r == RegisterServerError <==> !Complete(req)
  {
    if !Complete(req) then RegisterServerError
    else if EmailTaken(users, req.email.value) then EmailExists
    else Registered
  }

  /** The two differ exactly on requests with a missing field: a form
      without a name crashes the handler as written. */
  lemma RegisterCrashesOnMissingField(users: seq<User>, req: RegisterRequest)
    ensures RegisterVerdictAsWritten(users, req) == Crashed <==> !Complete(req)
    ensures RegisterVerdictAsWritten(users, req) != Crashed ==> RegisterVerdictAsWritten(users, req) == RegisterVerdict(users, req)
    ensures var noName := RegisterRequest(None, Some("ana@gmail.com"), Some("09123456789"), Some("secret"));
      RegisterVerdictAsWritten([], noName) == Crashed && RegisterVerdict([], noName) == RegisterServerError
  {
  }

  /** The row register inserts; the role is always "user". */
  function Customer(id: nat, req: RegisterRequest): User
    requires Complete(req)
  {
    User(id, req.name.value, req.email.value, req.phone.value, req.password.value, "user")
  }

  /** `POST /api/register`. */
  method Register(db: Database, req: RegisterRequest) returns (outcome: RegisterOutcome)
    requires db.Valid()
    modifies db`users, db`nextUserId
    ensures db.Valid()
    ensures outcome == RegisterVerdict(old(db.users), req)
    ensures outcome == Registered ==>
      db.users == old(db.users) + [Customer(old(db.nextUserId), req)] && db.nextUserId == old(db.nextUserId) + 1
    ensures outcome != Registered ==> db.users == old(db.users) && db.nextUserId == old(db.nextUserId)
  {
    if !Complete(req) {
      // NOT NULL constraint failed
      return RegisterServerError;
    }
    if EmailTaken(db.users, req.email.value) {
      // UNIQUE constraint failed: users.email
      return EmailExists;
    }
    db.InsertUser(Customer(db.nextUserId, req));
    outcome := Registered;
  }

  /** A new account can log in at once with the email and password it was
      registered with. */
  lemma RegisteredCustomerCanLogIn(users: seq<User>, next: nat, req: RegisterRequest)
    requires RegisterVerdict(users, req) == Registered
    ensures UserByCredentials(users + [Customer(next, req)], req.email, req.password) == Some(|users|)
  {
    var after := users + [Customer(next, req)];
    forall j | 0 <= j < |users| ensures !SqlEq(after[j].email, req.email) {
      assert after[j] == users[j];
    }
    assert SqlEq(after[|users|].email, req.email) && SqlEq(after[|users|].password, req.password);
    var r := UserByCredentials(after, req.email, req.password);
    assert r.Some?;
    assert r.value >= |users|;
  }

  // ---------------------------------------------------------------- change password

  datatype ChangePasswordOutcome = WrongPassword | PasswordChanged | ChangeFailed
  {
    function Message(): Option<string>
    {
      match this
      case WrongPassword => Some("Current password is incorrect")
      case PasswordChanged => None
      case ChangeFailed => Some("Error changing password")
    }
  }

  /** `SELECT * FROM users WHERE id = ? AND password = ?` finds a row. */
  predicate PasswordMatches(users: seq<User>, id: int, current: Option<string>)
  {
    exists i :: 0 <= i < |users| && users[i].id == id && SqlEq(users[i].password, current)
  }

  /** `PATCH /api/change-password/:id` (server.js:222-234): no strength
      rule; a missing new password breaks NOT NULL. */
  method ChangePassword(db: Database, id: int, current: Option<string>, newPassword: Option<string>)
    returns (outcome: ChangePasswordOutcome)
    requires db.Valid()
    modifies db`users
    ensures db.Valid()
    ensures outcome == WrongPassword <==> !PasswordMatches(old(db.users), id, current)
    ensures outcome == ChangeFailed <==> PasswordMatches(old(db.users), id, current) && newPassword.None?
    ensures outcome == PasswordChanged ==> db.users == SetPassword(old(db.users), id, newPassword.value)
    ensures outcome != PasswordChanged ==> db.users == old(db.users)
  {
    if !PasswordMatches(db.users, id, current) {
      return WrongPassword;
    }
    if newPassword.None? {
      return ChangeFailed;
    }
    db.SetUserPassword(id, newPassword.value);
    outcome := PasswordChanged;
  }

  /** After user `users[k]` changes password, login accepts the new password
      and no longer the old one. */
  lemma PasswordChangeSwitchesLogin(users: seq<User>, next: nat, k: nat, newPassword: string)
    requires UsersOk(users, next) && k < |users|
    requires newPassword != users[k].password
    ensures var after := SetPassword(users, users[k].id, newPassword);
      && UserByCredentials(after, Some(users[k].email), Some(newPassword)) == Some(k)
      && UserByCredentials(after, Some(users[k].email), Some(users[k].password)).None?
  {
    var after := SetPassword(users, users[k].id, newPassword);
    forall j | 0 <= j < |after| && j != k ensures after[j].email != users[k].email {
      assert after[j] == users[j];
    }
    assert after[k].email == users[k].email && after[k].password == newPassword;
  }

  // ---------------------------------------------------------------- delete user

  /** `DELETE FROM users WHERE id = ? AND role = ?`. */
  function RemoveUsers(users: seq<User>, id: int, role: string): (r: seq<User>)
    ensures forall u :: u in r <==> u in users && !(u.id == id && u.role == role)
    ensures |r| <= |users|
  {
    if users == [] then []
    else if users[0].id == id && users[0].role == role then RemoveUsers(users[1..], id, role)
    else [users[0]] + RemoveUsers(users[1..], id, role)
  }

  /** No row has that id and role. */
  predicate NoSuchRow(users: seq<User>, id: int, role: string)
  {
    forall i :: 0 <= i < |users| ==> !(users[i].id == id && users[i].role == role)
  }

  lemma {:induction false} RemoveNothing(users: seq<User>, id: int, role: string)
    requires NoSuchRow(users, id, role)
    ensures RemoveUsers(users, id, role) == users
  {
    if users != [] {
      RemoveNothing(users[1..], id, role);
      assert users == [users[0]] + users[1..];
    }
  }

  /** Delete-user as server.js:198-207 is written, filtering on the role
      "registered". */
  function DeleteUserAsWritten(users: seq<User>, id: int): seq<User>
  {
    RemoveUsers(users, id, "registered")
  }

  /** The role CHECK admits no "registered" row, so the handler as written
      never deletes anything and always answers `success: false`. */
  lemma DeleteUserAsWrittenNeverDeletes(users: seq<User>, next: nat, id: int)
    requires UsersOk(users, next)
    ensures DeleteUserAsWritten(users, id) == users
    ensures NoSuchRow(users, id, "registered")
  {
    RemoveNothing(users, id, "registered");
  }

  /** `GET /api/admin/customers`: the users with role "user". */
  function Customers(users: seq<User>): (r: seq<User>)
    ensures forall u :: u in r <==> u in users && u.role == "user"
  {
    if users == [] then []
    else if users[0].role == "user" then [users[0]] + Customers(users[1..])
    else Customers(users[1..])
  }

  /** Removing rows keeps the users constraints. */
  lemma {:induction false} RemoveUsersKeepsOk(users: seq<User>, next: nat, id: int, role: string)
    requires UsersOk(users, next)
    ensures UsersOk(RemoveUsers(users, id, role), next)
  {
    if users != [] {
      var rest := users[1..];
      assert UsersOk(rest, next) by {
        forall i, j | 0 <= i < j < |rest| ensures rest[i].id != rest[j].id && rest[i].email != rest[j].email {
          assert rest[i] == users[i + 1] && rest[j] == users[j + 1];
        }
      }
      RemoveUsersKeepsOk(rest, next, id, role);
      var tail := RemoveUsers(rest, id, role);
      var r := RemoveUsers(users, id, role);
      if !(users[0].id == id && users[0].role == role) {
        assert r == [users[0]] + tail;
        forall j | 1 <= j < |r| ensures r[0].id != r[j].id && r[0].email != r[j].email {
          assert r[j] in tail;
          var m :| 0 <= m < |rest| && rest[m] == r[j];
          assert rest[m] == users[m + 1];
        }
      }
    }
  }

  datatype DeleteUserOutcome = UserDeleted | NoUserDeleted | DeleteUserFailed
  {
    /** `success` of the answer: `result.changes > 0`. */
    predicate Success()
    {
      UserDeleted?
    }

    /** The message of the answer; the catch block is the only one that sends one. */
    function Message(): Option<string>
    {
      if DeleteUserFailed? then Some("Error deleting user") else None
    }
  }

  /** `DELETE /api/admin/delete-user/:id` with the role the customer list
      uses: it removes the customer with that id, and only a customer. When
      an appointment, a feedback row or a notification still names the
      customer, the foreign key makes the DELETE fail and nothing changes. */
  method DeleteUser(db: Database, id: int) returns (outcome: DeleteUserOutcome)
    requires db.Valid()
    modifies db`users
    ensures db.Valid()
    ensures outcome == NoUserDeleted <==> NoSuchRow(old(db.users), id, "user")
    ensures outcome == DeleteUserFailed <==>
      !NoSuchRow(old(db.users), id, "user") && UserReferenced(db.appointments, db.feedback, db.notificationUserIds, id)
    ensures outcome == UserDeleted ==> db.users == RemoveUsers(old(db.users), id, "user")
    ensures outcome != UserDeleted ==> db.users == old(db.users)
  {
    if NoSuchRow(db.users, id, "user") {
      // nothing matches: `changes` is 0 and no key is checked
      return NoUserDeleted;
    }
    if UserReferenced(db.appointments, db.feedback, db.notificationUserIds, id) {
      // FOREIGN KEY constraint failed: the catch block answers
      return DeleteUserFailed;
    }
    RemoveUsersKeepsOk(db.users, db.nextUserId, id, "user");
    db.users := RemoveUsers(db.users, id, "user");
    outcome := UserDeleted;
  }

  /** The corrected delete leaves every admin and superadmin in place and
      takes the deleted account off the customer list. */
  lemma DeleteUserKeepsStaff(users: seq<User>, id: int)
    ensures forall u :: u in users && u.role != "user" ==> u in RemoveUsers(users, id, "user")
    ensures forall u :: u in Customers(RemoveUsers(users, id, "user")) <==> u in Customers(users) && u.id != id
  {
  }

  // ---------------------------------------------------------------- add admin

  datatype AdminRequest = AdminRequest(
    name: Option<string>, email: Option<string>, phone: Option<string>, password: Option<string>)

  datatype AddAdminOutcome = InvalidEmail | InvalidPhone | WeakPassword | AdminAdded(id: nat) | AdminServerError
  {
    /** The HTTP status of the answer. */
    function Status(): int
    {
      match this
      case InvalidEmail => 400
      case InvalidPhone => 400
      case WeakPassword => 400
      case AdminAdded(_) => 200
      case AdminServerError => 500
    }

    function Message(): string
    {
      match this
      case InvalidEmail => "Email must be a Gmail address"
      case InvalidPhone => "Phone must be 11 digits starting with 09"
      case WeakPassword =>
        "Password must be at least 8 characters long, contain uppercase, lowercase, number, and special character"
      case AdminAdded(_) => "Admin added successfully"
      case AdminServerError => "Server error"
    }
  }

  /** The checks of `POST /superadmin/admins` (server.js:527-565) in order:
      email, phone, password, then the INSERT's NOT NULL and UNIQUE. */
  function AddAdminVerdict(users: seq<User>, next: nat, req: AdminRequest): AddAdminOutcome
  {
    if !IsGmail(Text(req.email)) then InvalidEmail
    else if !PhoneRegexMatches(Text(req.phone)) then InvalidPhone
    else if !PasswordRegexMatches(Text(req.password)) then WeakPassword
    else if req.name.None? || req.email.None? || req.phone.None? || req.password.None? then AdminServerError
    else if EmailTaken(users, req.email.value) then AdminServerError
    else AdminAdded(next)
  }

  /** An admin is added exactly when the email is a Gmail address, the
      phone has 11 digits starting with 09, the password meets the stated
      strength rule, a name is given and the email is free; a failing
      earlier check wins over every later one. */
  lemma AddAdminIff(users: seq<User>, next: nat, req: AdminRequest)
    ensures AddAdminVerdict(users, next, req).AdminAdded? <==>
      && req.name.Some? && req.email.Some? && req.phone.Some? && req.password.Some?
      && IsGmail(req.email.value) && IsPhone(req.phone.value) && IsStrongPassword(req.password.value)
      && !EmailTaken(users, req.email.value)
    ensures !IsGmail(Text(req.email)) ==> AddAdminVerdict(users, next, req) == InvalidEmail
    ensures IsGmail(Text(req.email)) && !IsPhone(Text(req.phone)) ==> AddAdminVerdict(users, next, req) == InvalidPhone
  {
    UndefinedFailsEveryRule();
    PhoneIff(Text(req.phone));
    StrongPasswordIff(Text(req.password));
  }

  /** The seeded superadmin's own details would not pass the form: its
      email is not a Gmail address and its password has no uppercase letter. */
  lemma SeededAccountFailsAdminForm()
    ensures !IsGmail("owner@princesssalon.com")
    ensures !IsStrongPassword("mypassword123")
  {
    var e := "owner@princesssalon.com";
    assert e[|e| - |GmailSuffix|..][0] == 's';
    assert !Contains("mypassword123", Uppercase) by {
      forall i | 0 <= i < |"mypassword123"| ensures !Meets("mypassword123"[i], Uppercase) {
      }
    }
  }

  /** `POST /superadmin/admins`. */
  method AddAdmin(db: Database, req: AdminRequest) returns (outcome: AddAdminOutcome)
    requires db.Valid()
    modifies db`users, db`nextUserId
    ensures db.Valid()
    ensures outcome == AddAdminVerdict(old(db.users), old(db.nextUserId), req)
    ensures outcome.AdminAdded? ==>
      && db.users == old(db.users) + [User(outcome.id, req.name.value, req.email.value, req.phone.value, req.password.value, "admin")]
      && db.nextUserId == old(db.nextUserId) + 1
    ensures !outcome.AdminAdded? ==> db.users == old(db.users) && db.nextUserId == old(db.nextUserId)
  {
    if !IsGmail(Text(req.email)) {
      return InvalidEmail;
    }
    if !PhoneRegexMatches(Text(req.phone)) {
      return InvalidPhone;
    }
    if !PasswordRegexMatches(Text(req.password)) {
      return WeakPassword;
    }
    if req.name.None? || req.email.None? || req.phone.None? || req.password.None? {
      return AdminServerError;
    }
    if EmailTaken(db.users, req.email.value) {
      return AdminServerError;
    }
    var id := db.nextUserId;
    db.InsertUser(User(id, req.name.value, req.email.value, req.phone.value, req.password.value, "admin"));
    outcome := AdminAdded(id);
  }

  // ---------------------------------------------------------------- update admin

  datatype UpdateAdminOutcome = WeakNewPassword | AdminUpdated | AdminNotFound | UpdateAdminFailed
  {
    function Message(): string
    {
      match this
      case WeakNewPassword =>
        "Password must be at least 8 characters long and include uppercase, lowercase, number, and special character"
      case AdminUpdated => "Admin updated successfully"
      case AdminNotFound => "Admin not found or no changes made"
      case UpdateAdminFailed => "Error updating admin"
    }
  }

  /** Some row other than those with this id holds the email. */
  predicate EmailTakenByOther(users: seq<User>, email: string, id: int)
  {
    exists i :: 0 <= i < |users| && users[i].email == email && users[i].id != id
  }

  /** `UPDATE users SET name = ?, email = ?, phone = ?, password = ? WHERE id = ? AND role = 'admin'`. */
  function SetAdmin(users: seq<User>, id: int, name: string, email: string, phone: string, password: string)
    : (r: seq<User>)
    ensures |r| == |users|
    ensures forall i :: 0 <= i < |r| ==>
      r[i] == (if users[i].id == id && users[i].role == "admin"
               then users[i].(name := name, email := email, phone := phone, password := password)
               else users[i])
  {
    if users == [] then []
    else
      [if users[0].id == id && users[0].role == "admin"
       then users[0].(name := name, email := email, phone := phone, password := password)
       else users[0]]
        + SetAdmin(users[1..], id, name, email, phone, password)
  }

  /** Updating one admin to an email no other row holds keeps the constraints. */
  lemma SetAdminKeepsOk(users: seq<User>, next: nat, id: int, name: string, email: string, phone: string, password: string)
    requires UsersOk(users, next)
    requires !EmailTakenByOther(users, email, id)
    ensures UsersOk(SetAdmin(users, id, name, email, phone, password), next)
  {
    var r := SetAdmin(users, id, name, email, phone, password);
    forall i, j | 0 <= i < j < |r| ensures r[i].id != r[j].id && r[i].email != r[j].email {
      if users[i].id == id && users[i].role == "admin" {
        assert users[j].id != id;
      } else if users[j].id == id && users[j].role == "admin" {
        assert users[i].id != id;
      }
    }
  }

  /** The checks of `PUT /superadmin/admins/:id` (server.js:570-600): only
      the password rule, then the UPDATE of an admin row, whose NOT NULL and
      UNIQUE constraints are checked only when it selects a row. */
  function UpdateAdminVerdict(users: seq<User>, id: int, req: AdminRequest): (r: UpdateAdminOutcome)
  {
    if !PasswordRegexMatches(Text(req.password)) then WeakNewPassword
    else if NoSuchRow(users, id, "admin") then AdminNotFound
    else if req.name.None? || req.email.None? || req.phone.None? || req.password.None? then UpdateAdminFailed
    else if EmailTakenByOther(users, req.email.value, id) then UpdateAdminFailed
    else AdminUpdated
  }

  /** The update applies the password rule but not the email and phone
      rules of the add form: any address no other account holds is taken. */
  lemma UpdateAdminIff(users: seq<User>, id: int, req: AdminRequest)
    ensures UpdateAdminVerdict(users, id, req) == AdminUpdated <==>
      && req.name.Some? && req.email.Some? && req.phone.Some? && req.password.Some?
      && IsStrongPassword(req.password.value)
      && !NoSuchRow(users, id, "admin")
      && !EmailTakenByOther(users, req.email.value, id)
    ensures !IsStrongPassword(Text(req.password)) ==> UpdateAdminVerdict(users, id, req) == WeakNewPassword
  {
    UndefinedFailsEveryRule();
    StrongPasswordIff(Text(req.password));
  }

  /** `PUT /superadmin/admins/:id`. */
  method UpdateAdmin(db: Database, id: int, req: AdminRequest) returns (outcome: UpdateAdminOutcome)
    requires db.Valid()
    modifies db`users
    ensures db.Valid()
    ensures outcome == UpdateAdminVerdict(old(db.users), id, req)
    ensures outcome == AdminUpdated ==>
      db.users == SetAdmin(old(db.users), id, req.name.value, req.email.value, req.phone.value, req.password.value)
    ensures outcome != AdminUpdated ==> db.users == old(db.users)
  {
    if !PasswordRegexMatches(Text(req.password)) {
      return WeakNewPassword;
    }
    if NoSuchRow(db.users, id, "admin") {
      return AdminNotFound;
    }
    if req.name.None? || req.email.None? || req.phone.None? || req.password.None? {
      return UpdateAdminFailed;
    }
    if EmailTakenByOther(db.users, req.email.value, id) {
      return UpdateAdminFailed;
    }
    SetAdminKeepsOk(db.users, db.nextUserId, id, req.name.value, req.email.value, req.phone.value, req.password.value);
    db.users := SetAdmin(db.users, id, req.name.value, req.email.value, req.phone.value, req.password.value);
    outcome := AdminUpdated;
  }
}
