/** The salon's SQLite store (database.js), held in memory: one sequence
    of rows per table, kept in row order, with the CHECK, UNIQUE and
    AUTOINCREMENT rules of the CREATE TABLE statements as the object
    invariant `Valid`. Foreign keys are enforced (better-sqlite3 builds
    SQLite with them switched on, and database.js leaves them on), so the
    statements that could break one check it: the booking INSERT, the user
    DELETE and the feedback copy of the migration. */
module Tables {
  import opened Common

  // ---------------------------------------------------------------- constants

  /** The values the CHECK on users.role admits. */
  predicate AllowedRole(role: string)
  {
    role == "user" || role == "admin" || role == "superadmin"
  }

  /** Name of the security setting that gates the OTP step of login. */
  const TwoFactorName: string := "Two-Factor Authentication"

  /** Appointment statuses written by the handlers. */
  const Pending: string := "Pending"
  const Cancelled: string := "Cancelled"
  const RescheduledStatus: string := "Rescheduled"

  // ---------------------------------------------------------------- rows

  datatype User = User(id: nat, name: string, email: string, phone: string, password: string, role: string)

  datatype Appointment = Appointment(
    id: nat, userId: int, service: string, stylistId: Option<int>, stylist: Option<string>,
    date: string, time: string, status: string)

  datatype Feedback = Feedback(
    id: nat, userId: int, stylistId: Option<int>, stylist: Option<string>,
    comment: string, rating: int, createdAt: Option<string>)

  datatype SystemConfig = SystemConfig(id: nat, salonHours: string, maxDailyBookings: int, maintenanceSchedule: string)

  /** An `otp` row: the code is stored as text, the creation time in milliseconds. */
  datatype OtpRow = OtpRow(userId: nat, code: string, createdAt: int)

  datatype SecuritySetting = SecuritySetting(id: nat, name: string, enabled: int)

  /** A message handed to the mail transport (recorded, never delivered here). */
  datatype Mail = Mail(recipient: string, code: string)

  // ---------------------------------------------------------------- tables

  /** The tables database.js creates, plus `feedback_old`, the name the
      feedback migration gives the previous feedback table. */
  datatype Table =
    | UsersTable | StylistsTable | AppointmentsTable | AvailabilityTable
    | FeedbackTable | FeedbackOldTable | ServicesTable | ConfigTable
    | NotificationsTable | OtpTable | SettingsTable
  {
    /** The table's name in SQL. */
    function SqlName(): string
    {
      match this
      case UsersTable => "users"
      case StylistsTable => "stylists"
      case AppointmentsTable => "appointments"
      case AvailabilityTable => "stylist_availability"
      case FeedbackTable => "feedback"
      case FeedbackOldTable => "feedback_old"
      case ServicesTable => "services"
      case ConfigTable => "system_config"
      case NotificationsTable => "notifications"
      case OtpTable => "otp"
      case SettingsTable => "security_settings"
    }
  }

  // ---------------------------------------------------------------- declared columns

  const UsersColumns: seq<string> := ["id", "name", "email", "phone", "password", "role"]
  const StylistsColumns: seq<string> := ["id", "name", "specialty", "image"]
  const AppointmentsColumns: seq<string> :=
    ["id", "user_id", "service", "stylist_id", "stylist", "date", "time", "status"]
  const AvailabilityColumns: seq<string> := ["id", "stylist_id", "day", "time_slot", "status"]
  const FeedbackColumns: seq<string> :=
    ["id", "user_id", "stylist_id", "stylist", "comment", "rating", "created_at"]
  const ServicesColumns: seq<string> := ["id", "name", "description", "price", "duration", "status", "image"]
  const ConfigColumns: seq<string> := ["id", "salon_hours", "max_daily_bookings", "maintenance_schedule"]
  const NotificationsColumns: seq<string> := ["id", "user_id", "message", "type", "is_read", "created_at"]
  const OtpColumns: seq<string> := ["id", "user_id", "otp", "created_at"]
  const SettingsColumns: seq<string> := ["id", "name", "enabled"]

  // ---------------------------------------------------------------- table constraints

  /** users: role CHECK, UNIQUE email, AUTOINCREMENT ids below the counter. */
  ghost predicate UsersOk(users: seq<User>, next: nat)
  {
    && (forall i :: 0 <= i < |users| ==> users[i].id < next && AllowedRole(users[i].role))
    && (forall i, j :: 0 <= i < j < |users| ==> users[i].id != users[j].id && users[i].email != users[j].email)
  }

  ghost predicate AppointmentsOk(appointments: seq<Appointment>, next: nat)
  {
    && (forall i :: 0 <= i < |appointments| ==> appointments[i].id < next)
    && (forall i, j :: 0 <= i < j < |appointments| ==> appointments[i].id != appointments[j].id)
  }

  ghost predicate DistinctFeedbackIds(rows: seq<Feedback>)
  {
    forall i, j :: 0 <= i < j < |rows| ==> rows[i].id != rows[j].id
  }

  /** feedback: primary key and `rating BETWEEN 1 AND 5`. */
  ghost predicate FeedbackOk(rows: seq<Feedback>)
  {
    DistinctFeedbackIds(rows) && forall i :: 0 <= i < |rows| ==> 1 <= rows[i].rating <= 5
  }

  ghost predicate ConfigsOk(configs: seq<SystemConfig>, next: nat)
  {
    && (forall i :: 0 <= i < |configs| ==> configs[i].id < next)
    && (forall i, j :: 0 <= i < j < |configs| ==> configs[i].id != configs[j].id)
  }

  ghost predicate SettingsOk(settings: seq<SecuritySetting>, next: nat)
  {
    && (forall i :: 0 <= i < |settings| ==> settings[i].id < next)
    && (forall i, j :: 0 <= i < j < |settings| ==> settings[i].id != settings[j].id)
  }

  /** Some row of `users` has the id: what `FOREIGN KEY (user_id) REFERENCES
      users(id)` asks of an inserted row. */
  predicate UserExists(users: seq<User>, id: int)
  {
    exists i :: 0 <= i < |users| && users[i].id == id
  }

  /** Some appointment, feedback row or notification names the user, so
      deleting that user breaks one of the FOREIGN KEYs on `user_id`
      (database.js:58, 93 and 148). */
  predicate UserReferenced(appointments: seq<Appointment>, feedback: seq<Feedback>,
                           notificationUserIds: seq<int>, id: int)
  {
    || (exists i :: 0 <= i < |appointments| && appointments[i].userId == id)
    || (exists i :: 0 <= i < |feedback| && feedback[i].userId == id)
    || id in notificationUserIds
  }

  /** Some row already holds this email (the UNIQUE constraint's test). */
  predicate EmailTaken(users: seq<User>, email: string)
  {
    exists i :: 0 <= i < |users| && users[i].email == email
  }

  /** An INSERT that takes the next id, an allowed role and a free email
      keeps the users constraints. */
  lemma UsersOkAppend(users: seq<User>, next: nat, u: User)
    requires UsersOk(users, next) && u.id == next && AllowedRole(u.role) && !EmailTaken(users, u.email)
    ensures UsersOk(users + [u], next + 1)
  {
    var r := users + [u];
    forall i, j | 0 <= i < j < |r|
      ensures r[i].id != r[j].id && r[i].email != r[j].email
    {
      if j == |users| {
        assert r[i] == users[i];
      }
    }
  }

  /** `UPDATE users SET password = ? WHERE id = ?`. */
  function SetPassword(users: seq<User>, id: int, password: string): (r: seq<User>)
    ensures |r| == |users|
    ensures forall i :: 0 <= i < |r| ==>
      r[i] == (if users[i].id == id then users[i].(password := password) else users[i])
  {
    if users == [] then []
    else
      [if users[0].id == id then users[0].(password := password) else users[0]]
        + SetPassword(users[1..], id, password)
  }

  // ---------------------------------------------------------------- lookups

  /** `SELECT * FROM users WHERE email = ?`. */
  function UserByEmail(users: seq<User>, email: Option<string>): Option<nat>
  {
    FirstIndex(users, (u: User) => SqlEq(u.email, email))
  }

  /** `SELECT * FROM users WHERE email = ? AND password = ?`. */
  function UserByCredentials(users: seq<User>, email: Option<string>, password: Option<string>): Option<nat>
  {
    FirstIndex(users, (u: User) => SqlEq(u.email, email) && SqlEq(u.password, password))
  }

  /** `SELECT * FROM system_config WHERE id = ?`. */
  function ConfigById(configs: seq<SystemConfig>, id: int): Option<SystemConfig>
  {
    match FirstIndex(configs, (c: SystemConfig) => c.id == id)
    case None => None
    case Some(k) => Some(configs[k])
  }

  /** `SELECT enabled FROM security_settings WHERE name = 'Two-Factor Authentication'`. */
  function TwoFactorSetting(settings: seq<SecuritySetting>): Option<SecuritySetting>
  {
    match FirstIndex(settings, (s: SecuritySetting) => s.name == TwoFactorName)
    case None => None
    case Some(k) => Some(settings[k])
  }

  /** The login gate `setting && setting.enabled === 1`. */
  predicate TwoFactorOn(settings: seq<SecuritySetting>)
  {
    TwoFactorSetting(settings).Some? && TwoFactorSetting(settings).value.enabled == 1
  }

  /** With unique emails, the first user with a given email is the only one. */
  lemma UserByEmailUnique(users: seq<User>, next: nat, k: nat)
    requires UsersOk(users, next) && k < |users|
    ensures UserByEmail(users, Some(users[k].email)) == Some(k)
  {
  }

  // ---------------------------------------------------------------- the store

  class Database {
    /** The schema: which tables exist and their columns, as `PRAGMA table_info` lists them. */
    var columns: map<Table, seq<string>>
    var users: seq<User>
    var nextUserId: nat
    var appointments: seq<Appointment>
    var nextAppointmentId: nat
    var feedback: seq<Feedback>
    /** Rows of `feedback_old`, the table the migration renames the old feedback table to. */
    var feedbackOld: seq<Feedback>
    var configs: seq<SystemConfig>
    var nextConfigId: nat
    var otps: seq<OtpRow>
    var settings: seq<SecuritySetting>
    var nextSettingId: nat
    /** Ids of the `stylists` rows, which foreign keys refer to (the
        handlers that change them are not part of this model). */
    var stylistIds: seq<nat>
    /** `user_id` of every notification addressed to one user (a global
        notification, with NULL there, names nobody). */
    var notificationUserIds: seq<int>
    /** Every OTP mail handed to the transport, in order. */
    ghost var outbox: seq<Mail>

    ghost predicate Valid()
      reads this
    {
      && UsersOk(users, nextUserId)
      && AppointmentsOk(appointments, nextAppointmentId)
      && FeedbackOk(feedback)
      && DistinctFeedbackIds(feedbackOld)
      && ConfigsOk(configs, nextConfigId)
      && SettingsOk(settings, nextSettingId)
      // the feedback tables exist or are empty (the migration moves rows between them)
      && (FeedbackTable in columns || |feedback| == 0)
      && (FeedbackOldTable in columns || |feedbackOld| == 0)
    }

    /** `INSERT INTO users`, once the caller has ruled out the constraint
        failures: the row is appended and the counter moves on. */
    method InsertUser(u: User)
      requires Valid()
      requires u.id == nextUserId && AllowedRole(u.role) && !EmailTaken(users, u.email)
      modifies this`users, this`nextUserId
      ensures Valid()
      ensures users == old(users) + [u] && nextUserId == old(nextUserId) + 1
    {
      UsersOkAppend(users, nextUserId, u);
      users := users + [u];
      nextUserId := nextUserId + 1;
    }

    /** `UPDATE users SET password = ? WHERE id = ?`: ids, emails and roles
        are untouched, so the constraints still hold. */
    method SetUserPassword(id: int, password: string)
      requires Valid()
      modifies this`users
      ensures Valid()
      ensures users == SetPassword(old(users), id, password)
    {
      users := SetPassword(users, id, password);
    }

    /** A database file that does not exist yet: no tables, and every
        AUTOINCREMENT counter at 1. */
    constructor ()
      ensures Valid()
      ensures columns == map[] && outbox == []
      ensures users == [] && appointments == [] && feedback == [] && feedbackOld == []
      ensures configs == [] && otps == [] && settings == []
      ensures stylistIds == [] && notificationUserIds == []
      ensures nextUserId == 1 && nextAppointmentId == 1 && nextConfigId == 1 && nextSettingId == 1
    {
      columns := map[];
      users, appointments, feedback, feedbackOld := [], [], [], [];
      configs, otps, settings := [], [], [];
      stylistIds, notificationUserIds := [], [];
      nextUserId, nextAppointmentId, nextConfigId, nextSettingId := 1, 1, 1, 1;
      outbox := [];
    }
  }
}
