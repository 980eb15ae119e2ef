/** What loading database.js does to the store before the server handles a
    request: CREATE TABLE IF NOT EXISTS for every table, the feedback table
    migration, the security-settings reset and seed, the default
    configuration, the default superadmin, and the missing-column repairs. */
module Startup {
  import opened Common
  import opened JsStrings
  import opened Tables

  // ---------------------------------------------------------------- schema steps

  /** `CREATE TABLE IF NOT EXISTS table (...)`. */
  function CreateIfAbsent(cols: map<Table, seq<string>>, table: Table, decl: seq<string>): map<Table, seq<string>>
  {
    cols[table := if table in cols then cols[table] else decl]
  }

  /** SQLite resolves column names ignoring ASCII case. */
  predicate HasColumnIgnoringCase(existing: seq<string>, column: string)
  {
    existing != [] && (EqualsIgnoringCase(existing[0], column) || HasColumnIgnoringCase(existing[1..], column))
  }

  lemma {:induction false} MemberHasColumn(existing: seq<string>, column: string)
    requires column in existing
    ensures HasColumnIgnoringCase(existing, column)
  {
    if existing[0] == column {
      EqualsIgnoringCaseReflexive(column);
    } else {
      assert column in existing[1..];
      MemberHasColumn(existing[1..], column);
    }
  }

  /** A table's columns after `ALTER TABLE ... ADD COLUMN column` where it is
      missing: the old columns are kept in order, the column is there, and
      at most one column was added. */
  function WithColumn(existing: seq<string>, column: string): (r: seq<string>)
    ensures existing <= r && |r| <= |existing| + 1
    ensures HasColumnIgnoringCase(r, column)
    ensures |r| == |existing| + 1 <==> !HasColumnIgnoringCase(existing, column)
  {
    if HasColumnIgnoringCase(existing, column) then existing
    else
      MemberHasColumn(existing + [column], column);
      existing + [column]
  }

  /** The net effect of `ensureColumnExists(table, column, ...)`: the column
      is appended when the table exists and has no column of that name;
      otherwise either the `.some` scan finds it, or the ALTER fails (no such
      table, or a duplicate differing only in case) and the error is logged. */
  function EnsureColumn(cols: map<Table, seq<string>>, table: Table, column: string): map<Table, seq<string>>
  {
    if table in cols then cols[table := WithColumn(cols[table], column)] else cols
  }

  /** After the repair the table (if it exists) has the column, only that
      table changed, and nothing but an append happened to it. */
  lemma EnsureColumnEstablishes(cols: map<Table, seq<string>>, table: Table, column: string)
    ensures EnsureColumn(cols, table, column).Keys == cols.Keys
    ensures table in cols ==> HasColumnIgnoringCase(EnsureColumn(cols, table, column)[table], column)
    ensures table in cols ==> cols[table] <= EnsureColumn(cols, table, column)[table]
    ensures forall t :: t in cols && t != table ==> EnsureColumn(cols, table, column)[t] == cols[t]
  {
  }

  /** Calling `ensureColumnExists` twice is the same as calling it once. */
  lemma EnsureColumnIdempotent(cols: map<Table, seq<string>>, table: Table, column: string)
    ensures EnsureColumn(EnsureColumn(cols, table, column), table, column) == EnsureColumn(cols, table, column)
  {
    EnsureColumnEstablishes(cols, table, column);
  }

  /** `existing.some(col => col.name === column)`: an exact comparison. */
  method HasColumn(existing: seq<string>, column: string) returns (found: bool)
    ensures found <==> column in existing
  {
    found := false;
    var i := 0;
    while i < |existing| && !found
      invariant 0 <= i <= |existing|
      invariant found <==> column in existing[..i]
    {
      found := existing[i] == column;
      i := i + 1;
    }
    assert !found ==> existing[..i] == existing;
  }

  method CreateTable(db: Database, table: Table, decl: seq<string>)
    requires db.Valid()
    modifies db`columns
    ensures db.Valid()
    ensures db.columns == CreateIfAbsent(old(db.columns), table, decl)
  {
    db.columns := CreateIfAbsent(db.columns, table, decl);
  }

  /** `ALTER TABLE table ADD COLUMN column ...` inside its try/catch: the
      statement fails (and the error is only logged) when the table does not
      exist or already has the column up to case, so on its own it already
      has the net effect of `EnsureColumn`. */
  method AlterAddColumn(db: Database, table: Table, column: string)
    requires db.Valid()
    modifies db`columns
    ensures db.Valid()
    ensures db.columns == EnsureColumn(old(db.columns), table, column)
  {
    if table in db.columns && !HasColumnIgnoringCase(db.columns[table], column) {
      db.columns := db.columns[table := db.columns[table] + [column]];
    } else if table in db.columns {
      // duplicate column name: the ALTER fails and nothing changes
      assert WithColumn(db.columns[table], column) == db.columns[table];
    }
  }

  /** `ensureColumnExists(table, column, definition)` (database.js). */
  method EnsureColumnExists(db: Database, table: Table, column: string)
    requires db.Valid()
    modifies db`columns
    ensures db.Valid()
    ensures db.columns == EnsureColumn(old(db.columns), table, column)
  {
    // PRAGMA table_info lists nothing for a table that does not exist
    var existing := if table in db.columns then db.columns[table] else [];
    var found := HasColumn(existing, column);
    if !found {
      AlterAddColumn(db, table, column);
    } else {
      MemberHasColumn(existing, column);
    }
  }

  // ---------------------------------------------------------------- feedback migration

  /** The rows the migration carries over: the old `feedback` table if there
      is one (it is renamed first), else a leftover `feedback_old`. */
  function LegacyFeedback(cols: map<Table, seq<string>>, rows: seq<Feedback>, oldRows: seq<Feedback>): seq<Feedback>
  {
    if FeedbackTable in cols then rows else oldRows
  }

  /** Every wanted column can be resolved in the table. */
  predicate HasAllColumns(existing: seq<string>, wanted: seq<string>)
  {
    wanted == [] || (HasColumnIgnoringCase(existing, wanted[0]) && HasAllColumns(existing, wanted[1..]))
  }

  /** A table has every column it lists, whatever the order asked for. */
  lemma {:induction false} HasListedColumns(existing: seq<string>, wanted: seq<string>)
    requires forall i :: 0 <= i < |wanted| ==> wanted[i] in existing
    ensures HasAllColumns(existing, wanted)
  {
    if wanted != [] {
      MemberHasColumn(existing, wanted[0]);
      assert forall i :: 0 <= i < |wanted| - 1 ==> wanted[1..][i] == wanted[i + 1];
      HasListedColumns(existing, wanted[1..]);
    }
  }

  lemma HasOwnColumns(existing: seq<string>)
    ensures HasAllColumns(existing, existing)
  {
    HasListedColumns(existing, existing);
  }

  /** The row's foreign keys resolve: its user exists, and its stylist id
      is NULL or names a stylist (database.js:93-94). */
  predicate KeysResolve(row: Feedback, users: seq<User>, stylistIds: seq<nat>)
  {
    UserExists(users, row.userId) && (row.stylistId.None? || row.stylistId.value in stylistIds)
  }

  /** `INSERT INTO feedback (id, ..., created_at) SELECT ... FROM feedback_old`
      succeeds: every selected column exists, and every row meets the new
      table's rating CHECK and foreign keys. */
  predicate CopyPossible(legacyColumns: seq<string>, rows: seq<Feedback>, users: seq<User>, stylistIds: seq<nat>)
  {
    && HasAllColumns(legacyColumns, FeedbackColumns)
    && (forall i :: 0 <= i < |rows| ==> 1 <= rows[i].rating <= 5)
    && (forall i :: 0 <= i < |rows| ==> KeysResolve(rows[i], users, stylistIds))
  }

  /** The migration runs to its end: the rename does not hit an existing
      `feedback_old`, and the copy (when there is one) succeeds. */
  predicate MigrationOk(cols: map<Table, seq<string>>, rows: seq<Feedback>, oldRows: seq<Feedback>,
                        users: seq<User>, stylistIds: seq<nat>)
  {
    if FeedbackTable in cols then
      FeedbackOldTable !in cols && CopyPossible(cols[FeedbackTable], rows, users, stylistIds)
    else
      FeedbackOldTable in cols ==> CopyPossible(cols[FeedbackOldTable], oldRows, users, stylistIds)
  }

  /** Tables after a completed migration: a fresh `feedback`, no `feedback_old`. */
  function MigratedColumns(cols: map<Table, seq<string>>): (r: map<Table, seq<string>>)
    ensures FeedbackTable in r && FeedbackOldTable !in r
  {
    (cols - {FeedbackTable, FeedbackOldTable})[FeedbackTable := FeedbackColumns]
  }

  /** The two ways the migration can run to its end leave the same tables. */
  lemma MigrationPaths(cols: map<Table, seq<string>>)
    ensures FeedbackTable in cols && FeedbackOldTable !in cols ==>
      CreateIfAbsent((cols - {FeedbackTable})[FeedbackOldTable := cols[FeedbackTable]], FeedbackTable, FeedbackColumns)
        - {FeedbackOldTable} == MigratedColumns(cols)
    ensures FeedbackTable !in cols && FeedbackOldTable in cols ==>
      CreateIfAbsent(cols, FeedbackTable, FeedbackColumns) - {FeedbackOldTable} == MigratedColumns(cols)
    ensures FeedbackTable !in cols && FeedbackOldTable !in cols ==>
      CreateIfAbsent(cols, FeedbackTable, FeedbackColumns) == MigratedColumns(cols)
  {
  }

  /** Lines 77-108 of database.js. On success the new table holds exactly
      the legacy rows, ids included, and `feedback_old` is gone. On failure
      the exception aborts loading: either nothing happened (the rename
      found `feedback_old` already there) or the legacy rows sit in
      `feedback_old` beside an empty new table. */
  method MigrateFeedback(db: Database) returns (ok: bool)
    requires db.Valid()
    modifies db`columns, db`feedback, db`feedbackOld
    ensures db.Valid()
    ensures ok == MigrationOk(old(db.columns), old(db.feedback), old(db.feedbackOld), db.users, db.stylistIds)
    ensures ok ==> db.columns == MigratedColumns(old(db.columns))
    ensures ok ==> db.feedback == LegacyFeedback(old(db.columns), old(db.feedback), old(db.feedbackOld))
    ensures ok ==> db.feedbackOld == []
    ensures !ok && FeedbackTable in old(db.columns) && FeedbackOldTable in old(db.columns) ==>
      db.columns == old(db.columns) && db.feedback == old(db.feedback) && db.feedbackOld == old(db.feedbackOld)
    ensures !ok && !(FeedbackTable in old(db.columns) && FeedbackOldTable in old(db.columns)) ==>
      db.feedback == [] && db.feedbackOld == LegacyFeedback(old(db.columns), old(db.feedback), old(db.feedbackOld))
    ensures !ok ==> FeedbackTable in db.columns && FeedbackOldTable in db.columns
  {
    MigrationPaths(db.columns);
    if FeedbackTable in db.columns {
      ok := RenameFeedbackTable(db);
      if !ok {
        return;
      }
    }
    // the new table; it does not exist at this point
    CreateTable(db, FeedbackTable, FeedbackColumns);
    ok := true;
    if FeedbackOldTable in db.columns {
      ok := CopyAndDropLegacyFeedback(db);
    }
  }

  /** `ALTER TABLE feedback RENAME TO feedback_old`, which fails when a
      `feedback_old` table is already there. */
  method RenameFeedbackTable(db: Database) returns (ok: bool)
    requires db.Valid() && FeedbackTable in db.columns
    modifies db`columns, db`feedback, db`feedbackOld
    ensures db.Valid()
    ensures ok == (FeedbackOldTable !in old(db.columns))
    ensures ok ==> db.columns == (old(db.columns) - {FeedbackTable})[FeedbackOldTable := old(db.columns)[FeedbackTable]]
    ensures ok ==> db.feedbackOld == old(db.feedback) && db.feedback == []
    ensures !ok ==> db.columns == old(db.columns) && db.feedback == old(db.feedback) && db.feedbackOld == old(db.feedbackOld)
  {
    if FeedbackOldTable in db.columns {
      return false;
    }
    db.columns := (db.columns - {FeedbackTable})[FeedbackOldTable := db.columns[FeedbackTable]];
    db.feedbackOld := db.feedback;
    db.feedback := [];
    ok := true;
  }

  /** The copy of every legacy row, ids included, into the new (still
      empty) table, then `DROP TABLE feedback_old`. The INSERT ... SELECT is
      one statement: when it fails nothing is copied. */
  method CopyAndDropLegacyFeedback(db: Database) returns (ok: bool)
    requires db.Valid() && FeedbackOldTable in db.columns && FeedbackTable in db.columns && db.feedback == []
    modifies db`columns, db`feedback, db`feedbackOld
    ensures db.Valid()
    ensures ok == CopyPossible(old(db.columns)[FeedbackOldTable], old(db.feedbackOld), db.users, db.stylistIds)
    ensures ok ==> db.feedback == old(db.feedbackOld) && db.feedbackOld == [] && db.columns == old(db.columns) - {FeedbackOldTable}
    ensures !ok ==> db.columns == old(db.columns) && db.feedback == old(db.feedback) && db.feedbackOld == old(db.feedbackOld)
  {
    if !CopyPossible(db.columns[FeedbackOldTable], db.feedbackOld, db.users, db.stylistIds) {
      return false;
    }
    db.feedback := db.feedbackOld;
    db.columns := db.columns - {FeedbackOldTable};
    db.feedbackOld := [];
    ok := true;
  }

  /** A second run of the migration (the next server start) succeeds:
      the migrated table has every column the copy selects, and its rows
      passed the rating CHECK and the foreign keys on the way in (the keys
      also keep the users and stylists they name from being deleted). */
  lemma MigrationRerunSucceeds(cols: map<Table, seq<string>>, rows: seq<Feedback>, oldRows: seq<Feedback>,
                               users: seq<User>, stylistIds: seq<nat>)
    requires FeedbackOldTable in cols || |oldRows| == 0
    requires MigrationOk(cols, rows, oldRows, users, stylistIds)
    ensures MigrationOk(MigratedColumns(cols), LegacyFeedback(cols, rows, oldRows), [], users, stylistIds)
  {
    HasOwnColumns(FeedbackColumns);
  }

  /** A second run keeps the migrated rows, and leaves the tables as the
      first run left them. */
  lemma MigrationRerunKeepsRows(cols: map<Table, seq<string>>, rows: seq<Feedback>)
    ensures LegacyFeedback(MigratedColumns(cols), rows, []) == rows
    ensures MigratedColumns(MigratedColumns(cols)) == MigratedColumns(cols)
  {
  }

  // ---------------------------------------------------------------- security settings

  /** `UPDATE security_settings SET enabled = 0`. */
  function DisableAll(settings: seq<SecuritySetting>): (r: seq<SecuritySetting>)
    ensures |r| == |settings|
    ensures forall i :: 0 <= i < |r| ==> r[i] == settings[i].(enabled := 0)
  {
    if settings == [] then [] else [settings[0].(enabled := 0)] + DisableAll(settings[1..])
  }

  /** Insert a disabled two-factor row, with the next id, when no row has that name. */
  function SeedTwoFactor(settings: seq<SecuritySetting>, next: nat): seq<SecuritySetting>
  {
    if TwoFactorSetting(settings).None?
    then settings + [SecuritySetting(next, TwoFactorName, 0)]
    else settings
  }

  /** The security settings table after loading (lines 169-197). */
  function SettingsAfterStartup(settings: seq<SecuritySetting>, next: nat): seq<SecuritySetting>
  {
    SeedTwoFactor(DisableAll(settings), next)
  }

  /** After loading, the two-factor row exists and is disabled, so the
      login gate is off, every row is disabled, and at most the one
      two-factor row was added. */
  lemma StartupDisablesTwoFactor(settings: seq<SecuritySetting>, next: nat)
    ensures var s := SettingsAfterStartup(settings, next);
      && TwoFactorSetting(s).Some? && TwoFactorSetting(s).value.enabled == 0
      && !TwoFactorOn(s)
      && (forall i :: 0 <= i < |s| ==> s[i].enabled == 0)
      && |settings| <= |s| <= |settings| + 1
  {
    var d := DisableAll(settings);
    var s := SettingsAfterStartup(settings, next);
    if TwoFactorSetting(d).None? {
      assert s[|d|].name == TwoFactorName;
      var k := FirstIndex(s, (x: SecuritySetting) => x.name == TwoFactorName);
      assert k.Some?;
    }
  }

  /** Loading twice leaves the settings as loading once did: in particular
      no second two-factor row. */
  lemma SettingsStartupIdempotent(settings: seq<SecuritySetting>, next: nat, next2: nat)
    ensures SettingsAfterStartup(SettingsAfterStartup(settings, next), next2) == SettingsAfterStartup(settings, next)
  {
    var s := SettingsAfterStartup(settings, next);
    StartupDisablesTwoFactor(settings, next);
    assert DisableAll(s) == s;
    var k := FirstIndex(s, (x: SecuritySetting) => x.name == TwoFactorName);
    assert k.Some?;
  }

  /** Disabling keeps the ids, so the primary-key rule still holds. */
  lemma DisableAllKeepsIds(settings: seq<SecuritySetting>, next: nat)
    requires SettingsOk(settings, next)
    ensures SettingsOk(DisableAll(settings), next)
  {
  }

  /** Lines 169-197: the table exists by now (it was created just before). */
  method ResetSecuritySettings(db: Database)
    requires db.Valid()
    modifies db`settings, db`nextSettingId
    ensures db.Valid()
    ensures db.settings == SettingsAfterStartup(old(db.settings), old(db.nextSettingId))
    ensures db.nextSettingId == old(db.nextSettingId) + |db.settings| - |old(db.settings)|
  {
    DisableAllKeepsIds(db.settings, db.nextSettingId);
    db.settings := DisableAll(db.settings);
    // CREATE TABLE IF NOT EXISTS security_settings again: it exists by now
    var existing := TwoFactorSetting(db.settings);
    if existing.None? {
      InsertSetting(db, SecuritySetting(db.nextSettingId, TwoFactorName, 0));
    }
  }

  /** An INSERT into security_settings: the new row takes the next id. */
  method InsertSetting(db: Database, row: SecuritySetting)
    requires db.Valid() && row.id == db.nextSettingId
    modifies db`settings, db`nextSettingId
    ensures db.Valid()
    ensures db.settings == old(db.settings) + [row] && db.nextSettingId == old(db.nextSettingId) + 1
  {
    db.settings := db.settings + [row];
    db.nextSettingId := db.nextSettingId + 1;
  }

  // ---------------------------------------------------------------- default configuration

  const DefaultHours: string := "10:00 AM - 8:00 PM"
  const DefaultMaxDailyBookings: int := 40
  const DefaultMaintenance: string := "Sundays 9:00 PM"

  /** Insert the default configuration row, with the next id, when the table is empty. */
  function SeedConfig(configs: seq<SystemConfig>, next: nat): seq<SystemConfig>
  {
    if configs == []
    then [SystemConfig(next, DefaultHours, DefaultMaxDailyBookings, DefaultMaintenance)]
    else configs
  }

  /** An existing configuration is left untouched, an empty table gets
      exactly the default row, and seeding again changes nothing. */
  lemma SeedConfigFacts(configs: seq<SystemConfig>, next: nat, next2: nat)
    ensures configs != [] ==> SeedConfig(configs, next) == configs
    ensures configs == [] ==>
      SeedConfig(configs, next) == [SystemConfig(next, "10:00 AM - 8:00 PM", 40, "Sundays 9:00 PM")]
    ensures SeedConfig(SeedConfig(configs, next), next2) == SeedConfig(configs, next)
  {
  }

  method SeedDefaultConfig(db: Database)
    requires db.Valid()
    modifies db`configs, db`nextConfigId
    ensures db.Valid()
    ensures db.configs == SeedConfig(old(db.configs), old(db.nextConfigId))
    ensures db.nextConfigId == old(db.nextConfigId) + |db.configs| - |old(db.configs)|
  {
    if |db.configs| == 0 {
      db.configs := [SystemConfig(db.nextConfigId, DefaultHours, DefaultMaxDailyBookings, DefaultMaintenance)];
      db.nextConfigId := db.nextConfigId + 1;
    }
  }

  // ---------------------------------------------------------------- default superadmin

  const SeedEmail: string := "owner@princesssalon.com"

  function SeededSuperadmin(id: nat): User
  {
    User(id, "Princess Angel", SeedEmail, "09123456789", "mypassword123", "superadmin")
  }

  /** `SELECT * FROM users WHERE role = 'superadmin'` finds a row. */
  predicate HasSuperadmin(users: seq<User>)
  {
    exists i :: 0 <= i < |users| && users[i].role == "superadmin"
  }

  /** The seed's INSERT would break the UNIQUE email constraint, which
      aborts loading. */
  predicate SuperadminSeedFails(users: seq<User>)
  {
    !HasSuperadmin(users) && EmailTaken(users, SeedEmail)
  }

  /** Insert the default superadmin, with the next id, when there is no superadmin. */
  function SeedSuperadmin(users: seq<User>, next: nat): seq<User>
  {
    if !HasSuperadmin(users) && !EmailTaken(users, SeedEmail)
    then users + [SeededSuperadmin(next)]
    else users
  }

  /** Seeding adds at most one row, always a superadmin; afterwards a
      superadmin exists (unless the seed failed), and seeding again adds
      nothing, so repeated starts never create a second seeded superadmin. */
  lemma SuperadminSeedFacts(users: seq<User>, next: nat, next2: nat)
    ensures var u := SeedSuperadmin(users, next);
      && (u == users || (u == users + [SeededSuperadmin(next)] && !HasSuperadmin(users)))
      && (!SuperadminSeedFails(users) ==> HasSuperadmin(u))
      && SeedSuperadmin(u, next2) == u
  {
    var u := SeedSuperadmin(users, next);
    if u != users {
      assert u[|users|].role == "superadmin";
    }
  }

  method SeedDefaultSuperadmin(db: Database) returns (ok: bool)
    requires db.Valid()
    modifies db`users, db`nextUserId
    ensures db.Valid()
    ensures ok == !SuperadminSeedFails(old(db.users))
    ensures db.users == SeedSuperadmin(old(db.users), old(db.nextUserId))
    ensures db.nextUserId == old(db.nextUserId) + |db.users| - |old(db.users)|
  {
    ok := true;
    if !HasSuperadmin(db.users) {
      if EmailTaken(db.users, SeedEmail) {
        // UNIQUE constraint failed: users.email
        return false;
      }
      db.InsertUser(SeededSuperadmin(db.nextUserId));
    }
  }

  // ---------------------------------------------------------------- the whole load

  function TablesBeforeFeedback(cols: map<Table, seq<string>>): map<Table, seq<string>>
  {
    var c := CreateIfAbsent(cols, UsersTable, UsersColumns);
    var c := CreateIfAbsent(c, StylistsTable, StylistsColumns);
    var c := CreateIfAbsent(c, AppointmentsTable, AppointmentsColumns);
    CreateIfAbsent(c, AvailabilityTable, AvailabilityColumns)
  }

  function TablesAfterFeedback(cols: map<Table, seq<string>>): map<Table, seq<string>>
  {
    var c := CreateIfAbsent(cols, ServicesTable, ServicesColumns);
    var c := CreateIfAbsent(c, ConfigTable, ConfigColumns);
    var c := CreateIfAbsent(c, NotificationsTable, NotificationsColumns);
    var c := CreateIfAbsent(c, OtpTable, OtpColumns);
    CreateIfAbsent(c, SettingsTable, SettingsColumns)
  }

  function RepairColumns(cols: map<Table, seq<string>>): map<Table, seq<string>>
  {
    var c := EnsureColumn(cols, AppointmentsTable, "stylist_id");
    var c := EnsureColumn(c, AppointmentsTable, "stylist");
    var c := EnsureColumn(c, UsersTable, "created_at");
    var c := EnsureColumn(c, FeedbackTable, "stylist_id");
    EnsureColumn(c, FeedbackTable, "stylist")
  }

  /** The schema after a load that completes. */
  function ColumnsAfterStartup(cols: map<Table, seq<string>>): map<Table, seq<string>>
  {
    RepairColumns(TablesAfterFeedback(MigratedColumns(TablesBeforeFeedback(cols))))
  }

  /** A column found in a table is still found after more columns are appended. */
  lemma {:induction false} HasColumnExtends(existing: seq<string>, longer: seq<string>, column: string)
    requires existing <= longer && HasColumnIgnoringCase(existing, column)
    ensures HasColumnIgnoringCase(longer, column)
  {
    if !EqualsIgnoringCase(existing[0], column) {
      assert existing[1..] <= longer[1..];
      HasColumnExtends(existing[1..], longer[1..], column);
    }
  }

  /** Once every CREATE TABLE and the migration have run, every table but
      `feedback_old` exists. */
  lemma CreatedTables(cols: map<Table, seq<string>>)
    ensures var c := TablesAfterFeedback(MigratedColumns(TablesBeforeFeedback(cols)));
      FeedbackOldTable !in c && forall t :: t != FeedbackOldTable ==> t in c
  {
  }

  /** The column repairs only ever append: each existing table keeps its
      columns as a prefix, and a repaired table has its column. */
  lemma RepairColumnsExtends(cols: map<Table, seq<string>>)
    requires AppointmentsTable in cols && UsersTable in cols && FeedbackTable in cols
    ensures var c := RepairColumns(cols);
      && c.Keys == cols.Keys
      && HasColumnIgnoringCase(c[AppointmentsTable], "stylist_id")
      && HasColumnIgnoringCase(c[AppointmentsTable], "stylist")
      && HasColumnIgnoringCase(c[UsersTable], "created_at")
      && HasColumnIgnoringCase(c[FeedbackTable], "stylist_id")
      && HasColumnIgnoringCase(c[FeedbackTable], "stylist")
  {
    var c1 := EnsureColumn(cols, AppointmentsTable, "stylist_id");
    var c2 := EnsureColumn(c1, AppointmentsTable, "stylist");
    var c3 := EnsureColumn(c2, UsersTable, "created_at");
    var c4 := EnsureColumn(c3, FeedbackTable, "stylist_id");
    var c5 := EnsureColumn(c4, FeedbackTable, "stylist");
    assert c5 == RepairColumns(cols);
    EnsureColumnEstablishes(cols, AppointmentsTable, "stylist_id");
    EnsureColumnEstablishes(c1, AppointmentsTable, "stylist");
    EnsureColumnEstablishes(c2, UsersTable, "created_at");
    EnsureColumnEstablishes(c3, FeedbackTable, "stylist_id");
    EnsureColumnEstablishes(c4, FeedbackTable, "stylist");
    HasColumnExtends(c1[AppointmentsTable], c5[AppointmentsTable], "stylist_id");
    HasColumnExtends(c4[FeedbackTable], c5[FeedbackTable], "stylist_id");
  }

  /** After a complete load every table but `feedback_old` exists, and the
      columns added later in the project's life are there. */
  lemma StartupSchema(cols: map<Table, seq<string>>)
    ensures var c := ColumnsAfterStartup(cols);
      && FeedbackOldTable !in c && (forall t :: t != FeedbackOldTable ==> t in c)
      && HasColumnIgnoringCase(c[AppointmentsTable], "stylist_id")
      && HasColumnIgnoringCase(c[AppointmentsTable], "stylist")
      && HasColumnIgnoringCase(c[UsersTable], "created_at")
      && HasColumnIgnoringCase(c[FeedbackTable], "stylist_id")
      && HasColumnIgnoringCase(c[FeedbackTable], "stylist")
  {
    CreatedTables(cols);
    RepairColumnsExtends(TablesAfterFeedback(MigratedColumns(TablesBeforeFeedback(cols))));
  }

  /** What a failed migration leaves, starting from the tables `cols`: when
      the rename clashed nothing has changed; otherwise the legacy rows sit
      in `feedback_old` beside an empty new table. Either way both tables
      exist afterwards. */
  ghost predicate FeedbackFailure(cols: map<Table, seq<string>>, rows: seq<Feedback>, oldRows: seq<Feedback>,
                                  cols': map<Table, seq<string>>, rows': seq<Feedback>, oldRows': seq<Feedback>)
  {
    && FeedbackTable in cols' && FeedbackOldTable in cols'
    && (FeedbackTable in cols && FeedbackOldTable in cols ==> cols' == cols && rows' == rows && oldRows' == oldRows)
    && (!(FeedbackTable in cols && FeedbackOldTable in cols) ==>
          rows' == [] && oldRows' == LegacyFeedback(cols, rows, oldRows))
  }

  /** A failed migration leaves both `feedback` and `feedback_old` behind,
      so at every later start the rename clashes again: loading never
      succeeds again until someone repairs the tables. */
  lemma FailedMigrationRepeats(cols: map<Table, seq<string>>, rows: seq<Feedback>, oldRows: seq<Feedback>,
                               users: seq<User>, stylistIds: seq<nat>)
    requires FeedbackTable in cols && FeedbackOldTable in cols
    ensures !MigrationOk(TablesBeforeFeedback(cols), rows, oldRows, users, stylistIds)
  {
  }

  /** Lines 20-73: users, stylists, appointments, stylist_availability. */
  method CreateTablesBeforeFeedback(db: Database)
    requires db.Valid()
    modifies db`columns
    ensures db.Valid()
    ensures db.columns == TablesBeforeFeedback(old(db.columns))
  {
    CreateTable(db, UsersTable, UsersColumns);
    CreateTable(db, StylistsTable, StylistsColumns);
    CreateTable(db, AppointmentsTable, AppointmentsColumns);
    CreateTable(db, AvailabilityTable, AvailabilityColumns);
  }

  /** Lines 113-167: services, system_config, notifications, otp, security_settings. */
  method CreateTablesAfterFeedback(db: Database)
    requires db.Valid()
    modifies db`columns
    ensures db.Valid()
    ensures db.columns == TablesAfterFeedback(old(db.columns))
  {
    CreateTable(db, ServicesTable, ServicesColumns);
    CreateTable(db, ConfigTable, ConfigColumns);
    CreateTable(db, NotificationsTable, NotificationsColumns);
    CreateTable(db, OtpTable, OtpColumns);
    CreateTable(db, SettingsTable, SettingsColumns);
  }

  /** Lines 225-229. */
  method RepairMissingColumns(db: Database)
    requires db.Valid()
    modifies db`columns
    ensures db.Valid()
    ensures db.columns == RepairColumns(old(db.columns))
  {
    EnsureColumnExists(db, AppointmentsTable, "stylist_id");
    EnsureColumnExists(db, AppointmentsTable, "stylist");
    EnsureColumnExists(db, UsersTable, "created_at");
    EnsureColumnExists(db, FeedbackTable, "stylist_id");
    EnsureColumnExists(db, FeedbackTable, "stylist");
  }

  /** Lines 20-108 and 113-167: every CREATE TABLE, with the feedback
      migration in between. */
  method CreateSchema(db: Database) returns (ok: bool)
    requires db.Valid()
    modifies db`columns, db`feedback, db`feedbackOld
    ensures db.Valid()
    ensures ok == MigrationOk(TablesBeforeFeedback(old(db.columns)), old(db.feedback), old(db.feedbackOld),
                              db.users, db.stylistIds)
    ensures ok ==> db.columns == TablesAfterFeedback(MigratedColumns(TablesBeforeFeedback(old(db.columns))))
    ensures ok ==> db.feedback == LegacyFeedback(TablesBeforeFeedback(old(db.columns)), old(db.feedback), old(db.feedbackOld))
    ensures !ok ==> FeedbackFailure(TablesBeforeFeedback(old(db.columns)), old(db.feedback), old(db.feedbackOld),
                                    db.columns, db.feedback, db.feedbackOld)
  {
    CreateTablesBeforeFeedback(db);
    ok := MigrateFeedback(db);
    if ok {
      CreateTablesAfterFeedback(db);
    }
  }

  /** Lines 169-221: the settings reset and the default rows. */
  method SeedDefaults(db: Database) returns (ok: bool)
    requires db.Valid()
    modifies db`settings, db`nextSettingId, db`configs, db`nextConfigId, db`users, db`nextUserId
    ensures db.Valid()
    ensures ok == !SuperadminSeedFails(old(db.users))
    ensures db.settings == SettingsAfterStartup(old(db.settings), old(db.nextSettingId))
    ensures db.configs == SeedConfig(old(db.configs), old(db.nextConfigId))
    ensures db.users == SeedSuperadmin(old(db.users), old(db.nextUserId))
  {
    ResetSecuritySettings(db);
    SeedDefaultConfig(db);
    ok := SeedDefaultSuperadmin(db);
  }

  /** Loading database.js. `ok` is false when an uncaught exception
      (a failed migration or a clashing superadmin seed) stops it; the
      store then holds whatever the steps before had written. Appointments,
      OTP rows and the other tables' rows are not touched. */
  method LoadDatabase(db: Database) returns (ok: bool)
    requires db.Valid()
    modifies db`columns, db`feedback, db`feedbackOld, db`settings, db`nextSettingId
    modifies db`configs, db`nextConfigId, db`users, db`nextUserId
    ensures db.Valid()
    ensures ok == (MigrationOk(TablesBeforeFeedback(old(db.columns)), old(db.feedback), old(db.feedbackOld),
                               old(db.users), db.stylistIds)
                   && !SuperadminSeedFails(old(db.users)))
    ensures ok ==> db.columns == ColumnsAfterStartup(old(db.columns))
    ensures ok ==> db.feedback == LegacyFeedback(TablesBeforeFeedback(old(db.columns)), old(db.feedback), old(db.feedbackOld))
    ensures ok ==> db.settings == SettingsAfterStartup(old(db.settings), old(db.nextSettingId))
    ensures ok ==> db.configs == SeedConfig(old(db.configs), old(db.nextConfigId))
    ensures ok ==> db.users == SeedSuperadmin(old(db.users), old(db.nextUserId))
    // a failed migration: the feedback tables as it left them, nothing seeded
    ensures !MigrationOk(TablesBeforeFeedback(old(db.columns)), old(db.feedback), old(db.feedbackOld),
                         old(db.users), db.stylistIds) ==>
      && FeedbackFailure(TablesBeforeFeedback(old(db.columns)), old(db.feedback), old(db.feedbackOld),
                         db.columns, db.feedback, db.feedbackOld)
      && db.settings == old(db.settings) && db.configs == old(db.configs) && db.users == old(db.users)
    // a clashing superadmin seed: every step before it has run
    ensures !ok && MigrationOk(TablesBeforeFeedback(old(db.columns)), old(db.feedback), old(db.feedbackOld),
                               old(db.users), db.stylistIds) ==>
      && db.columns == TablesAfterFeedback(MigratedColumns(TablesBeforeFeedback(old(db.columns))))
      && db.feedback == LegacyFeedback(TablesBeforeFeedback(old(db.columns)), old(db.feedback), old(db.feedbackOld))
      && db.settings == SettingsAfterStartup(old(db.settings), old(db.nextSettingId))
      && db.configs == SeedConfig(old(db.configs), old(db.nextConfigId))
      && db.users == old(db.users)
  {
    ok := CreateSchema(db);
    if !ok {
      return;
    }
    ok := SeedAndRepair(db);
  }

  /** Lines 169-229, once the tables exist: the seeding, then the column
      repairs, which a clashing superadmin seed keeps from running. */
  method SeedAndRepair(db: Database) returns (ok: bool)
    requires db.Valid()
    modifies db`columns, db`settings, db`nextSettingId, db`configs, db`nextConfigId, db`users, db`nextUserId
    ensures db.Valid()
    ensures ok == !SuperadminSeedFails(old(db.users))
    ensures db.settings == SettingsAfterStartup(old(db.settings), old(db.nextSettingId))
    ensures db.configs == SeedConfig(old(db.configs), old(db.nextConfigId))
    ensures ok ==> db.users == SeedSuperadmin(old(db.users), old(db.nextUserId))
    ensures ok ==> db.columns == RepairColumns(old(db.columns))
    ensures !ok ==> db.users == old(db.users) && db.columns == old(db.columns)
  {
    ok := SeedDefaults(db);
    if ok {
      RepairMissingColumns(db);
    }
  }
}
