/** The appointment handlers of server.js: booking with its admission
    checks, and the cancel, reschedule, status-update and complete
    handlers that change the appointments table afterwards.

    Instants are milliseconds. Each `new Date(...)` of the source is the
    parameter `parse` applied to the exact string the source builds, with
    `None` for an Invalid Date; `now` is a parameter. */
module Booking {
  import opened Common
  import opened JsStrings
  import opened Tables
  import opened Startup

  // ---------------------------------------------------------------- Date comparisons

  /** `a < b` on two Dates: false when either is an Invalid Date (NaN). */
  predicate Before(a: Option<int>, b: Option<int>)
  {
    a.Some? && b.Some? && a.value < b.value
  }

  /** `a <= b` on two Dates, false on NaN. */
  predicate AtOrBefore(a: Option<int>, b: Option<int>)
  {
    a.Some? && b.Some? && a.value <= b.value
  }

  // ---------------------------------------------------------------- counting and row updates

  /** `SELECT COUNT(*) FROM appointments WHERE date = ? AND status != 'Cancelled'`. */
  function CountActive(appointments: seq<Appointment>, date: Option<string>): (r: nat)
    ensures r <= |appointments|
    ensures date.None? ==> r == 0
  {
    if appointments == [] then 0
    else
      (if SqlEq(appointments[0].date, date) && appointments[0].status != Cancelled then 1 else 0)
        + CountActive(appointments[1..], date)
  }

  /** The number of rows `WHERE id = ?` selects: the `changes` of an UPDATE
      or DELETE by id. */
  function RowsWithId(appointments: seq<Appointment>, id: int): (r: nat)
    ensures r <= |appointments|
    ensures r == 0 <==> forall i :: 0 <= i < |appointments| ==> appointments[i].id != id
  {
    if appointments == [] then 0
    else RowsWithId(appointments[1..], id) + (if appointments[0].id == id then 1 else 0)
  }

  /** Ids are a primary key, so an id selects at most one row. */
  lemma {:induction false} RowsWithIdAtMostOne(appointments: seq<Appointment>, next: nat, id: int)
    requires AppointmentsOk(appointments, next)
    ensures RowsWithId(appointments, id) <= 1
  {
    if appointments != [] {
      var rest := appointments[1..];
      assert AppointmentsOk(rest, next) by {
        forall i, j | 0 <= i < j < |rest| ensures rest[i].id != rest[j].id {
          assert rest[i] == appointments[i + 1] && rest[j] == appointments[j + 1];
        }
      }
      RowsWithIdAtMostOne(rest, next, id);
      if appointments[0].id == id {
        forall i | 0 <= i < |rest| ensures rest[i].id != id {
          assert rest[i] == appointments[i + 1];
        }
      }
    }
  }

  /** `UPDATE appointments SET status = ? WHERE id = ?`. */
  function SetStatus(appointments: seq<Appointment>, id: int, status: string): (r: seq<Appointment>)
    ensures |r| == |appointments|
    ensures forall i :: 0 <= i < |r| ==>
      r[i] == (if appointments[i].id == id then appointments[i].(status := status) else appointments[i])
  {
    if appointments == [] then []
    else
      [if appointments[0].id == id then appointments[0].(status := status) else appointments[0]]
        + SetStatus(appointments[1..], id, status)
  }

  /** `UPDATE appointments SET date = ?, time = ?, status = 'Rescheduled' WHERE id = ?`. */
  function SetSchedule(appointments: seq<Appointment>, id: int, date: string, time: string): (r: seq<Appointment>)
    ensures |r| == |appointments|
    ensures forall i :: 0 <= i < |r| ==>
      r[i] == (if appointments[i].id == id
               then appointments[i].(date := date, time := time, status := RescheduledStatus)
               else appointments[i])
  {
    if appointments == [] then []
    else
      [if appointments[0].id == id
       then appointments[0].(date := date, time := time, status := RescheduledStatus)
       else appointments[0]]
        + SetSchedule(appointments[1..], id, date, time)
  }

  /** `DELETE FROM appointments WHERE id = ?`: the other rows, in order. */
  function RemoveId(appointments: seq<Appointment>, id: int): (r: seq<Appointment>)
    ensures |r| == |appointments| - RowsWithId(appointments, id)
    ensures forall a :: a in r <==> a in appointments && a.id != id
  {
    if appointments == [] then []
    else if appointments[0].id == id then RemoveId(appointments[1..], id)
    else [appointments[0]] + RemoveId(appointments[1..], id)
  }

  /** Rewriting rows without touching their ids keeps the key constraints. */
  lemma SameIdsKeepOk(before: seq<Appointment>, after: seq<Appointment>, next: nat)
    requires AppointmentsOk(before, next)
    requires |after| == |before| && forall i :: 0 <= i < |after| ==> after[i].id == before[i].id
    ensures AppointmentsOk(after, next)
  {
  }

  /** Deleting rows keeps the key constraints. */
  lemma {:induction false} RemoveIdKeepsOk(appointments: seq<Appointment>, next: nat, id: int)
    requires AppointmentsOk(appointments, next)
    ensures AppointmentsOk(RemoveId(appointments, id), next)
  {
    if appointments != [] {
      var rest := appointments[1..];
      assert AppointmentsOk(rest, next) by {
        forall i, j | 0 <= i < j < |rest| ensures rest[i].id != rest[j].id {
          assert rest[i] == appointments[i + 1] && rest[j] == appointments[j + 1];
        }
      }
      RemoveIdKeepsOk(rest, next, id);
      var r := RemoveId(appointments, id);
      if appointments[0].id != id {
        assert r == [appointments[0]] + RemoveId(rest, id);
        forall j | 1 <= j < |r| ensures r[0].id != r[j].id {
          assert r[j] in RemoveId(rest, id);
          var k :| 0 <= k < |rest| && rest[k] == r[j];
          assert rest[k] == appointments[k + 1];
        }
      }
    }
  }

  // ---------------------------------------------------------------- booking

  /** The body of a book-appointment request; a field is `None` when the
      client left it out. */
  datatype BookRequest = BookRequest(
    userId: Option<int>, service: Option<string>, stylist: Option<string>,
    date: Option<string>, time: Option<string>)

  datatype BookOutcome =
    | Booked
    | PastBooking
    | ConfigMissing
    | DailyLimitReached
    | OutsideHours
    | BookingFailed
  {
    predicate Success()
    {
      this == Booked
    }

    function Message(): string
    {
      match this
      case Booked => "Booking created successfully"
      case PastBooking => "You cannot book an appointment in the past."
      case ConfigMissing => "System configuration not found."
      case DailyLimitReached => "Daily booking limit reached. Please choose another date."
      case OutsideHours => "Selected time is outside salon hours."
      case BookingFailed => "Error booking appointment"
    }
  }

  /** The string `${date}T${time}` the booking instant is parsed from. */
  function BookingText(req: BookRequest): string
  {
    Text(req.date) + "T" + Text(req.time)
  }

  /** `salon_hours.split('-').map(t => t.trim())` destructured into
      `[open, close]`: `close` is undefined when there is no '-'. */
  function OpenClose(salonHours: string): (string, Option<string>)
  {
    var pieces := Split(salonHours, '-');
    (Trim(pieces[0]), if |pieces| >= 2 then Some(Trim(pieces[1])) else None)
  }

  /** `bookingTime < openTime || bookingTime >= closeTime`, each Date built
      from the request's date and one of the hours. */
  predicate OutsideSalonHours(salonHours: string, req: BookRequest, parse: string -> Option<int>)
  {
    var (open, close) := OpenClose(salonHours);
    var booking := parse(BookingText(req));
    var openTime := parse(Text(req.date) + "T" + open);
    var closeTime := parse(Text(req.date) + "T" + Text(close));
    Before(booking, openTime) || AtOrBefore(closeTime, booking)
  }

  /** The INSERT meets the NOT NULL constraints of the appointments table. */
  predicate Insertable(req: BookRequest)
  {
    req.userId.Some? && req.service.Some? && req.date.Some? && req.time.Some?
  }

  /** The row an accepted booking appends (the stylist id is not part of the INSERT). */
  function NewAppointment(id: nat, req: BookRequest): Appointment
    requires Insertable(req)
  {
    Appointment(id, req.userId.value, req.service.value, None, req.stylist,
                req.date.value, req.time.value, Pending)
  }

  /** The checks of book-appointment, in the order server.js:53-116 makes
      them; the INSERT then fails on a NOT NULL column or on a `userId`
      that names no user (the foreign key on `user_id`). */
  function BookVerdict(users: seq<User>, appointments: seq<Appointment>, configs: seq<SystemConfig>,
                       req: BookRequest, now: int, parse: string -> Option<int>): BookOutcome
  {
    if AtOrBefore(parse(BookingText(req)), Some(now)) then PastBooking
    else
      match ConfigById(configs, 1)
      case None => ConfigMissing
      case Some(config) =>
        if config.maxDailyBookings != 0 && CountActive(appointments, req.date) >= config.maxDailyBookings
        then DailyLimitReached
        else if config.salonHours != "" && OutsideSalonHours(config.salonHours, req, parse)
        then OutsideHours
        else if !Insertable(req) || !UserExists(users, req.userId.value) then BookingFailed
        else Booked
  }

  /** A booking at or before now is refused before the configuration is
      read; an instant that does not parse is never "in the past". */
  lemma BookPastIff(users: seq<User>, appointments: seq<Appointment>, configs: seq<SystemConfig>, req: BookRequest,
                    now: int, parse: string -> Option<int>)
    ensures BookVerdict(users, appointments, configs, req, now, parse) == PastBooking <==>
      parse(BookingText(req)).Some? && parse(BookingText(req)).value <= now
  {
  }

  /** With a non-zero cap, and the earlier checks passed, the booking is
      refused for capacity exactly when the date's non-cancelled count has
      reached the cap; a cap of 0 switches the check off. */
  lemma BookCapacityIff(users: seq<User>, appointments: seq<Appointment>, configs: seq<SystemConfig>, req: BookRequest,
                        now: int, parse: string -> Option<int>)
    requires !AtOrBefore(parse(BookingText(req)), Some(now))
    requires ConfigById(configs, 1).Some?
    ensures var cap := ConfigById(configs, 1).value.maxDailyBookings;
      && (cap != 0 ==>
          (BookVerdict(users, appointments, configs, req, now, parse) == DailyLimitReached <==> CountActive(appointments, req.date) >= cap))
      && (cap == 0 ==> BookVerdict(users, appointments, configs, req, now, parse) != DailyLimitReached)
  {
  }

  /** Once the earlier checks pass, the hours check refuses exactly the
      bookings before opening or at/after closing; when all three instants
      parse this is the plain window test. */
  lemma BookHoursIff(users: seq<User>, appointments: seq<Appointment>, configs: seq<SystemConfig>, req: BookRequest,
                     now: int, parse: string -> Option<int>)
    requires !AtOrBefore(parse(BookingText(req)), Some(now))
    requires ConfigById(configs, 1).Some?
    requires var config := ConfigById(configs, 1).value;
      config.maxDailyBookings == 0 || CountActive(appointments, req.date) < config.maxDailyBookings
    requires ConfigById(configs, 1).value.salonHours != ""
    ensures var hours := ConfigById(configs, 1).value.salonHours;
      var (open, close) := OpenClose(hours);
      var b := parse(BookingText(req));
      var o := parse(Text(req.date) + "T" + open);
      var c := parse(Text(req.date) + "T" + Text(close));
      && (BookVerdict(users, appointments, configs, req, now, parse) == OutsideHours <==> OutsideSalonHours(hours, req, parse))
      && (b.Some? && o.Some? && c.Some? ==>
          (OutsideSalonHours(hours, req, parse) <==> b.value < o.value || b.value >= c.value))
      && (b.None? ==> !OutsideSalonHours(hours, req, parse))
  {
  }

  /** A booking is accepted exactly when every check passes, the row meets
      the NOT NULL constraints and its `userId` names a user. */
  lemma BookedIff(users: seq<User>, appointments: seq<Appointment>, configs: seq<SystemConfig>, req: BookRequest,
                  now: int, parse: string -> Option<int>)
    ensures BookVerdict(users, appointments, configs, req, now, parse) == Booked <==>
      && !AtOrBefore(parse(BookingText(req)), Some(now))
      && ConfigById(configs, 1).Some?
      && (var config := ConfigById(configs, 1).value;
          && (config.maxDailyBookings == 0 || CountActive(appointments, req.date) < config.maxDailyBookings)
          && (config.salonHours == "" || !OutsideSalonHours(config.salonHours, req, parse)))
      && Insertable(req) && UserExists(users, req.userId.value)
  {
  }

  /** The seeded hours string holds one '-', between "10:00 AM " and " 8:00 PM". */
  lemma DefaultHoursPieces()
    ensures Split(DefaultHours, '-') == ["10:00 AM ", " 8:00 PM"]
  {
    var s := DefaultHours;
    assert s[..9] == "10:00 AM " && s[10..] == " 8:00 PM";
    SplitAtOnlySeparator(s, '-', 9);
  }

  /** Trimming drops one trailing white-space character. */
  lemma TrimEndDropsSpace(s: string, c: char)
    requires IsJsSpace(c)
    ensures TrimEnd(s + [c]) == TrimEnd(s)
  {
    assert (s + [c])[..|s|] == s;
  }

  /** A string that starts with a non-space character trims to its trimmed end. */
  lemma TrimWithoutLeadingSpace(s: string)
    requires s != [] && !IsJsSpace(s[0])
    ensures Trim(s) == TrimEnd(s)
  {
  }

  lemma TrimOpeningHour()
    ensures Trim("10:00 AM ") == "10:00 AM"
  {
    var open := "10:00 AM";
    assert "10:00 AM " == open + [' '];
    TrimWithoutLeadingSpace(open + [' ']);
    TrimEndDropsSpace(open, ' ');
    TrimKeepsTrimmed(open);
    TrimWithoutLeadingSpace(open);
  }

  /** Trimming skips one leading white-space character. */
  lemma TrimStartSkipsSpace(c: char, s: string)
    requires IsJsSpace(c)
    ensures TrimStart([c] + s) == TrimStart(s)
  {
    assert ([c] + s)[1..] == s;
  }

  lemma TrimClosingHour()
    ensures Trim(" 8:00 PM") == "8:00 PM"
  {
    var close := "8:00 PM";
    TrimStartSkipsSpace(' ', close);
    TrimKeepsTrimmed(close);
    assert " 8:00 PM" == [' '] + close;
  }

  /** The seeded hours string opens at "10:00 AM" and closes at "8:00 PM". */
  lemma DefaultHoursSplit()
    ensures OpenClose(DefaultHours) == ("10:00 AM", Some("8:00 PM"))
  {
    DefaultHoursPieces();
    TrimOpeningHour();
    TrimClosingHour();
  }

  /** With the seeded hours, when the date's opening and closing strings do
      not parse (as "10:00 AM" and "8:00 PM" in an ISO string do not), the
      hours check refuses nothing. */
  lemma SeededHoursNeverReject(req: BookRequest, parse: string -> Option<int>)
    requires parse(Text(req.date) + "T" + "10:00 AM").None?
    requires parse(Text(req.date) + "T" + "8:00 PM").None?
    ensures !OutsideSalonHours(DefaultHours, req, parse)
  {
    DefaultHoursSplit();
  }

  /** Booking reads the configuration row with id 1. On a fresh store the
      seeded row gets that id; seeded with any other id (the table emptied
      after rows were inserted), every booking would find no configuration. */
  lemma SeededConfigIsRowOne(next: nat)
    ensures ConfigById(SeedConfig([], 1), 1) == Some(SystemConfig(1, DefaultHours, DefaultMaxDailyBookings, DefaultMaintenance))
    ensures next != 1 ==> ConfigById(SeedConfig([], next), 1).None?
  {
  }

  /** An appended row adds one to its date's count when it is not cancelled. */
  lemma {:induction false} CountActiveAppend(appointments: seq<Appointment>, row: Appointment, date: Option<string>)
    ensures CountActive(appointments + [row], date)
      == CountActive(appointments, date) + (if SqlEq(row.date, date) && row.status != Cancelled then 1 else 0)
  {
    if appointments != [] {
      assert (appointments + [row])[1..] == appointments[1..] + [row];
      CountActiveAppend(appointments[1..], row, date);
    } else {
      assert ([row])[1..] == [];
    }
  }

  /** An accepted booking adds one to its date's count. */
  lemma BookingCounts(appointments: seq<Appointment>, id: nat, req: BookRequest)
    requires Insertable(req)
    ensures CountActive(appointments + [NewAppointment(id, req)], req.date) == CountActive(appointments, req.date) + 1
  {
    CountActiveAppend(appointments, NewAppointment(id, req), req.date);
  }

  /** Filling the last slot: a booking accepted when one slot was left
      makes the same request, repeated, fail with the daily limit. */
  lemma LastSlotScenario(users: seq<User>, appointments: seq<Appointment>, configs: seq<SystemConfig>, req: BookRequest,
                         now: int, parse: string -> Option<int>, id: nat)
    requires BookVerdict(users, appointments, configs, req, now, parse) == Booked
    requires ConfigById(configs, 1).Some?
    requires CountActive(appointments, req.date) + 1 == ConfigById(configs, 1).value.maxDailyBookings
    ensures BookVerdict(users, appointments + [NewAppointment(id, req)], configs, req, now, parse) == DailyLimitReached
  {
    BookingCounts(appointments, id, req);
  }

  /** Cancelling an active appointment frees its slot: the count of its
      date drops by one, and no other date's count changes. */
  lemma {:induction false} CancelFreesSlot(appointments: seq<Appointment>, k: nat, date: Option<string>)
    requires k < |appointments| && RowsWithId(appointments, appointments[k].id) == 1
    ensures CountActive(SetStatus(appointments, appointments[k].id, Cancelled), date)
      == CountActive(appointments, date)
         - (if SqlEq(appointments[k].date, date) && appointments[k].status != Cancelled then 1 else 0)
  {
    var id := appointments[k].id;
    var rest := appointments[1..];
    var head := if appointments[0].id == id then appointments[0].(status := Cancelled) else appointments[0];
    var r := SetStatus(appointments, id, Cancelled);
    assert r == [head] + SetStatus(rest, id, Cancelled);
    assert r[1..] == SetStatus(rest, id, Cancelled);
    if k == 0 {
      assert SetStatus(rest, id, Cancelled) == rest;
    } else {
      assert rest[k - 1] == appointments[k];
      assert RowsWithId(rest, id) > 0;
      CancelFreesSlot(rest, k - 1, date);
    }
  }

  method InsertAppointment(db: Database, row: Appointment)
    requires db.Valid() && row.id == db.nextAppointmentId
    modifies db`appointments, db`nextAppointmentId
    ensures db.Valid()
    ensures db.appointments == old(db.appointments) + [row] && db.nextAppointmentId == old(db.nextAppointmentId) + 1
  {
    db.appointments := db.appointments + [row];
    db.nextAppointmentId := db.nextAppointmentId + 1;
  }

  /** `POST /api/book-appointment` (server.js:53-116). Every refusal returns
      before the INSERT, so only an accepted booking writes, and it writes
      one `Pending` row. */
  method BookAppointment(db: Database, req: BookRequest, now: int, parse: string -> Option<int>)
    returns (outcome: BookOutcome)
    requires db.Valid()
    modifies db`appointments, db`nextAppointmentId
    ensures db.Valid()
    ensures outcome == BookVerdict(old(db.users), old(db.appointments), old(db.configs), req, now, parse)
    ensures outcome == Booked ==>
      && db.appointments == old(db.appointments) + [NewAppointment(old(db.nextAppointmentId), req)]
      && db.nextAppointmentId == old(db.nextAppointmentId) + 1
    ensures outcome != Booked ==>
      db.appointments == old(db.appointments) && db.nextAppointmentId == old(db.nextAppointmentId)
  {
    var appointmentTime := parse(BookingText(req));
    if AtOrBefore(appointmentTime, Some(now)) {
      return PastBooking;
    }
    var config := ConfigById(db.configs, 1);
    if config.None? {
      return ConfigMissing;
    }
    var cap := config.value.maxDailyBookings;
    if cap != 0 {
      var count := CountActive(db.appointments, req.date);
      if count >= cap {
        return DailyLimitReached;
      }
    }
    var hours := config.value.salonHours;
    if hours != "" {
      var (open, close) := OpenClose(hours);
      var bookingTime := parse(BookingText(req));
      var openTime := parse(Text(req.date) + "T" + open);
      var closeTime := parse(Text(req.date) + "T" + Text(close));
      if Before(bookingTime, openTime) || AtOrBefore(closeTime, bookingTime) {
        return OutsideHours;
      }
    }
    if !Insertable(req) || !UserExists(db.users, req.userId.value) {
      // NOT NULL or FOREIGN KEY constraint failed: the catch block answers
      return BookingFailed;
    }
    InsertAppointment(db, NewAppointment(db.nextAppointmentId, req));
    outcome := Booked;
  }

  // ---------------------------------------------------------------- changing an appointment

  /** Replace the rows by a rewrite that keeps every id. */
  method RewriteAppointments(db: Database, rows: seq<Appointment>)
    requires db.Valid()
    requires |rows| == |db.appointments| && forall i :: 0 <= i < |rows| ==> rows[i].id == db.appointments[i].id
    modifies db`appointments
    ensures db.Valid() && db.appointments == rows
  {
    SameIdsKeepOk(db.appointments, rows, db.nextAppointmentId);
    db.appointments := rows;
  }

  /** `PATCH /api/cancel-appointment/:id` (server.js:139-148): success
      exactly when the id names an appointment. */
  method CancelAppointment(db: Database, id: int) returns (success: bool)
    requires db.Valid()
    modifies db`appointments
    ensures db.Valid()
    ensures success <==> exists i :: 0 <= i < |old(db.appointments)| && old(db.appointments)[i].id == id
    ensures db.appointments == SetStatus(old(db.appointments), id, Cancelled)
  {
    var changes := RowsWithId(db.appointments, id);
    RewriteAppointments(db, SetStatus(db.appointments, id, Cancelled));
    success := changes > 0;
  }

  datatype RescheduleOutcome =
    | Rescheduled
    | NoSuchAppointment
    | InvalidFormat
    | PastReschedule
    | RescheduleFailed
  {
    predicate Success()
    {
      this == Rescheduled
    }

    /** The message of the response (`None` for a bare `{ success }`). */
    function Message(): Option<string>
    {
      match this
      case Rescheduled => None
      case NoSuchAppointment => None
      case InvalidFormat => Some("Invalid date or time format.")
      case PastReschedule => Some("You cannot reschedule to a past date or time.")
      case RescheduleFailed => Some("Error rescheduling appointment")
    }
  }

  /** The string `${date}T${time}:00` the new instant is parsed from. */
  function RescheduleText(date: Option<string>, time: Option<string>): string
  {
    Text(date) + "T" + Text(time) + ":00"
  }

  /** The checks of reschedule-appointment (server.js:151-180): the format
      first, then the past; no capacity or hours check. The UPDATE fails
      on a NOT NULL column only when it selects a row. */
  function RescheduleVerdict(appointments: seq<Appointment>, id: int, date: Option<string>, time: Option<string>,
                             now: int, parse: string -> Option<int>): RescheduleOutcome
  {
    var instant := parse(RescheduleText(date, time));
    if instant.None? then InvalidFormat
    else if instant.value <= now then PastReschedule
    else if RowsWithId(appointments, id) == 0 then NoSuchAppointment
    else if date.None? || time.None? then RescheduleFailed
    else Rescheduled
  }

  /** The format is judged before the past, and neither depends on the
      table; a parsable future instant for an existing row with both fields
      given always reschedules, whatever the date's count. */
  lemma RescheduleOrder(appointments: seq<Appointment>, id: int, date: Option<string>, time: Option<string>,
                        now: int, parse: string -> Option<int>)
    ensures parse(RescheduleText(date, time)).None? ==>
      RescheduleVerdict(appointments, id, date, time, now, parse) == InvalidFormat
    ensures parse(RescheduleText(date, time)).Some? && parse(RescheduleText(date, time)).value <= now ==>
      RescheduleVerdict(appointments, id, date, time, now, parse) == PastReschedule
    ensures RescheduleVerdict(appointments, id, date, time, now, parse) == Rescheduled <==>
      && parse(RescheduleText(date, time)).Some? && parse(RescheduleText(date, time)).value > now
      && (exists i :: 0 <= i < |appointments| && appointments[i].id == id)
      && date.Some? && time.Some?
  {
  }

  /** `PATCH /api/reschedule-appointment/:id`: only a successful reschedule
      writes, and it writes the row with that id alone. */
  method RescheduleAppointment(db: Database, id: int, date: Option<string>, time: Option<string>,
                               now: int, parse: string -> Option<int>)
    returns (outcome: RescheduleOutcome)
    requires db.Valid()
    modifies db`appointments
    ensures db.Valid()
    ensures outcome == RescheduleVerdict(old(db.appointments), id, date, time, now, parse)
    ensures outcome == Rescheduled ==> db.appointments == SetSchedule(old(db.appointments), id, date.value, time.value)
    ensures outcome != Rescheduled ==> db.appointments == old(db.appointments)
  {
    var appointmentTime := parse(RescheduleText(date, time));
    if appointmentTime.None? {
      return InvalidFormat;
    }
    if appointmentTime.value <= now {
      return PastReschedule;
    }
    var changes := RowsWithId(db.appointments, id);
    if changes == 0 {
      return NoSuchAppointment;
    }
    if date.None? || time.None? {
      // NOT NULL constraint failed on the selected row
      return RescheduleFailed;
    }
    RewriteAppointments(db, SetSchedule(db.appointments, id, date.value, time.value));
    outcome := Rescheduled;
  }

  datatype StatusOutcome = StatusUpdated(status: string) | StatusNotFound | StatusFailed
  {
    function Message(): string
    {
      match this
      case StatusUpdated(s) => "Appointment status updated to '" + s + "'"
      case StatusNotFound => "Appointment not found or status unchanged"
      case StatusFailed => "Failed to update appointment status"
    }
  }

  /** `PATCH /api/update-appointment-status/:id` (server.js:951-966). Any
      status text is accepted; a missing one breaks NOT NULL when a row is
      selected. */
  method UpdateAppointmentStatus(db: Database, id: int, status: Option<string>) returns (outcome: StatusOutcome)
    requires db.Valid()
    modifies db`appointments
    ensures db.Valid()
    ensures RowsWithId(old(db.appointments), id) == 0 ==> outcome == StatusNotFound && db.appointments == old(db.appointments)
    ensures RowsWithId(old(db.appointments), id) > 0 && status.None? ==>
      outcome == StatusFailed && db.appointments == old(db.appointments)
    ensures RowsWithId(old(db.appointments), id) > 0 && status.Some? ==>
      outcome == StatusUpdated(status.value) && db.appointments == SetStatus(old(db.appointments), id, status.value)
  {
    var changes := RowsWithId(db.appointments, id);
    if changes == 0 {
      return StatusNotFound;
    }
    if status.None? {
      return StatusFailed;
    }
    RewriteAppointments(db, SetStatus(db.appointments, id, status.value));
    outcome := StatusUpdated(status.value);
  }

  /** `DELETE /api/complete-appointment/:id` (server.js:838-852): the row
      is removed; success exactly when there was one. */
  method CompleteAppointment(db: Database, id: int) returns (success: bool)
    requires db.Valid()
    modifies db`appointments
    ensures db.Valid()
    ensures success <==> exists i :: 0 <= i < |old(db.appointments)| && old(db.appointments)[i].id == id
    ensures db.appointments == RemoveId(old(db.appointments), id)
    ensures success ==> |db.appointments| == |old(db.appointments)| - 1
  {
    var changes := RowsWithId(db.appointments, id);
    RowsWithIdAtMostOne(db.appointments, db.nextAppointmentId, id);
    RemoveIdKeepsOk(db.appointments, db.nextAppointmentId, id);
    db.appointments := RemoveId(db.appointments, id);
    success := changes > 0;
  }

  /** The message of the complete-appointment response. */
  function CompleteMessage(success: bool): string
  {
    if success then "Appointment deleted successfully" else "Appointment not found"
  }
}
