# school_management room booking, modelled in Dafny

This project models the room-booking backend of `school_management`. The backend keeps
buildings, rooms, lecturers, teaching schedules and room reservations in a relational
database. It offers create, read, update and delete handlers for rooms, schedules,
reservations and lecturers, plus a login and registration flow.

## How it is modelled

- **Database.** `Models.Db` is the database: five tables, each a sequence of rows in
  storage order. `Models.Consistent` is the invariant the database enforces:
  - primary keys are unique;
  - usernames and emails are unique;
  - every foreign key names an existing row.

  `Models.ColumnsFit` holds the column types: every `String(n)` value has at most `n`
  characters, and a room's `Integer()` capacity is in the 32-bit range of PostgreSQL's
  `integer`.
- **ORM relationships.** The relationship lists (`room.reservations`,
  `lecturer.schedules`, ...) are `Filter`s of a table on its foreign key.
- **Deletes.** The cascade rules of `models/models.py` are functions on `Db`
  (`WithoutRoom`, `WithoutSchedule`, `WithoutBuilding`, ...), with lemmas saying what they
  remove and that they keep the database consistent.
- **Session.** The request session is `Store.Session`, a class whose five sequence fields
  the handlers update in place. `Session.Valid()` is `Consistent` and `ColumnsFit` of its
  snapshot, and every handler preserves it.
- **Handler outcomes.** A handler answers a `Responses.Reply`:
  - `Success(status, data)` is the success envelope.
  - `Failure(status, message)` is an explicit error envelope, with the source's exact
    status and message.
  - `Raised(e)` is an exception that the handler's `except` turns into a 500 envelope.
    These cover `AttributeError` on `None`, the `TypeError`/`ValueError` of `strptime`,
    and the `DataError`/`IntegrityError` that the database raises at commit. `login` has
    its `try`/`except` commented out (`routes/auth.py:15`, `routes/auth.py:39-40`), so
    there a `Raised` result is an exception escaping to the framework's bare 500;
    `AuthRoutes.LoginNeverRaises` shows that this cannot happen on a consistent database.
  - `NoBody` is a handler that returns nothing.
- **Projections.** The `dtos/object_mapper.py` projections are mutually recursive
  functions. They produce `Built(info)`, or `NoneAttribute` when they dereference a
  missing row. Totality lemmas show that on a consistent database they always build.
- **Timestamps.** The string format `%Y-%m-%dT%H:%M:%SZ` is modelled character by
  character (`Timestamps.Format`, `Timestamps.Parse`) and proved to round-trip.
- **Clock and crypto.** The clock is a `now` parameter. `onupdate` sets `last_edited`
  only when some column changed, because SQLAlchemy emits no UPDATE otherwise. Password
  hashing, password checking and token signing are function parameters.

Behaviours of the code that the model keeps as they are:

- **Conflict query ignores the room.** The conflict query
  (`routes/room_reservation.py:61-68`) filters on the date and on a shared start or end
  block only; it has no condition on the room.
- **String date in an update counts as a change.** Pydantic passes the update's `date`
  through as a string. SQLAlchemy therefore always sees a new value, so a supplied date
  always stamps `last_edited`.
- **Enums become strings.** Pydantic stores an enum given for a `str` field of
  `LecturerInfo` as the enum's value. So `gender` and `faculty` are strings there.
- **Constraints come from the database.** The database is taken to enforce NOT NULL,
  UNIQUE and FOREIGN KEY constraints, the lengths of `String(n)` columns and the range of
  `Integer()` columns, and to parse date strings, as PostgreSQL does. `Mapped[int]` columns
  are NOT NULL in SQLAlchemy 2.0. Hence:
  - a value too long for its column, or a capacity outside the 32-bit range, fails at
    commit with `DataError`, before any constraint is checked;
  - a reservation without a room fails at commit;
  - a room of an unknown building fails at commit;
  - an update naming a missing row fails at commit;
  - deleting a lecturer whose schedules or reservations remain fails at commit, because
    the ORM sets their NOT NULL `lecturer_id` to null.

## Model

| member | source | states |
|---|---|---|
| Enums.GenderOf | models/enums.py:6-8 | `Gender(s)` succeeds exactly for "MALE" and "FEMALE" and returns the member with that value |
| Enums.GenderRoundTrip | models/enums.py:6-8 | looking a gender up by its value gives it back; the two values differ |
| Enums.FacultyOf | models/enums.py:11-14 | `Faculty(s)` succeeds exactly for the three faculty values and returns the member with that value |
| Enums.FacultyRoundTrip | models/enums.py:11-14 | looking a faculty up by its value gives it back; the three values are distinct, economic's is "FACULTY OF ECONOMIC" |
| Enums.Ordinal | models/enums.py:17-27 | each block's position 1..10 in declaration order |
| Enums.TimeBlockOf | models/enums.py:17-27 | `TimeBlock(s)` returns a member whose value is `s`, and fails only when no member has that value |
| Enums.FirstWithValue | models/enums.py:17-27 | the first member of a list with a given value, or none when no member of the list has it |
| Enums.TimeBlockCount | models/enums.py:17-27 | there are exactly ten blocks, each listed once |
| Enums.TimeBlockRoundTrip | models/enums.py:17-27 | looking a block up by its value gives it back |
| Enums.TimeBlockValueInjective | models/enums.py:17-27 | distinct blocks have distinct values |
| Timestamps.Parse | dtos/object_mapper.py:11-12 | `string_to_datetime` restricted to the zero-padded, upper-case ASCII form of its format: accepts only that layout and yields a valid calendar time with no microseconds |
| Timestamps.FormatLayout | dtos/object_mapper.py:7-8 | `datetime_to_string` of a year of at least 1000 has the layout: year, month, day, hour, minute, second, zero-padded, at fixed offsets |
| Timestamps.ParseFormat | dtos/object_mapper.py:7-12 | parsing a formatted time gives it back with microseconds dropped |
| Timestamps.FormatRoundTrip | dtos/object_mapper.py:7-12 | for a time without microseconds, parse after format is the identity |
| Timestamps.FormatParse | dtos/object_mapper.py:7-12 | formatting a parsed string gives the string back when its year has no leading zero |
| Timestamps.ShortYearDoesNotParse | dtos/object_mapper.py:7-12 | a year below 1000 is formatted unpadded, and that string is rejected by the parser |
| Timestamps.DecimalRoundTrip | dtos/object_mapper.py:7-12 | the decimal digits of a number read back as that number |
| Timestamps.DecimalLength | dtos/object_mapper.py:7-8 | the number of digits of a number below 10000 |
| Timestamps.Pad2Facts | dtos/object_mapper.py:7-8 | two-digit padding yields two digits that read back as the number |
| Timestamps.DecimalOfValue | dtos/object_mapper.py:11-12 | a digit string without a leading zero is the decimal of its value |
| Timestamps.Pad2OfValue | dtos/object_mapper.py:11-12 | a two-digit string is the padding of its value |
| Tables.Filter | models/models.py:16-18 | a relationship list holds exactly the rows with the foreign key, never more rows than the table |
| Tables.FilterIdempotent | models/models.py:16-18 | filtering twice by the same condition is filtering once |
| Tables.FilterUnique | models/models.py:13 | a filtered table keeps its keys unique |
| Tables.IndexOf | routes/room.py:26 | the position of the first row with the key, or -1 exactly when no row has it |
| Tables.Find | routes/room.py:26 | `.filter(id == k).first()` finds a row exactly when one has the key, and the row found is in the table with that key |
| Tables.FindUnique | routes/room.py:26 | with unique keys, looking up a row's key finds that row |
| Tables.NextKey | models/models.py:13 | the id given to an inserted row is positive and larger than every id in the table |
| Tables.Page | routes/room.py:17 | `.offset(skip).limit(limit)` holds `min(limit, n - skip)` rows, the table's rows from `skip` on in order |
| Tables.RemoveKey | models/models.py:16-18 | deleting by key keeps exactly the rows with another key |
| Tables.RemoveKeyIdempotent | models/models.py:16-18 | deleting by the same key twice is deleting once |
| Tables.RemoveAbsentKey | routes/schedule.py:94-97 | deleting a key no row has changes nothing |
| Tables.ReplaceKey | routes/room.py:54-57 | committing an updated row replaces the row with its key and leaves every other row in place |
| Tables.ReplaceUnique | routes/room.py:54-57 | replacing a row by key keeps keys unique |
| Tables.AppendUnique | routes/room.py:38-40 | adding a row with a fresh key keeps keys unique |
| Tables.AppendHasKey | routes/room.py:38-40 | after an insert, a key is present exactly when it was before or is the new row's |
| Models.EmptyConsistent | models/models.py:11-111 | the empty database satisfies every constraint |
| Models.NewRoom | models/models.py:28-46 | a new room takes the given fields; capacity defaults to 20; both timestamps are `now` |
| Models.NewSchedule | models/models.py:69-87 | a new schedule takes the given fields; blocks default to "BLOCK_1"; both timestamps are `now` |
| Models.NewReservation | models/models.py:49-66 | a new reservation takes the given fields; blocks default to "BLOCK_1"; both timestamps are `now` |
| Models.NewLecturer | models/models.py:90-111 | a new lecturer takes the given fields; `enabled`/`active` false; gender defaults to male, faculty to computer science |
| Models.RelationshipMembers | models/models.py:16-104 | each relationship list (`building.rooms`, `room.reservations`, `schedule.reservations`, `lecturer.schedules`, `lecturer.reservations`) holds exactly the rows of its table whose foreign key names the owner |
| Models.WithoutReservation | routes/room_reservation.py:129-132 | deleting a reservation keeps exactly the reservations with another id and leaves the other tables as they were |
| Models.WithoutRoom | models/models.py:36-39 | deleting a room keeps exactly the other rooms and the reservations of other rooms, and leaves the other tables as they were |
| Models.WithoutSchedule | models/models.py:72-75 | deleting a schedule keeps exactly the other schedules and the reservations of other schedules, and leaves the other tables as they were |
| Models.WithoutBuilding | models/models.py:16-39 | deleting a building keeps exactly the other buildings, the rooms of other buildings and the reservations of rooms not in the building, and leaves schedules and lecturers as they were |
| Models.WithoutLecturer | models/models.py:103-104 | deleting a lecturer removes only its row: its schedules and reservations are not cascaded |
| Models.InsertRoomConsistent | models/models.py:28-46 | inserting a room with a fresh id and an existing building keeps the database consistent |
| Models.InsertScheduleConsistent | models/models.py:69-87 | inserting a schedule with a fresh id and an existing lecturer keeps the database consistent |
| Models.InsertReservationConsistent | models/models.py:49-66 | inserting a reservation with a fresh id whose room, schedule and lecturer exist keeps the database consistent |
| Models.InsertLecturerConsistent | models/models.py:90-111 | inserting a lecturer with a fresh id, username and email keeps the database consistent |
| Models.InsertBuildingConsistent | models/models.py:11-25 | inserting a building with a fresh id keeps the database consistent |
| Models.UpdateRoomConsistent | models/models.py:28-46 | replacing a room by one whose building exists keeps the database consistent |
| Models.UpdateScheduleConsistent | models/models.py:69-87 | replacing a schedule by one whose lecturer exists keeps the database consistent |
| Models.UpdateReservationConsistent | models/models.py:49-66 | replacing a reservation by one whose references resolve keeps the database consistent |
| Models.UpdateLecturerConsistent | models/models.py:93-97 | replacing a lecturer keeps username and email unique when no other lecturer holds the new ones |
| Models.ReplaceKeepsUnique | models/models.py:93-97 | a replacement keeps a unique column unique when no other row holds the new value |
| Models.ReplaceKeepsFit | models/models.py:14-97 | replacing a row by one that fits its columns keeps every row of the table fitting |
| Models.RoomsKeepFit | models/models.py:31-33 | a rooms table whose names, codes and capacities fit keeps the database's columns fitting |
| Models.SchedulesKeepFit | models/models.py:79 | a schedules table whose courses fit keeps the database's columns fitting |
| Models.LecturersKeepFit | models/models.py:93-97 | a lecturers table whose usernames, names and emails fit keeps the database's columns fitting |
| Models.ReservationsKeepFit | models/models.py:49-66 | a reservation has no bounded column, so any reservations table keeps the database's columns fitting |
| Models.DeleteReservationConsistent | routes/room_reservation.py:129-132 | deleting a reservation removes exactly the rows with that id and keeps the database consistent |
| Models.DeleteReservationIdempotent | routes/room_reservation.py:129-132 | deleting a reservation twice is deleting it once |
| Models.DeleteRoomCascade | models/models.py:36-39 | deleting a room removes it and exactly its reservations, leaves the other tables alone, keeps consistency |
| Models.DeleteRoomIdempotent | models/models.py:36-39 | deleting a room twice is deleting it once |
| Models.DeleteScheduleCascade | models/models.py:72-75 | deleting a schedule removes it and exactly its reservations, leaves the other tables alone, keeps consistency |
| Models.DeleteScheduleIdempotent | models/models.py:72-75 | deleting a schedule twice is deleting it once |
| Models.DeleteBuildingCascade | models/models.py:16-18 | deleting a building removes it, exactly its rooms, and exactly the reservations of those rooms, and keeps consistency |
| Models.DeleteBuildingLeavesNoReservation | models/models.py:16-18 | no reservation of a deleted building's rooms survives |
| Models.DeleteLecturerConsistent | models/models.py:103-104 | removing a lecturer leaves schedules and reservations as they were, and is consistent exactly when nothing refers to the lecturer |
| ObjectMapper.Collect | dtos/object_mapper.py:15-27 | a list comprehension of projections builds exactly when every element builds, element for element |
| ObjectMapper.Present | dtos/object_mapper.py:15-27 | an included part builds exactly when its projection builds |
| ObjectMapper.ToBuildingInfo | dtos/object_mapper.py:15-27 | `rooms` is absent exactly when not requested; otherwise one fully projected room per room of the building, in order |
| ObjectMapper.ToLecturerInfo | dtos/object_mapper.py:30-59 | schedules and reservations are present exactly when requested |
| ObjectMapper.ToRoomInfo | dtos/object_mapper.py:62-82 | reservations and building are present exactly when requested; the embedded building carries no rooms |
| ObjectMapper.ToScheduleInfo | dtos/object_mapper.py:85-106 | `reservations` is never filled; the lecturer is present exactly when requested and carries no schedules |
| ObjectMapper.ToRoomReservation | dtos/object_mapper.py:109-135 | room, lecturer and schedule are present exactly when requested, each without its back references |
| ObjectMapper.BuildingInfoBuilt | dtos/object_mapper.py:15-27 | when every foreign key resolves, the building projection never dereferences a missing row |
| ObjectMapper.RoomInfoBuilt | dtos/object_mapper.py:62-82 | when every foreign key resolves, the projection of a stored room always builds |
| ObjectMapper.LecturerInfoBuilt | dtos/object_mapper.py:30-59 | when every foreign key resolves, the lecturer projection always builds |
| ObjectMapper.ScheduleInfoBuilt | dtos/object_mapper.py:85-106 | when every foreign key resolves, the projection of a stored schedule always builds |
| ObjectMapper.RoomReservationBuilt | dtos/object_mapper.py:109-135 | when every foreign key resolves, the projection of a stored reservation always builds |
| ObjectMapper.BuildingScalarsCopied | dtos/object_mapper.py:20-27 | the building's id, name, code and formatted timestamps are copied |
| ObjectMapper.RoomScalarsCopied | dtos/object_mapper.py:75-82 | the room's id, name, code and capacity are copied |
| ObjectMapper.ScheduleScalarsCopied | dtos/object_mapper.py:97-106 | the schedule's id, course, blocks and formatted timestamps are copied |
| ObjectMapper.ReservationScalarsCopied | dtos/object_mapper.py:125-135 | the reservation's id and blocks are copied; its date and both timestamps are formatted |
| ObjectMapper.LecturerScalarsCopied | dtos/object_mapper.py:44-59 | the lecturer's identity, names, gender and faculty values and flags are copied, dob and both timestamps formatted; the password is not |
| Store.Respond | routes/room.py:29 | `success_response(status, to_x(...))` succeeds with the projection, or raises when the projection dereferences `None` |
| Store.Session.Open | models/models.py:11-111 | a session over a database sees exactly that database, and is valid exactly when the database is consistent and its columns fit |
| Store.Session.AddReservation | routes/room_reservation.py:83-84 | `db.add(reservation); db.commit()` appends exactly the new row, and with a fresh id and resolving references the session stays valid |
| ReservationRoutes.ConflictQuery | routes/room_reservation.py:61-68 | the query returns exactly the reservations on the date sharing the start or the end block, and is empty exactly when none does |
| ReservationRoutes.ConflictIgnoresRoom | routes/room_reservation.py:61-68 | a request for one room meets a conflict, and is refused, because of a booking of another room on the same date that shares an endpoint with the schedule's blocks |
| ReservationRoutes.ConflictMissesNestedOverlap | routes/room_reservation.py:61-68 | a stored BLOCK_1..BLOCK_4 booking does not match a request for BLOCK_2..BLOCK_3, though the intervals overlap |
| ReservationRoutes.ConflictNeedsSharedEndpoint | routes/room_reservation.py:61-68 | with no shared start or end block, the query is empty |
| ReservationRoutes.DoubleBookingAdmitted | routes/room_reservation.py:61-70 | the query admits a second booking of the same room and date that leaves the room double-booked |
| ReservationRoutes.RoomConflictQuery | routes/room_reservation.py:61-68 | corrected query: exactly the bookings of the same room and date whose blocks overlap or share an endpoint |
| ReservationRoutes.OccupiesSymmetric | routes/room_reservation.py:61-68 | the corrected conflict relation is symmetric |
| ReservationRoutes.AdmittedBookingKeepsNoDoubleBooking | routes/room_reservation.py:61-84 | a booking the corrected query admits keeps the reservation table free of double bookings |
| ReservationRoutes.RoomConflictCatchesNestedOverlap | routes/room_reservation.py:61-68 | the corrected query catches the nested BLOCK_2..BLOCK_3 request |
| ReservationRoutes.ReservationRowFields | routes/room_reservation.py:75-81 | the new reservation takes its blocks from the schedule, its lecturer from the request or else the signed-in user, and a fresh id |
| ReservationRoutes.RepeatedBookingConflicts | routes/room_reservation.py:61-74 | once a booking is stored, repeating the same request reaches the conflict query and meets a conflict |
| ReservationRoutes.GetReservations | routes/room_reservation.py:16-26 | status 200 with one full projection per row of the requested page, in order |
| ReservationRoutes.CreateReservations | routes/room_reservation.py:29-92 | 404 for an unknown schedule, lecturer or room, in that order; a missing or unparsable date raises; a missing schedule raises; 409 exactly when the conflict query matches; a missing room fails at commit; otherwise exactly one row is appended and 201 answers its projection; nothing changes on any failure |
| ReservationRoutes.PatchReservation | routes/room_reservation.py:109-114 | each supplied field replaces the stored one; id and creation time stay |
| ReservationRoutes.UpdateReservations | routes/room_reservation.py:95-123 | 404 for an unknown id; an unparsable date or a dangling reference fails with nothing stored; otherwise the patched, stamped row replaces the stored one and 200 answers its projection |
| ReservationRoutes.DeleteReservations | routes/room_reservation.py:126-135 | the reservation with the id, if any, is removed and nothing else; no body is returned |
| ScheduleRoutes.GetSchedules | routes/schedule.py:13-22 | status 200 with one full projection per row of the requested page, in order |
| ScheduleRoutes.GetScheduleById | routes/schedule.py:25-39 | as written: 404 exactly when the schedule exists, a raised `AttributeError` exactly when it does not; never a success |
| ScheduleRoutes.GetScheduleByIdIntended | routes/schedule.py:25-39 | corrected: 404 exactly when no schedule has the id, otherwise 200 with its projection |
| ScheduleRoutes.ScheduleRowFields | routes/schedule.py:53 | the new schedule carries the request's lecturer, course and blocks, a fresh id, and `now`; it fits its columns exactly when the course has at most 200 characters |
| ScheduleRoutes.CreateSchedule | routes/schedule.py:42-62 | 404 "Lecturer is not existed!" with nothing stored for an unknown lecturer; otherwise a course over 200 characters raises `DataError` with nothing stored; otherwise one row appended and 200 with its projection |
| ScheduleRoutes.PatchSchedule | routes/schedule.py:75-78 | each supplied block, lecturer or course replaces the stored one; id and timestamps stay |
| ScheduleRoutes.StampSchedule | models/models.py:85-87 | `last_edited` becomes `now` exactly when some column changed, and nothing else moves |
| ScheduleRoutes.UpdateSchedule | routes/schedule.py:65-88 | 404 for an unknown id; a course over 200 characters raises `DataError`, and a lecturer id naming no lecturer fails, both with nothing stored; otherwise the patched, stamped row replaces the stored one and 200 answers it |
| ScheduleRoutes.DeleteSchedule | routes/schedule.py:91-104 | the schedule and its reservations are removed when it exists, nothing changes otherwise, and 200 "Success!" either way |
| RoomRoutes.GetRooms | routes/room.py:14-20 | status 200 with one full projection per row of the requested page, in order |
| RoomRoutes.GetRoomById | routes/room.py:23-32 | 404 "Room Not Found" exactly when no room has the id, otherwise 200 with its projection |
| RoomRoutes.RoomRowFields | routes/room.py:38 | the new room carries the request's name, code, capacity and building, a fresh id, and `now`; it fits its columns exactly when name has at most 200 characters, code at most 30, and capacity is a 32-bit integer |
| RoomRoutes.CreateRoom | routes/room.py:35-44 | a name, code or capacity too large for its column raises `DataError` with nothing stored; otherwise an unknown building fails with nothing stored; otherwise one room appended and 201 with its projection |
| RoomRoutes.PatchRoom | routes/room.py:54-55 | only a supplied name or code replaces the stored one; building and capacity of the request are ignored |
| RoomRoutes.StampRoom | models/models.py:44-46 | `last_edited` becomes `now` exactly when some column changed, and nothing else moves |
| RoomRoutes.UpdateRoom | routes/room.py:47-62 | 404 for an unknown id; a new name or code too long for its column raises `DataError` with nothing stored; otherwise the renamed, stamped row replaces the stored one and 200 answers it |
| RoomRoutes.DeleteRoom | routes/room.py:65-77 | 404 "Room not found!" with nothing changed for an unknown id; otherwise the room and its reservations go and 200 "Success" |
| LecturerRoutes.GetLecturers | routes/lecturer.py:13-22 | status 200 with one full projection per row of the requested page, in order |
| LecturerRoutes.GetLecturerById | routes/lecturer.py:25-34 | 200 with the projection of the lecturer with the id; an unknown id raises, since there is no existence test |
| LecturerRoutes.PatchLecturer | routes/lecturer.py:44-51 | each of the eight supplied fields replaces the stored one, the password verbatim; id, flags and timestamps stay |
| LecturerRoutes.EmptyPatchLecturer | routes/lecturer.py:44-51 | an update supplying nothing leaves the row unchanged |
| LecturerRoutes.StampLecturer | models/models.py:109-111 | `last_edited` becomes `now` exactly when some column changed, and nothing else moves |
| LecturerRoutes.UpdateLecturer | routes/lecturer.py:37-61 | 404 for an unknown id; a username, name or email too long for its column raises `DataError`, and a username or email another lecturer holds fails, both with nothing stored; otherwise the patched, stamped row replaces the stored one and 200 answers it |
| LecturerRoutes.DeleteLecturer | routes/lecturer.py:64-72 | an unknown id raises (deleting `None`); a lecturer still referred to by schedules or reservations fails with nothing changed; otherwise only the lecturer row goes and 200 "Success!" |
| AuthRoutes.Login | routes/auth.py:13-37 | unknown username and wrong password both give the same 400 "Incorrect email or password"; success gives a bearer token for the username and the lecturer's projection without reservations |
| AuthRoutes.LoginNeverRaises | routes/auth.py:13-37 | on a consistent database login either rejects with that 400 or grants |
| AuthRoutes.RegisteredLecturer | routes/auth.py:54-56 | the stored lecturer has the request's fields, the hash of the password, the parsed dob, flags off, a fresh id |
| AuthRoutes.Register | routes/auth.py:43-66 | 409 for a taken username; an unparsable dob or a username, name or email too long for its column raises `DataError`, and a taken email fails, all with nothing stored; otherwise one lecturer appended and 201 with its projection |
| AuthRoutes.RegisteredLecturerCanLogIn | routes/auth.py:13-66 | after registering, logging in with the same username and password succeeds, when the password check accepts a password against its own hash |
| AuthRoutes.SecondRegistrationRefused | routes/auth.py:47-52 | once registered, a second registration with the same username is refused |

## Left out

- **Framework and transport.** HTTP routing, dependency injection, the response envelope
  helpers and FastAPI's validation of request and response bodies are not modelled.
  - Request DTOs arrive already validated as Dafny datatypes.
  - A 500 envelope is represented by the exception that causes it.
  - The response validation that a `None` return from `delete_reservations` would fail
    is not modelled.
- **Main and startup.** main.py (startup, seed data, router mounting) is not part of
  this model.
- **Building routes.** routes/building.py, with its `BuildingCreate`/`BuildingUpdate`
  handlers, is not part of this model. Only buildings' role in rooms, projections and the
  delete cascade is modelled.
- **Tokens and passwords.** JWT signing, expiry and `get_current_user` are not modelled.
  - Token issue and password hashing and checking are function parameters.
  - The signed-in user is a parameter of the reservation create handler.
  - The signed-in user is left out of the update handler, which ignores it.
- **Concurrency.** Concurrent requests, and the race between the conflict query and the
  insert, are not modelled. Each handler is one atomic step on the session.
- **Database fidelity.**
  - New ids are one more than the largest id, which stands in for the database sequence.
  - Query results and relationship lists are in table order.
  - Negative `skip` and `limit` are not modelled (the handlers take naturals).
  - The database's string-to-timestamp conversion is modelled by the same parser as
    `string_to_datetime`, rather than PostgreSQL's wider set of accepted formats.
- ReservationRoutes.CreateReservations: the `DataError` and `IntegrityError` results stand for the database's own error at commit; the message text of the 500 envelope is not modelled.
- Models.FitsVarchar: a value longer than its `String(n)` column always raises `DataError`. PostgreSQL also accepts a value whose extra characters are all spaces, storing it cut to `n` characters, so for such a value `RoomRoutes.CreateRoom`, `RoomRoutes.UpdateRoom`, `ScheduleRoutes.CreateSchedule`, `ScheduleRoutes.UpdateSchedule`, `LecturerRoutes.UpdateLecturer` and `AuthRoutes.Register` answer `DataError` where the source stores the shortened value.
- Tables.NextKey: ids and foreign keys are unbounded integers. The 32-bit range of the `id` and `*_id` columns is not enforced; a foreign key outside that range is answered like any other missing row (`IntegrityError` or 404) where PostgreSQL raises `DataError`, and a new id never runs past the sequence's limit.
- Timestamps.Parse: accepts only the zero-padded, upper-case ASCII form `YYYY-MM-DDTHH:MM:SSZ`. `strptime` also accepts one-digit month, day, hour, minute and second fields (`"2024-1-05T10:00:00Z"`), a space-padded day, lower-case `t` and `z`, and non-ASCII digits. On those strings `ReservationRoutes.CreateReservations` and `AuthRoutes.Register` answer a raised error where the source goes on to the conflict query or the insert, and `ReservationRoutes.UpdateReservations` answers `DataError`. Time zones and microseconds are not modelled; the layout has neither.

## Findings

| source | as written | input that shows it | evidently intended | confidence | as-written member | corrected member |
|---|---|---|---|---|---|---|
| routes/schedule.py:29 | `if schedule is not None` answers 404 for an existing schedule, and a missing one reaches `to_schedule_info(None)` | any existing schedule id: 404 "Schedule is not found"; any missing id: 500 | `if schedule is None`: 404 for a missing schedule, 200 with the projection otherwise | high, not executed | ScheduleRoutes.GetScheduleById | ScheduleRoutes.GetScheduleByIdIntended |
| routes/room_reservation.py:61-68 | the conflict query has no condition on the room and compares only the start blocks and the end blocks | a stored booking of BLOCK_1 to BLOCK_4 and a new booking of BLOCK_2 to BLOCK_3 in the same room on the same date: no conflict is found, so the room is double-booked; a booking of another room sharing an endpoint is wrongly refused | refuse exactly the bookings of the same room and date whose block intervals overlap, so that no room is ever double-booked | medium, not executed | ReservationRoutes.DoubleBookingAdmitted | ReservationRoutes.AdmittedBookingKeepsNoDoubleBooking |

The handler model `ReservationRoutes.CreateReservations` keeps the query as written. The
corrected rule is `ReservationRoutes.RoomConflictQuery` with its invariant
`ReservationRoutes.NoDoubleBooking`; these are stated beside the handler, not used by it.
