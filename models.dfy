/**
 * The five mapped tables of models/models.py as rows, the constraints the database enforces
 * on them, the column defaults, the ORM relationships and the cascade rules the relationships
 * declare.
 */
module Models {
  import opened Basics
  import opened Enums
  import opened Timestamps
  import opened Tables

  datatype Building = Building(id: int, name: string, code: string,
                               createdAt: DateTime, lastEdited: DateTime)

  datatype Room = Room(id: int, name: string, code: string, capacity: int, buildingId: int,
                       createdAt: DateTime, lastEdited: DateTime)

  /** Time blocks are kept as the strings the `String` columns hold. */
  datatype RoomReservation = RoomReservation(id: int, roomId: int, scheduleId: int, lecturerId: int,
                                             date: DateTime, startBlock: string, endBlock: string,
                                             createdAt: DateTime, lastEdited: DateTime)

  datatype Schedule = Schedule(id: int, lecturerId: int, course: string,
                               startBlock: string, endBlock: string,
                               createdAt: DateTime, lastEdited: DateTime)

  datatype Lecturer = Lecturer(id: int, username: string, password: string,
                               firstName: string, lastName: string, email: string, dob: DateTime,
                               gender: Gender, enabled: bool, active: bool, faculty: Faculty,
                               createdAt: DateTime, lastEdited: DateTime)

  /** The database: every table in storage order. */
  datatype Db = Db(buildings: seq<Building>, rooms: seq<Room>, reservations: seq<RoomReservation>,
                   schedules: seq<Schedule>, lecturers: seq<Lecturer>)

  // Columns a query compares, as key functions for the generic table operations.
  function BuildingId(b: Building): int { b.id }
  function RoomId(r: Room): int { r.id }
  function RoomBuildingId(r: Room): int { r.buildingId }
  function ReservationId(v: RoomReservation): int { v.id }
  function ReservationRoomId(v: RoomReservation): int { v.roomId }
  function ReservationScheduleId(v: RoomReservation): int { v.scheduleId }
  function ReservationLecturerId(v: RoomReservation): int { v.lecturerId }
  function ScheduleId(s: Schedule): int { s.id }
  function ScheduleLecturerId(s: Schedule): int { s.lecturerId }
  function LecturerId(l: Lecturer): int { l.id }
  function Username(l: Lecturer): string { l.username }
  function Email(l: Lecturer): string { l.email }

  /** Primary keys, and the UNIQUE `username` and `email` columns of `lecturers`. */
  predicate KeysUnique(db: Db) {
    && UniqueBy(db.buildings, BuildingId)
    && UniqueBy(db.rooms, RoomId)
    && UniqueBy(db.reservations, ReservationId)
    && UniqueBy(db.schedules, ScheduleId)
    && UniqueBy(db.lecturers, LecturerId)
    && UniqueBy(db.lecturers, Username)
    && UniqueBy(db.lecturers, Email)
  }

  /** The foreign keys of a reservation (all NOT NULL) name existing rows. */
  predicate ReservationResolves(rooms: seq<Room>, schedules: seq<Schedule>, lecturers: seq<Lecturer>,
                                v: RoomReservation) {
    && HasKey(rooms, RoomId, v.roomId)
    && HasKey(schedules, ScheduleId, v.scheduleId)
    && HasKey(lecturers, LecturerId, v.lecturerId)
  }

  /** Every foreign key names an existing row. */
  predicate ForeignKeysResolve(db: Db) {
    && (forall r :: r in db.rooms ==> HasKey(db.buildings, BuildingId, r.buildingId))
    && (forall s :: s in db.schedules ==> HasKey(db.lecturers, LecturerId, s.lecturerId))
    && (forall v :: v in db.reservations ==>
          ReservationResolves(db.rooms, db.schedules, db.lecturers, v))
  }

  // ---------------------------------------------------------------------------------------
  // Column types: a value the column's type cannot hold makes the INSERT or UPDATE fail with
  // DataError before any constraint is checked.

  /** `String(n)` is `varchar(n)`: at most `n` characters. */
  predicate FitsVarchar(s: string, n: nat) {
    |s| <= n
  }

  /** `Integer()` is PostgreSQL's 32-bit `integer`. */
  predicate FitsInteger(x: int) {
    -0x8000_0000 <= x < 0x8000_0000
  }

  /** `name` is `String(200)` and `code` is `String(30)`. */
  predicate BuildingFits(b: Building) {
    FitsVarchar(b.name, 200) && FitsVarchar(b.code, 30)
  }

  /** `name` is `String(200)`, `code` is `String(30)` and `capacity` is `Integer()`. */
  predicate RoomFits(r: Room) {
    FitsVarchar(r.name, 200) && FitsVarchar(r.code, 30) && FitsInteger(r.capacity)
  }

  /** `course` is `String(200)`. */
  predicate ScheduleFits(s: Schedule) {
    FitsVarchar(s.course, 200)
  }

  /** `username` and `email` are `String(200)`, `first_name` and `last_name` `String(100)`. */
  predicate LecturerColumnsFit(username: string, firstName: string, lastName: string, email: string) {
    && FitsVarchar(username, 200) && FitsVarchar(firstName, 100)
    && FitsVarchar(lastName, 100) && FitsVarchar(email, 200)
  }

  predicate LecturerFits(l: Lecturer) {
    LecturerColumnsFit(l.username, l.firstName, l.lastName, l.email)
  }

  /**
   * Every stored value fits its column's type (reservations have no bounded column). This is
   * kept apart from `Consistent`, which speaks of constraints between rows.
   */
  predicate ColumnsFit(db: Db) {
    && (forall b :: b in db.buildings ==> BuildingFits(b))
    && (forall r :: r in db.rooms ==> RoomFits(r))
    && (forall s :: s in db.schedules ==> ScheduleFits(s))
    && (forall l :: l in db.lecturers ==> LecturerFits(l))
  }

  /** What the database's constraints guarantee of every committed state. */
  predicate Consistent(db: Db) {
    KeysUnique(db) && ForeignKeysResolve(db)
  }

  /** An empty database satisfies every constraint. */
  lemma EmptyConsistent()
    ensures Consistent(Db([], [], [], [], []))
  {
  }

  // ---------------------------------------------------------------------------------------
  // Column defaults of the mapped classes.

  const DefaultCapacity: int := 20

  /** `Room(...)`: `capacity` defaults to 20; both timestamps default to the insert time. */
  function NewRoom(id: int, name: string, code: string, capacity: Option<int>, buildingId: int,
                   now: DateTime): (r: Room)
    ensures r.id == id && r.name == name && r.code == code && r.buildingId == buildingId
    ensures capacity.None? ==> r.capacity == DefaultCapacity
    ensures capacity.Some? ==> r.capacity == capacity.value
    ensures r.createdAt == now && r.lastEdited == now
  {
    Room(id, name, code, capacity.GetOr(DefaultCapacity), buildingId, now, now)
  }

  /** `Schedule(...)`: each block defaults to `BLOCK_1`. */
  function NewSchedule(id: int, lecturerId: int, course: string,
                       startBlock: Option<string>, endBlock: Option<string>,
                       now: DateTime): (s: Schedule)
    ensures s.id == id && s.lecturerId == lecturerId && s.course == course
    ensures startBlock.None? ==> s.startBlock == "BLOCK_1"
    ensures endBlock.None? ==> s.endBlock == "BLOCK_1"
    ensures startBlock.Some? ==> s.startBlock == startBlock.value
    ensures endBlock.Some? ==> s.endBlock == endBlock.value
    ensures s.createdAt == now && s.lastEdited == now
  {
    var first := TimeBlockValue(Block1);
    Schedule(id, lecturerId, course, startBlock.GetOr(first), endBlock.GetOr(first), now, now)
  }

  /** `RoomReservation(...)`: each block defaults to `BLOCK_1`. */
  function NewReservation(id: int, roomId: int, scheduleId: int, lecturerId: int, date: DateTime,
                          startBlock: Option<string>, endBlock: Option<string>,
                          now: DateTime): (v: RoomReservation)
    ensures v.id == id && v.roomId == roomId && v.scheduleId == scheduleId
    ensures v.lecturerId == lecturerId && v.date == date
    ensures startBlock.None? ==> v.startBlock == "BLOCK_1"
    ensures endBlock.None? ==> v.endBlock == "BLOCK_1"
    ensures startBlock.Some? ==> v.startBlock == startBlock.value
    ensures endBlock.Some? ==> v.endBlock == endBlock.value
    ensures v.createdAt == now && v.lastEdited == now
  {
    var first := TimeBlockValue(Block1);
    RoomReservation(id, roomId, scheduleId, lecturerId, date,
                    startBlock.GetOr(first), endBlock.GetOr(first), now, now)
  }

  /**
   * `Lecturer(...)`: a new lecturer is neither enabled nor active; gender defaults to male and
   * faculty to computer science.
   */
  function NewLecturer(id: int, username: string, password: string, firstName: string,
                       lastName: string, email: string, dob: DateTime,
                       gender: Option<Gender>, faculty: Option<Faculty>, now: DateTime): (l: Lecturer)
    ensures l.id == id && l.username == username && l.password == password && l.email == email
    ensures l.firstName == firstName && l.lastName == lastName && l.dob == dob
    ensures !l.enabled && !l.active
    ensures gender.None? ==> l.gender == Male
    ensures faculty.None? ==> l.faculty == ComputerScience
    ensures gender.Some? ==> l.gender == gender.value
    ensures faculty.Some? ==> l.faculty == faculty.value
    ensures l.createdAt == now && l.lastEdited == now
  {
    Lecturer(id, username, password, firstName, lastName, email, dob,
             gender.GetOr(Male), false, false, faculty.GetOr(ComputerScience), now, now)
  }

  // ---------------------------------------------------------------------------------------
  // Relationships: what each `relationship(...)` attribute loads.

  /** `Building.rooms`: the rooms whose `building_id` is the building's. */
  function RoomsOfBuilding(db: Db, buildingId: int): (rs: seq<Room>)
  {
    Filter(db.rooms, (r: Room) => r.buildingId == buildingId)
  }

  /** `Room.reservations`: the reservations whose `room_id` is the room's. */
  function ReservationsOfRoom(db: Db, roomId: int): (vs: seq<RoomReservation>)
  {
    Filter(db.reservations, (v: RoomReservation) => v.roomId == roomId)
  }

  /** `Schedule.reservations`: the reservations whose `schedule_id` is the schedule's. */
  function ReservationsOfSchedule(db: Db, scheduleId: int): (vs: seq<RoomReservation>)
  {
    Filter(db.reservations, (v: RoomReservation) => v.scheduleId == scheduleId)
  }

  /** `Lecturer.schedules`: the schedules whose `lecturer_id` is the lecturer's. */
  function SchedulesOfLecturer(db: Db, lecturerId: int): (ss: seq<Schedule>)
  {
    Filter(db.schedules, (s: Schedule) => s.lecturerId == lecturerId)
  }

  /** `Lecturer.reservations`: the reservations whose `lecturer_id` is the lecturer's. */
  function ReservationsOfLecturer(db: Db, lecturerId: int): (vs: seq<RoomReservation>)
  {
    Filter(db.reservations, (v: RoomReservation) => v.lecturerId == lecturerId)
  }

  /** Each relationship list holds exactly the rows whose foreign key names the owner. */
  lemma RelationshipMembers(db: Db, id: int)
    ensures forall r :: r in RoomsOfBuilding(db, id) <==> r in db.rooms && r.buildingId == id
    ensures forall v :: v in ReservationsOfRoom(db, id) <==> v in db.reservations && v.roomId == id
    ensures forall v :: v in ReservationsOfSchedule(db, id) <==> v in db.reservations && v.scheduleId == id
    ensures forall s :: s in SchedulesOfLecturer(db, id) <==> s in db.schedules && s.lecturerId == id
    ensures forall v :: v in ReservationsOfLecturer(db, id) <==> v in db.reservations && v.lecturerId == id
  {
  }

  /** Some schedule or reservation holds `lecturerId` in its `lecturer_id` column. */
  predicate LecturerReferenced(db: Db, lecturerId: int) {
    HasKey(db.schedules, ScheduleLecturerId, lecturerId)
      || HasKey(db.reservations, ReservationLecturerId, lecturerId)
  }

  /** A room of building `buildingId` has id `roomId`. */
  predicate RoomInBuilding(rooms: seq<Room>, roomId: int, buildingId: int) {
    exists i :: 0 <= i < |rooms| && rooms[i].id == roomId && rooms[i].buildingId == buildingId
  }

  // ---------------------------------------------------------------------------------------
  // Deletes, with the cascades the relationships declare.

  /** `session.delete(reservation)`: no relationship cascades from a reservation. */
  function WithoutReservation(db: Db, id: int): (d: Db)
    ensures forall v :: v in d.reservations <==> v in db.reservations && v.id != id
    ensures d.(reservations := db.reservations) == db
  {
    db.(reservations := RemoveKey(db.reservations, ReservationId, id))
  }

  /** `Room.reservations` has `cascade="all, delete-orphan"`. */
  function WithoutRoom(db: Db, id: int): (d: Db)
    ensures forall r :: r in d.rooms <==> r in db.rooms && r.id != id
    ensures forall v :: v in d.reservations <==> v in db.reservations && v.roomId != id
    ensures d.(rooms := db.rooms, reservations := db.reservations) == db
  {
    db.(rooms := RemoveKey(db.rooms, RoomId, id),
        reservations := RemoveKey(db.reservations, ReservationRoomId, id))
  }

  /** `Schedule.reservations` has `cascade="all, delete-orphan"`. */
  function WithoutSchedule(db: Db, id: int): (d: Db)
    ensures forall s :: s in d.schedules <==> s in db.schedules && s.id != id
    ensures forall v :: v in d.reservations <==> v in db.reservations && v.scheduleId != id
    ensures d.(schedules := db.schedules, reservations := db.reservations) == db
  {
    db.(schedules := RemoveKey(db.schedules, ScheduleId, id),
        reservations := RemoveKey(db.reservations, ReservationScheduleId, id))
  }

  /** `Building.rooms` cascades to the rooms, and each room's cascade to its reservations. */
  function WithoutBuilding(db: Db, id: int): (d: Db)
    ensures forall b :: b in d.buildings <==> b in db.buildings && b.id != id
    ensures forall r :: r in d.rooms <==> r in db.rooms && r.buildingId != id
    ensures forall v :: v in d.reservations <==> v in db.reservations && !RoomInBuilding(db.rooms, v.roomId, id)
    ensures d.(buildings := db.buildings, rooms := db.rooms, reservations := db.reservations) == db
  {
    db.(buildings := RemoveKey(db.buildings, BuildingId, id),
        rooms := RemoveKey(db.rooms, RoomBuildingId, id),
        reservations := Filter(db.reservations, (v: RoomReservation) => !RoomInBuilding(db.rooms, v.roomId, id)))
  }

  /**
   * The `lecturers` row alone: `Lecturer.schedules` and `Lecturer.reservations` carry no delete
   * cascade, so the dependants stay (the ORM sets their `lecturer_id` to NULL, which the NOT NULL
   * column refuses; see `DeleteLecturerConsistent`).
   */
  function WithoutLecturer(db: Db, id: int): (d: Db)
    ensures forall l :: l in d.lecturers <==> l in db.lecturers && l.id != id
    ensures d.(lecturers := db.lecturers) == db
  {
    db.(lecturers := RemoveKey(db.lecturers, LecturerId, id))
  }

  // ---------------------------------------------------------------------------------------
  // Lemmas: constraints kept by inserts, updates and deletes.

  /** Appending a row keeps every foreign key that resolved before resolving. */
  lemma AppendKeepsKeys<T>(rows: seq<T>, key: T -> int, x: T)
    ensures forall k :: HasKey(rows, key, k) ==> HasKey(rows + [x], key, k)
  {
    forall k | HasKey(rows, key, k) ensures HasKey(rows + [x], key, k) {
      AppendHasKey(rows, key, x, k);
    }
  }

  /** Inserting a building with a fresh id keeps the database consistent. */
  lemma InsertBuildingConsistent(db: Db, b: Building)
    requires Consistent(db) && !HasKey(db.buildings, BuildingId, b.id)
    ensures Consistent(db.(buildings := db.buildings + [b]))
  {
    AppendUnique(db.buildings, BuildingId, b);
    AppendKeepsKeys(db.buildings, BuildingId, b);
  }

  /** Inserting a room with a fresh id in an existing building keeps the database consistent. */
  lemma InsertRoomConsistent(db: Db, r: Room)
    requires Consistent(db) && !HasKey(db.rooms, RoomId, r.id)
    requires HasKey(db.buildings, BuildingId, r.buildingId)
    ensures Consistent(db.(rooms := db.rooms + [r]))
  {
    AppendUnique(db.rooms, RoomId, r);
    AppendKeepsKeys(db.rooms, RoomId, r);
  }

  /** Inserting a schedule with a fresh id for an existing lecturer keeps the database consistent. */
  lemma InsertScheduleConsistent(db: Db, s: Schedule)
    requires Consistent(db) && !HasKey(db.schedules, ScheduleId, s.id)
    requires HasKey(db.lecturers, LecturerId, s.lecturerId)
    ensures Consistent(db.(schedules := db.schedules + [s]))
  {
    AppendUnique(db.schedules, ScheduleId, s);
    AppendKeepsKeys(db.schedules, ScheduleId, s);
  }

  /** Inserting a reservation with a fresh id whose references resolve keeps the database consistent. */
  lemma InsertReservationConsistent(db: Db, v: RoomReservation)
    requires Consistent(db) && !HasKey(db.reservations, ReservationId, v.id)
    requires ReservationResolves(db.rooms, db.schedules, db.lecturers, v)
    ensures Consistent(db.(reservations := db.reservations + [v]))
  {
    AppendUnique(db.reservations, ReservationId, v);
  }

  /** Inserting a lecturer with a fresh id, username and email keeps the database consistent. */
  lemma InsertLecturerConsistent(db: Db, l: Lecturer)
    requires Consistent(db) && !HasKey(db.lecturers, LecturerId, l.id)
    requires !HasKey(db.lecturers, Username, l.username) && !HasKey(db.lecturers, Email, l.email)
    ensures Consistent(db.(lecturers := db.lecturers + [l]))
  {
    AppendUnique(db.lecturers, LecturerId, l);
    AppendUnique(db.lecturers, Username, l);
    AppendUnique(db.lecturers, Email, l);
    AppendKeepsKeys(db.lecturers, LecturerId, l);
  }

  /** Updating an existing room in place, with its building existing, keeps the database consistent. */
  lemma UpdateRoomConsistent(db: Db, r: Room)
    requires Consistent(db) && HasKey(db.rooms, RoomId, r.id)
    requires HasKey(db.buildings, BuildingId, r.buildingId)
    ensures Consistent(db.(rooms := ReplaceKey(db.rooms, RoomId, r)))
  {
    var rooms := ReplaceKey(db.rooms, RoomId, r);
    ReplaceUnique(db.rooms, RoomId, r);
    forall k ensures HasKey(rooms, RoomId, k) <==> HasKey(db.rooms, RoomId, k) {
      ReplaceHasKey(db.rooms, RoomId, r, k);
    }
    forall x | x in rooms ensures HasKey(db.buildings, BuildingId, x.buildingId) {
      ReplaceMembers(db.rooms, RoomId, r, x);
    }
  }

  /** Updating an existing schedule in place, with its lecturer existing, keeps the database consistent. */
  lemma UpdateScheduleConsistent(db: Db, s: Schedule)
    requires Consistent(db) && HasKey(db.schedules, ScheduleId, s.id)
    requires HasKey(db.lecturers, LecturerId, s.lecturerId)
    ensures Consistent(db.(schedules := ReplaceKey(db.schedules, ScheduleId, s)))
  {
    var schedules := ReplaceKey(db.schedules, ScheduleId, s);
    ReplaceUnique(db.schedules, ScheduleId, s);
    forall k ensures HasKey(schedules, ScheduleId, k) <==> HasKey(db.schedules, ScheduleId, k) {
      ReplaceHasKey(db.schedules, ScheduleId, s, k);
    }
    forall x | x in schedules ensures HasKey(db.lecturers, LecturerId, x.lecturerId) {
      ReplaceMembers(db.schedules, ScheduleId, s, x);
    }
  }

  /** Updating an existing reservation in place, with its references resolving, keeps the database consistent. */
  lemma UpdateReservationConsistent(db: Db, v: RoomReservation)
    requires Consistent(db) && HasKey(db.reservations, ReservationId, v.id)
    requires ReservationResolves(db.rooms, db.schedules, db.lecturers, v)
    ensures Consistent(db.(reservations := ReplaceKey(db.reservations, ReservationId, v)))
  {
    var reservations := ReplaceKey(db.reservations, ReservationId, v);
    ReplaceUnique(db.reservations, ReservationId, v);
    forall x | x in reservations ensures ReservationResolves(db.rooms, db.schedules, db.lecturers, x) {
      ReplaceMembers(db.reservations, ReservationId, v, x);
    }
  }

  /** No lecturer other than the one with `id` holds `username`, nor `email`. */
  predicate IdentityFreeFor(lecturers: seq<Lecturer>, id: int, username: string, email: string) {
    forall l :: l in lecturers && l.id != id ==> l.username != username && l.email != email
  }

  /** A replacement keeps a column unique when no other row holds the new row's value. */
  lemma ReplaceKeepsUnique<T(!new), K>(rows: seq<T>, key: T -> int, col: T -> K, x: T)
    requires UniqueBy(rows, key) && UniqueBy(rows, col)
    requires forall y :: y in rows && key(y) != key(x) ==> col(y) != col(x)
    ensures UniqueBy(ReplaceKey(rows, key, x), col)
  {
    var r := ReplaceKey(rows, key, x);
    forall i, j | 0 <= i < j < |r| ensures col(r[i]) != col(r[j]) {
      if key(rows[i]) == key(x) && key(rows[j]) != key(x) {
        assert rows[j] in rows;
      } else if key(rows[i]) != key(x) && key(rows[j]) == key(x) {
        assert rows[i] in rows;
      }
    }
  }

  /**
   * Updating an existing lecturer in place keeps the database consistent when no other lecturer
   * holds the new username or email.
   */
  lemma UpdateLecturerConsistent(db: Db, l: Lecturer)
    requires Consistent(db) && HasKey(db.lecturers, LecturerId, l.id)
    requires IdentityFreeFor(db.lecturers, l.id, l.username, l.email)
    ensures Consistent(db.(lecturers := ReplaceKey(db.lecturers, LecturerId, l)))
  {
    var lecturers := ReplaceKey(db.lecturers, LecturerId, l);
    ReplaceUnique(db.lecturers, LecturerId, l);
    ReplaceKeepsUnique(db.lecturers, LecturerId, Username, l);
    ReplaceKeepsUnique(db.lecturers, LecturerId, Email, l);
    forall k ensures HasKey(lecturers, LecturerId, k) <==> HasKey(db.lecturers, LecturerId, k) {
      ReplaceHasKey(db.lecturers, LecturerId, l, k);
    }
  }

  /** A replacement that fits its columns keeps every row of the table fitting. */
  lemma ReplaceKeepsFit<T, K>(rows: seq<T>, key: T -> K, x: T, fits: T -> bool)
    requires HasKey(rows, key, key(x)) && fits(x)
    requires forall y :: y in rows ==> fits(y)
    ensures forall y :: y in ReplaceKey(rows, key, x) ==> fits(y)
  {
    forall y | y in ReplaceKey(rows, key, x) ensures fits(y) {
      ReplaceMembers(rows, key, x, y);
    }
  }

  /** Reservations have no bounded column, so replacing that table keeps every value fitting. */
  lemma ReservationsKeepFit(db: Db, reservations: seq<RoomReservation>)
    requires ColumnsFit(db)
    ensures ColumnsFit(db.(reservations := reservations))
  {
  }

  /** A rooms table whose rows all fit keeps every value of the database fitting. */
  lemma RoomsKeepFit(db: Db, rooms: seq<Room>)
    requires ColumnsFit(db) && forall r :: r in rooms ==> RoomFits(r)
    ensures ColumnsFit(db.(rooms := rooms))
  {
  }

  /** A schedules table whose rows all fit keeps every value of the database fitting. */
  lemma SchedulesKeepFit(db: Db, schedules: seq<Schedule>)
    requires ColumnsFit(db) && forall s :: s in schedules ==> ScheduleFits(s)
    ensures ColumnsFit(db.(schedules := schedules))
  {
  }

  /** A lecturers table whose rows all fit keeps every value of the database fitting. */
  lemma LecturersKeepFit(db: Db, lecturers: seq<Lecturer>)
    requires ColumnsFit(db) && forall l :: l in lecturers ==> LecturerFits(l)
    ensures ColumnsFit(db.(lecturers := lecturers))
  {
  }

  /** Deleting a reservation keeps the database consistent and removes exactly that row. */
  lemma DeleteReservationConsistent(db: Db, id: int)
    requires Consistent(db)
    ensures Consistent(WithoutReservation(db, id))
    ensures !HasKey(WithoutReservation(db, id).reservations, ReservationId, id)
    ensures forall v :: v in WithoutReservation(db, id).reservations <==> v in db.reservations && v.id != id
  {
    RemoveKeyUnique(db.reservations, ReservationId, id, ReservationId);
    RemoveKeyRemoves(db.reservations, ReservationId, id);
  }

  /** Deleting twice is deleting once. */
  lemma DeleteReservationIdempotent(db: Db, id: int)
    ensures WithoutReservation(WithoutReservation(db, id), id) == WithoutReservation(db, id)
  {
    RemoveKeyIdempotent(db.reservations, ReservationId, id);
  }

  /**
   * Deleting a room removes it and exactly the reservations with its `room_id`; every other
   * table and every other reservation is unchanged, and the database stays consistent.
   */
  lemma DeleteRoomCascade(db: Db, id: int)
    requires Consistent(db)
    ensures var d := WithoutRoom(db, id);
      && Consistent(d)
      && !HasKey(d.rooms, RoomId, id)
      && (forall v :: v in d.reservations <==> v in db.reservations && v.roomId != id)
      && d.buildings == db.buildings && d.schedules == db.schedules && d.lecturers == db.lecturers
  {
    var d := WithoutRoom(db, id);
    RemoveKeyUnique(db.rooms, RoomId, id, RoomId);
    RemoveKeyUnique(db.reservations, ReservationRoomId, id, ReservationId);
    RemoveKeyRemoves(db.rooms, RoomId, id);
    forall v | v in d.reservations ensures HasKey(d.rooms, RoomId, v.roomId) {
      RemoveKeyKeepsKey(db.rooms, RoomId, id, RoomId, v.roomId);
    }
  }

  /** Deleting a room twice is deleting it once. */
  lemma DeleteRoomIdempotent(db: Db, id: int)
    ensures WithoutRoom(WithoutRoom(db, id), id) == WithoutRoom(db, id)
  {
    RemoveKeyIdempotent(db.rooms, RoomId, id);
    RemoveKeyIdempotent(db.reservations, ReservationRoomId, id);
  }

  /**
   * Deleting a schedule removes it and exactly the reservations with its `schedule_id`; the
   * database stays consistent.
   */
  lemma DeleteScheduleCascade(db: Db, id: int)
    requires Consistent(db)
    ensures var d := WithoutSchedule(db, id);
      && Consistent(d)
      && !HasKey(d.schedules, ScheduleId, id)
      && (forall v :: v in d.reservations <==> v in db.reservations && v.scheduleId != id)
      && d.buildings == db.buildings && d.rooms == db.rooms && d.lecturers == db.lecturers
  {
    var d := WithoutSchedule(db, id);
    RemoveKeyUnique(db.schedules, ScheduleId, id, ScheduleId);
    RemoveKeyUnique(db.reservations, ReservationScheduleId, id, ReservationId);
    RemoveKeyRemoves(db.schedules, ScheduleId, id);
    forall v | v in d.reservations ensures HasKey(d.schedules, ScheduleId, v.scheduleId) {
      RemoveKeyKeepsKey(db.schedules, ScheduleId, id, ScheduleId, v.scheduleId);
    }
  }

  /** Deleting a schedule twice is deleting it once. */
  lemma DeleteScheduleIdempotent(db: Db, id: int)
    ensures WithoutSchedule(WithoutSchedule(db, id), id) == WithoutSchedule(db, id)
  {
    RemoveKeyIdempotent(db.schedules, ScheduleId, id);
    RemoveKeyIdempotent(db.reservations, ReservationScheduleId, id);
  }

  /**
   * Deleting a building removes it, every room with its `building_id`, and every reservation of
   * those rooms; all other rooms and reservations stay, and the database stays consistent.
   */
  lemma DeleteBuildingCascade(db: Db, id: int)
    requires Consistent(db)
    ensures var d := WithoutBuilding(db, id);
      && Consistent(d)
      && !HasKey(d.buildings, BuildingId, id)
      && (forall r :: r in d.rooms <==> r in db.rooms && r.buildingId != id)
      && (forall v :: v in d.reservations <==>
            v in db.reservations && !RoomInBuilding(db.rooms, v.roomId, id))
      && d.schedules == db.schedules && d.lecturers == db.lecturers
  {
    var d := WithoutBuilding(db, id);
    RemoveKeyUnique(db.buildings, BuildingId, id, BuildingId);
    RemoveKeyUnique(db.rooms, RoomBuildingId, id, RoomId);
    FilterUnique(db.reservations, (v: RoomReservation) => !RoomInBuilding(db.rooms, v.roomId, id), ReservationId);
    RemoveKeyRemoves(db.buildings, BuildingId, id);
    forall r | r in d.rooms ensures HasKey(d.buildings, BuildingId, r.buildingId) {
      RemoveKeyKeepsKey(db.buildings, BuildingId, id, BuildingId, r.buildingId);
    }
    forall v | v in d.reservations ensures HasKey(d.rooms, RoomId, v.roomId) {
      var i :| 0 <= i < |db.rooms| && db.rooms[i].id == v.roomId;
      assert db.rooms[i].buildingId != id;
      MemberHasKey(d.rooms, RoomId, db.rooms[i]);
    }
  }

  /** After deleting a building, no reservation is held in one of its rooms. */
  lemma DeleteBuildingLeavesNoReservation(db: Db, id: int, v: RoomReservation)
    requires Consistent(db) && v in WithoutBuilding(db, id).reservations
    ensures !RoomInBuilding(db.rooms, v.roomId, id)
  {
    DeleteBuildingCascade(db, id);
  }

  /**
   * Deleting a lecturer touches only the `lecturers` table, and the result satisfies the
   * constraints exactly when no schedule or reservation refers to that lecturer.
   */
  lemma DeleteLecturerConsistent(db: Db, id: int)
    requires Consistent(db)
    ensures var d := WithoutLecturer(db, id);
      && d.schedules == db.schedules && d.reservations == db.reservations
      && (Consistent(d) <==> !LecturerReferenced(db, id))
  {
    var d := WithoutLecturer(db, id);
    RemoveKeyUnique(db.lecturers, LecturerId, id, LecturerId);
    RemoveKeyUnique(db.lecturers, LecturerId, id, Username);
    RemoveKeyUnique(db.lecturers, LecturerId, id, Email);
    RemoveKeyRemoves(db.lecturers, LecturerId, id);
    if LecturerReferenced(db, id) {
      if HasKey(db.schedules, ScheduleLecturerId, id) {
        var i :| 0 <= i < |db.schedules| && db.schedules[i].lecturerId == id;
        assert db.schedules[i] in db.schedules;
      } else {
        var i :| 0 <= i < |db.reservations| && db.reservations[i].lecturerId == id;
        assert db.reservations[i] in db.reservations;
      }
    } else {
      forall s | s in db.schedules ensures HasKey(d.lecturers, LecturerId, s.lecturerId) {
        if s.lecturerId == id {
          MemberHasKey(db.schedules, ScheduleLecturerId, s);
        }
        RemoveKeyKeepsKey(db.lecturers, LecturerId, id, LecturerId, s.lecturerId);
      }
      forall v | v in db.reservations ensures HasKey(d.lecturers, LecturerId, v.lecturerId) {
        if v.lecturerId == id {
          MemberHasKey(db.reservations, ReservationLecturerId, v);
        }
        RemoveKeyKeepsKey(db.lecturers, LecturerId, id, LecturerId, v.lecturerId);
      }
    }
  }
}
