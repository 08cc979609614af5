/**
 * The projections of dtos/object_mapper.py: each entity row becomes its view, nesting the
 * related rows the include-flags ask for. The relationships are read from the database the
 * row lives in. Reading an attribute of a missing related row (Python's `None`) raises
 * AttributeError, which is `NoneAttribute` here.
 */
module ObjectMapper {
  import opened Basics
  import opened Enums
  import opened Timestamps
  import opened Tables
  import opened Models
  import opened Dtos

  /** A projection's outcome: the view, or the AttributeError of reading a field of `None`. */
  datatype Mapped<+T> = Built(value: T) | NoneAttribute

  /** A list comprehension over projections: fails if any element fails. */
  function Collect<T>(ms: seq<Mapped<T>>): (r: Mapped<seq<T>>)
    ensures r.Built? <==> forall i :: 0 <= i < |ms| ==> ms[i].Built?
    ensures r.Built? ==> |r.value| == |ms| && forall i :: 0 <= i < |ms| ==> ms[i] == Built(r.value[i])
  {
    if ms == [] then Built([])
    else
      match ms[0]
      case NoneAttribute => NoneAttribute
      case Built(v) =>
        match Collect(ms[1..])
        case NoneAttribute => NoneAttribute
        case Built(vs) => Built([v] + vs)
  }

  /** A nested field whose flag is on: the projection, as a present optional value. */
  function Present<T>(m: Mapped<T>): (r: Mapped<Option<T>>)
    ensures r.Built? <==> m.Built?
    ensures r.Built? ==> r.value == Some(m.value)
  {
    match m
    case NoneAttribute => NoneAttribute
    case Built(v) => Built(Some(v))
  }

  // The include-flags give each projection a rank, and every nested call has a smaller one;
  // this is why the projections terminate although the entity graph has cycles.
  function BuildingRank(includeRoom: bool): nat { if includeRoom then 3 else 0 }
  function RoomRank(includeReservation: bool, includeBuilding: bool): nat {
    if includeReservation then 2 else if includeBuilding then 1 else 0
  }
  function LecturerRank(includeSchedules: bool, includeReservation: bool): nat {
    if includeSchedules then 4 else if includeReservation then 2 else 0
  }
  function ScheduleRank(includeLecturer: bool): nat { if includeLecturer then 3 else 0 }
  function ReservationRank(includeRoom: bool, includeLecturer: bool, includeSchedule: bool): nat {
    if includeRoom then 2 else if includeLecturer || includeSchedule then 1 else 0
  }

  /** `to_building_info`: `rooms` is None exactly when `includeRoom` is off. */
  function ToBuildingInfo(db: Db, b: Building, includeRoom: bool): (r: Mapped<BuildingInfo>)
    ensures r.Built? ==> (r.value.rooms.None? <==> !includeRoom)
    ensures r.Built? && includeRoom ==>
      var rs := RoomsOfBuilding(db, b.id);
      |r.value.rooms.value| == |rs|
      && forall i :: 0 <= i < |rs| ==> ToRoomInfo(db, rs[i], true, true) == Built(r.value.rooms.value[i])
    decreases BuildingRank(includeRoom)
  {
    var rs := RoomsOfBuilding(db, b.id);
    var rooms := if !includeRoom then Built(None) else Present(
      Collect(seq(|rs|, i requires 0 <= i < |rs| => ToRoomInfo(db, rs[i], true, true))));
    match rooms
    case NoneAttribute => NoneAttribute
    case Built(rooms) =>
      Built(BuildingInfo(b.id, b.name, b.code, rooms, Format(b.createdAt), Format(b.lastEdited)))
  }

  /** `to_room_info`: the embedded building never lists its rooms. */
  function ToRoomInfo(db: Db, room: Room, includeReservation: bool, includeBuilding: bool)
    : (r: Mapped<RoomInfo>)
    ensures r.Built? ==> (r.value.reservations.None? <==> !includeReservation)
    ensures r.Built? ==> (r.value.building.None? <==> !includeBuilding)
    ensures r.Built? && includeBuilding ==> r.value.building.value.rooms.None?
    decreases RoomRank(includeReservation, includeBuilding)
  {
    var building :=
      if !includeBuilding then Built(None)
      else match Find(db.buildings, BuildingId, room.buildingId)
        case None => NoneAttribute
        case Some(b) => Present(ToBuildingInfo(db, b, false));
    var vs := ReservationsOfRoom(db, room.id);
    var reservations := if !includeReservation then Built(None) else Present(
      Collect(seq(|vs|, i requires 0 <= i < |vs| => ToRoomReservation(db, vs[i], false, true, true))));
    if building.NoneAttribute? || reservations.NoneAttribute? then NoneAttribute
    else Built(RoomInfo(room.id, room.name, room.code, building.value, room.capacity, reservations.value))
  }

  /** `to_lecturer_info`: `schedules` and `reservations` are None exactly when their flags are off. */
  function ToLecturerInfo(db: Db, l: Lecturer, includeSchedules: bool, includeReservation: bool)
    : (r: Mapped<LecturerInfo>)
    ensures r.Built? ==> (r.value.schedules.None? <==> !includeSchedules)
    ensures r.Built? ==> (r.value.reservations.None? <==> !includeReservation)
    decreases LecturerRank(includeSchedules, includeReservation)
  {
    var ss := SchedulesOfLecturer(db, l.id);
    var schedules := if !includeSchedules then Built(None) else Present(
      Collect(seq(|ss|, i requires 0 <= i < |ss| => ToScheduleInfo(db, ss[i], true, true))));
    var vs := ReservationsOfLecturer(db, l.id);
    var reservations := if !includeReservation then Built(None) else Present(
      Collect(seq(|vs|, i requires 0 <= i < |vs| => ToRoomReservation(db, vs[i], false, false, true))));
    if schedules.NoneAttribute? || reservations.NoneAttribute? then NoneAttribute
    else Built(LecturerInfo(l.id, l.username, l.firstName, l.lastName, l.email, Format(l.dob),
                            GenderValue(l.gender), l.enabled, l.active, FacultyValue(l.faculty),
                            schedules.value, reservations.value,
                            Format(l.createdAt), Format(l.lastEdited)))
  }

  /**
   * `to_schedule_info`: `reservations` is always None, whatever `includeReservations` says,
   * because the guard tests the local variable that was just set to None; the embedded
   * lecturer never lists schedules.
   */
  function ToScheduleInfo(db: Db, s: Schedule, includeLecturer: bool, includeReservations: bool)
    : (r: Mapped<ScheduleInfo>)
    ensures r.Built? ==> r.value.reservations.None?
    ensures r.Built? ==> (r.value.lecturer.None? <==> !includeLecturer)
    ensures r.Built? && includeLecturer ==>
      r.value.lecturer.value.schedules.None? && r.value.lecturer.value.reservations.Some?
    decreases ScheduleRank(includeLecturer)
  {
    var lecturer :=
      if !includeLecturer then Built(None)
      else match Find(db.lecturers, LecturerId, s.lecturerId)
        case None => NoneAttribute
        case Some(l) => Present(ToLecturerInfo(db, l, false, true));
    var reservations: Option<seq<RoomReservationInfo>> := None;
    match lecturer
    case NoneAttribute => NoneAttribute
    case Built(lecturer) =>
      Built(ScheduleInfo(s.id, reservations, lecturer, s.course, s.startBlock, s.endBlock,
                         Format(s.createdAt), Format(s.lastEdited)))
  }

  /**
   * `to_room_reservation`: the embedded room lists no reservations, the embedded lecturer
   * neither schedules nor reservations, and the embedded schedule no lecturer.
   */
  function ToRoomReservation(db: Db, v: RoomReservation, includeRoom: bool, includeLecturer: bool,
                             includeSchedule: bool): (r: Mapped<RoomReservationInfo>)
    ensures r.Built? ==> (r.value.room.None? <==> !includeRoom)
    ensures r.Built? ==> (r.value.lecturer.None? <==> !includeLecturer)
    ensures r.Built? ==> (r.value.schedule.None? <==> !includeSchedule)
    ensures r.Built? && includeRoom ==>
      r.value.room.value.reservations.None? && r.value.room.value.building.Some?
    ensures r.Built? && includeLecturer ==>
      r.value.lecturer.value.schedules.None? && r.value.lecturer.value.reservations.None?
    ensures r.Built? && includeSchedule ==> r.value.schedule.value.lecturer.None?
    decreases ReservationRank(includeRoom, includeLecturer, includeSchedule)
  {
    var room :=
      if !includeRoom then Built(None)
      else match Find(db.rooms, RoomId, v.roomId)
        case None => NoneAttribute
        case Some(x) => Present(ToRoomInfo(db, x, false, true));
    var lecturer :=
      if !includeLecturer then Built(None)
      else match Find(db.lecturers, LecturerId, v.lecturerId)
        case None => NoneAttribute
        case Some(l) => Present(ToLecturerInfo(db, l, false, false));
    var schedule :=
      if !includeSchedule then Built(None)
      else match Find(db.schedules, ScheduleId, v.scheduleId)
        case None => NoneAttribute
        case Some(s) => Present(ToScheduleInfo(db, s, false, false));
    if room.NoneAttribute? || lecturer.NoneAttribute? || schedule.NoneAttribute? then NoneAttribute
    else Built(RoomReservationInfo(v.id, schedule.value, room.value, lecturer.value, Format(v.date),
                                   v.startBlock, v.endBlock, Format(v.createdAt), Format(v.lastEdited)))
  }

  // ---------------------------------------------------------------------------------------
  // On a database whose foreign keys resolve, no projection reads a field of `None`.

  lemma {:induction false} BuildingInfoBuilt(db: Db, b: Building, includeRoom: bool)
    requires ForeignKeysResolve(db)
    ensures ToBuildingInfo(db, b, includeRoom).Built?
    decreases BuildingRank(includeRoom)
  {
    if includeRoom {
      var rs := RoomsOfBuilding(db, b.id);
      forall i | 0 <= i < |rs| ensures ToRoomInfo(db, rs[i], true, true).Built? {
        assert rs[i] in rs;
        RoomInfoBuilt(db, rs[i], true, true);
      }
    }
  }

  lemma {:induction false} RoomInfoBuilt(db: Db, room: Room, includeReservation: bool,
                                         includeBuilding: bool)
    requires ForeignKeysResolve(db) && room in db.rooms
    ensures ToRoomInfo(db, room, includeReservation, includeBuilding).Built?
    decreases RoomRank(includeReservation, includeBuilding)
  {
    if includeBuilding {
      var b := Find(db.buildings, BuildingId, room.buildingId);
      BuildingInfoBuilt(db, b.value, false);
    }
    if includeReservation {
      var vs := ReservationsOfRoom(db, room.id);
      forall i | 0 <= i < |vs| ensures ToRoomReservation(db, vs[i], false, true, true).Built? {
        assert vs[i] in vs;
        RoomReservationBuilt(db, vs[i], false, true, true);
      }
    }
  }

  lemma {:induction false} LecturerInfoBuilt(db: Db, l: Lecturer, includeSchedules: bool,
                                             includeReservation: bool)
    requires ForeignKeysResolve(db)
    ensures ToLecturerInfo(db, l, includeSchedules, includeReservation).Built?
    decreases LecturerRank(includeSchedules, includeReservation)
  {
    if includeSchedules {
      var ss := SchedulesOfLecturer(db, l.id);
      forall i | 0 <= i < |ss| ensures ToScheduleInfo(db, ss[i], true, true).Built? {
        assert ss[i] in ss;
        ScheduleInfoBuilt(db, ss[i], true, true);
      }
    }
    if includeReservation {
      var vs := ReservationsOfLecturer(db, l.id);
      forall i | 0 <= i < |vs| ensures ToRoomReservation(db, vs[i], false, false, true).Built? {
        assert vs[i] in vs;
        RoomReservationBuilt(db, vs[i], false, false, true);
      }
    }
  }

  lemma {:induction false} ScheduleInfoBuilt(db: Db, s: Schedule, includeLecturer: bool,
                                             includeReservations: bool)
    requires ForeignKeysResolve(db) && s in db.schedules
    ensures ToScheduleInfo(db, s, includeLecturer, includeReservations).Built?
    decreases ScheduleRank(includeLecturer)
  {
    if includeLecturer {
      var l := Find(db.lecturers, LecturerId, s.lecturerId);
      LecturerInfoBuilt(db, l.value, false, true);
    }
  }

  /** A reservation projects once each part it includes exists and projects. */
  lemma ReservationPartsBuilt(db: Db, v: RoomReservation, includeRoom: bool,
                              includeLecturer: bool, includeSchedule: bool)
    requires includeRoom ==> var x := Find(db.rooms, RoomId, v.roomId);
      x.Some? && ToRoomInfo(db, x.value, false, true).Built?
    requires includeLecturer ==> var l := Find(db.lecturers, LecturerId, v.lecturerId);
      l.Some? && ToLecturerInfo(db, l.value, false, false).Built?
    requires includeSchedule ==> var s := Find(db.schedules, ScheduleId, v.scheduleId);
      s.Some? && ToScheduleInfo(db, s.value, false, false).Built?
    ensures ToRoomReservation(db, v, includeRoom, includeLecturer, includeSchedule).Built?
  {
  }

  lemma {:induction false} RoomReservationBuilt(db: Db, v: RoomReservation, includeRoom: bool,
                                                includeLecturer: bool, includeSchedule: bool)
    requires ForeignKeysResolve(db) && v in db.reservations
    ensures ToRoomReservation(db, v, includeRoom, includeLecturer, includeSchedule).Built?
    decreases ReservationRank(includeRoom, includeLecturer, includeSchedule)
  {
    assert ReservationResolves(db.rooms, db.schedules, db.lecturers, v);
    var x := Find(db.rooms, RoomId, v.roomId);
    var l := Find(db.lecturers, LecturerId, v.lecturerId);
    var s := Find(db.schedules, ScheduleId, v.scheduleId);
    if includeRoom {
      RoomInfoBuilt(db, x.value, false, true);
    }
    if includeLecturer {
      LecturerInfoBuilt(db, l.value, false, false);
    }
    if includeSchedule {
      ScheduleInfoBuilt(db, s.value, false, false);
    }
    ReservationPartsBuilt(db, v, includeRoom, includeLecturer, includeSchedule);
  }

  /** `to_building_info` copies `id`, `name` and `code` and formats the timestamps. */
  lemma BuildingScalarsCopied(db: Db, b: Building, includeRoom: bool)
    requires Consistent(db)
    ensures ToBuildingInfo(db, b, includeRoom).Built?
    ensures var bi: BuildingInfo := ToBuildingInfo(db, b, includeRoom).value;
      bi.id == b.id && bi.name == b.name && bi.code == b.code
      && bi.createdAt == Format(b.createdAt) && bi.lastEdited == Format(b.lastEdited)
  {
    BuildingInfoBuilt(db, b, includeRoom);
  }

  /** `to_room_info` copies `id`, `name`, `code` and `capacity`. */
  lemma RoomScalarsCopied(db: Db, room: Room, includeReservation: bool, includeBuilding: bool)
    requires Consistent(db) && room in db.rooms
    ensures ToRoomInfo(db, room, includeReservation, includeBuilding).Built?
    ensures var ri: RoomInfo := ToRoomInfo(db, room, includeReservation, includeBuilding).value;
      ri.id == room.id && ri.name == room.name && ri.code == room.code
      && ri.capacity == room.capacity
  {
    RoomInfoBuilt(db, room, includeReservation, includeBuilding);
  }

  /** `to_schedule_info` copies `id`, `course` and both blocks and formats the timestamps. */
  lemma ScheduleScalarsCopied(db: Db, s: Schedule, includeLecturer: bool, includeReservations: bool)
    requires Consistent(db) && s in db.schedules
    ensures ToScheduleInfo(db, s, includeLecturer, includeReservations).Built?
    ensures var si: ScheduleInfo := ToScheduleInfo(db, s, includeLecturer, includeReservations).value;
      si.id == s.id && si.course == s.course
      && si.startBlock == s.startBlock && si.endBlock == s.endBlock
      && si.createdAt == Format(s.createdAt) && si.lastEdited == Format(s.lastEdited)
  {
    ScheduleInfoBuilt(db, s, includeLecturer, includeReservations);
  }

  /** `to_room_reservation` copies `id` and both blocks and formats the date and the timestamps. */
  lemma ReservationScalarsCopied(db: Db, v: RoomReservation, includeRoom: bool,
                                 includeLecturer: bool, includeSchedule: bool)
    requires Consistent(db) && v in db.reservations
    ensures ToRoomReservation(db, v, includeRoom, includeLecturer, includeSchedule).Built?
    ensures var vi: RoomReservationInfo :=
        ToRoomReservation(db, v, includeRoom, includeLecturer, includeSchedule).value;
      vi.id == v.id && vi.date == Format(v.date)
      && vi.startBlock == v.startBlock && vi.endBlock == v.endBlock
      && vi.createdAt == Format(v.createdAt) && vi.lastEdited == Format(v.lastEdited)
  {
    RoomReservationBuilt(db, v, includeRoom, includeLecturer, includeSchedule);
  }

  /**
   * `to_lecturer_info` copies the identity columns and flags, formats `dob` and the
   * timestamps, gives the enum values of gender and faculty, and never exposes the password.
   */
  lemma LecturerScalarsCopied(db: Db, l: Lecturer, includeSchedules: bool, includeReservation: bool)
    requires Consistent(db)
    ensures ToLecturerInfo(db, l, includeSchedules, includeReservation).Built?
    ensures var li: LecturerInfo := ToLecturerInfo(db, l, includeSchedules, includeReservation).value;
      li.id == l.id && li.username == l.username && li.email == l.email
      && li.firstName == l.firstName && li.lastName == l.lastName
      && li.dob == Format(l.dob) && li.gender == GenderValue(l.gender)
      && li.faculty == FacultyValue(l.faculty) && li.enabled == l.enabled && li.active == l.active
      && li.createdAt == Format(l.createdAt) && li.lastEdited == Format(l.lastEdited)
  {
    LecturerInfoBuilt(db, l, includeSchedules, includeReservation);
  }
}
