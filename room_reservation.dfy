/**
 * The handlers of routes/room_reservation.py. `create_reservations` is the one with a decision
 * to make: it resolves the schedule, the lecturer and the room, rejects a booking that the
 * conflict query matches, and inserts the row with the schedule's blocks.
 */
module ReservationRoutes {
  import opened Basics
  import opened Enums
  import opened Timestamps
  import opened Tables
  import opened Models
  import opened Dtos
  import opened ObjectMapper
  import opened Responses
  import opened Store

  // ---------------------------------------------------------------------------------------
  // The conflict query of `create_reservations`.

  /** A stored reservation matches the query: same date, and a shared start or end block. */
  predicate Clashes(v: RoomReservation, date: DateTime, startBlock: string, endBlock: string) {
    v.date == date && (v.startBlock == startBlock || v.endBlock == endBlock)
  }

  /**
   * The reservations on `date` whose start block or end block equals the schedule's, in table
   * order. No condition on the room is part of the query.
   */
  function ConflictQuery(rows: seq<RoomReservation>, date: DateTime, startBlock: string,
                         endBlock: string): (r: seq<RoomReservation>)
    ensures forall v :: v in r <==> v in rows && Clashes(v, date, startBlock, endBlock)
    ensures r == [] <==> forall v :: v in rows ==> !Clashes(v, date, startBlock, endBlock)
  {
    if rows == [] then []
    else
      (if Clashes(rows[0], date, startBlock, endBlock) then [rows[0]] else [])
        + ConflictQuery(rows[1..], date, startBlock, endBlock)
  }

  /**
   * A request for one room is refused with 409 because of a stored booking of a different
   * room on the same date that shares an endpoint with the schedule's blocks.
   */
  lemma ConflictIgnoresRoom(db: Db, info: RoomReservationCreate, v: RoomReservation)
    requires ReachesConflictQuery(db, info) && info.roomId.Some?
    requires v in db.reservations && v.roomId != info.roomId.value
    requires v.date == Parse(info.date.value).value
    requires v.startBlock == ChosenSchedule(db, info).startBlock
          || v.endBlock == ChosenSchedule(db, info).endBlock
    ensures Conflicts(db, info) && !CreateSucceeds(db, info)
  {
    var sch := ChosenSchedule(db, info);
    assert v in ConflictQuery(db.reservations, Parse(info.date.value).value, sch.startBlock, sch.endBlock);
  }

  /** Two time-block intervals share at least one block. */
  predicate Overlaps(s1: TimeBlock, e1: TimeBlock, s2: TimeBlock, e2: TimeBlock) {
    Ordinal(s1) <= Ordinal(e2) && Ordinal(s2) <= Ordinal(e1)
  }

  /**
   * The query misses a real overlap in the same room: a stored booking of BLOCK_1 to BLOCK_4
   * does not block a booking of BLOCK_2 to BLOCK_3 on the same date, because neither endpoint
   * is shared.
   */
  lemma ConflictMissesNestedOverlap(v: RoomReservation, date: DateTime)
    requires v.date == date
    requires v.startBlock == TimeBlockValue(Block1) && v.endBlock == TimeBlockValue(Block4)
    ensures Overlaps(Block1, Block4, Block2, Block3)
    ensures ConflictQuery([v], date, TimeBlockValue(Block2), TimeBlockValue(Block3)) == []
  {
  }

  /**
   * Without a shared endpoint, the query reports no conflict, even when the intervals
   * overlap.
   */
  lemma ConflictNeedsSharedEndpoint(rows: seq<RoomReservation>, date: DateTime, startBlock: string,
                                    endBlock: string)
    requires forall v :: v in rows ==> v.startBlock != startBlock && v.endBlock != endBlock
    ensures ConflictQuery(rows, date, startBlock, endBlock) == []
  {
  }

  /**
   * A stored booking of BLOCK_1 to BLOCK_4 lets a second booking of BLOCK_2 to BLOCK_3 into
   * the same room on the same date, which leaves the room double-booked.
   */
  lemma DoubleBookingAdmitted(date: DateTime, now: DateTime)
    ensures var v := NewReservation(1, 7, 1, 1, date, Some(TimeBlockValue(Block1)), Some(TimeBlockValue(Block4)), now);
      var w := NewReservation(2, 7, 1, 1, date, Some(TimeBlockValue(Block2)), Some(TimeBlockValue(Block3)), now);
      && ConflictQuery([v], date, w.startBlock, w.endBlock) == []
      && !NoDoubleBooking([v] + [w])
  {
    var v := NewReservation(1, 7, 1, 1, date, Some(TimeBlockValue(Block1)), Some(TimeBlockValue(Block4)), now);
    var w := NewReservation(2, 7, 1, 1, date, Some(TimeBlockValue(Block2)), Some(TimeBlockValue(Block3)), now);
    assert ConflictQuery([v], date, w.startBlock, w.endBlock) == [] by {
      assert v.startBlock[6] != w.startBlock[6] && v.endBlock[6] != w.endBlock[6];
    }
    assert Occupies(w, v.roomId, v.date, v.startBlock, v.endBlock) by {
      TimeBlockRoundTrip(Block1);
      TimeBlockRoundTrip(Block2);
      TimeBlockRoundTrip(Block3);
      TimeBlockRoundTrip(Block4);
      assert BlocksOverlap(w.startBlock, w.endBlock, v.startBlock, v.endBlock);
    }
    assert v in [v] + [w] && w in [v] + [w];
  }

  /** Both intervals name members of TimeBlock and share at least one block. */
  predicate BlocksOverlap(s1: string, e1: string, s2: string, e2: string) {
    && TimeBlockOf(s1).Some? && TimeBlockOf(e1).Some?
    && TimeBlockOf(s2).Some? && TimeBlockOf(e2).Some?
    && Overlaps(TimeBlockOf(s1).value, TimeBlockOf(e1).value, TimeBlockOf(s2).value, TimeBlockOf(e2).value)
  }

  /**
   * The intended conflict rule: a stored booking of the same room on the same date whose
   * blocks overlap the requested ones, or share an endpoint with them.
   */
  predicate Occupies(v: RoomReservation, roomId: int, date: DateTime, startBlock: string, endBlock: string) {
    && v.roomId == roomId && v.date == date
    && (BlocksOverlap(v.startBlock, v.endBlock, startBlock, endBlock)
        || v.startBlock == startBlock || v.endBlock == endBlock)
  }

  /** No two distinct bookings occupy the same room on the same date at overlapping blocks. */
  predicate NoDoubleBooking(rows: seq<RoomReservation>) {
    forall v, w :: v in rows && w in rows && v.id != w.id ==>
      !Occupies(w, v.roomId, v.date, v.startBlock, v.endBlock)
  }

  /** The query the conflict check evidently intends: restricted to the room, on true overlap. */
  function RoomConflictQuery(rows: seq<RoomReservation>, roomId: int, date: DateTime, startBlock: string,
                             endBlock: string): (r: seq<RoomReservation>)
    ensures forall v :: v in r <==> v in rows && Occupies(v, roomId, date, startBlock, endBlock)
    ensures r == [] <==> forall v :: v in rows ==> !Occupies(v, roomId, date, startBlock, endBlock)
  {
    if rows == [] then []
    else
      (if Occupies(rows[0], roomId, date, startBlock, endBlock) then [rows[0]] else [])
        + RoomConflictQuery(rows[1..], roomId, date, startBlock, endBlock)
  }

  /** Occupation is symmetric between two bookings. */
  lemma OccupiesSymmetric(v: RoomReservation, w: RoomReservation)
    ensures Occupies(w, v.roomId, v.date, v.startBlock, v.endBlock)
        <==> Occupies(v, w.roomId, w.date, w.startBlock, w.endBlock)
  {
  }

  /**
   * A booking the corrected query admits keeps the table free of double bookings, and
   * bookings of other rooms never stand in its way.
   */
  lemma AdmittedBookingKeepsNoDoubleBooking(rows: seq<RoomReservation>, v: RoomReservation)
    requires NoDoubleBooking(rows) && !HasKey(rows, ReservationId, v.id)
    requires RoomConflictQuery(rows, v.roomId, v.date, v.startBlock, v.endBlock) == []
    ensures NoDoubleBooking(rows + [v])
  {
    var rows' := rows + [v];
    forall x, y | x in rows' && y in rows' && x.id != y.id
      ensures !Occupies(y, x.roomId, x.date, x.startBlock, x.endBlock)
    {
      if x == v {
        assert y in rows;
      } else if y == v {
        assert x in rows;
        OccupiesSymmetric(x, y);
      } else {
        assert x in rows && y in rows;
      }
    }
  }

  /** The corrected query catches the nested overlap the original query misses. */
  lemma RoomConflictCatchesNestedOverlap(v: RoomReservation)
    requires v.startBlock == TimeBlockValue(Block1) && v.endBlock == TimeBlockValue(Block4)
    ensures RoomConflictQuery([v], v.roomId, v.date, TimeBlockValue(Block2), TimeBlockValue(Block3)) == [v]
  {
    TimeBlockRoundTrip(Block1);
    TimeBlockRoundTrip(Block2);
    TimeBlockRoundTrip(Block3);
    TimeBlockRoundTrip(Block4);
    assert Occupies(v, v.roomId, v.date, TimeBlockValue(Block2), TimeBlockValue(Block3));
  }

  // ---------------------------------------------------------------------------------------
  // create_reservations

  predicate ScheduleLookupFails(db: Db, info: RoomReservationCreate) {
    info.scheduleId.Some? && !HasKey(db.schedules, ScheduleId, info.scheduleId.value)
  }

  predicate LecturerLookupFails(db: Db, info: RoomReservationCreate) {
    info.lecturerId.Some? && !HasKey(db.lecturers, LecturerId, info.lecturerId.value)
  }

  predicate RoomLookupFails(db: Db, info: RoomReservationCreate) {
    info.roomId.Some? && !HasKey(db.rooms, RoomId, info.roomId.value)
  }

  /** Every id the request supplies names an existing row. */
  predicate LookupsSucceed(db: Db, info: RoomReservationCreate) {
    !ScheduleLookupFails(db, info) && !LecturerLookupFails(db, info) && !RoomLookupFails(db, info)
  }

  /** `string_to_datetime(reservation_info.date)` returns. */
  predicate DateParses(info: RoomReservationCreate) {
    info.date.Some? && Parse(info.date.value).Some?
  }

  /** The request has passed the lookups, the date and the schedule dereference. */
  predicate ReachesConflictQuery(db: Db, info: RoomReservationCreate) {
    LookupsSucceed(db, info) && DateParses(info) && info.scheduleId.Some?
  }

  function ChosenSchedule(db: Db, info: RoomReservationCreate): Schedule
    requires ReachesConflictQuery(db, info)
  {
    Find(db.schedules, ScheduleId, info.scheduleId.value).value
  }

  /** The conflict query matches some reservation. */
  predicate Conflicts(db: Db, info: RoomReservationCreate)
    requires ReachesConflictQuery(db, info)
  {
    var sch := ChosenSchedule(db, info);
    |ConflictQuery(db.reservations, Parse(info.date.value).value, sch.startBlock, sch.endBlock)| > 0
  }

  /** The request reaches `db.commit()` and the insert satisfies the constraints. */
  predicate CreateSucceeds(db: Db, info: RoomReservationCreate) {
    ReachesConflictQuery(db, info) && !Conflicts(db, info) && info.roomId.Some?
  }

  /**
   * The row `RoomReservation(**reservation_info.model_dump())` inserts once `lecturer_id`,
   * `start_block` and `end_block` have been overwritten.
   */
  function ReservationRow(db: Db, info: RoomReservationCreate, userId: int, now: DateTime)
    : RoomReservation
    requires CreateSucceeds(db, info)
  {
    var sch := ChosenSchedule(db, info);
    NewReservation(NextKey(db.reservations, ReservationId), info.roomId.value, info.scheduleId.value,
                   info.lecturerId.GetOr(userId), Parse(info.date.value).value,
                   Some(sch.startBlock), Some(sch.endBlock), now)
  }

  /**
   * The inserted row takes its blocks from the schedule, whatever the request says, its
   * lecturer from the request or else from the signed-in user, and a fresh id.
   */
  lemma ReservationRowFields(db: Db, info: RoomReservationCreate, userId: int, now: DateTime)
    requires CreateSucceeds(db, info)
    ensures var v := ReservationRow(db, info, userId, now);
      && v.startBlock == ChosenSchedule(db, info).startBlock
      && v.endBlock == ChosenSchedule(db, info).endBlock
      && v.lecturerId == (if info.lecturerId.Some? then info.lecturerId.value else userId)
      && v.roomId == info.roomId.value && v.scheduleId == info.scheduleId.value
      && !HasKey(db.reservations, ReservationId, v.id)
  {
  }

  /** Once a booking is stored, the same request meets a conflict. */
  lemma RepeatedBookingConflicts(db: Db, info: RoomReservationCreate, userId: int, now: DateTime)
    requires CreateSucceeds(db, info)
    ensures var db2 := db.(reservations := db.reservations + [ReservationRow(db, info, userId, now)]);
      ReachesConflictQuery(db2, info) && Conflicts(db2, info)
  {
    var v := ReservationRow(db, info, userId, now);
    var db2 := db.(reservations := db.reservations + [v]);
    assert ReachesConflictQuery(db2, info);
    var sch := ChosenSchedule(db2, info);
    assert v in db2.reservations;
    assert v in ConflictQuery(db2.reservations, Parse(info.date.value).value, sch.startBlock, sch.endBlock);
  }

  /** `get_reservations`: the page of rows from `skip`, at most `limit`, each projected in full. */
  method GetReservations(s: Session, skip: nat, limit: nat) returns (reply: Reply<seq<RoomReservationInfo>>)
    requires s.Valid()
    ensures reply.Success? && reply.status == 200
    ensures var page := Page(s.reservations, skip, limit);
      |reply.data| == |page|
      && forall i :: 0 <= i < |page| ==>
           ToRoomReservation(s.Snapshot(), page[i], true, true, true) == Built(reply.data[i])
  {
    var db := s.Snapshot();
    var page := Page(db.reservations, skip, limit);
    var views := seq(|page|, i requires 0 <= i < |page| => ToRoomReservation(db, page[i], true, true, true));
    forall i | 0 <= i < |page| ensures views[i].Built? {
      RoomReservationBuilt(db, page[i], true, true, true);
    }
    reply := Respond(200, Collect(views));
  }

  /** `create_reservations`, with `user` the lecturer the bearer token names. */
  method CreateReservations(s: Session, info: RoomReservationCreate, user: Lecturer, now: DateTime)
    returns (reply: Reply<RoomReservationInfo>)
    requires s.Valid() && user in s.lecturers
    modifies s
    ensures s.Valid()
    ensures ScheduleLookupFails(old(s.Snapshot()), info) ==>
      reply == Failure(404, "Schedule is not found!")
    ensures !ScheduleLookupFails(old(s.Snapshot()), info) && LecturerLookupFails(old(s.Snapshot()), info) ==>
      reply == Failure(404, "Lecturer is not found!")
    ensures !ScheduleLookupFails(old(s.Snapshot()), info) && !LecturerLookupFails(old(s.Snapshot()), info)
            && RoomLookupFails(old(s.Snapshot()), info) ==>
      reply == Failure(404, "Room is not found!")
    ensures LookupsSucceed(old(s.Snapshot()), info) && info.date.None? ==> reply == Raised(TypeError)
    ensures LookupsSucceed(old(s.Snapshot()), info) && info.date.Some? && !DateParses(info) ==>
      reply == Raised(ValueError)
    ensures LookupsSucceed(old(s.Snapshot()), info) && DateParses(info) && info.scheduleId.None? ==>
      reply == Raised(AttributeError)
    ensures ReachesConflictQuery(old(s.Snapshot()), info) ==>
      (reply == Failure(409, "Room is already reserved!") <==> Conflicts(old(s.Snapshot()), info))
    ensures ReachesConflictQuery(old(s.Snapshot()), info) && !Conflicts(old(s.Snapshot()), info)
            && info.roomId.None? ==>
      reply == Raised(IntegrityError)
    ensures reply.Success? <==> CreateSucceeds(old(s.Snapshot()), info)
    ensures !CreateSucceeds(old(s.Snapshot()), info) ==> s.Snapshot() == old(s.Snapshot())
    ensures CreateSucceeds(old(s.Snapshot()), info) ==>
      && s.Snapshot() == old(s.Snapshot()).(reservations :=
           old(s.reservations) + [ReservationRow(old(s.Snapshot()), info, user.id, now)])
      && reply.status == 201
      && ToRoomReservation(s.Snapshot(), ReservationRow(old(s.Snapshot()), info, user.id, now),
                           true, true, true) == Built(reply.data)
  {
    var db := s.Snapshot();
    var schedule: Option<Schedule> := None;
    if info.scheduleId.Some? {
      schedule := Find(db.schedules, ScheduleId, info.scheduleId.value);
      if schedule.None? {
        assert ScheduleLookupFails(db, info);
        return Failure(404, "Schedule is not found!");
      }
    }
    assert !ScheduleLookupFails(db, info);
    var lecturerId := user.id;
    if info.lecturerId.Some? {
      var lecturer := Find(db.lecturers, LecturerId, info.lecturerId.value);
      if lecturer.None? {
        assert LecturerLookupFails(db, info);
        return Failure(404, "Lecturer is not found!");
      }
      lecturerId := lecturer.value.id;
    }
    assert !LecturerLookupFails(db, info);
    if info.roomId.Some? {
      var room := Find(db.rooms, RoomId, info.roomId.value);
      if room.None? {
        assert RoomLookupFails(db, info);
        return Failure(404, "Room is not found!");
      }
    }
    assert LookupsSucceed(db, info);
    // The first filter converts the date; the second reads the schedule's blocks.
    if info.date.None? {
      return Raised(TypeError);
    }
    var date := Parse(info.date.value);
    if date.None? {
      return Raised(ValueError);
    }
    if schedule.None? {
      return Raised(AttributeError);
    }
    assert ReachesConflictQuery(db, info);
    var sch := schedule.value;
    assert sch == ChosenSchedule(db, info);
    var clashes := ConflictQuery(db.reservations, date.value, sch.startBlock, sch.endBlock);
    if |clashes| > 0 {
      assert Conflicts(db, info);
      return Failure(409, "Room is already reserved!");
    }
    // `room_id` is NOT NULL.
    if info.roomId.None? {
      return Raised(IntegrityError);
    }
    assert CreateSucceeds(db, info);
    var row := NewReservation(NextKey(db.reservations, ReservationId), info.roomId.value,
                              info.scheduleId.value, lecturerId, date.value,
                              Some(sch.startBlock), Some(sch.endBlock), now);
    assert row == ReservationRow(db, info, user.id, now);
    ReservationRowFields(db, info, user.id, now);
    MemberHasKey(db.lecturers, LecturerId, user);
    s.AddReservation(row);
    RoomReservationBuilt(s.Snapshot(), row, true, true, true);
    reply := Respond(201, ToRoomReservation(s.Snapshot(), row, true, true, true));
  }

  // ---------------------------------------------------------------------------------------
  // update_reservations

  /**
   * The row after the six assignments: each field the request supplies replaces the stored
   * one, with `date` as the database reads the supplied string.
   */
  function PatchReservation(v: RoomReservation, info: RoomReservationUpdate, date: Option<DateTime>)
    : (r: RoomReservation)
    ensures r.id == v.id && r.createdAt == v.createdAt && r.lastEdited == v.lastEdited
    ensures r.roomId == (if info.roomId.Some? then info.roomId.value else v.roomId)
    ensures r.scheduleId == (if info.scheduleId.Some? then info.scheduleId.value else v.scheduleId)
    ensures r.lecturerId == (if info.lecturerId.Some? then info.lecturerId.value else v.lecturerId)
    ensures r.date == (if date.Some? then date.value else v.date)
    ensures r.startBlock == (if info.startBlock.Some? then info.startBlock.value else v.startBlock)
    ensures r.endBlock == (if info.endBlock.Some? then info.endBlock.value else v.endBlock)
  {
    v.(lecturerId := info.lecturerId.GetOr(v.lecturerId),
       scheduleId := info.scheduleId.GetOr(v.scheduleId),
       roomId := info.roomId.GetOr(v.roomId),
       date := date.GetOr(v.date),
       startBlock := info.startBlock.GetOr(v.startBlock),
       endBlock := info.endBlock.GetOr(v.endBlock))
  }

  /** The stored date the database makes of a supplied date string (`None`: not supplied). */
  function SuppliedDate(info: RoomReservationUpdate): Option<DateTime>
    requires info.date.Some? ==> Parse(info.date.value).Some?
  {
    if info.date.Some? then Parse(info.date.value) else None
  }

  /**
   * `update_reservations`: partial update of an existing row, with no conflict check. The
   * database refuses a date string it cannot read and a reference to a missing row.
   */
  method UpdateReservations(s: Session, rid: int, info: RoomReservationUpdate, now: DateTime)
    returns (reply: Reply<RoomReservationInfo>)
    requires s.Valid()
    modifies s
    ensures s.Valid()
    ensures !HasKey(old(s.reservations), ReservationId, rid) ==>
      reply == Failure(404, "Reservation is not found!") && s.Snapshot() == old(s.Snapshot())
    ensures HasKey(old(s.reservations), ReservationId, rid) && info.date.Some?
            && Parse(info.date.value).None? ==>
      reply == Raised(DataError) && s.Snapshot() == old(s.Snapshot())
    ensures HasKey(old(s.reservations), ReservationId, rid)
            && (info.date.Some? ==> Parse(info.date.value).Some?) ==>
      var v := PatchReservation(Find(old(s.reservations), ReservationId, rid).value, info,
                                SuppliedDate(info));
      if !ReservationResolves(old(s.rooms), old(s.schedules), old(s.lecturers), v) then
        reply == Raised(IntegrityError) && s.Snapshot() == old(s.Snapshot())
      else
        var stored := if v != Find(old(s.reservations), ReservationId, rid).value || info.date.Some?
                      then v.(lastEdited := now) else v;
        && s.Snapshot() == old(s.Snapshot()).(reservations :=
             ReplaceKey(old(s.reservations), ReservationId, stored))
        && reply.Success? && reply.status == 200
        && ToRoomReservation(s.Snapshot(), stored, true, true, true) == Built(reply.data)
  {
    var db := s.Snapshot();
    var found := Find(db.reservations, ReservationId, rid);
    if found.None? {
      return Failure(404, "Reservation is not found!");
    }
    var old_row := found.value;
    var date: Option<DateTime> := None;
    if info.date.Some? {
      date := Parse(info.date.value);
      if date.None? {
        return Raised(DataError);
      }
    }
    var v := PatchReservation(old_row, info, date);
    if !ReservationResolves(db.rooms, db.schedules, db.lecturers, v) {
      return Raised(IntegrityError);
    }
    // A supplied date is a string, which never equals the stored datetime, so it always
    // counts as a change and `last_edited` moves.
    var stored := if v != old_row || info.date.Some? then v.(lastEdited := now) else v;
    UpdateReservationConsistent(db, stored);
    ReservationsKeepFit(db, ReplaceKey(db.reservations, ReservationId, stored));
    s.reservations := ReplaceKey(s.reservations, ReservationId, stored);
    assert s.Snapshot() == db.(reservations := ReplaceKey(db.reservations, ReservationId, stored));
    assert stored in s.reservations by {
      ReplaceMembers(db.reservations, ReservationId, stored, stored);
    }
    RoomReservationBuilt(s.Snapshot(), stored, true, true, true);
    reply := Respond(200, ToRoomReservation(s.Snapshot(), stored, true, true, true));
  }

  // ---------------------------------------------------------------------------------------
  // delete_reservations

  /**
   * `delete_reservations`: removes the row when it exists; either way the handler ends
   * without a return statement.
   */
  method DeleteReservations(s: Session, rid: int) returns (reply: Reply<string>)
    requires s.Valid()
    modifies s
    ensures s.Valid()
    ensures s.Snapshot() == WithoutReservation(old(s.Snapshot()), rid)
    ensures reply == NoBody
  {
    var db := s.Snapshot();
    var found := Find(db.reservations, ReservationId, rid);
    if found.Some? {
      DeleteReservationConsistent(db, rid);
      ReservationsKeepFit(db, RemoveKey(db.reservations, ReservationId, rid));
      s.reservations := RemoveKey(s.reservations, ReservationId, rid);
    } else {
      RemoveAbsentKey(db.reservations, ReservationId, rid);
    }
    reply := NoBody;
  }
}
