/** The handlers of routes/schedule.py. */
module ScheduleRoutes {
  import opened Basics
  import opened Timestamps
  import opened Tables
  import opened Models
  import opened Dtos
  import opened ObjectMapper
  import opened Responses
  import opened Store

  /** `get_schedules`: the page of rows from `skip`, at most `limit`, each projected in full. */
  method GetSchedules(s: Session, skip: nat, limit: nat) returns (reply: Reply<seq<ScheduleInfo>>)
    requires s.Valid()
    ensures reply.Success? && reply.status == 200
    ensures var page := Page(s.schedules, skip, limit);
      |reply.data| == |page|
      && forall i :: 0 <= i < |page| ==> ToScheduleInfo(s.Snapshot(), page[i], true, true) == Built(reply.data[i])
  {
    var db := s.Snapshot();
    var page := Page(db.schedules, skip, limit);
    var views := seq(|page|, i requires 0 <= i < |page| => ToScheduleInfo(db, page[i], true, true));
    forall i | 0 <= i < |page| ensures views[i].Built? {
      ScheduleInfoBuilt(db, page[i], true, true);
    }
    reply := Respond(200, Collect(views));
  }

  /**
   * `get_schedule_by_id`: the existence test is inverted, so an existing schedule gets 404 and
   * a missing one reaches `to_schedule_info(None)`, which raises; the handler never succeeds.
   */
  method GetScheduleById(s: Session, scheId: int) returns (reply: Reply<ScheduleInfo>)
    ensures !reply.Success?
    ensures HasKey(s.schedules, ScheduleId, scheId) <==> reply == Failure(404, "Schedule is not found")
    ensures !HasKey(s.schedules, ScheduleId, scheId) <==> reply == Raised(AttributeError)
  {
    var schedule := Find(s.schedules, ScheduleId, scheId);
    if schedule.Some? {
      return Failure(404, "Schedule is not found");
    }
    reply := Raised(AttributeError);
  }

  /**
   * `get_schedule_by_id` with the existence test the message evidently intends: 404 exactly
   * when no schedule has the id, otherwise the full projection.
   */
  method GetScheduleByIdIntended(s: Session, scheId: int) returns (reply: Reply<ScheduleInfo>)
    requires s.Valid()
    ensures !HasKey(s.schedules, ScheduleId, scheId) <==> reply == Failure(404, "Schedule is not found")
    ensures HasKey(s.schedules, ScheduleId, scheId) ==>
      && reply.Success? && reply.status == 200
      && ToScheduleInfo(s.Snapshot(), Find(s.schedules, ScheduleId, scheId).value, true, true) == Built(reply.data)
  {
    var db := s.Snapshot();
    var schedule := Find(db.schedules, ScheduleId, scheId);
    if schedule.None? {
      return Failure(404, "Schedule is not found");
    }
    ScheduleInfoBuilt(db, schedule.value, true, true);
    reply := Respond(200, ToScheduleInfo(db, schedule.value, true, true));
  }

  /** The schedule `Schedule(**schedule.model_dump())` inserts. */
  function ScheduleRow(db: Db, info: ScheduleCreate, now: DateTime): Schedule {
    NewSchedule(NextKey(db.schedules, ScheduleId), info.lecturerId, info.course,
                Some(info.startBlock), Some(info.endBlock), now)
  }

  /** The inserted schedule carries the request's fields, a fresh id and `now` as both timestamps. */
  lemma ScheduleRowFields(db: Db, info: ScheduleCreate, now: DateTime)
    ensures var sch := ScheduleRow(db, info, now);
      && sch.lecturerId == info.lecturerId && sch.course == info.course
      && sch.startBlock == info.startBlock && sch.endBlock == info.endBlock
      && sch.createdAt == now && sch.lastEdited == now
      && !HasKey(db.schedules, ScheduleId, sch.id)
      && (ScheduleFits(sch) <==> |info.course| <= 200)
  {
  }

  /**
   * `create_schedule`: 404 for an unknown lecturer; a course longer than its column fails
   * with DataError and nothing is stored; otherwise one new row and status 200.
   */
  method CreateSchedule(s: Session, info: ScheduleCreate, now: DateTime) returns (reply: Reply<ScheduleInfo>)
    requires s.Valid()
    modifies s
    ensures s.Valid()
    ensures !HasKey(old(s.lecturers), LecturerId, info.lecturerId) ==>
      reply == Failure(404, "Lecturer is not existed!") && s.Snapshot() == old(s.Snapshot())
    ensures HasKey(old(s.lecturers), LecturerId, info.lecturerId)
            && !ScheduleFits(ScheduleRow(old(s.Snapshot()), info, now)) ==>
      reply == Raised(DataError) && s.Snapshot() == old(s.Snapshot())
    ensures HasKey(old(s.lecturers), LecturerId, info.lecturerId)
            && ScheduleFits(ScheduleRow(old(s.Snapshot()), info, now)) ==>
      && s.Snapshot() == old(s.Snapshot()).(schedules :=
           old(s.schedules) + [ScheduleRow(old(s.Snapshot()), info, now)])
      && reply.Success? && reply.status == 200
      && ToScheduleInfo(s.Snapshot(), ScheduleRow(old(s.Snapshot()), info, now), true, true)
         == Built(reply.data)
  {
    var db := s.Snapshot();
    var lecturer := Find(db.lecturers, LecturerId, info.lecturerId);
    if lecturer.None? {
      return Failure(404, "Lecturer is not existed!");
    }
    var row := ScheduleRow(db, info, now);
    if !ScheduleFits(row) {
      return Raised(DataError);
    }
    ScheduleRowFields(db, info, now);
    InsertScheduleConsistent(db, row);
    SchedulesKeepFit(db, db.schedules + [row]);
    s.schedules := s.schedules + [row];
    assert s.Snapshot() == db.(schedules := db.schedules + [row]);
    ScheduleInfoBuilt(s.Snapshot(), row, true, true);
    reply := Respond(200, ToScheduleInfo(s.Snapshot(), row, true, true));
  }

  /** The row after the four assignments: each supplied field replaces the stored one. */
  function PatchSchedule(sch: Schedule, info: ScheduleUpdate): (r: Schedule)
    ensures r.id == sch.id && r.createdAt == sch.createdAt && r.lastEdited == sch.lastEdited
    ensures r.startBlock == (if info.startBlock.Some? then info.startBlock.value else sch.startBlock)
    ensures r.endBlock == (if info.endBlock.Some? then info.endBlock.value else sch.endBlock)
    ensures r.lecturerId == (if info.lecturerId.Some? then info.lecturerId.value else sch.lecturerId)
    ensures r.course == (if info.course.Some? then info.course.value else sch.course)
  {
    sch.(startBlock := info.startBlock.GetOr(sch.startBlock),
         endBlock := info.endBlock.GetOr(sch.endBlock),
         lecturerId := info.lecturerId.GetOr(sch.lecturerId),
         course := info.course.GetOr(sch.course))
  }

  /** `onupdate`: an UPDATE is issued, and `last_edited` set, only when some column changed. */
  function StampSchedule(before: Schedule, after: Schedule, now: DateTime): (r: Schedule)
    ensures r.lastEdited == (if after != before then now else after.lastEdited)
    ensures r.(lastEdited := after.lastEdited) == after
  {
    if after != before then after.(lastEdited := now) else after
  }

  /**
   * `update_schedule`: 404 for an unknown id; otherwise the supplied fields overwrite the
   * stored ones. A course longer than its column fails with DataError, and a lecturer id
   * that names no lecturer fails the foreign key.
   */
  method UpdateSchedule(s: Session, scheId: int, info: ScheduleUpdate, now: DateTime)
    returns (reply: Reply<ScheduleInfo>)
    requires s.Valid()
    modifies s
    ensures s.Valid()
    ensures !HasKey(old(s.schedules), ScheduleId, scheId) ==>
      reply == Failure(404, "Schedule is not found!") && s.Snapshot() == old(s.Snapshot())
    ensures HasKey(old(s.schedules), ScheduleId, scheId) ==>
      var before := Find(old(s.schedules), ScheduleId, scheId).value;
      var after := PatchSchedule(before, info);
      if !ScheduleFits(after) then
        reply == Raised(DataError) && s.Snapshot() == old(s.Snapshot())
      else if !HasKey(old(s.lecturers), LecturerId, after.lecturerId) then
        reply == Raised(IntegrityError) && s.Snapshot() == old(s.Snapshot())
      else
        && s.Snapshot() == old(s.Snapshot()).(schedules :=
             ReplaceKey(old(s.schedules), ScheduleId, StampSchedule(before, after, now)))
        && reply.Success? && reply.status == 200
        && ToScheduleInfo(s.Snapshot(), StampSchedule(before, after, now), true, true) == Built(reply.data)
  {
    var db := s.Snapshot();
    var found := Find(db.schedules, ScheduleId, scheId);
    if found.None? {
      return Failure(404, "Schedule is not found!");
    }
    var after := PatchSchedule(found.value, info);
    if !ScheduleFits(after) {
      return Raised(DataError);
    }
    if !HasKey(db.lecturers, LecturerId, after.lecturerId) {
      return Raised(IntegrityError);
    }
    var stored := StampSchedule(found.value, after, now);
    UpdateScheduleConsistent(db, stored);
    ReplaceKeepsFit(db.schedules, ScheduleId, stored, ScheduleFits);
    SchedulesKeepFit(db, ReplaceKey(db.schedules, ScheduleId, stored));
    s.schedules := ReplaceKey(s.schedules, ScheduleId, stored);
    assert s.Snapshot() == db.(schedules := ReplaceKey(db.schedules, ScheduleId, stored));
    assert stored in s.schedules by {
      ReplaceMembers(db.schedules, ScheduleId, stored, stored);
    }
    ScheduleInfoBuilt(s.Snapshot(), stored, true, true);
    reply := Respond(200, ToScheduleInfo(s.Snapshot(), stored, true, true));
  }

  /**
   * `delete_schedule`: deletes the schedule, with its reservations, when it exists, and
   * answers 200 "Success!" either way.
   */
  method DeleteSchedule(s: Session, scheId: int) returns (reply: Reply<string>)
    requires s.Valid()
    modifies s
    ensures s.Valid()
    ensures s.Snapshot() == WithoutSchedule(old(s.Snapshot()), scheId)
    ensures reply == Success(200, "Success!")
  {
    var db := s.Snapshot();
    var found := Find(db.schedules, ScheduleId, scheId);
    if found.Some? {
      DeleteScheduleCascade(db, scheId);
      var d := WithoutSchedule(db, scheId);
      SchedulesKeepFit(db, d.schedules);
      ReservationsKeepFit(db.(schedules := d.schedules), d.reservations);
      s.schedules, s.reservations := d.schedules, d.reservations;
      assert s.Snapshot() == d;
    } else {
      RemoveAbsentKey(db.schedules, ScheduleId, scheId);
      forall v | v in db.reservations ensures v.scheduleId != scheId {
        assert HasKey(db.schedules, ScheduleId, v.scheduleId);
      }
      RemoveAbsentKey(db.reservations, ReservationScheduleId, scheId);
    }
    reply := Success(200, "Success!");
  }
}
