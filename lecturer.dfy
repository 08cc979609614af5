/** The handlers of routes/lecturer.py. */
module LecturerRoutes {
  import opened Basics
  import opened Timestamps
  import opened Tables
  import opened Models
  import opened Dtos
  import opened ObjectMapper
  import opened Responses
  import opened Store

  /** `get_lecturers`: the page of rows from `skip`, at most `limit`, each projected in full. */
  method GetLecturers(s: Session, skip: nat, limit: nat) returns (reply: Reply<seq<LecturerInfo>>)
    requires s.Valid()
    ensures reply.Success? && reply.status == 200
    ensures var page := Page(s.lecturers, skip, limit);
      |reply.data| == |page|
      && forall i :: 0 <= i < |page| ==> ToLecturerInfo(s.Snapshot(), page[i], true, true) == Built(reply.data[i])
  {
    var db := s.Snapshot();
    var page := Page(db.lecturers, skip, limit);
    var views := seq(|page|, i requires 0 <= i < |page| => ToLecturerInfo(db, page[i], true, true));
    forall i | 0 <= i < |page| ensures views[i].Built? {
      LecturerInfoBuilt(db, page[i], true, true);
    }
    reply := Respond(200, Collect(views));
  }

  /**
   * `get_lecturer_by_id`: there is no existence test, so an unknown id reaches
   * `to_lecturer_info(None)`, which raises.
   */
  method GetLecturerById(s: Session, lid: int) returns (reply: Reply<LecturerInfo>)
    requires s.Valid()
    ensures !HasKey(s.lecturers, LecturerId, lid) <==> reply == Raised(AttributeError)
    ensures HasKey(s.lecturers, LecturerId, lid) ==>
      && reply.Success? && reply.status == 200
      && ToLecturerInfo(s.Snapshot(), Find(s.lecturers, LecturerId, lid).value, true, true) == Built(reply.data)
  {
    var db := s.Snapshot();
    var found := Find(db.lecturers, LecturerId, lid);
    if found.None? {
      return Raised(AttributeError);
    }
    LecturerInfoBuilt(db, found.value, true, true);
    reply := Respond(200, ToLecturerInfo(db, found.value, true, true));
  }

  /**
   * The row after `update_lecturer`'s eight assignments: each supplied field replaces the
   * stored one (the password verbatim, without hashing); id, flags and timestamps stay.
   */
  function PatchLecturer(l: Lecturer, info: LectureUpdate): (r: Lecturer)
    ensures r.dob == (if info.dob.Some? then info.dob.value else l.dob)
    ensures r.firstName == (if info.firstName.Some? then info.firstName.value else l.firstName)
    ensures r.lastName == (if info.lastName.Some? then info.lastName.value else l.lastName)
    ensures r.username == (if info.username.Some? then info.username.value else l.username)
    ensures r.password == (if info.password.Some? then info.password.value else l.password)
    ensures r.email == (if info.email.Some? then info.email.value else l.email)
    ensures r.faculty == (if info.faculty.Some? then info.faculty.value else l.faculty)
    ensures r.gender == (if info.gender.Some? then info.gender.value else l.gender)
    ensures r.id == l.id && r.enabled == l.enabled && r.active == l.active
    ensures r.createdAt == l.createdAt && r.lastEdited == l.lastEdited
  {
    l.(dob := info.dob.GetOr(l.dob),
       firstName := info.firstName.GetOr(l.firstName),
       lastName := info.lastName.GetOr(l.lastName),
       username := info.username.GetOr(l.username),
       password := info.password.GetOr(l.password),
       email := info.email.GetOr(l.email),
       faculty := info.faculty.GetOr(l.faculty),
       gender := info.gender.GetOr(l.gender))
  }

  /** An update that supplies nothing leaves the row as it was. */
  lemma EmptyPatchLecturer(l: Lecturer)
    ensures PatchLecturer(l, LectureUpdate(None, None, None, None, None, None, None, None)) == l
  {
  }

  /** `onupdate`: `last_edited` is set only when some column changed. */
  function StampLecturer(before: Lecturer, after: Lecturer, now: DateTime): (r: Lecturer)
    ensures r.lastEdited == (if after != before then now else after.lastEdited)
    ensures r.(lastEdited := after.lastEdited) == after
  {
    if after != before then after.(lastEdited := now) else after
  }

  /**
   * `update_lecturer`: 404 for an unknown id; a username, name or email longer than its
   * column fails with DataError, and a username or email another lecturer holds breaks a
   * unique constraint, and in both cases nothing is stored; otherwise the patched row
   * replaces the stored one.
   */
  method UpdateLecturer(s: Session, lid: int, info: LectureUpdate, now: DateTime)
    returns (reply: Reply<LecturerInfo>)
    requires s.Valid()
    modifies s
    ensures s.Valid()
    ensures !HasKey(old(s.lecturers), LecturerId, lid) ==>
      reply == Failure(404, "Lecturer not found!") && s.Snapshot() == old(s.Snapshot())
    ensures HasKey(old(s.lecturers), LecturerId, lid) ==>
      var before := Find(old(s.lecturers), LecturerId, lid).value;
      var after := PatchLecturer(before, info);
      if !LecturerFits(after) then
        reply == Raised(DataError) && s.Snapshot() == old(s.Snapshot())
      else if !IdentityFreeFor(old(s.lecturers), lid, after.username, after.email) then
        reply == Raised(IntegrityError) && s.Snapshot() == old(s.Snapshot())
      else
        && s.Snapshot() == old(s.Snapshot()).(lecturers :=
             ReplaceKey(old(s.lecturers), LecturerId, StampLecturer(before, after, now)))
        && reply.Success? && reply.status == 200
        && ToLecturerInfo(s.Snapshot(), StampLecturer(before, after, now), true, true) == Built(reply.data)
  {
    var db := s.Snapshot();
    var found := Find(db.lecturers, LecturerId, lid);
    if found.None? {
      return Failure(404, "Lecturer not found!");
    }
    var after := PatchLecturer(found.value, info);
    if !LecturerFits(after) {
      return Raised(DataError);
    }
    if !IdentityFreeFor(db.lecturers, lid, after.username, after.email) {
      return Raised(IntegrityError);
    }
    var stored := StampLecturer(found.value, after, now);
    UpdateLecturerConsistent(db, stored);
    ReplaceKeepsFit(db.lecturers, LecturerId, stored, LecturerFits);
    LecturersKeepFit(db, ReplaceKey(db.lecturers, LecturerId, stored));
    s.lecturers := ReplaceKey(s.lecturers, LecturerId, stored);
    assert s.Snapshot() == db.(lecturers := ReplaceKey(db.lecturers, LecturerId, stored));
    LecturerInfoBuilt(s.Snapshot(), stored, true, true);
    reply := Respond(200, ToLecturerInfo(s.Snapshot(), stored, true, true));
  }

  /**
   * `delete_lecturer`: deleting `None` for an unknown id raises; a lecturer that schedules or
   * reservations still point at cannot be deleted, since the ORM would null their NOT NULL
   * `lecturer_id`; otherwise the row goes and 200 "Success!" is answered.
   */
  method DeleteLecturer(s: Session, lid: int) returns (reply: Reply<string>)
    requires s.Valid()
    modifies s
    ensures s.Valid()
    ensures !HasKey(old(s.lecturers), LecturerId, lid) ==>
      reply == Raised(UnmappedInstanceError) && s.Snapshot() == old(s.Snapshot())
    ensures HasKey(old(s.lecturers), LecturerId, lid) && LecturerReferenced(old(s.Snapshot()), lid) ==>
      reply == Raised(IntegrityError) && s.Snapshot() == old(s.Snapshot())
    ensures HasKey(old(s.lecturers), LecturerId, lid) && !LecturerReferenced(old(s.Snapshot()), lid) ==>
      reply == Success(200, "Success!") && s.Snapshot() == WithoutLecturer(old(s.Snapshot()), lid)
  {
    var db := s.Snapshot();
    var found := Find(db.lecturers, LecturerId, lid);
    if found.None? {
      return Raised(UnmappedInstanceError);
    }
    if LecturerReferenced(db, lid) {
      return Raised(IntegrityError);
    }
    DeleteLecturerConsistent(db, lid);
    LecturersKeepFit(db, WithoutLecturer(db, lid).lecturers);
    s.lecturers := WithoutLecturer(db, lid).lecturers;
    reply := Success(200, "Success!");
  }
}
