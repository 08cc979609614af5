/** The handlers of routes/room.py. */
module RoomRoutes {
  import opened Basics
  import opened Timestamps
  import opened Tables
  import opened Models
  import opened Dtos
  import opened ObjectMapper
  import opened Responses
  import opened Store

  /** `get_rooms`: the page of rows from `skip`, at most `limit`, each projected in full. */
  method GetRooms(s: Session, skip: nat, limit: nat) returns (reply: Reply<seq<RoomInfo>>)
    requires s.Valid()
    ensures reply.Success? && reply.status == 200
    ensures var page := Page(s.rooms, skip, limit);
      |reply.data| == |page|
      && forall i :: 0 <= i < |page| ==> ToRoomInfo(s.Snapshot(), page[i], true, true) == Built(reply.data[i])
  {
    var db := s.Snapshot();
    var page := Page(db.rooms, skip, limit);
    var views := seq(|page|, i requires 0 <= i < |page| => ToRoomInfo(db, page[i], true, true));
    forall i | 0 <= i < |page| ensures views[i].Built? {
      RoomInfoBuilt(db, page[i], true, true);
    }
    reply := Respond(200, Collect(views));
  }

  /** `get_room_by_id`: 404 exactly when no room has the id, otherwise the full projection. */
  method GetRoomById(s: Session, roomId: int) returns (reply: Reply<RoomInfo>)
    requires s.Valid()
    ensures !HasKey(s.rooms, RoomId, roomId) <==> reply == Failure(404, "Room Not Found")
    ensures HasKey(s.rooms, RoomId, roomId) ==>
      && reply.Success? && reply.status == 200
      && ToRoomInfo(s.Snapshot(), Find(s.rooms, RoomId, roomId).value, true, true) == Built(reply.data)
  {
    var db := s.Snapshot();
    var found := Find(db.rooms, RoomId, roomId);
    if found.None? {
      return Failure(404, "Room Not Found");
    }
    RoomInfoBuilt(db, found.value, true, true);
    reply := Respond(200, ToRoomInfo(db, found.value, true, true));
  }

  /** The room `Room(**room.model_dump())` inserts. */
  function RoomRow(db: Db, info: RoomCreate, now: DateTime): Room {
    NewRoom(NextKey(db.rooms, RoomId), info.name, info.code, Some(info.capacity), info.buildingId, now)
  }

  /**
   * The inserted room carries the request's fields, a fresh id and `now` as both timestamps;
   * it fits its columns exactly when the request's name, code and capacity do.
   */
  lemma RoomRowFields(db: Db, info: RoomCreate, now: DateTime)
    ensures var r := RoomRow(db, info, now);
      && r.name == info.name && r.code == info.code && r.capacity == info.capacity
      && r.buildingId == info.buildingId && r.createdAt == now && r.lastEdited == now
      && !HasKey(db.rooms, RoomId, r.id)
      && (RoomFits(r) <==> |info.name| <= 200 && |info.code| <= 30
                           && -0x8000_0000 <= info.capacity < 0x8000_0000)
  {
  }

  /**
   * `create_room`: one new row and status 201. A name, code or capacity its column cannot
   * hold fails with DataError, and a building id that names no building fails the foreign
   * key; either way nothing is stored.
   */
  method CreateRoom(s: Session, info: RoomCreate, now: DateTime) returns (reply: Reply<RoomInfo>)
    requires s.Valid()
    modifies s
    ensures s.Valid()
    ensures !RoomFits(RoomRow(old(s.Snapshot()), info, now)) ==>
      reply == Raised(DataError) && s.Snapshot() == old(s.Snapshot())
    ensures RoomFits(RoomRow(old(s.Snapshot()), info, now))
            && !HasKey(old(s.buildings), BuildingId, info.buildingId) ==>
      reply == Raised(IntegrityError) && s.Snapshot() == old(s.Snapshot())
    ensures RoomFits(RoomRow(old(s.Snapshot()), info, now))
            && HasKey(old(s.buildings), BuildingId, info.buildingId) ==>
      && s.Snapshot() == old(s.Snapshot()).(rooms := old(s.rooms) + [RoomRow(old(s.Snapshot()), info, now)])
      && reply.Success? && reply.status == 201
      && ToRoomInfo(s.Snapshot(), RoomRow(old(s.Snapshot()), info, now), true, true) == Built(reply.data)
  {
    var db := s.Snapshot();
    var row := RoomRow(db, info, now);
    if !RoomFits(row) {
      return Raised(DataError);
    }
    if !HasKey(db.buildings, BuildingId, info.buildingId) {
      return Raised(IntegrityError);
    }
    RoomRowFields(db, info, now);
    InsertRoomConsistent(db, row);
    RoomsKeepFit(db, db.rooms + [row]);
    s.rooms := s.rooms + [row];
    assert s.Snapshot() == db.(rooms := db.rooms + [row]);
    RoomInfoBuilt(s.Snapshot(), row, true, true);
    reply := Respond(201, ToRoomInfo(s.Snapshot(), row, true, true));
  }

  /**
   * The row after `update_room`'s two assignments: a supplied name or code replaces the
   * stored one; the building and the capacity of the request are ignored.
   */
  function PatchRoom(room: Room, info: RoomUpdate): (r: Room)
    ensures r.name == (if info.name.Some? then info.name.value else room.name)
    ensures r.code == (if info.code.Some? then info.code.value else room.code)
    ensures r.(name := room.name, code := room.code) == room
  {
    room.(name := info.name.GetOr(room.name), code := info.code.GetOr(room.code))
  }

  /** `onupdate`: `last_edited` is set only when some column changed. */
  function StampRoom(before: Room, after: Room, now: DateTime): (r: Room)
    ensures r.lastEdited == (if after != before then now else after.lastEdited)
    ensures r.(lastEdited := after.lastEdited) == after
  {
    if after != before then after.(lastEdited := now) else after
  }

  /**
   * `update_room`: 404 for an unknown id; a name or code its column cannot hold fails with
   * DataError; otherwise only the name and the code may change.
   */
  method UpdateRoom(s: Session, roomId: int, info: RoomUpdate, now: DateTime) returns (reply: Reply<RoomInfo>)
    requires s.Valid()
    modifies s
    ensures s.Valid()
    ensures !HasKey(old(s.rooms), RoomId, roomId) ==>
      reply == Failure(404, "Room Not Found") && s.Snapshot() == old(s.Snapshot())
    ensures HasKey(old(s.rooms), RoomId, roomId) ==>
      var before := Find(old(s.rooms), RoomId, roomId).value;
      var after := PatchRoom(before, info);
      if !RoomFits(after) then
        reply == Raised(DataError) && s.Snapshot() == old(s.Snapshot())
      else
        var stored := StampRoom(before, after, now);
        && s.Snapshot() == old(s.Snapshot()).(rooms := ReplaceKey(old(s.rooms), RoomId, stored))
        && reply.Success? && reply.status == 200
        && ToRoomInfo(s.Snapshot(), stored, true, true) == Built(reply.data)
  {
    var db := s.Snapshot();
    var found := Find(db.rooms, RoomId, roomId);
    if found.None? {
      return Failure(404, "Room Not Found");
    }
    var after := PatchRoom(found.value, info);
    if !RoomFits(after) {
      return Raised(DataError);
    }
    var stored := StampRoom(found.value, after, now);
    assert HasKey(db.buildings, BuildingId, found.value.buildingId);
    UpdateRoomConsistent(db, stored);
    ReplaceKeepsFit(db.rooms, RoomId, stored, RoomFits);
    RoomsKeepFit(db, ReplaceKey(db.rooms, RoomId, stored));
    s.rooms := ReplaceKey(s.rooms, RoomId, stored);
    assert s.Snapshot() == db.(rooms := ReplaceKey(db.rooms, RoomId, stored));
    assert stored in s.rooms by {
      ReplaceMembers(db.rooms, RoomId, stored, stored);
    }
    RoomInfoBuilt(s.Snapshot(), stored, true, true);
    reply := Respond(200, ToRoomInfo(s.Snapshot(), stored, true, true));
  }

  /** `delete_room`: removes the room and, by cascade, its reservations; 404 for an unknown id. */
  method DeleteRoom(s: Session, roomId: int) returns (reply: Reply<string>)
    requires s.Valid()
    modifies s
    ensures s.Valid()
    ensures !HasKey(old(s.rooms), RoomId, roomId) ==>
      reply == Failure(404, "Room not found!") && s.Snapshot() == old(s.Snapshot())
    ensures HasKey(old(s.rooms), RoomId, roomId) ==>
      reply == Success(200, "Success") && s.Snapshot() == WithoutRoom(old(s.Snapshot()), roomId)
  {
    var db := s.Snapshot();
    var found := Find(db.rooms, RoomId, roomId);
    if found.None? {
      return Failure(404, "Room not found!");
    }
    DeleteRoomCascade(db, roomId);
    var d := WithoutRoom(db, roomId);
    RoomsKeepFit(db, d.rooms);
    ReservationsKeepFit(db.(rooms := d.rooms), d.reservations);
    s.rooms, s.reservations := d.rooms, d.reservations;
    assert s.Snapshot() == d;
    reply := Success(200, "Success");
  }
}
