/**
 * The database session a handler receives (`db: Session = Depends(get_db)`): the five tables,
 * which handlers read through queries and change by committing.
 */
module Store {
  import opened Tables
  import opened Models
  import opened ObjectMapper
  import opened Responses

  class Session {
    var buildings: seq<Building>
    var rooms: seq<Room>
    var reservations: seq<RoomReservation>
    var schedules: seq<Schedule>
    var lecturers: seq<Lecturer>

    /** The committed state of every table. */
    function Snapshot(): Db
      reads this
    {
      Db(buildings, rooms, reservations, schedules, lecturers)
    }

    /** The database's constraints hold and every stored value fits its column. */
    ghost predicate Valid()
      reads this
    {
      Consistent(Snapshot()) && ColumnsFit(Snapshot())
    }

    /** A session over the database `db`; it is valid exactly when `db` is. */
    constructor Open(db: Db)
      ensures Snapshot() == db
      ensures Valid() <==> Consistent(db) && ColumnsFit(db)
    {
      buildings := db.buildings;
      rooms := db.rooms;
      reservations := db.reservations;
      schedules := db.schedules;
      lecturers := db.lecturers;
    }

    /**
     * `db.add(reservation); db.commit()`: the row is appended; with a fresh id and resolving
     * references the constraints still hold.
     */
    method AddReservation(v: RoomReservation)
      requires Valid() && !HasKey(reservations, ReservationId, v.id)
      requires ReservationResolves(rooms, schedules, lecturers, v)
      modifies this
      ensures Snapshot() == old(Snapshot()).(reservations := old(reservations) + [v])
      ensures Valid()
    {
      var db := Snapshot();
      InsertReservationConsistent(db, v);
      ReservationsKeepFit(db, db.reservations + [v]);
      reservations := reservations + [v];
      assert Snapshot() == db.(reservations := db.reservations + [v]);
    }
  }

  /**
   * `success_response(status, projection)`: a projection that reads a field of `None` raises
   * AttributeError, which `except Exception` turns into a 500 reply.
   */
  function Respond<T>(status: int, m: Mapped<T>): (r: Reply<T>)
    ensures m.Built? ==> r == Success(status, m.value)
    ensures m.NoneAttribute? ==> r == Raised(AttributeError)
  {
    match m
    case Built(v) => Success(status, v)
    case NoneAttribute => Raised(AttributeError)
  }
}
