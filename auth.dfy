/**
 * The handlers of routes/auth.py. Password hashing and checking and token signing are
 * the parameters `hash`, `verify` and `issueToken`.
 */
module AuthRoutes {
  import opened Basics
  import opened Enums
  import opened Timestamps
  import opened Tables
  import opened Models
  import opened Dtos
  import opened ObjectMapper
  import opened Responses
  import opened Store

  /** The body `login` answers with on success. */
  datatype Grant = Grant(tokenType: string, lecturer: LecturerInfo, accessToken: string)

  /** The one message `login` gives for an unknown username and for a wrong password alike. */
  const LoginRejected := "Incorrect email or password"

  /**
   * `login`: looks the lecturer up by username and checks the password against the stored
   * hash; on success, answers the lecturer without reservations and a token whose subject
   * is the username.
   */
  function Login(db: Db, username: string, password: string,
                 verify: (string, string) -> bool, issueToken: string -> string): (r: Reply<Grant>)
    ensures !HasKey(db.lecturers, Username, username) ==> r == Failure(400, LoginRejected)
    ensures HasKey(db.lecturers, Username, username) ==>
      var l := Find(db.lecturers, Username, username).value;
      && (!verify(password, l.password) <==> r == Failure(400, LoginRejected))
      && (r.Success? ==>
            && verify(password, l.password)
            && r.status == 200
            && r.data.tokenType == "bearer"
            && r.data.accessToken == issueToken(username)
            && ToLecturerInfo(db, l, true, false) == Built(r.data.lecturer))
    ensures !r.NoBody?
  {
    var found := Find(db.lecturers, Username, username);
    if found.None? then Failure(400, LoginRejected)
    else if !verify(password, found.value.password) then Failure(400, LoginRejected)
    else match ToLecturerInfo(db, found.value, true, false)
      case NoneAttribute => Raised(AttributeError)
      case Built(view) => Success(200, Grant("bearer", view, issueToken(found.value.username)))
  }

  /** On a consistent database `login` never raises: it rejects or it grants. */
  lemma LoginNeverRaises(db: Db, username: string, password: string,
                         verify: (string, string) -> bool, issueToken: string -> string)
    requires Consistent(db)
    ensures var r := Login(db, username, password, verify, issueToken);
      r.Success? || r == Failure(400, LoginRejected)
  {
    var found := Find(db.lecturers, Username, username);
    if found.Some? {
      LecturerInfoBuilt(db, found.value, true, false);
    }
  }

  /** The lecturer `Lecturer(**lecturer_info.model_dump())` inserts, with the password hashed. */
  function RegisteredLecturer(db: Db, info: LecturerCreate, hash: string -> string, now: DateTime): (l: Lecturer)
    requires Parse(info.dob).Some?
    ensures l.username == info.username && l.email == info.email && l.password == hash(info.password)
    ensures l.firstName == info.firstName && l.lastName == info.lastName
    ensures Parse(info.dob) == Some(l.dob)
    ensures l.gender == info.gender && l.faculty == info.faculty && !l.enabled && !l.active
    ensures l.createdAt == now && l.lastEdited == now
    ensures !HasKey(db.lecturers, LecturerId, l.id)
  {
    NewLecturer(NextKey(db.lecturers, LecturerId), info.username, hash(info.password),
                info.firstName, info.lastName, info.email, Parse(info.dob).value,
                Some(info.gender), Some(info.faculty), now)
  }

  /** The values of the insert fit their columns: `dob` is a timestamp and no string is too long. */
  predicate RegisterFits(info: LecturerCreate) {
    Parse(info.dob).Some? && LecturerColumnsFit(info.username, info.firstName, info.lastName, info.email)
  }

  /** The insert is accepted: the username and the email are free and every value fits. */
  predicate RegisterSucceeds(db: Db, info: LecturerCreate) {
    && !HasKey(db.lecturers, Username, info.username)
    && RegisterFits(info)
    && !HasKey(db.lecturers, Email, info.email)
  }

  /**
   * `register`: 409 for a taken username; otherwise the lecturer is stored with the hash of
   * the password. A `dob` that is not a timestamp, a string longer than its column, or an
   * email another lecturer holds makes the insert fail and nothing is stored.
   */
  method Register(s: Session, info: LecturerCreate, hash: string -> string, now: DateTime)
    returns (reply: Reply<LecturerInfo>)
    requires s.Valid()
    modifies s
    ensures s.Valid()
    ensures HasKey(old(s.lecturers), Username, info.username) ==>
      reply == Failure(409, "User with this username is existed!")
    ensures !HasKey(old(s.lecturers), Username, info.username) && !RegisterFits(info) ==>
      reply == Raised(DataError)
    ensures !HasKey(old(s.lecturers), Username, info.username) && RegisterFits(info)
            && HasKey(old(s.lecturers), Email, info.email) ==>
      reply == Raised(IntegrityError)
    ensures !RegisterSucceeds(old(s.Snapshot()), info) ==> s.Snapshot() == old(s.Snapshot())
    ensures RegisterSucceeds(old(s.Snapshot()), info) ==>
      var l := RegisteredLecturer(old(s.Snapshot()), info, hash, now);
      && s.Snapshot() == old(s.Snapshot()).(lecturers := old(s.lecturers) + [l])
      && reply.Success? && reply.status == 201
      && ToLecturerInfo(s.Snapshot(), l, true, true) == Built(reply.data)
  {
    var db := s.Snapshot();
    var existing := Find(db.lecturers, Username, info.username);
    if existing.Some? {
      return Failure(409, "User with this username is existed!");
    }
    if !RegisterFits(info) {
      return Raised(DataError);
    }
    if HasKey(db.lecturers, Email, info.email) {
      return Raised(IntegrityError);
    }
    var l := RegisteredLecturer(db, info, hash, now);
    InsertLecturerConsistent(db, l);
    LecturersKeepFit(db, db.lecturers + [l]);
    s.lecturers := s.lecturers + [l];
    assert s.Snapshot() == db.(lecturers := db.lecturers + [l]);
    LecturerInfoBuilt(s.Snapshot(), l, true, true);
    reply := Respond(201, ToLecturerInfo(s.Snapshot(), l, true, true));
  }

  /**
   * A lecturer who has just registered can log in with the password they registered with,
   * provided `verify` accepts a password against its own hash.
   */
  lemma RegisteredLecturerCanLogIn(db: Db, info: LecturerCreate, hash: string -> string, now: DateTime,
                                   verify: (string, string) -> bool, issueToken: string -> string)
    requires Consistent(db) && RegisterSucceeds(db, info)
    requires verify(info.password, hash(info.password))
    ensures var d := db.(lecturers := db.lecturers + [RegisteredLecturer(db, info, hash, now)]);
      var r := Login(d, info.username, info.password, verify, issueToken);
      && r.Success?
      && r.data.lecturer.username == info.username && r.data.lecturer.email == info.email
      && r.data.accessToken == issueToken(info.username)
  {
    var l := RegisteredLecturer(db, info, hash, now);
    var d := db.(lecturers := db.lecturers + [l]);
    InsertLecturerConsistent(db, l);
    FindUnique(d.lecturers, Username, l);
    LecturerScalarsCopied(d, l, true, false);
  }

  /** Once registered, the same username is refused a second registration. */
  lemma SecondRegistrationRefused(db: Db, info: LecturerCreate, again: LecturerCreate,
                                  hash: string -> string, now: DateTime)
    requires RegisterSucceeds(db, info) && again.username == info.username
    ensures !RegisterSucceeds(db.(lecturers := db.lecturers + [RegisteredLecturer(db, info, hash, now)]), again)
  {
    var l := RegisteredLecturer(db, info, hash, now);
    AppendHasKey(db.lecturers, Username, l, again.username);
  }
}
