/**
 * staff/models.py: the staff record, its status and department enumerations,
 * the derived expiry and display rules, the verification-log record, the two
 * tables the ORM keeps them in, and the save step that attaches a
 * verification-code image to a record the first time it is saved.
 */
module Models {
  import opened Wrappers
  import opened Utils

  /** A calendar date, as a day number; a later day has a larger number. */
  type Date = int

  /** An authenticated operator, by user id. */
  type UserId = nat

  datatype Status = Active | Suspended | Expired

  /** The value stored in the `status` column. */
  function StatusCode(s: Status): string
  {
    match s
    case Active => "active"
    case Suspended => "suspended"
    case Expired => "expired"
  }

  /** The status a stored code stands for; None for a code outside the choices. */
  function ParseStatus(code: string): (r: Option<Status>)
    ensures forall s :: r == Some(s) <==> StatusCode(s) == code
  {
    if code == "active" then Some(Active)
    else if code == "suspended" then Some(Suspended)
    else if code == "expired" then Some(Expired)
    else None
  }

  /**
   * The column default of `status`. The staff form requires a status, so
   * records the views create always carry the one the operator chose.
   */
  const DefaultStatus: Status := Active

  datatype Department = Medical | Nursing | Admin | Lab | Pharmacy | Radiology | Support

  /** The value stored in the `department` column. */
  function DepartmentCode(d: Department): string
  {
    match d
    case Medical => "medical"
    case Nursing => "nursing"
    case Admin => "admin"
    case Lab => "lab"
    case Pharmacy => "pharmacy"
    case Radiology => "radiology"
    case Support => "support"
  }

  /** The department a stored code stands for; None for a code outside the choices. */
  function ParseDepartment(code: string): (r: Option<Department>)
    ensures forall d :: r == Some(d) <==> DepartmentCode(d) == code
  {
    if code == "medical" then Some(Medical)
    else if code == "nursing" then Some(Nursing)
    else if code == "admin" then Some(Admin)
    else if code == "lab" then Some(Lab)
    else if code == "pharmacy" then Some(Pharmacy)
    else if code == "radiology" then Some(Radiology)
    else if code == "support" then Some(Support)
    else None
  }

  /**
   * One row of the staff table. Optional text columns (`email`, `phone`,
   * `photo`, `qrCode`) hold "" when unset; `qrCode` is the media-relative
   * path of the verification-code image.
   */
  datatype StaffRecord = StaffRecord(
    uuid: Uuid,
    staffId: string,
    firstName: string,
    lastName: string,
    email: string,
    phone: string,
    photo: string,
    qrCode: string,
    department: Department,
    position: string,
    dateJoined: Date,
    dateExpiry: Option<Date>,
    status: Status)

  /** A record with an expiry date is expired from the day after that date on. */
  function IsExpired(r: StaffRecord, today: Date): (b: bool)
    ensures r.dateExpiry.None? ==> !b
    ensures r.dateExpiry.Some? ==> (b <==> today > r.dateExpiry.value)
  {
    match r.dateExpiry
    case Some(e) => today > e
    case None => false
  }

  /** On its expiry day a record still holds; on the next day it has expired. */
  lemma ExpiryBoundary(r: StaffRecord)
    requires r.dateExpiry.Some?
    ensures !IsExpired(r, r.dateExpiry.value)
    ensures IsExpired(r, r.dateExpiry.value + 1)
  {
  }

  /** Once expired, a record stays expired on every later day. */
  lemma ExpiryIsMonotone(r: StaffRecord, day: Date, later: Date)
    requires day <= later && IsExpired(r, day)
    ensures IsExpired(r, later)
  {
  }

  /** The badge colour: "success" for an active, unexpired record, otherwise "danger". */
  function StatusDisplayClass(r: StaffRecord, today: Date): (c: string)
    ensures c == "success" || c == "danger"
    ensures c == "success" <==> r.status == Active && !IsExpired(r, today)
  {
    if r.status == Active && !IsExpired(r, today) then "success" else "danger"
  }

  /** First name, one space, last name. */
  function FullName(r: StaffRecord): (n: string)
    ensures |n| == |r.firstName| + 1 + |r.lastName|
    ensures n[..|r.firstName|] == r.firstName
    ensures n[|r.firstName|] == ' '
    ensures n[|r.firstName| + 1..] == r.lastName
  {
    r.firstName + " " + r.lastName
  }

  /** The record's display text: staff id, " - ", full name. */
  function Display(r: StaffRecord): (s: string)
    ensures |s| == |r.staffId| + 3 + |FullName(r)|
    ensures s[..|r.staffId|] == r.staffId
    ensures s[|r.staffId|..|r.staffId| + 3] == " - "
    ensures s[|r.staffId| + 3..] == FullName(r)
  {
    r.staffId + " - " + FullName(r)
  }

  /**
   * One row of the verification log: whose badge was looked up, by which
   * operator (None for an anonymous caller), from where, with which browser,
   * and when.
   */
  datatype LogEntry = LogEntry(
    staffUuid: Uuid,
    verifiedBy: Option<UserId>,
    ipAddress: string,
    userAgent: string,
    verifiedAt: int)

  // ---------------------------------------------------------------------
  // The staff table as a sequence of rows in its default order, newest first.

  function Uuids(rows: seq<StaffRecord>): (us: set<Uuid>)
    ensures forall i :: 0 <= i < |rows| ==> rows[i].uuid in us
    ensures forall u :: u in us ==> exists i :: 0 <= i < |rows| && rows[i].uuid == u
  {
    set i | 0 <= i < |rows| :: rows[i].uuid
  }

  /** The uniqueness constraints of the table: no uuid and no staff id appears twice. */
  ghost predicate UniqueKeys(rows: seq<StaffRecord>)
  {
    forall i, j :: 0 <= i < j < |rows| ==>
      rows[i].uuid != rows[j].uuid && rows[i].staffId != rows[j].staffId
  }

  /** The position of the row with uuid `u`, if there is one (the first, should there be several). */
  function IndexOf(rows: seq<StaffRecord>, u: Uuid): (r: Option<nat>)
    ensures r.Some? ==> r.value < |rows| && rows[r.value].uuid == u
    ensures r.Some? ==> forall i :: 0 <= i < r.value ==> rows[i].uuid != u
    ensures r.None? ==> forall i :: 0 <= i < |rows| ==> rows[i].uuid != u
  {
    if |rows| == 0 then None
    else if rows[0].uuid == u then Some(0)
    else match IndexOf(rows[1..], u)
      case Some(i) => Some(i + 1)
      case None => None
  }

  /** Two tables with the same uuid in every position place every uuid alike. */
  lemma SameUuidsSameIndex(a: seq<StaffRecord>, b: seq<StaffRecord>, u: Uuid)
    requires |a| == |b|
    requires forall k :: 0 <= k < |a| ==> a[k].uuid == b[k].uuid
    ensures IndexOf(a, u) == IndexOf(b, u)
  {
    var ia, ib := IndexOf(a, u), IndexOf(b, u);
    if ia.Some? && ib.Some? {
      assert !(ia.value < ib.value) && !(ib.value < ia.value);
    }
  }

  /** Looking a record up by uuid: None is the not-found case. */
  function Find(rows: seq<StaffRecord>, u: Uuid): (r: Option<StaffRecord>)
    ensures r.Some? <==> u in Uuids(rows)
    ensures r.Some? ==> r.value in rows && r.value.uuid == u
  {
    match IndexOf(rows, u)
    case Some(i) => Some(rows[i])
    case None => None
  }

  /** Some other row already uses `d`'s staff id: the insert or update would break uniqueness. */
  predicate StaffIdTaken(rows: seq<StaffRecord>, d: StaffRecord)
  {
    exists i :: 0 <= i < |rows| && rows[i].staffId == d.staffId && rows[i].uuid != d.uuid
  }

  /**
   * Writing a record: the row with its uuid is updated where it stands, and a
   * record with a new uuid is inserted as the newest row.
   */
  function Upsert(rows: seq<StaffRecord>, d: StaffRecord): (r: seq<StaffRecord>)
    ensures d.uuid in Uuids(rows) ==> |r| == |rows|
    ensures d.uuid in Uuids(rows) ==>
      forall k :: 0 <= k < |r| ==> r[k].uuid == rows[k].uuid && (r[k] == rows[k] || r[k] == d)
    ensures d.uuid !in Uuids(rows) ==> r == [d] + rows
    ensures Find(r, d.uuid) == Some(d)
    ensures forall u :: u != d.uuid ==> Find(r, u) == Find(rows, u)
    ensures Uuids(r) == Uuids(rows) + {d.uuid}
  {
    match IndexOf(rows, d.uuid)
    case Some(i) =>
      ReplaceInPlace(rows, i, d);
      rows[i := d]
    case None => [d] + rows
  }

  /** Replacing the row that holds `d`'s uuid keeps every row in its place and every other lookup. */
  lemma ReplaceInPlace(rows: seq<StaffRecord>, i: nat, d: StaffRecord)
    requires IndexOf(rows, d.uuid) == Some(i)
    ensures var r := rows[i := d];
      (forall k :: 0 <= k < |r| ==> r[k].uuid == rows[k].uuid && (r[k] == rows[k] || r[k] == d)) &&
      Find(r, d.uuid) == Some(d) &&
      (forall u :: u != d.uuid ==> Find(r, u) == Find(rows, u)) &&
      Uuids(r) == Uuids(rows)
  {
    var r := rows[i := d];
    assert forall k :: 0 <= k < |r| ==> r[k].uuid == rows[k].uuid;
    forall u ensures IndexOf(r, u) == IndexOf(rows, u) {
      SameUuidsSameIndex(r, rows, u);
    }
  }

  /** Writing a record keeps both keys unique unless its staff id belongs to another row. */
  lemma UpsertKeepsKeysUnique(rows: seq<StaffRecord>, d: StaffRecord)
    requires UniqueKeys(rows) && !StaffIdTaken(rows, d)
    ensures UniqueKeys(Upsert(rows, d))
  {
  }

  /** A stored row rewritten with its own uuid and staff id cannot clash with another row. */
  lemma KeysStayUnique(rows: seq<StaffRecord>, row: StaffRecord, d: StaffRecord)
    requires UniqueKeys(rows) && row in rows
    requires d.uuid == row.uuid && d.staffId == row.staffId
    ensures !StaffIdTaken(rows, d) && UniqueKeys(Upsert(rows, d))
  {
    var k :| 0 <= k < |rows| && rows[k] == row;
    assert forall i :: 0 <= i < |rows| && rows[i].staffId == row.staffId ==> i == k;
    UpsertKeepsKeysUnique(rows, d);
  }

  /** Writing the same record twice leaves the table as writing it once. */
  lemma {:induction false} UpsertIdempotent(rows: seq<StaffRecord>, d: StaffRecord)
    ensures Upsert(Upsert(rows, d), d) == Upsert(rows, d)
  {
    UpsertOverwrites(rows, d, d);
  }

  /** A second write of the same uuid replaces the first write's row in place. */
  lemma {:induction false} UpsertOverwrites(rows: seq<StaffRecord>, d: StaffRecord, e: StaffRecord)
    requires d.uuid == e.uuid
    ensures Upsert(Upsert(rows, d), e) == Upsert(rows, e)
  {
    match IndexOf(rows, d.uuid)
    case Some(i) =>
      SameUuidsSameIndex(rows[i := d], rows, e.uuid);
    case None =>
      assert IndexOf([d] + rows, e.uuid) == Some(0);
  }

  // ---------------------------------------------------------------------
  // The database: the two tables and the directory of code images.

  class Database {
    /** The staff table, newest record first. */
    var staff: seq<StaffRecord>
    /** The verification-log table, in the order the entries were created. */
    var logs: seq<LogEntry>
    /** The code images written so far: media-relative path to the URL each encodes. */
    var images: map<string, string>

    /** The uniqueness constraints, and every log entry refers to a stored record. */
    ghost predicate Valid()
      reads this
    {
      UniqueKeys(staff) &&
      forall k :: 0 <= k < |logs| ==> logs[k].staffUuid in Uuids(staff)
    }

    constructor ()
      ensures Valid()
      ensures staff == [] && logs == [] && images == map[]
    {
      staff, logs, images := [], [], map[];
    }

    /**
     * A full write of one staff row (the ORM's save): refused, with nothing
     * changed, when another row already has the record's staff id.
     */
    method Write(d: StaffRecord) returns (ok: bool)
      requires Valid()
      modifies this`staff
      ensures Valid()
      ensures ok == !StaffIdTaken(old(staff), d)
      ensures staff == if ok then Upsert(old(staff), d) else old(staff)
    {
      if StaffIdTaken(staff, d) {
        return false;
      }
      UpsertKeepsKeysUnique(staff, d);
      staff := Upsert(staff, d);
      return true;
    }

    /** A write of the code-image column alone of the stored row with uuid `u`. */
    method WriteQrCode(u: Uuid, path: string)
      requires Valid() && u in Uuids(staff)
      modifies this`staff
      ensures Valid()
      ensures staff == Upsert(old(staff), Find(old(staff), u).value.(qrCode := path))
    {
      var row := Find(staff, u).value;
      KeysStayUnique(staff, row, row.(qrCode := path));
      staff := Upsert(staff, row.(qrCode := path));
    }

    /** Appends one log entry for a stored record; nothing else changes. */
    method CreateLog(e: LogEntry)
      requires Valid() && e.staffUuid in Uuids(staff)
      modifies this`logs
      ensures Valid()
      ensures logs == old(logs) + [e]
    {
      logs := logs + [e];
    }
  }

  /**
   * The fields a validated staff form carries. Every one is a form field; the
   * status is a required choice, so a form without it is invalid.
   */
  datatype StaffForm = StaffForm(
    staffId: string,
    firstName: string,
    lastName: string,
    email: string,
    phone: string,
    photo: string,
    department: Department,
    position: string,
    dateJoined: Date,
    dateExpiry: Option<Date>,
    status: Status)

  /**
   * A record with a form's fields written over it. The uuid and the code-image
   * path are not form fields and are kept.
   */
  function WithForm(r: StaffRecord, f: StaffForm): (n: StaffRecord)
    ensures n.uuid == r.uuid && n.qrCode == r.qrCode
    ensures n.staffId == f.staffId && n.firstName == f.firstName && n.lastName == f.lastName
    ensures n.email == f.email && n.phone == f.phone && n.photo == f.photo
    ensures n.department == f.department && n.position == f.position
    ensures n.dateJoined == f.dateJoined && n.dateExpiry == f.dateExpiry
    ensures n.status == f.status
  {
    StaffRecord(r.uuid, f.staffId, f.firstName, f.lastName, f.email, f.phone, f.photo,
                r.qrCode, f.department, f.position, f.dateJoined, f.dateExpiry, f.status)
  }

  /** The record a form creates: the given uuid, no code image, and every field from the form. */
  function NewRecord(u: Uuid, f: StaffForm): (n: StaffRecord)
    ensures n.uuid == u && n.qrCode == ""
    ensures WithForm(n, f) == n
  {
    StaffRecord(u, f.staffId, f.firstName, f.lastName, f.email, f.phone, f.photo, "",
                f.department, f.position, f.dateJoined, f.dateExpiry, f.status)
  }

  /** What `Staff.Save` reports. */
  datatype SaveOutcome =
    | Saved
      /** The staff id clashes with another row: nothing was written. */
    | DuplicateStaffId
      /** The record was written, but encoding or writing its code image failed. */
    | QrGenerationFailed

  /** A staff model instance: its uuid is fixed at creation; its other fields may change. */
  class Staff {
    const uuid: Uuid
    var staffId: string
    var firstName: string
    var lastName: string
    var email: string
    var phone: string
    var photo: string
    var qrCode: string
    var department: Department
    var position: string
    var dateJoined: Date
    var dateExpiry: Option<Date>
    var status: Status

    /** The row this instance writes. */
    function Record(): StaffRecord
      reads this
    {
      StaffRecord(uuid, staffId, firstName, lastName, email, phone, photo, qrCode,
                  department, position, dateJoined, dateExpiry, status)
    }

    /** An instance loaded from a stored row. */
    constructor Load(r: StaffRecord)
      ensures Record() == r
    {
      uuid, staffId, firstName, lastName := r.uuid, r.staffId, r.firstName, r.lastName;
      email, phone, photo, qrCode := r.email, r.phone, r.photo, r.qrCode;
      department, position, dateJoined := r.department, r.position, r.dateJoined;
      dateExpiry, status := r.dateExpiry, r.status;
    }

    /** A new, unsaved instance built from a form: no code image yet. */
    constructor Create(u: Uuid, f: StaffForm)
      ensures Record() == NewRecord(u, f)
    {
      uuid, staffId, firstName, lastName := u, f.staffId, f.firstName, f.lastName;
      email, phone, photo, qrCode := f.email, f.phone, f.photo, "";
      department, position, dateJoined := f.department, f.position, f.dateJoined;
      dateExpiry := f.dateExpiry;
      status := f.status;
    }

    /** Writes a form's fields over this instance. */
    method Assign(f: StaffForm)
      modifies this
      ensures Record() == WithForm(old(Record()), f)
    {
      staffId, firstName, lastName := f.staffId, f.firstName, f.lastName;
      email, phone, photo := f.email, f.phone, f.photo;
      department, position, dateJoined := f.department, f.position, f.dateJoined;
      dateExpiry := f.dateExpiry;
      status := f.status;
      assert Record() == StaffRecord(uuid, f.staffId, f.firstName, f.lastName, f.email,
        f.phone, f.photo, old(qrCode), f.department, f.position, f.dateJoined, f.dateExpiry, status);
    }

    /**
     * Saving: the record is written first; then, only if it has no code image
     * yet, the image for its verification URL is generated (`encodeOk` says
     * whether the encoder and the file write succeed), its path is recorded on
     * the instance and the record is written again. A record that already has
     * an image keeps it and no image is generated.
     */
    method Save(db: Database, c: Settings, encodeOk: bool) returns (r: SaveOutcome)
      requires db.Valid() && HasHost(c)
      modifies this`qrCode, db`staff, db`images
      ensures db.Valid()
      ensures db.logs == old(db.logs)
      ensures StaffIdTaken(old(db.staff), old(Record())) ==>
        r == DuplicateStaffId && Record() == old(Record()) &&
        db.staff == old(db.staff) && db.images == old(db.images)
      ensures !StaffIdTaken(old(db.staff), old(Record())) ==>
        var generated := old(qrCode) == "" && encodeOk;
        r == (if old(qrCode) == "" && !encodeOk then QrGenerationFailed else Saved) &&
        qrCode == (if generated then QrRelativePath(uuid) else old(qrCode)) &&
        Record() == old(Record()).(qrCode := qrCode) &&
        db.staff == Upsert(old(db.staff), Record()) &&
        db.images == (if generated then old(db.images)[QrRelativePath(uuid) := VerificationUrl(c, uuid)]
                      else old(db.images))
    {
      ghost var rows0, rec0 := db.staff, Record();
      var ok := db.Write(Record());
      if !ok {
        return DuplicateStaffId;
      }
      assert db.staff == Upsert(rows0, rec0);
      if qrCode == "" {
        if !encodeOk {
          return QrGenerationFailed;
        }
        AttachQrCode(db, c);
        UpsertOverwrites(rows0, rec0, Record());
      }
      return Saved;
    }

    /**
     * The second step of saving a record that has no code image yet: the
     * image for its verification URL is written, its path is recorded on the
     * instance, and the image column of the stored row is written.
     */
    method AttachQrCode(db: Database, c: Settings)
      requires db.Valid() && HasHost(c) && qrCode == ""
      requires Find(db.staff, uuid) == Some(Record())
      modifies this`qrCode, db`staff, db`images
      ensures db.Valid() && db.logs == old(db.logs)
      ensures qrCode == QrRelativePath(uuid)
      ensures Record() == old(Record()).(qrCode := qrCode)
      ensures db.staff == Upsert(old(db.staff), Record())
      ensures db.images == old(db.images)[QrRelativePath(uuid) := VerificationUrl(c, uuid)]
    {
      var path := QrRelativePath(uuid);
      db.images := db.images[path := VerificationUrl(c, uuid)];
      qrCode := path;
      db.WriteQrCode(uuid, path);
    }
  }
}
