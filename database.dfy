/** The SQLite store of server/database.js, held in memory: the four tables
    users, students, audit_logs and failed_logins, each a sequence of rows in
    rowid order, with the AUTOINCREMENT counter SQLite keeps for it, the column
    defaults and the UNIQUE constraint on usernames. */
module Database {
  import opened Common

  // ---------------------------------------------------------------------------
  // Rows

  datatype Role = Admin | Staff

  function RoleName(r: Role): string {
    match r
    case Admin => "admin"
    case Staff => "staff"
  }

  /** The inverse of RoleName on the two accepted names (`isIn(['admin', 'staff'])`). */
  function ParseRole(s: string): (r: Option<Role>)
    ensures r.Some? <==> s == "admin" || s == "staff"
    ensures r.Some? ==> RoleName(r.value) == s
  {
    if s == "admin" then Some(Admin) else if s == "staff" then Some(Staff) else None
  }

  lemma RoleNameRoundTrip(r: Role)
    ensures ParseRole(RoleName(r)) == Some(r)
  {
  }

  /** A row of `users`; `password` holds the bcrypt hash. */
  datatype User = User(id: nat, username: string, password: string, role: Role, createdAt: int)

  /** A row of `students`: NULL-able columns are Options, INTEGER flags ints. */
  datatype Student = Student(
    id: nat,
    firstName: string, middleName: Option<string>, lastName: string,
    sex: string, dateOfBirth: string, religion: string, religionOther: Option<string>,
    classEnrolled: string, photoPath: Option<string>, birthCertificatePath: Option<string>,
    parentName: string, parentPhone: string, alternativePhone: Option<string>,
    email: Option<string>, homeAddress: string, state: string, lga: string,
    hasMedicalCondition: int, medicalConditionDetails: Option<string>,
    hasDisability: int, disabilityType: Option<string>, disabilityDetails: Option<string>,
    emergencyInstructions: Option<string>, consentGiven: int, parentSignature: string,
    submittedAt: int, academicSession: Option<string>, createdBy: Option<int>,
    updatedAt: Option<int>, isDeleted: int)

  /** The columns an INSERT INTO students may name; a defaulted column that the
      statement leaves out is None. */
  datatype StudentInsert = StudentInsert(
    firstName: string, middleName: Option<string>, lastName: string,
    sex: string, dateOfBirth: string, religion: string, religionOther: Option<string>,
    classEnrolled: string, photoPath: Option<string>, birthCertificatePath: Option<string>,
    parentName: string, parentPhone: string, alternativePhone: Option<string>,
    email: Option<string>, homeAddress: string, state: string, lga: string,
    hasMedicalCondition: Option<int>, medicalConditionDetails: Option<string>,
    hasDisability: Option<int>, disabilityType: Option<string>, disabilityDetails: Option<string>,
    emergencyInstructions: Option<string>, consentGiven: Option<int>, parentSignature: string,
    academicSession: Option<string>, isDeleted: Option<int>)

  /** The row SQLite stores for an insert: the four INTEGER flags default to 0,
      submitted_at to the current time, created_by and updated_at to NULL. */
  function StudentRow(id: nat, c: StudentInsert, now: int): (s: Student)
    ensures s.id == id && s.submittedAt == now
    ensures s.hasMedicalCondition == c.hasMedicalCondition.GetOr(0)
    ensures s.hasDisability == c.hasDisability.GetOr(0)
    ensures s.consentGiven == c.consentGiven.GetOr(0)
    ensures s.isDeleted == c.isDeleted.GetOr(0)
    ensures s.createdBy.None? && s.updatedAt.None?
  {
    Student(id, c.firstName, c.middleName, c.lastName, c.sex, c.dateOfBirth, c.religion,
      c.religionOther, c.classEnrolled, c.photoPath, c.birthCertificatePath, c.parentName,
      c.parentPhone, c.alternativePhone, c.email, c.homeAddress, c.state, c.lga,
      c.hasMedicalCondition.GetOr(0), c.medicalConditionDetails, c.hasDisability.GetOr(0),
      c.disabilityType, c.disabilityDetails, c.emergencyInstructions, c.consentGiven.GetOr(0),
      c.parentSignature, now, c.academicSession, None, None, c.isDeleted.GetOr(0))
  }

  // ---------------------------------------------------------------------------
  // Stored date-time text

  const SecondsPerDay: int := 86400

  /** The text a DATETIME column of audit_logs holds, at clock time `time`
      (UTC seconds). `new Date().toISOString()` writes
      `YYYY-MM-DDTHH:MM:SS.sssZ`; the column default CURRENT_TIMESTAMP writes
      `YYYY-MM-DD HH:MM:SS`. */
  datatype Stamp = IsoText(time: int) | DefaultText(time: int)

  function Day(s: Stamp): int { s.time / SecondsPerDay }

  /** The rank of a stamp in SQLite's comparison of the stored texts (years 0
      to 9999): the date prefix decides first; on the same day the eleventh
      character does, and ' ' (the default format) sorts before 'T' (the ISO
      format); then the time of day. Milliseconds are not modelled. */
  function TextRank(s: Stamp): int {
    Day(s) * 2 * SecondsPerDay + (if s.IsoText? then SecondsPerDay else 0) + s.time % SecondsPerDay
  }

  /** Two texts in the same format, or of different days, compare as their
      clock times do. */
  lemma TextRankFollowsTime(a: Stamp, b: Stamp)
    requires a.IsoText? == b.IsoText? || Day(a) != Day(b)
    ensures TextRank(a) < TextRank(b) <==> a.time < b.time
  {
    var d := SecondsPerDay;
    assert a.time == Day(a) * d + a.time % d;
    assert b.time == Day(b) * d + b.time % d;
    if Day(a) < Day(b) {
      assert Day(a) * 2 * d + 2 * d <= Day(b) * 2 * d;
    } else if Day(b) < Day(a) {
      assert Day(b) * 2 * d + 2 * d <= Day(a) * 2 * d;
    }
  }

  /** On one day every default-format text sorts below every ISO text,
      whatever their clock times. */
  lemma DefaultTextSinks(a: Stamp, b: Stamp)
    requires a.DefaultText? && b.IsoText? && Day(a) == Day(b)
    ensures TextRank(a) < TextRank(b)
  {
  }

  /** A row of `audit_logs`. */
  datatype AuditRow = AuditRow(
    id: nat, action: string, userId: Option<int>, username: Option<string>,
    ipAddress: Option<string>, userAgent: Option<string>, httpMethod: Option<string>,
    path: Option<string>, statusCode: Option<int>, details: Option<string>, timestamp: Stamp)

  /** The columns an INSERT INTO audit_logs names. `timestamp` is the clock
      time whose ISO text the statement gives, or None when it leaves the
      column to its default. */
  datatype AuditInsert = AuditInsert(
    action: string, userId: Option<int>, username: Option<string>,
    ipAddress: Option<string>, userAgent: Option<string>, httpMethod: Option<string>,
    path: Option<string>, statusCode: Option<int>, details: Option<string>,
    timestamp: Option<int>)

  /** The stored row: every inserted column as given, and a missing timestamp
      filled with CURRENT_TIMESTAMP's text for the insert time. */
  function AuditRowOf(id: nat, a: AuditInsert, now: int): (r: AuditRow)
    ensures r.id == id && r.action == a.action && r.statusCode == a.statusCode
    ensures r.userId == a.userId && r.username == a.username && r.ipAddress == a.ipAddress
    ensures r.userAgent == a.userAgent && r.httpMethod == a.httpMethod && r.path == a.path
    ensures r.details == a.details
    ensures a.timestamp.Some? ==> r.timestamp == IsoText(a.timestamp.value)
    ensures a.timestamp.None? ==> r.timestamp == DefaultText(now)
  {
    var stamp := if a.timestamp.Some? then IsoText(a.timestamp.value) else DefaultText(now);
    AuditRow(id, a.action, a.userId, a.username, a.ipAddress, a.userAgent, a.httpMethod,
      a.path, a.statusCode, a.details, stamp)
  }

  /** A row of `failed_logins`. */
  datatype FailedLogin = FailedLogin(id: nat, username: string, ipAddress: string, attemptTime: int)

  // ---------------------------------------------------------------------------
  // Table invariants

  /** `username TEXT UNIQUE`. */
  predicate UniqueUsernames(users: seq<User>) {
    forall i, j :: 0 <= i < j < |users| ==> users[i].username != users[j].username
  }

  /** INTEGER PRIMARY KEY AUTOINCREMENT: ids grow along the table, start at 1
      and never exceed the largest id ever issued (`bound`). */
  predicate Ascending<T>(rows: seq<T>, id: T -> nat, bound: nat) {
    && (forall i, j :: 0 <= i < j < |rows| ==> id(rows[i]) < id(rows[j]))
    && (forall i :: 0 <= i < |rows| ==> 1 <= id(rows[i]) <= bound)
  }

  lemma AscendingAppend<T>(rows: seq<T>, id: T -> nat, bound: nat, x: T)
    requires Ascending(rows, id, bound) && id(x) == bound + 1
    ensures Ascending(rows + [x], id, bound + 1)
  {
  }

  lemma AscendingRemove<T>(rows: seq<T>, id: T -> nat, bound: nat, k: nat)
    requires Ascending(rows, id, bound) && k < |rows|
    ensures Ascending(rows[..k] + rows[k + 1..], id, bound)
  {
    var r := rows[..k] + rows[k + 1..];
    forall i, j | 0 <= i < j < |r| ensures id(r[i]) < id(r[j]) {
      var i' := if i < k then i else i + 1;
      var j' := if j < k then j else j + 1;
      assert r[i] == rows[i'] && r[j] == rows[j'];
    }
    forall i | 0 <= i < |r| ensures 1 <= id(r[i]) <= bound {
      assert r[i] == rows[if i < k then i else i + 1];
    }
  }

  lemma UniqueRemove(users: seq<User>, k: nat)
    requires UniqueUsernames(users) && k < |users|
    ensures UniqueUsernames(users[..k] + users[k + 1..])
  {
    var r := users[..k] + users[k + 1..];
    forall i, j | 0 <= i < j < |r| ensures r[i].username != r[j].username {
      assert r[i] == users[if i < k then i else i + 1];
      assert r[j] == users[if j < k then j else j + 1];
    }
  }

  // ---------------------------------------------------------------------------
  // Lookups

  /** `SELECT * FROM users WHERE username = ?` (db.get: the first match). */
  function FindUserByName(users: seq<User>, name: string): (r: Option<User>)
    ensures r.Some? ==> r.value in users && r.value.username == name
    ensures r.None? <==> forall i :: 0 <= i < |users| ==> users[i].username != name
  {
    if users == [] then None
    else if users[0].username == name then Some(users[0])
    else FindUserByName(users[1..], name)
  }

  /** The position of the row with id `id`, if any (`WHERE id = ?`). */
  function IndexOfUser(users: seq<User>, id: int): (r: Option<nat>)
    ensures r.Some? ==> r.value < |users| && users[r.value].id == id
    ensures r.None? <==> forall i :: 0 <= i < |users| ==> users[i].id != id
  {
    if users == [] then None
    else if users[0].id == id then Some(0)
    else match IndexOfUser(users[1..], id)
      case None => None
      case Some(k) => Some(k + 1)
  }

  /** `SELECT * FROM students WHERE id = ?`. */
  function FindStudent(students: seq<Student>, id: int): (r: Option<Student>)
    ensures r.Some? ==> r.value in students && r.value.id == id
    ensures r.None? <==> forall i :: 0 <= i < |students| ==> students[i].id != id
  {
    if students == [] then None
    else if students[0].id == id then Some(students[0])
    else FindStudent(students[1..], id)
  }

  /** The users table after the admin seed `INSERT OR IGNORE INTO users
      (username, password, role) VALUES ('admin', ?, 'admin')`, with the
      AUTOINCREMENT counter after it. */
  function SeedAdmin(users: seq<User>, counter: nat, adminHash: string, now: int): (r: (seq<User>, nat))
    ensures FindUserByName(users, "admin").Some? ==> r == (users, counter)
    ensures FindUserByName(users, "admin").None? ==>
      r == (users + [User(counter + 1, "admin", adminHash, Admin, now)], counter + 1)
  {
    if FindUserByName(users, "admin").Some? then (users, counter)
    else (users + [User(counter + 1, "admin", adminHash, Admin, now)], counter + 1)
  }

  /** Initialising a store twice leaves what the first run left, whatever hash
      the second run computed. */
  lemma SeedAdminIdempotent(users: seq<User>, counter: nat, h1: string, h2: string, t1: int, t2: int)
    ensures var (u1, c1) := SeedAdmin(users, counter, h1, t1);
      SeedAdmin(u1, c1, h2, t2) == (u1, c1)
  {
    var (u1, c1) := SeedAdmin(users, counter, h1, t1);
    if FindUserByName(users, "admin").None? {
      assert u1[|u1| - 1].username == "admin";
    }
  }

  /** After the seed exactly one row is named admin, and it has role admin when
      the seed inserted it. */
  lemma SeedAdminResult(users: seq<User>, counter: nat, h: string, now: int)
    requires UniqueUsernames(users)
    ensures var (u1, _) := SeedAdmin(users, counter, h, now);
      && UniqueUsernames(u1)
      && FindUserByName(u1, "admin").Some?
      && (FindUserByName(users, "admin").None? ==> FindUserByName(u1, "admin").value.role == Admin)
  {
    var (u1, _) := SeedAdmin(users, counter, h, now);
    if FindUserByName(users, "admin").None? {
      assert u1[|u1| - 1].username == "admin";
      assert FindUserByName(u1, "admin").value == u1[|u1| - 1];
    }
  }

  // ---------------------------------------------------------------------------
  // The store

  class Db {
    var users: seq<User>
    var students: seq<Student>
    var auditLogs: seq<AuditRow>
    var failedLogins: seq<FailedLogin>
    /** sqlite_sequence: the largest id each table has ever issued. */
    var usersSeq: nat
    var studentsSeq: nat
    var auditSeq: nat
    var failedSeq: nat

    ghost predicate Valid()
      reads this
    {
      && UniqueUsernames(users)
      && Ascending(users, (u: User) => u.id, usersSeq)
      && Ascending(students, (s: Student) => s.id, studentsSeq)
      && Ascending(auditLogs, (a: AuditRow) => a.id, auditSeq)
      && Ascending(failedLogins, (f: FailedLogin) => f.id, failedSeq)
    }

    /** A new database file: every `CREATE TABLE IF NOT EXISTS` creates an
        empty table. */
    constructor ()
      ensures Valid()
      ensures users == [] && students == [] && auditLogs == [] && failedLogins == []
      ensures usersSeq == 0 && studentsSeq == 0 && auditSeq == 0 && failedSeq == 0
    {
      users, students, auditLogs, failedLogins := [], [], [], [];
      usersSeq, studentsSeq, auditSeq, failedSeq := 0, 0, 0, 0;
    }

    /** The `db.serialize` block run at every start: the tables already exist
        or were created by the constructor, so what remains is the admin seed
        with a freshly computed hash of the default password. */
    method Initialize(adminHash: string, now: int)
      requires Valid()
      modifies this
      ensures Valid()
      ensures (users, usersSeq) == SeedAdmin(old(users), old(usersSeq), adminHash, now)
      ensures students == old(students) && auditLogs == old(auditLogs) && failedLogins == old(failedLogins)
      ensures studentsSeq == old(studentsSeq) && auditSeq == old(auditSeq) && failedSeq == old(failedSeq)
    {
      var _ := InsertUser("admin", adminHash, Some(Admin), now);
    }

    /** `INSERT INTO users (username, password[, role])`: fails on the UNIQUE
        constraint, otherwise appends a row with the next id; the role defaults
        to staff. */
    method InsertUser(username: string, password: string, role: Option<Role>, now: int) returns (id: Option<nat>)
      requires Valid()
      modifies this
      ensures Valid()
      ensures FindUserByName(old(users), username).Some? ==>
        id.None? && users == old(users) && usersSeq == old(usersSeq)
      ensures FindUserByName(old(users), username).None? ==>
        && id == Some(old(usersSeq) + 1)
        && users == old(users) + [User(old(usersSeq) + 1, username, password, role.GetOr(Staff), now)]
        && usersSeq == old(usersSeq) + 1
      ensures students == old(students) && auditLogs == old(auditLogs) && failedLogins == old(failedLogins)
      ensures studentsSeq == old(studentsSeq) && auditSeq == old(auditSeq) && failedSeq == old(failedSeq)
    {
      if FindUserByName(users, username).Some? {
        return None;
      }
      var row := User(usersSeq + 1, username, password, role.GetOr(Staff), now);
      AscendingAppend(users, (u: User) => u.id, usersSeq, row);
      users := users + [row];
      usersSeq := usersSeq + 1;
      id := Some(usersSeq);
    }

    /** `UPDATE users SET password = ? WHERE id = ?`, returning `this.changes`. */
    method UpdateUserPassword(id: int, password: string) returns (changes: nat)
      requires Valid()
      modifies this
      ensures Valid()
      ensures IndexOfUser(old(users), id).None? ==> changes == 0 && users == old(users)
      ensures IndexOfUser(old(users), id).Some? ==>
        var k := IndexOfUser(old(users), id).value;
        changes == 1 && users == old(users)[k := old(users)[k].(password := password)]
      ensures usersSeq == old(usersSeq)
      ensures students == old(students) && auditLogs == old(auditLogs) && failedLogins == old(failedLogins)
      ensures studentsSeq == old(studentsSeq) && auditSeq == old(auditSeq) && failedSeq == old(failedSeq)
    {
      match IndexOfUser(users, id)
      case None =>
        changes := 0;
      case Some(k) =>
        users := users[k := users[k].(password := password)];
        changes := 1;
    }

    /** `DELETE FROM users WHERE id = ?`, returning `this.changes`. */
    method DeleteUser(id: int) returns (changes: nat)
      requires Valid()
      modifies this
      ensures Valid()
      ensures IndexOfUser(old(users), id).None? ==> changes == 0 && users == old(users)
      ensures IndexOfUser(old(users), id).Some? ==>
        var k := IndexOfUser(old(users), id).value;
        changes == 1 && users == old(users)[..k] + old(users)[k + 1..]
      ensures usersSeq == old(usersSeq)
      ensures students == old(students) && auditLogs == old(auditLogs) && failedLogins == old(failedLogins)
      ensures studentsSeq == old(studentsSeq) && auditSeq == old(auditSeq) && failedSeq == old(failedSeq)
    {
      match IndexOfUser(users, id)
      case None =>
        changes := 0;
      case Some(k) =>
        AscendingRemove(users, (u: User) => u.id, usersSeq, k);
        UniqueRemove(users, k);
        users := users[..k] + users[k + 1..];
        changes := 1;
    }

    /** `INSERT INTO students (...)`, returning `this.lastID`. */
    method InsertStudent(c: StudentInsert, now: int) returns (id: nat)
      requires Valid()
      modifies this
      ensures Valid()
      ensures id == old(studentsSeq) + 1 && studentsSeq == id
      ensures students == old(students) + [StudentRow(id, c, now)]
      ensures users == old(users) && auditLogs == old(auditLogs) && failedLogins == old(failedLogins)
      ensures usersSeq == old(usersSeq) && auditSeq == old(auditSeq) && failedSeq == old(failedSeq)
    {
      id := studentsSeq + 1;
      AscendingAppend(students, (s: Student) => s.id, studentsSeq, StudentRow(id, c, now));
      students := students + [StudentRow(id, c, now)];
      studentsSeq := id;
    }

    /** `INSERT INTO audit_logs (...)`, returning `this.lastID`. */
    method InsertAudit(a: AuditInsert, now: int) returns (id: nat)
      requires Valid()
      modifies this
      ensures Valid()
      ensures id == old(auditSeq) + 1 && auditSeq == id
      ensures auditLogs == old(auditLogs) + [AuditRowOf(id, a, now)]
      ensures users == old(users) && students == old(students) && failedLogins == old(failedLogins)
      ensures usersSeq == old(usersSeq) && studentsSeq == old(studentsSeq) && failedSeq == old(failedSeq)
    {
      id := auditSeq + 1;
      AscendingAppend(auditLogs, (a: AuditRow) => a.id, auditSeq, AuditRowOf(id, a, now));
      auditLogs := auditLogs + [AuditRowOf(id, a, now)];
      auditSeq := id;
    }

    /** `INSERT INTO failed_logins (username, ip_address)`; attempt_time takes
        its default, the current time. */
    method InsertFailedLogin(username: string, ip: string, now: int) returns (id: nat)
      requires Valid()
      modifies this
      ensures Valid()
      ensures id == old(failedSeq) + 1 && failedSeq == id
      ensures failedLogins == old(failedLogins) + [FailedLogin(id, username, ip, now)]
      ensures users == old(users) && students == old(students) && auditLogs == old(auditLogs)
      ensures usersSeq == old(usersSeq) && studentsSeq == old(studentsSeq) && auditSeq == old(auditSeq)
    {
      id := failedSeq + 1;
      AscendingAppend(failedLogins, (f: FailedLogin) => f.id, failedSeq, FailedLogin(id, username, ip, now));
      failedLogins := failedLogins + [FailedLogin(id, username, ip, now)];
      failedSeq := id;
    }
  }
}
