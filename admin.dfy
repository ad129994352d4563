/** The reports of server/routes/admin.js, every one behind `authenticateToken`
    and `requireAdmin`: the dashboard counts, the spreadsheet export, the PDF
    profile of one student, the clusters of failed logins and the latest
    audit rows. Only the data side is modelled: which rows each statement
    selects and the cells and text lines the export libraries are given. */
module Admin {
  import opened Common
  import opened Collections
  import opened Database
  import opened Http
  import opened Audit
  import Students

  // ---------------------------------------------------------------------------
  // GROUP BY ... COUNT(*)

  /** One (value, count) pair per distinct value, in order of first appearance. */
  function Groups<T(==,!new)>(values: seq<T>): seq<(T, nat)> {
    TallyOf(Distinct(values), values)
  }

  predicate KeyedOnce<T(==)>(g: seq<(T, nat)>) {
    forall i, j :: 0 <= i < j < |g| ==> g[i].0 != g[j].0
  }

  /** Every value has exactly one group, the group's count is the number of
      times the value occurs, no group is empty and the counts add up to the
      number of values. */
  lemma GroupsProperties<T(!new)>(values: seq<T>)
    ensures var g := Groups(values);
      && KeyedOnce(g)
      && Total(g) == |values|
      && (forall i :: 0 <= i < |g| ==> g[i].1 == multiset(values)[g[i].0] && g[i].1 > 0)
      && (forall x :: x in values ==> exists i :: 0 <= i < |g| && g[i].0 == x)
  {
    var d := Distinct(values);
    var g := Groups(values);
    TallyTotal(values);
    forall i | 0 <= i < |g| ensures g[i].1 == multiset(values)[g[i].0] && g[i].1 > 0 {
      assert g[i] == (d[i], Count(values, d[i]));
      assert d[i] in values;
    }
    forall x | x in values ensures exists i :: 0 <= i < |g| && g[i].0 == x {
      assert x in d;
      var i :| 0 <= i < |d| && d[i] == x;
      assert g[i].0 == x;
    }
  }

  // ---------------------------------------------------------------------------
  // GET /api/admin/stats

  /** `{ total, byClass, byGender }`. */
  datatype Stats = Stats(total: nat, byClass: seq<(string, nat)>, byGender: seq<(string, nat)>)

  function Classes(rows: seq<Student>): (r: seq<string>)
    ensures |r| == |rows| && forall i :: 0 <= i < |rows| ==> r[i] == rows[i].classEnrolled
  {
    seq(|rows|, i requires 0 <= i < |rows| => rows[i].classEnrolled)
  }

  function Sexes(rows: seq<Student>): (r: seq<string>)
    ensures |r| == |rows| && forall i :: 0 <= i < |rows| ==> r[i] == rows[i].sex
  {
    seq(|rows|, i requires 0 <= i < |rows| => rows[i].sex)
  }

  /** The three statements of the handler over the students table (all rows:
      none of them filters on is_deleted). */
  function StatsOf(rows: seq<Student>): Stats {
    Stats(|rows|, Groups(Classes(rows)), Groups(Sexes(rows)))
  }

  /** `total` counts every row, each list has one entry per class (sex) that
      occurs, with the number of rows in it, and each list's counts add up to
      `total`. */
  lemma {:induction false} StatsProperties(rows: seq<Student>)
    ensures var s := StatsOf(rows);
      && s.total == |rows|
      && Total(s.byClass) == s.total && Total(s.byGender) == s.total
      && KeyedOnce(s.byClass) && KeyedOnce(s.byGender)
      && (forall i :: 0 <= i < |s.byClass| ==> s.byClass[i].1 == multiset(Classes(rows))[s.byClass[i].0] > 0)
      && (forall i :: 0 <= i < |s.byGender| ==> s.byGender[i].1 == multiset(Sexes(rows))[s.byGender[i].0] > 0)
      && (forall k :: 0 <= k < |rows| ==> exists i :: 0 <= i < |s.byClass| && s.byClass[i].0 == rows[k].classEnrolled)
      && (forall k :: 0 <= k < |rows| ==> exists i :: 0 <= i < |s.byGender| && s.byGender[i].0 == rows[k].sex)
  {
    var classes := Classes(rows);
    var sexes := Sexes(rows);
    GroupsProperties(classes);
    GroupsProperties(sexes);
    forall k | 0 <= k < |rows| ensures classes[k] in classes && sexes[k] in sexes {
    }
  }

  /** GET /api/admin/stats behind `auditLog('VIEW_STATS')`: any of the three
      statements failing answers 500. */
  method GetStats(db: Db, req: Request, queryFails: bool, now: int, auditOk: bool) returns (r: Outcome<Stats>)
    requires db.Valid() && AdminCaller(req)
    modifies db
    ensures db.Valid()
    ensures queryFails ==> r == Fail(SERVER_ERROR, "Database error")
    ensures !queryFails ==> r == Ok(StatsOf(db.students))
    ensures db.auditLogs == Appended(old(db.auditLogs), old(db.auditSeq), "VIEW_STATS", [], req,
      if queryFails then SERVER_ERROR else OK, now, auditOk)
    ensures db.users == old(db.users) && db.students == old(db.students) && db.failedLogins == old(db.failedLogins)
  {
    if queryFails {
      r := Fail(SERVER_ERROR, "Database error");
    } else {
      r := Ok(StatsOf(db.students));
    }
    r := WrappedSend(db, "VIEW_STATS", [], req, if queryFails then SERVER_ERROR else OK, r, now, auditOk);
  }

  // ---------------------------------------------------------------------------
  // GET /api/admin/export/excel

  /** The `class` and `gender` query parameters, "" when absent. */
  datatype ExportQuery = ExportQuery(classFilter: string, gender: string)

  predicate MatchesExport(s: Student, q: ExportQuery) {
    && (q.classFilter == "" || s.classEnrolled == q.classFilter)
    && (q.gender == "" || s.sex == q.gender)
  }

  function ExportParams(q: ExportQuery): seq<Param> {
    (if q.classFilter != "" then [Text(q.classFilter)] else [])
    + (if q.gender != "" then [Text(q.gender)] else [])
  }

  /** The export statement, grown like the student listing's but without the
      search clause: every `?` has exactly one parameter. */
  method BuildExportQuery(q: ExportQuery) returns (sql: string, params: seq<Param>)
    ensures Placeholders(sql) == |params|
    ensures params == ExportParams(q)
    ensures Students.StudentSelect <= sql
  {
    Students.StudentClausePlaceholders();
    sql := Students.StudentSelect;
    params := [];
    if q.classFilter != "" {
      AppendClause(sql, Students.ClassClause, 1);
      sql := sql + Students.ClassClause;
      params := params + [Text(q.classFilter)];
    }
    if q.gender != "" {
      AppendClause(sql, Students.GenderClause, 1);
      sql := sql + Students.GenderClause;
      params := params + [Text(q.gender)];
    }
    AppendClause(sql, Students.StudentOrder, 0);
    sql := sql + Students.StudentOrder;
  }

  /** The rows the statement selects, newest submission first. */
  function ExportSelection(rows: seq<Student>, q: ExportQuery): seq<Student> {
    SortDesc(Filter(rows, s => MatchesExport(s, q)), Students.SubmittedAt)
  }

  /** A worksheet cell: the id and the timestamp are numbers, the rest text. */
  datatype Cell = IntCell(n: int) | StrCell(s: string)

  /** The 17 column headers, in the order the worksheet declares them. */
  const ExportHeaders: seq<string> := [
    "ID", "First Name", "Middle Name", "Last Name", "Sex", "Date of Birth", "Religion",
    "Class", "Parent Name", "Parent Phone", "Email", "Address", "State", "LGA",
    "Medical Condition", "Disability", "Submitted At"]

  /** A truthy INTEGER flag reads Yes, 0 reads No. */
  function YesNo(flag: int): (r: string)
    ensures r == "Yes" || r == "No"
    ensures r == "Yes" <==> flag != 0
  {
    if flag != 0 then "Yes" else "No"
  }

  /** `x || ''` on a NULL-able column. */
  function OrEmpty(o: Option<string>): (r: string)
    ensures o.Some? ==> r == o.value
    ensures r == "" <==> o.None? || o.value == ""
  {
    o.GetOr("")
  }

  /** The row `addRow` receives for one student, column by column under
      `ExportHeaders`. */
  function ExportRow(s: Student): (r: seq<Cell>)
    ensures |r| == |ExportHeaders|
    ensures r[0] == IntCell(s.id) && r[16] == IntCell(s.submittedAt)
  {
    [IntCell(s.id), StrCell(s.firstName), StrCell(OrEmpty(s.middleName)), StrCell(s.lastName),
     StrCell(s.sex), StrCell(s.dateOfBirth), StrCell(s.religion), StrCell(s.classEnrolled),
     StrCell(s.parentName), StrCell(s.parentPhone), StrCell(OrEmpty(s.email)),
     StrCell(s.homeAddress), StrCell(s.state), StrCell(s.lga),
     StrCell(YesNo(s.hasMedicalCondition)), StrCell(YesNo(s.hasDisability)), IntCell(s.submittedAt)]
  }

  /** Each cell of an exported row holds the column its header names: the
      text columns as stored, `''` for a missing middle name or email, and
      Yes/No for the two flags. */
  lemma ExportRowColumns(s: Student)
    ensures var r := ExportRow(s);
      && r[1] == StrCell(s.firstName) && r[2] == StrCell(OrEmpty(s.middleName)) && r[3] == StrCell(s.lastName)
      && r[4] == StrCell(s.sex) && r[5] == StrCell(s.dateOfBirth) && r[6] == StrCell(s.religion)
      && r[7] == StrCell(s.classEnrolled) && r[8] == StrCell(s.parentName) && r[9] == StrCell(s.parentPhone)
      && r[10] == StrCell(OrEmpty(s.email)) && r[11] == StrCell(s.homeAddress)
      && r[12] == StrCell(s.state) && r[13] == StrCell(s.lga)
      && r[14] == StrCell(YesNo(s.hasMedicalCondition)) && r[15] == StrCell(YesNo(s.hasDisability))
  {
  }

  /** `students.forEach(student => worksheet.addRow(...))`: the data rows under
      the header row. */
  function ExportSheet(rows: seq<Student>, q: ExportQuery): (sheet: seq<seq<Cell>>)
    ensures |sheet| == |ExportSelection(rows, q)|
    ensures forall i :: 0 <= i < |sheet| ==> sheet[i] == ExportRow(ExportSelection(rows, q)[i])
  {
    var selected := ExportSelection(rows, q);
    seq(|selected|, i requires 0 <= i < |selected| => ExportRow(selected[i]))
  }

  /** One sheet row per selected student: every listed student exists and
      passes the filters, every student that passes them is listed, and the
      rows run from the newest submission to the oldest. */
  lemma {:induction false} ExportSheetProperties(rows: seq<Student>, q: ExportQuery)
    ensures var sheet := ExportSheet(rows, q); var sel := ExportSelection(rows, q);
      && (forall i :: 0 <= i < |sheet| ==> sel[i] in rows && MatchesExport(sel[i], q))
      && (forall s :: s in rows && MatchesExport(s, q) ==> ExportRow(s) in sheet)
      && (forall i, j :: 0 <= i < j < |sheet| ==> sheet[i][16].n >= sheet[j][16].n)
  {
    var matching := Filter(rows, s => MatchesExport(s, q));
    var sel := ExportSelection(rows, q);
    var sheet := ExportSheet(rows, q);
    forall i | 0 <= i < |sheet| ensures sel[i] in rows && MatchesExport(sel[i], q) {
      assert sel[i] in multiset(sel);
      assert multiset(matching)[sel[i]] > 0;
    }
    forall s | s in rows && MatchesExport(s, q) ensures ExportRow(s) in sheet {
      assert multiset(rows)[s] > 0;
      assert s in multiset(sel);
      var i :| 0 <= i < |sel| && sel[i] == s;
      assert sheet[i] == ExportRow(s);
    }
    forall i, j | 0 <= i < j < |sheet| ensures sheet[i][16].n >= sheet[j][16].n {
      assert Students.SubmittedAt(sel[i]) >= Students.SubmittedAt(sel[j]);
    }
  }

  /** GET /api/admin/export/excel: 500 when the statement fails or when
      writing the workbook fails, otherwise the sheet. No audit row. */
  function ExportExcel(rows: seq<Student>, q: ExportQuery, queryFails: bool, writeFails: bool): (r: Outcome<seq<seq<Cell>>>)
    ensures queryFails ==> r == Fail(SERVER_ERROR, "Database error")
    ensures !queryFails && writeFails ==> r == Fail(SERVER_ERROR, "Failed to generate Excel file")
    ensures r.Ok? <==> !queryFails && !writeFails
    ensures r.Ok? ==> r.value == ExportSheet(rows, q)
  {
    if queryFails then Fail(SERVER_ERROR, "Database error")
    else if writeFails then Fail(SERVER_ERROR, "Failed to generate Excel file")
    else Ok(ExportSheet(rows, q))
  }

  // ---------------------------------------------------------------------------
  // GET /api/admin/export/pdf/:id

  /** A NULL-able text column that JavaScript finds truthy. */
  predicate Present(o: Option<string>) { o.Some? && o.value != "" }

  /** The name line before `.trim()`. */
  function RawNameLine(s: Student): string {
    "Full Name: " + s.firstName + " " + OrEmpty(s.middleName) + " " + s.lastName
  }

  /** The name line of the profile, `.trim()` of the whole line. The line
      starts with its label, so only its end can lose white space (see
      NameLineTrimsOnlyTheEnd). */
  function NameLine(s: Student): string {
    TrimEnd(RawNameLine(s))
  }

  /** NameLine is the trimmed line: only white space at its end goes, the
      label always stays, and the double space a missing middle name leaves
      stays too. */
  lemma NameLineTrimsOnlyTheEnd(s: Student)
    ensures var r := NameLine(s);
      && r == Trim(RawNameLine(s))
      && "Full Name:" <= r
      && r <= RawNameLine(s) && AllSpace(RawNameLine(s)[|r|..])
      && !IsSpace(r[|r| - 1])
  {
    var raw := RawNameLine(s);
    assert raw[..10] == "Full Name:";
    assert !IsSpace(raw[0]) && !IsSpace(raw[9]);
    assert TrimStart(raw) == raw;
  }

  /** When the last name ends in a visible character nothing is trimmed. */
  lemma NameLineUntrimmed(s: Student)
    requires s.lastName != [] && !IsSpace(s.lastName[|s.lastName| - 1])
    ensures NameLine(s) == RawNameLine(s)
  {
    var raw := RawNameLine(s);
    assert raw[|raw| - 1] == s.lastName[|s.lastName| - 1];
  }

  /** A line of the document: a heading, free text, or `<caption>: <value>`. */
  datatype Line = Title(text: string) | Plain(text: string) | Entry(caption: string, value: string)

  /** The value of the Religion line: ` - <religion_other>` is added only when
      that column is set and not empty. */
  function ReligionValue(s: Student): (r: string)
    ensures s.religion <= r
    ensures Present(s.religionOther) ==> r == s.religion + " - " + s.religionOther.value
    ensures !Present(s.religionOther) ==> r == s.religion
  {
    s.religion + (if Present(s.religionOther) then " - " + s.religionOther.value else "")
  }

  /** An entry printed only when its column is truthy. */
  function Optional(caption: string, o: Option<string>): (r: seq<Line>)
    ensures Present(o) ==> r == [Entry(caption, o.value)]
    ensures !Present(o) ==> r == []
  {
    if Present(o) then [Entry(caption, o.value)] else []
  }

  /** The "Student Information" section. */
  function InfoLines(s: Student): (lines: seq<Line>)
    ensures |lines| == 6
    ensures lines[1] == Plain(NameLine(s)) && lines[4] == Entry("Religion", ReligionValue(s))
  {
    [Title("Student Information"), Plain(NameLine(s)), Entry("Sex", s.sex),
     Entry("Date of Birth", s.dateOfBirth), Entry("Religion", ReligionValue(s)),
     Entry("Class", s.classEnrolled)]
  }

  /** The "Parent/Guardian Information" section: the alternative phone and
      the email only when set. */
  function ParentLines(s: Student): (lines: seq<Line>)
    ensures Entry("Alternative Phone", OrEmpty(s.alternativePhone)) in lines <==> Present(s.alternativePhone)
    ensures Entry("Email", OrEmpty(s.email)) in lines <==> Present(s.email)
  {
    [Title("Parent/Guardian Information"), Entry("Name", s.parentName), Entry("Phone", s.parentPhone)]
    + Optional("Alternative Phone", s.alternativePhone) + Optional("Email", s.email)
    + [Entry("Address", s.homeAddress), Entry("State", s.state), Entry("LGA", s.lga)]
  }

  /** The "Health Information" section: both flags as Yes/No, the four
      free-text columns only when set. */
  function HealthLines(s: Student): (lines: seq<Line>)
    ensures |lines| >= 3 && lines[1] == Entry("Medical Condition", YesNo(s.hasMedicalCondition))
    ensures Entry("Type", OrEmpty(s.disabilityType)) in lines <==> Present(s.disabilityType)
    ensures Entry("Emergency Instructions", OrEmpty(s.emergencyInstructions)) in lines <==> Present(s.emergencyInstructions)
  {
    [Title("Health Information"), Entry("Medical Condition", YesNo(s.hasMedicalCondition))]
    + Optional("Details", s.medicalConditionDetails)
    + [Entry("Disability", YesNo(s.hasDisability))]
    + Optional("Type", s.disabilityType) + Optional("Details", s.disabilityDetails)
    + Optional("Emergency Instructions", s.emergencyInstructions)
  }

  /** The text lines of the document in order: the two title lines, the
      three sections and the signature of the footer. */
  function ProfileLines(s: Student): seq<Line> {
    [Title("Future Mirror School"), Title("Student Registration Profile")] + InfoLines(s) + ParentLines(s)
    + HealthLines(s) + [Entry("Parent Signature", s.parentSignature)]
  }

  /** The document: its download name, the photo it embeds and its lines. */
  datatype Profile = Profile(filename: string, photo: Option<string>, lines: seq<Line>)

  /** The profile of a stored student; `fileExists` is `fs.existsSync`. */
  function ProfileOf(s: Student, fileExists: string -> bool): (p: Profile)
    ensures p.filename == "student-" + NatToString(s.id) + ".pdf"
    ensures p.photo.Some? <==> Present(s.photoPath) && fileExists(s.photoPath.value)
    ensures p.photo.Some? ==> p.photo == s.photoPath
    ensures p.lines == ProfileLines(s)
  {
    var photo := if Present(s.photoPath) && fileExists(s.photoPath.value) then s.photoPath else None;
    Profile("student-" + NatToString(s.id) + ".pdf", photo, ProfileLines(s))
  }

  /** The digits in the download name give back the student's id. */
  lemma ProfileNameCarriesId(s: Student, fileExists: string -> bool)
    ensures var f := ProfileOf(s, fileExists).filename;
      && |f| > 12 && f[..8] == "student-" && f[|f| - 4..] == ".pdf"
      && AllDigits(f[8..|f| - 4]) && DigitsValue(f[8..|f| - 4]) == s.id
  {
    var f := ProfileOf(s, fileExists).filename;
    assert f[8..|f| - 4] == NatToString(s.id);
    NatToStringRoundTrip(s.id);
  }

  /** GET /api/admin/export/pdf/:id: 500 when the lookup fails, 404 and no
      document for an unknown id, otherwise that student's profile. */
  function ExportPdf(rows: seq<Student>, id: int, queryFails: bool, fileExists: string -> bool): (r: Outcome<Profile>)
    ensures queryFails ==> r == Fail(SERVER_ERROR, "Database error")
    ensures !queryFails && FindStudent(rows, id).None? ==> r == Fail(NOT_FOUND, "Student not found")
    ensures r.Ok? <==> !queryFails && FindStudent(rows, id).Some?
    ensures r.Ok? ==> exists s :: s in rows && s.id == id && r.value == ProfileOf(s, fileExists)
  {
    if queryFails then Fail(SERVER_ERROR, "Database error")
    else match FindStudent(rows, id)
      case None => Fail(NOT_FOUND, "Student not found")
      case Some(s) => Ok(ProfileOf(s, fileExists))
  }

  /** The PDF export finds a student exactly when the single lookup of
      GET /api/students/:id does, and describes the same row. */
  lemma PdfAgreesWithLookup(rows: seq<Student>, id: int, fileExists: string -> bool)
    ensures ExportPdf(rows, id, false, fileExists).Ok? <==> Students.GetStudent(rows, id, false).Ok?
    ensures ExportPdf(rows, id, false, fileExists).Ok? ==>
      ExportPdf(rows, id, false, fileExists).value == ProfileOf(Students.GetStudent(rows, id, false).value.row, fileExists)
  {
  }

  // ---------------------------------------------------------------------------
  // GET /api/admin/security-alerts

  /** Clusters below three attempts are not reported; the window defaults to
      24 hours. */
  const AlertMinAttempts: nat := 3
  const DefaultAlertHours: nat := 24

  /** One row of the answer: `username, ip_address, attempts, last_attempt`. */
  datatype Alert = Alert(username: string, ipAddress: string, attempts: nat, lastAttempt: int)

  function Origin(f: FailedLogin): (string, string) { (f.username, f.ipAddress) }

  function Origins(rows: seq<FailedLogin>): (r: seq<(string, string)>)
    ensures |r| == |rows| && forall i :: 0 <= i < |rows| ==> r[i] == Origin(rows[i])
  {
    if rows == [] then [] else Origins(rows[..|rows| - 1]) + [Origin(rows[|rows| - 1])]
  }

  /** `WHERE attempt_time > datetime('now', '-' || ? || ' hours')`. */
  function Within(rows: seq<FailedLogin>, now: int, hours: nat): seq<FailedLogin> {
    Filter(rows, (f: FailedLogin) => f.attemptTime > now - hours * 3600)
  }

  /** `MAX(attempt_time)` over the rows of one (username, ip) group. */
  function Latest(rows: seq<FailedLogin>, key: (string, string)): (t: int)
    requires key in Origins(rows)
    ensures exists i :: 0 <= i < |rows| && Origin(rows[i]) == key && rows[i].attemptTime == t
    ensures forall i :: 0 <= i < |rows| && Origin(rows[i]) == key ==> rows[i].attemptTime <= t
  {
    var init := rows[..|rows| - 1];
    var last := rows[|rows| - 1];
    if Origin(last) != key then
      assert key in Origins(init);
      Latest(init, key)
    else if key in Origins(init) then
      var t0 := Latest(init, key);
      if last.attemptTime > t0 then last.attemptTime else t0
    else last.attemptTime
  }

  /** The alert of one (username, ip) group of the rows in the window. */
  function GroupAlert(recent: seq<FailedLogin>, key: (string, string)): (a: Alert)
    requires key in Origins(recent)
    ensures (a.username, a.ipAddress) == key
    ensures Describes(a, recent)
  {
    Alert(key.0, key.1, Count(Origins(recent), key), Latest(recent, key))
  }

  /** `a` is the aggregate row of its group in `recent`: COUNT(*) of the
      group's rows and the MAX of their times. */
  predicate Describes(a: Alert, recent: seq<FailedLogin>) {
    && a.attempts == multiset(Origins(recent))[(a.username, a.ipAddress)]
    && (exists k :: 0 <= k < |recent| && Origin(recent[k]) == (a.username, a.ipAddress)
          && recent[k].attemptTime == a.lastAttempt)
    && (forall k :: 0 <= k < |recent| && Origin(recent[k]) == (a.username, a.ipAddress)
          ==> recent[k].attemptTime <= a.lastAttempt)
  }

  /** One alert per group, in order of the groups' first appearance. */
  function GroupAlerts(recent: seq<FailedLogin>): (all: seq<Alert>)
    ensures |all| == |Distinct(Origins(recent))|
    ensures forall g :: 0 <= g < |all| ==> all[g] == GroupAlert(recent, Distinct(Origins(recent))[g])
  {
    var keys := Distinct(Origins(recent));
    seq(|keys|, i requires 0 <= i < |keys| => GroupAlert(recent, keys[i]))
  }

  function Attempts(a: Alert): int { a.attempts }

  predicate Reportable(a: Alert) { a.attempts >= AlertMinAttempts }

  /** The aggregation: the attempts in the window, grouped by (username, ip),
      groups of at least three attempts, largest first. */
  function SecurityAlerts(rows: seq<FailedLogin>, now: int, hours: nat): seq<Alert> {
    SortDesc(Filter(GroupAlerts(Within(rows, now, hours)), Reportable), Attempts)
  }

  lemma {:induction false} NoDupsAtMostOnce<T>(s: seq<T>, x: T)
    requires NoDups(s)
    ensures multiset(s)[x] <= 1
    decreases |s|
  {
    if s != [] {
      assert s == [s[0]] + s[1..];
      NoDupsAtMostOnce(s[1..], x);
    }
  }

  lemma TwiceInMultiset<T>(s: seq<T>, i: nat, j: nat)
    requires i < j < |s| && s[i] == s[j]
    ensures multiset(s)[s[i]] >= 2
  {
    assert s == s[..j] + [s[j]] + s[j + 1..];
    assert s[i] in s[..j];
  }

  /** The group alerts name each (username, ip) once. */
  lemma GroupAlertsKeyedOnce(recent: seq<FailedLogin>)
    ensures var all := GroupAlerts(recent);
      forall a, b :: 0 <= a < b < |all| ==> (all[a].username, all[a].ipAddress) != (all[b].username, all[b].ipAddress)
  {
  }

  /** A reported alert is the alert of one of the groups. */
  lemma ReportedAlert(recent: seq<FailedLogin>, r: seq<Alert>, i: nat)
    requires r == SortDesc(Filter(GroupAlerts(recent), Reportable), Attempts) && i < |r|
    ensures Reportable(r[i]) && Describes(r[i], recent)
  {
    var all := GroupAlerts(recent);
    var kept := Filter(all, Reportable);
    assert r[i] in multiset(r);
    assert multiset(kept)[r[i]] > 0;
    assert r[i] in kept;
    var g :| 0 <= g < |all| && all[g] == r[i];
  }

  /** No alert is reported twice. */
  lemma ReportedOnce(recent: seq<FailedLogin>, r: seq<Alert>, i: nat, j: nat)
    requires r == SortDesc(Filter(GroupAlerts(recent), Reportable), Attempts) && i < j < |r|
    ensures (r[i].username, r[i].ipAddress) != (r[j].username, r[j].ipAddress)
  {
    var all := GroupAlerts(recent);
    var kept := Filter(all, Reportable);
    ReportedAlert(recent, r, i);
    ReportedAlert(recent, r, j);
    if (r[i].username, r[i].ipAddress) == (r[j].username, r[j].ipAddress) {
      // Both describe the same group, so they are the same value, which the
      // group alerts hold only once.
      assert r[i] == r[j];
      GroupAlertsKeyedOnce(recent);
      assert NoDups(all);
      TwiceInMultiset(r, i, j);
      NoDupsAtMostOnce(all, r[i]);
      assert false;
    }
  }

  /** A group with at least three attempts in the window is reported. */
  lemma LargeGroupReported(recent: seq<FailedLogin>, r: seq<Alert>, key: (string, string))
    requires r == SortDesc(Filter(GroupAlerts(recent), Reportable), Attempts)
    requires multiset(Origins(recent))[key] >= AlertMinAttempts
    ensures exists i :: 0 <= i < |r| && (r[i].username, r[i].ipAddress) == key
  {
    var all := GroupAlerts(recent);
    var keys := Distinct(Origins(recent));
    assert key in Origins(recent);
    assert key in keys;
    var g :| 0 <= g < |keys| && keys[g] == key;
    assert Reportable(all[g]);
    assert multiset(all)[all[g]] > 0;
    assert multiset(r)[all[g]] > 0;
    var i :| 0 <= i < |r| && r[i] == all[g];
  }

  /** Every reported cluster has at least three attempts in the window from
      one username and address, counts exactly those and carries the latest
      of their times; the list runs from the largest cluster to the smallest. */
  lemma SecurityAlertsSound(rows: seq<FailedLogin>, now: int, hours: nat)
    ensures SortedDesc(SecurityAlerts(rows, now, hours), Attempts)
    ensures var r := SecurityAlerts(rows, now, hours);
      forall i :: 0 <= i < |r| ==> Reportable(r[i]) && Describes(r[i], Within(rows, now, hours))
  {
    var recent := Within(rows, now, hours);
    var r := SortDesc(Filter(GroupAlerts(recent), Reportable), Attempts);
    assert SecurityAlerts(rows, now, hours) == r;
    forall i | 0 <= i < |r| ensures Reportable(r[i]) && Describes(r[i], recent) {
      ReportedAlert(recent, r, i);
    }
  }

  /** No cluster is reported twice. */
  lemma SecurityAlertsOnce(rows: seq<FailedLogin>, now: int, hours: nat)
    ensures var r := SecurityAlerts(rows, now, hours);
      forall i, j :: 0 <= i < j < |r| ==> (r[i].username, r[i].ipAddress) != (r[j].username, r[j].ipAddress)
  {
    var recent := Within(rows, now, hours);
    var r := SortDesc(Filter(GroupAlerts(recent), Reportable), Attempts);
    assert SecurityAlerts(rows, now, hours) == r;
    forall i, j | 0 <= i < j < |r| ensures (r[i].username, r[i].ipAddress) != (r[j].username, r[j].ipAddress) {
      ReportedOnce(recent, r, i, j);
    }
  }

  /** Every username and address with at least three attempts in the window
      is reported. */
  lemma SecurityAlertsComplete(rows: seq<FailedLogin>, now: int, hours: nat)
    ensures var r := SecurityAlerts(rows, now, hours);
      forall key :: multiset(Origins(Within(rows, now, hours)))[key] >= AlertMinAttempts ==>
        exists i :: 0 <= i < |r| && (r[i].username, r[i].ipAddress) == key
  {
    var recent := Within(rows, now, hours);
    var r := SortDesc(Filter(GroupAlerts(recent), Reportable), Attempts);
    assert SecurityAlerts(rows, now, hours) == r;
    forall key | multiset(Origins(recent))[key] >= AlertMinAttempts
      ensures exists i :: 0 <= i < |r| && (r[i].username, r[i].ipAddress) == key
    {
      LargeGroupReported(recent, r, key);
    }
  }

  /** GET /api/admin/security-alerts behind `auditLog('VIEW_SECURITY_ALERTS')`;
      `hours` is the query parameter, None when absent. */
  method GetSecurityAlerts(db: Db, req: Request, hours: Option<nat>, queryFails: bool, now: int, auditOk: bool)
    returns (r: Outcome<seq<Alert>>)
    requires db.Valid() && AdminCaller(req)
    modifies db
    ensures db.Valid()
    ensures queryFails ==> r == Fail(SERVER_ERROR, "Database error")
    ensures !queryFails ==> r == Ok(SecurityAlerts(db.failedLogins, now, hours.GetOr(DefaultAlertHours)))
    ensures db.auditLogs == Appended(old(db.auditLogs), old(db.auditSeq), "VIEW_SECURITY_ALERTS", [], req,
      if queryFails then SERVER_ERROR else OK, now, auditOk)
    ensures db.users == old(db.users) && db.students == old(db.students) && db.failedLogins == old(db.failedLogins)
  {
    if queryFails {
      r := Fail(SERVER_ERROR, "Database error");
    } else {
      r := Ok(SecurityAlerts(db.failedLogins, now, hours.GetOr(DefaultAlertHours)));
    }
    r := WrappedSend(db, "VIEW_SECURITY_ALERTS", [], req, if queryFails then SERVER_ERROR else OK, r, now, auditOk);
  }

  // ---------------------------------------------------------------------------
  // GET /api/admin/recent-activity

  const DefaultActivityLimit: int := 50

  /** `SELECT * FROM audit_logs ORDER BY timestamp DESC LIMIT ?`: the rows
      by their stored timestamp text, largest first. */
  function RecentActivity(logs: seq<AuditRow>, limit: int): seq<AuditRow> {
    Page(SortDesc(logs, StoredOrder), limit, 0)
  }

  /** `limit` rows (all of them for a negative limit or a short table), in
      descending stored-text order, each a row of the table, and no row left
      out sorts above one returned. */
  lemma {:induction false} RecentActivityProperties(logs: seq<AuditRow>, limit: int)
    ensures var r := RecentActivity(logs, limit);
      && |r| == (if limit < 0 || limit >= |logs| then |logs| else limit)
      && SortedDesc(r, StoredOrder)
      && (forall i :: 0 <= i < |r| ==> r[i] in logs)
      && (forall y :: multiset(logs)[y] > multiset(r)[y] ==>
            forall i :: 0 <= i < |r| ==> StoredOrder(r[i]) >= StoredOrder(y))
  {
    TopRowsOfSorted(logs, StoredOrder, limit);
  }

  /** The text order is not the clock order: a LOGIN_SUCCESS row, stored with
      the default format, loses to a row the wrapper wrote earlier the same
      day, so recent activity with limit 1 leaves out the newer login. */
  lemma NewerLoginLeftOut(login: AuditRow, earlier: AuditRow)
    requires login.timestamp.DefaultText? && earlier.timestamp.IsoText?
    requires Day(login.timestamp) == Day(earlier.timestamp)
    requires earlier.timestamp.time < login.timestamp.time
    ensures RecentActivity([login, earlier], 1) == [earlier]
  {
    DefaultTextSinks(login.timestamp, earlier.timestamp);
    assert SortDesc([earlier], StoredOrder) == [earlier];
    assert [login, earlier][1..] == [earlier];
  }

  /** GET /api/admin/recent-activity behind `auditLog('VIEW_RECENT_ACTIVITY')`;
      `limit` is the query parameter, None when absent or empty. The rows are
      read before the wrapper adds its own. */
  method GetRecentActivity(db: Db, req: Request, limit: Option<int>, queryFails: bool, now: int, auditOk: bool)
    returns (r: Outcome<seq<AuditRow>>)
    requires db.Valid() && AdminCaller(req)
    modifies db
    ensures db.Valid()
    ensures queryFails ==> r == Fail(SERVER_ERROR, "Database error")
    ensures !queryFails ==> r == Ok(RecentActivity(old(db.auditLogs), limit.GetOr(DefaultActivityLimit)))
    ensures db.auditLogs == Appended(old(db.auditLogs), old(db.auditSeq), "VIEW_RECENT_ACTIVITY", [], req,
      if queryFails then SERVER_ERROR else OK, now, auditOk)
    ensures db.users == old(db.users) && db.students == old(db.students) && db.failedLogins == old(db.failedLogins)
  {
    if queryFails {
      r := Fail(SERVER_ERROR, "Database error");
    } else {
      r := Ok(RecentActivity(db.auditLogs, limit.GetOr(DefaultActivityLimit)));
    }
    r := WrappedSend(db, "VIEW_RECENT_ACTIVITY", [], req, if queryFails then SERVER_ERROR else OK, r, now, auditOk);
  }

  // ---------------------------------------------------------------------------
  // GET /api/admin/audit-logs

  /** The route behind `auditLog('VIEW_AUDIT_LOGS')` that hands over to
      `getAuditLogs`: the page is read before the wrapper adds its own row,
      whose status is the page's. */
  method ViewAuditLogs(db: Db, req: Request, q: AuditQuery, storeFails: bool, now: int, auditOk: bool)
    returns (r: Outcome<seq<AuditRow>>)
    requires db.Valid() && AdminCaller(req)
    modifies db
    ensures db.Valid()
    ensures r == GetAuditLogs(old(db.auditLogs), q, storeFails)
    ensures db.auditLogs == Appended(old(db.auditLogs), old(db.auditSeq), "VIEW_AUDIT_LOGS", [], req,
      if storeFails then SERVER_ERROR else OK, now, auditOk)
    ensures db.users == old(db.users) && db.students == old(db.students) && db.failedLogins == old(db.failedLogins)
  {
    r := GetAuditLogs(db.auditLogs, q, storeFails);
    r := WrappedSend(db, "VIEW_AUDIT_LOGS", [], req, if storeFails then SERVER_ERROR else OK, r, now, auditOk);
  }
}
