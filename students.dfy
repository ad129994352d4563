/** The public student routes of server/routes/students.js: the upload
    filter, the registration validators, the conversion of the submitted form
    into the stored columns, the filtered listing with its statement builder,
    the single lookup, and the `/uploads/<basename>` links both add. The
    `isISO8601` validator is not modelled: its verdict on the date of birth
    is the parameter `dobValid`; the current year is the parameter `year`. */
module Students {
  import opened Common
  import opened Collections
  import opened Database
  import opened Http

  // ---------------------------------------------------------------------------
  // fileFilter

  datatype FilterVerdict = Accept | Reject(message: string)

  /** multer's `fileFilter`: photos must be JPEG or PNG, birth certificates PDF,
      JPEG or PNG (the non-standard `image/jpg` is accepted for photos only),
      and any other field passes. */
  function FileFilter(fieldname: string, mimetype: string): (v: FilterVerdict)
    ensures fieldname == "photo" ==>
      (v.Accept? <==> mimetype in {"image/jpeg", "image/png", "image/jpg"})
    ensures fieldname == "birthCertificate" ==>
      (v.Accept? <==> mimetype in {"application/pdf", "image/jpeg", "image/png"})
    ensures fieldname != "photo" && fieldname != "birthCertificate" ==> v.Accept?
    ensures v.Reject? && fieldname == "photo" ==> v.message == "Photo must be JPG or PNG format"
    ensures v.Reject? && fieldname != "photo" ==> v.message == "Birth certificate must be PDF, JPG, or PNG"
  {
    if fieldname == "photo" then
      if mimetype == "image/jpeg" || mimetype == "image/png" || mimetype == "image/jpg" then Accept
      else Reject("Photo must be JPG or PNG format")
    else if fieldname == "birthCertificate" then
      if mimetype == "application/pdf" || mimetype == "image/jpeg" || mimetype == "image/png" then Accept
      else Reject("Birth certificate must be PDF, JPG, or PNG")
    else Accept
  }

  // ---------------------------------------------------------------------------
  // The Nigerian phone pattern /^(\+234|0)[0-9]{10}$/

  predicate TenDigits(t: string) { |t| == 10 && AllDigits(t) }

  /** The pattern tried as the regular expression engine tries it: the `+234`
      alternative first, then `0`, each followed by exactly ten digits up to
      the end. */
  predicate ValidPhone(s: string) {
    || (|s| >= 4 && s[..4] == "+234" && TenDigits(s[4..]))
    || (|s| >= 1 && s[0] == '0' && TenDigits(s[1..]))
  }

  /** Every number the pattern accepts is a prefix followed by its last ten
      digits, and is 14 or 11 characters long. */
  lemma PhoneParts(s: string)
    requires ValidPhone(s)
    ensures |s| == 14 || |s| == 11
    ensures var d := s[|s| - 10..]; TenDigits(d) && (s == "+234" + d || s == "0" + d)
  {
    var d := s[|s| - 10..];
    if |s| >= 4 && s[..4] == "+234" && TenDigits(s[4..]) {
      assert s == s[..4] + s[4..];
    } else {
      assert s == [s[0]] + s[1..];
    }
  }

  /** Both prefixes followed by any ten digits are accepted. */
  lemma PhoneFromParts(d: string)
    requires TenDigits(d)
    ensures ValidPhone("+234" + d) && ValidPhone("0" + d)
  {
    assert ("+234" + d)[4..] == d;
    assert ("0" + d)[1..] == d;
  }

  /** A number of any length other than 14 or 11 fails; PhoneParts rules out
      another prefix or a non-digit. */
  lemma PhoneRejects(s: string)
    requires |s| != 14 && |s| != 11
    ensures !ValidPhone(s)
  {
  }

  // ---------------------------------------------------------------------------
  // validateStudent

  /** The registration form's text fields as the body parser delivers them; an
      absent field is "". */
  datatype StudentForm = StudentForm(
    firstName: string, middleName: string, lastName: string, sex: string, dateOfBirth: string,
    religion: string, religionOther: string, classEnrolled: string, parentName: string,
    parentPhone: string, alternativePhone: string, email: string, homeAddress: string,
    state: string, lga: string, hasMedicalCondition: string, medicalConditionDetails: string,
    hasDisability: string, disabilityType: string, disabilityDetails: string,
    emergencyInstructions: string, consentGiven: string, parentSignature: string,
    academicSession: string)

  const Religions: seq<string> := ["Christianity", "Islam", "Traditional", "Others"]

  /** The form after the `trim()` sanitizers of `validateStudent`: the seven
      fields they guard are trimmed in the request body itself, so both the
      later validators and the handler see the trimmed values. */
  function TrimSanitized(f: StudentForm): (t: StudentForm)
    ensures t.firstName == Trim(f.firstName) && t.lastName == Trim(f.lastName)
    ensures t.parentName == Trim(f.parentName) && t.parentSignature == Trim(f.parentSignature)
    ensures t.homeAddress == Trim(f.homeAddress) && t.state == Trim(f.state) && t.lga == Trim(f.lga)
    ensures t.(firstName := f.firstName, lastName := f.lastName, parentName := f.parentName,
               parentSignature := f.parentSignature, homeAddress := f.homeAddress,
               state := f.state, lga := f.lga) == f
  {
    f.(firstName := Trim(f.firstName), lastName := Trim(f.lastName), parentName := Trim(f.parentName),
       parentSignature := Trim(f.parentSignature), homeAddress := Trim(f.homeAddress),
       state := Trim(f.state), lga := Trim(f.lga))
  }

  /** What the rules of `validateStudent` ask of the sanitized form `t`;
      `dobValid` is the `isISO8601` verdict on the date of birth. */
  predicate FormRules(t: StudentForm, dobValid: bool) {
    && t.firstName != "" && t.lastName != ""
    && t.sex in {"Male", "Female"}
    && dobValid
    && t.religion in Religions
    && t.classEnrolled != ""
    && t.parentName != ""
    && ValidPhone(t.parentPhone)
    && t.homeAddress != "" && t.state != "" && t.lga != ""
    && t.consentGiven == "true"
    && t.parentSignature != ""
  }

  /** The thirteen validators of `validateStudent` on the sanitized form, in
      their order. */
  function StudentChain(t: StudentForm, dobValid: bool): (chain: seq<Validator>)
    ensures |chain| == 13
  {
    [ Validator(t.firstName != "", FieldError("firstName", "First name is required")),
      Validator(t.lastName != "", FieldError("lastName", "Last name is required")),
      Validator(t.sex == "Male" || t.sex == "Female", FieldError("sex", "Sex must be Male or Female")),
      Validator(dobValid, FieldError("dateOfBirth", "Valid date of birth is required")),
      Validator(t.religion in Religions, FieldError("religion", "Valid religion is required")),
      Validator(t.classEnrolled != "", FieldError("classEnrolled", "Class to be enrolled is required")),
      Validator(t.parentName != "", FieldError("parentName", "Parent/Guardian name is required")),
      Validator(ValidPhone(t.parentPhone), FieldError("parentPhone", "Valid Nigerian phone number is required")),
      Validator(t.homeAddress != "", FieldError("homeAddress", "Home address is required")),
      Validator(t.state != "", FieldError("state", "State is required")),
      Validator(t.lga != "", FieldError("lga", "Local Government Area is required")),
      Validator(t.consentGiven == "true", FieldError("consentGiven", "Consent must be given")),
      Validator(t.parentSignature != "", FieldError("parentSignature", "Parent signature is required")) ]
  }

  /** The errors the handler answers 400 with: none exactly when the form
      follows every rule, and at most one per validator. */
  function StudentErrors(t: StudentForm, dobValid: bool): (errs: seq<FieldError>)
    ensures |errs| <= 13
    ensures errs == [] <==> FormRules(t, dobValid)
  {
    var chain := StudentChain(t, dobValid);
    AllPass(chain);
    Reported(chain)
  }

  lemma AllPass(chain: seq<Validator>)
    requires |chain| == 13
    ensures (forall i :: 0 <= i < |chain| ==> chain[i].ok) <==>
      && chain[0].ok && chain[1].ok && chain[2].ok && chain[3].ok && chain[4].ok && chain[5].ok
      && chain[6].ok && chain[7].ok && chain[8].ok && chain[9].ok && chain[10].ok && chain[11].ok
      && chain[12].ok
  {
  }

  // ---------------------------------------------------------------------------
  // The stored columns

  /** `x === 'true' ? 1 : 0`. */
  function Flag(s: string): (b: int)
    ensures b == 1 <==> s == "true"
    ensures b == 0 <==> s != "true"
  {
    if s == "true" then 1 else 0
  }

  /** `new Date().getFullYear() + '/' + (new Date().getFullYear() + 1)`. */
  function DefaultSession(year: nat): (s: string)
    ensures '/' in s
  {
    NatToString(year) + "/" + NatToString(year + 1)
  }

  /** The default session reads back as the year and the next one. */
  lemma DefaultSessionParts(year: nat)
    ensures var s := DefaultSession(year);
      var k := |NatToString(year)|;
      && s[k] == '/'
      && AllDigits(s[..k]) && DigitsValue(s[..k]) == year
      && AllDigits(s[k + 1..]) && DigitsValue(s[k + 1..]) == year + 1
  {
    var s := DefaultSession(year);
    var k := |NatToString(year)|;
    assert s[..k] == NatToString(year);
    assert s[k + 1..] == NatToString(year + 1);
    NatToStringRoundTrip(year);
    NatToStringRoundTrip(year + 1);
  }

  /** `path.replace(/\\/g, '/')`. */
  function ForwardSlashes(p: string): (r: string)
    ensures |r| == |p|
    ensures forall k :: 0 <= k < |p| ==> r[k] == (if p[k] == '\\' then '/' else p[k])
  {
    if p == [] then [] else (if p[0] == '\\' then "/" else [p[0]]) + ForwardSlashes(p[1..])
  }

  /** A converted path holds no backslash, and converting it again changes
      nothing. */
  lemma ForwardSlashesIdempotent(p: string)
    ensures '\\' !in ForwardSlashes(p)
    ensures ForwardSlashes(ForwardSlashes(p)) == ForwardSlashes(p)
  {
    var r := ForwardSlashes(p);
    assert forall k :: 0 <= k < |r| ==> r[k] != '\\';
  }

  /** The values bound to the INSERT's 26 placeholders, read from the
      sanitized form `t`: the required fields as they are, `x || null` for the
      optional ones, the three flags, the default session, and the uploaded
      files' paths with forward slashes. Nothing is given for is_deleted. */
  function StudentColumns(t: StudentForm, photo: Option<string>, certificate: Option<string>, year: nat): (c: StudentInsert)
    ensures c.firstName == t.firstName && c.lastName == t.lastName && c.sex == t.sex
    ensures c.dateOfBirth == t.dateOfBirth && c.religion == t.religion && c.classEnrolled == t.classEnrolled
    ensures c.parentName == t.parentName && c.parentPhone == t.parentPhone
    ensures c.homeAddress == t.homeAddress && c.state == t.state && c.lga == t.lga
    ensures c.parentSignature == t.parentSignature
    ensures c.middleName == OrNull(t.middleName) && c.religionOther == OrNull(t.religionOther)
    ensures c.alternativePhone == OrNull(t.alternativePhone) && c.email == OrNull(t.email)
    ensures c.medicalConditionDetails == OrNull(t.medicalConditionDetails)
    ensures c.disabilityType == OrNull(t.disabilityType) && c.disabilityDetails == OrNull(t.disabilityDetails)
    ensures c.emergencyInstructions == OrNull(t.emergencyInstructions)
    ensures c.hasMedicalCondition == Some(Flag(t.hasMedicalCondition))
    ensures c.hasDisability == Some(Flag(t.hasDisability))
    ensures c.consentGiven == Some(Flag(t.consentGiven))
    ensures c.isDeleted.None?
    ensures c.academicSession == Some(if t.academicSession != "" then t.academicSession else DefaultSession(year))
    ensures photo.None? <==> c.photoPath.None?
    ensures photo.Some? ==> c.photoPath == Some(ForwardSlashes(photo.value))
    ensures certificate.None? <==> c.birthCertificatePath.None?
    ensures certificate.Some? ==> c.birthCertificatePath == Some(ForwardSlashes(certificate.value))
  {
    StudentInsert(
      t.firstName, OrNull(t.middleName), t.lastName, t.sex, t.dateOfBirth, t.religion,
      OrNull(t.religionOther), t.classEnrolled,
      if photo.Some? then Some(ForwardSlashes(photo.value)) else None,
      if certificate.Some? then Some(ForwardSlashes(certificate.value)) else None,
      t.parentName, t.parentPhone, OrNull(t.alternativePhone), OrNull(t.email),
      t.homeAddress, t.state, t.lga,
      Some(Flag(t.hasMedicalCondition)), OrNull(t.medicalConditionDetails),
      Some(Flag(t.hasDisability)), OrNull(t.disabilityType), OrNull(t.disabilityDetails),
      OrNull(t.emergencyInstructions), Some(Flag(t.consentGiven)), t.parentSignature,
      Some(if t.academicSession != "" then t.academicSession else DefaultSession(year)), None)
  }

  /** A form the validators accept, stated on the form as it was sent: its
      consent is given, its choices are among the listed ones, its phone
      number has the Nigerian shape and its required texts are not blank. */
  lemma AcceptedFormShape(f: StudentForm, dobValid: bool)
    requires StudentErrors(TrimSanitized(f), dobValid) == []
    ensures f.consentGiven == "true" && f.sex in {"Male", "Female"} && f.religion in Religions && dobValid
    ensures !AllSpace(f.firstName) && !AllSpace(f.lastName) && !AllSpace(f.parentName)
    ensures !AllSpace(f.homeAddress) && !AllSpace(f.state) && !AllSpace(f.lga) && !AllSpace(f.parentSignature)
    ensures ValidPhone(f.parentPhone)
  {
  }

  /** The row stored for a form with consent given: the names trimmed,
      consent 1, not deleted, both flags 0 or 1, a session, the insert's
      time. */
  lemma RegisteredRowShape(f: StudentForm, photo: Option<string>, certificate: Option<string>, year: nat, id: nat, now: int)
    requires f.consentGiven == "true"
    ensures var s := StudentRow(id, StudentColumns(TrimSanitized(f), photo, certificate, year), now);
      && s.firstName == Trim(f.firstName) && s.lastName == Trim(f.lastName) && s.parentName == Trim(f.parentName)
      && s.consentGiven == 1 && s.isDeleted == 0
      && s.hasMedicalCondition in {0, 1} && s.hasDisability in {0, 1}
      && s.academicSession.Some? && s.academicSession.value != ""
      && s.submittedAt == now && s.id == id
  {
  }

  datatype RegisterReply = Invalid(errors: seq<FieldError>) | Failed | Registered(studentId: nat)

  function RegisterStatus(r: RegisterReply): int {
    match r
    case Invalid(_) => BAD_REQUEST
    case Failed => SERVER_ERROR
    case Registered(_) => CREATED
  }

  /** The handler of POST /api/students/register. multer has stored the
      accepted files (`photo`, `certificate`: the paths it reports, None when
      no file was sent); the `validateStudent` chain then reports its
      errors, which the handler reads with `validationResult` and answers
      400; otherwise one INSERT, whose failure is `insertFails` and answers
      500 "Failed to register student". */
  method Register(db: Db, f: StudentForm, photo: Option<string>, certificate: Option<string>,
                  dobValid: bool, year: nat, insertFails: bool, now: int)
    returns (r: RegisterReply)
    requires db.Valid()
    modifies db
    ensures db.Valid()
    ensures r.Invalid? <==> StudentErrors(TrimSanitized(f), dobValid) != []
    ensures r.Invalid? ==> r.errors == StudentErrors(TrimSanitized(f), dobValid)
    ensures r.Failed? <==> StudentErrors(TrimSanitized(f), dobValid) == [] && insertFails
    ensures r.Registered? ==>
      && FormRules(TrimSanitized(f), dobValid)
      && r.studentId == old(db.studentsSeq) + 1 == db.studentsSeq
      && db.students == old(db.students) + [StudentRow(r.studentId, StudentColumns(TrimSanitized(f), photo, certificate, year), now)]
    ensures !r.Registered? ==> db.students == old(db.students) && db.studentsSeq == old(db.studentsSeq)
    ensures db.users == old(db.users) && db.auditLogs == old(db.auditLogs) && db.failedLogins == old(db.failedLogins)
  {
    var t := TrimSanitized(f);
    var errors := StudentErrors(t, dobValid);
    if errors != [] {
      return Invalid(errors);
    }
    if insertFails {
      return Failed;
    }
    var id := db.InsertStudent(StudentColumns(t, photo, certificate, year), now);
    r := Registered(id);
  }

  // ---------------------------------------------------------------------------
  // Links to the uploaded files

  function DropTrailingSlashes(p: string): (r: string)
    ensures r <= p
    ensures r == [] || r[|r| - 1] != '/'
  {
    if p != [] && p[|p| - 1] == '/' then DropTrailingSlashes(p[..|p| - 1]) else p
  }

  /** The part after the last `/`. */
  function AfterLastSlash(p: string): (r: string)
    ensures '/' !in r
    ensures |r| <= |p| && r == p[|p| - |r|..]
    ensures |r| < |p| ==> p[|p| - |r| - 1] == '/'
  {
    if p == [] then []
    else if p[|p| - 1] == '/' then []
    else AfterLastSlash(p[..|p| - 1]) + [p[|p| - 1]]
  }

  /** POSIX `path.basename`: trailing slashes are ignored, then the last
      segment is taken. */
  function Basename(p: string): (r: string)
    ensures '/' !in r
  {
    AfterLastSlash(DropTrailingSlashes(p))
  }

  /** The basename of `dir/name` is `name`, whatever the directory. */
  lemma {:induction false} BasenameOfJoin(dir: string, name: string)
    requires name != [] && '/' !in name
    ensures Basename(dir + "/" + name) == name
  {
    var p := dir + "/" + name;
    assert p[|p| - 1] == name[|name| - 1];
    assert DropTrailingSlashes(p) == p;
    AfterLastSlashOfJoin(dir + "/", name);
  }

  lemma {:induction false} AfterLastSlashOfJoin(prefix: string, name: string)
    requires prefix != [] && prefix[|prefix| - 1] == '/' && '/' !in name
    ensures AfterLastSlash(prefix + name) == name
    decreases |name|
  {
    if name == [] {
      assert prefix + name == prefix;
    } else {
      var p := prefix + name;
      assert p[..|p| - 1] == prefix + name[..|name| - 1];
      AfterLastSlashOfJoin(prefix, name[..|name| - 1]);
    }
  }

  /** `path ? `/uploads/${path.basename(path)}` : null`. */
  function UploadUrl(p: Option<string>): (u: Option<string>)
    ensures u.Some? <==> p.Some? && p.value != ""
    ensures u.Some? ==> "/uploads/" <= u.value && '/' !in u.value[|"/uploads/"|..]
  {
    if p.Some? && p.value != "" then Some("/uploads/" + Basename(p.value)) else None
  }

  /** A stored file of the uploads directory links back to its own name. */
  lemma UploadUrlOfStoredFile(dir: string, name: string)
    requires name != [] && '/' !in name
    ensures UploadUrl(Some(dir + "/" + name)) == Some("/uploads/" + name)
  {
    BasenameOfJoin(dir, name);
  }

  /** A row as the routes return it: every column plus the two links. */
  datatype StudentView = StudentView(row: Student, photoUrl: Option<string>, birthCertificateUrl: Option<string>)

  function ViewOf(s: Student): (v: StudentView)
    ensures v.row == s
    ensures v.photoUrl == UploadUrl(s.photoPath) && v.birthCertificateUrl == UploadUrl(s.birthCertificatePath)
  {
    StudentView(s, UploadUrl(s.photoPath), UploadUrl(s.birthCertificatePath))
  }

  function Views(rows: seq<Student>): (r: seq<StudentView>)
    ensures |r| == |rows|
    ensures forall i :: 0 <= i < |rows| ==> r[i] == ViewOf(rows[i])
  {
    if rows == [] then [] else [ViewOf(rows[0])] + Views(rows[1..])
  }

  // ---------------------------------------------------------------------------
  // GET /api/students

  /** The query string: `class`, `gender` and `search`, "" when absent. */
  datatype StudentQuery = StudentQuery(classFilter: string, gender: string, search: string)

  /** `column LIKE '%term%'`: SQLite's LIKE ignores ASCII case. */
  predicate Like(column: string, term: string) {
    Contains(FoldCase(column), FoldCase(term))
  }

  predicate MatchesStudent(s: Student, q: StudentQuery) {
    && (q.classFilter == "" || s.classEnrolled == q.classFilter)
    && (q.gender == "" || s.sex == q.gender)
    && (q.search == "" || Like(s.firstName, q.search) || Like(s.lastName, q.search) || Like(s.parentName, q.search))
  }

  function SubmittedAt(s: Student): int { s.submittedAt }

  /** The rows the built statement selects, newest submission first, with
      their links. No query here filters on is_deleted. */
  function StudentListing(rows: seq<Student>, q: StudentQuery): seq<StudentView> {
    Views(SortDesc(Filter(rows, s => MatchesStudent(s, q)), SubmittedAt))
  }

  lemma StudentListingProperties(rows: seq<Student>, q: StudentQuery)
    ensures var r := StudentListing(rows, q);
      && (forall i, j :: 0 <= i < j < |r| ==> r[i].row.submittedAt >= r[j].row.submittedAt)
      && (forall i :: 0 <= i < |r| ==> r[i].row in rows && MatchesStudent(r[i].row, q) && r[i] == ViewOf(r[i].row))
      && (forall s :: s in rows && MatchesStudent(s, q) ==> ViewOf(s) in r)
  {
    var matching := Filter(rows, s => MatchesStudent(s, q));
    var sorted := SortDesc(matching, SubmittedAt);
    var r := StudentListing(rows, q);
    forall i | 0 <= i < |r| ensures r[i].row in rows && MatchesStudent(r[i].row, q) {
      assert r[i].row == sorted[i];
      assert sorted[i] in multiset(sorted);
      assert multiset(matching)[sorted[i]] > 0;
    }
    forall s | s in rows && MatchesStudent(s, q) ensures ViewOf(s) in r {
      assert multiset(rows)[s] > 0;
      assert s in multiset(sorted);
      var i :| 0 <= i < |sorted| && sorted[i] == s;
      assert r[i] == ViewOf(s);
    }
  }

  /** An empty query selects every row. */
  lemma EmptyQueryListsAll(rows: seq<Student>)
    ensures |StudentListing(rows, StudentQuery("", "", ""))| == |rows|
  {
    var matching := Filter(rows, s => MatchesStudent(s, StudentQuery("", "", "")));
    assert multiset(matching) == multiset(rows);
    assert |matching| == |multiset(matching)|;
  }

  const StudentSelect: string := "SELECT * FROM students WHERE 1=1"
  const ClassClause: string := " AND class_enrolled = ?"
  const GenderClause: string := " AND sex = ?"
  const FirstNameLike: string := " AND (first_name LIKE ?"
  const LastNameLike: string := " OR last_name LIKE ?"
  const ParentNameLike: string := " OR parent_name LIKE ?"
  const SearchClause: string := FirstNameLike + LastNameLike + ParentNameLike + ")"
  const StudentOrder: string := " ORDER BY submitted_at DESC"

  /** `%${search}%`. */
  function SearchPattern(search: string): string { "%" + search + "%" }

  function StudentParams(q: StudentQuery): seq<Param> {
    (if q.classFilter != "" then [Text(q.classFilter)] else [])
    + (if q.gender != "" then [Text(q.gender)] else [])
    + (if q.search != "" then [Text(SearchPattern(q.search)), Text(SearchPattern(q.search)), Text(SearchPattern(q.search))] else [])
  }

  /** The search clause carries three placeholders. */
  lemma SearchClausePlaceholders()
    ensures Placeholders(SearchClause) == 3
  {
    PlaceholdersClause(FirstNameLike);
    PlaceholdersClause(LastNameLike);
    PlaceholdersClause(ParentNameLike);
    PlaceholdersNone(")");
    PlaceholdersAppend(FirstNameLike, LastNameLike);
    PlaceholdersAppend(FirstNameLike + LastNameLike, ParentNameLike);
    PlaceholdersAppend(FirstNameLike + LastNameLike + ParentNameLike, ")");
  }

  /** The placeholders of each piece of the statement. */
  lemma StudentClausePlaceholders()
    ensures Placeholders(StudentSelect) == 0 && Placeholders(StudentOrder) == 0
    ensures Placeholders(ClassClause) == 1 && Placeholders(GenderClause) == 1
  {
    PlaceholdersNone(StudentSelect);
    PlaceholdersNone(StudentOrder);
    PlaceholdersClause(ClassClause);
    PlaceholdersClause(GenderClause);
  }

  /** The statement the list handler grows with `sql +=` and `params.push`:
      every `?` has exactly one parameter, and the three LIKE parameters are
      the same `%term%`. */
  method BuildStudentQuery(q: StudentQuery) returns (sql: string, params: seq<Param>)
    ensures Placeholders(sql) == |params|
    ensures params == StudentParams(q)
    ensures StudentSelect <= sql
  {
    StudentClausePlaceholders();
    SearchClausePlaceholders();
    sql := StudentSelect;
    params := [];
    if q.classFilter != "" {
      AppendClause(sql, ClassClause, 1);
      sql := sql + ClassClause;
      params := params + [Text(q.classFilter)];
    }
    if q.gender != "" {
      AppendClause(sql, GenderClause, 1);
      sql := sql + GenderClause;
      params := params + [Text(q.gender)];
    }
    if q.search != "" {
      AppendClause(sql, SearchClause, 3);
      sql := sql + SearchClause;
      var term := SearchPattern(q.search);
      params := params + [Text(term), Text(term), Text(term)];
    }
    AppendClause(sql, StudentOrder, 0);
    sql := sql + StudentOrder;
  }

  function ListStudents(rows: seq<Student>, q: StudentQuery, queryFails: bool): (r: Outcome<seq<StudentView>>)
    ensures queryFails <==> r.Fail?
    ensures r.Fail? ==> r.status == SERVER_ERROR && r.error == "Database error"
    ensures r.Ok? ==> r.value == StudentListing(rows, q)
  {
    if queryFails then Fail(SERVER_ERROR, "Database error") else Ok(StudentListing(rows, q))
  }

  // ---------------------------------------------------------------------------
  // GET /api/students/:id

  function GetStudent(rows: seq<Student>, id: int, queryFails: bool): (r: Outcome<StudentView>)
    ensures queryFails ==> r == Fail(SERVER_ERROR, "Database error")
    ensures !queryFails && FindStudent(rows, id).None? ==> r == Fail(NOT_FOUND, "Student not found")
    ensures r.Ok? <==> !queryFails && FindStudent(rows, id).Some?
    ensures r.Ok? ==> r.value.row in rows && r.value.row.id == id && r.value == ViewOf(r.value.row)
  {
    if queryFails then Fail(SERVER_ERROR, "Database error")
    else match FindStudent(rows, id)
      case None => Fail(NOT_FOUND, "Student not found")
      case Some(s) => Ok(ViewOf(s))
  }

  /** The single lookup and the listing agree on a row's links. */
  lemma LookupAgreesWithListing(rows: seq<Student>, id: int, q: StudentQuery)
    requires GetStudent(rows, id, false).Ok?
    requires MatchesStudent(GetStudent(rows, id, false).value.row, q)
    ensures GetStudent(rows, id, false).value in StudentListing(rows, q)
  {
    StudentListingProperties(rows, q);
  }
}
