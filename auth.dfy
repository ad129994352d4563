/** POST /api/auth/login and GET /api/auth/me of server/routes/auth.js: the
    login decision, the failed-login record and its brute-force heuristic, the
    token a successful login signs and what /me reads back from it. Password
    comparison is the parameter `verify(plain, hash)` (bcrypt.compare; an
    error of the comparison is a `false`); time is the integer `now`. */
module Auth {
  import opened Common
  import opened Database
  import opened Http
  import opened Audit

  // ---------------------------------------------------------------------------
  // trackFailedLogin

  /** The heuristic looks back 15 minutes and alerts at 5 attempts. */
  const FailureWindow: int := 15 * 60
  const AlertThreshold: nat := 5

  /** `(username = ? OR ip_address = ?) AND attempt_time > datetime('now', '-15 minutes')`. */
  predicate Suspicious(f: FailedLogin, username: string, ip: string, now: int) {
    (f.username == username || f.ipAddress == ip) && f.attemptTime > now - FailureWindow
  }

  /** `SELECT COUNT(*) ... FROM failed_logins WHERE ...`. */
  function RecentFailures(rows: seq<FailedLogin>, username: string, ip: string, now: int): (n: nat)
    ensures n <= |rows|
    ensures (forall i :: 0 <= i < |rows| ==> !Suspicious(rows[i], username, ip, now)) ==> n == 0
    ensures (forall i :: 0 <= i < |rows| ==> Suspicious(rows[i], username, ip, now)) ==> n == |rows|
  {
    if rows == [] then 0
    else
      RecentFailures(rows[..|rows| - 1], username, ip, now)
      + (if Suspicious(rows[|rows| - 1], username, ip, now) then 1 else 0)
  }

  /** Attempts older than the window stop counting, whatever else the table holds. */
  lemma {:induction false} ExpiredAttemptsIgnored(rows: seq<FailedLogin>, expired: seq<FailedLogin>, username: string, ip: string, now: int)
    requires forall i :: 0 <= i < |expired| ==> expired[i].attemptTime <= now - FailureWindow
    ensures RecentFailures(expired + rows, username, ip, now) == RecentFailures(rows, username, ip, now)
    decreases |rows|
  {
    if rows == [] {
      assert expired + rows == expired;
    } else {
      var init := rows[..|rows| - 1];
      assert (expired + rows)[..|expired + rows| - 1] == expired + init;
      ExpiredAttemptsIgnored(init, expired, username, ip, now);
    }
  }

  /** The fire-and-forget `trackFailedLogin(username, ip)`: one row is
      appended, stamped `now`, then the attempts for that username or that
      address in the last 15 minutes are counted (the new row among them) and
      `alert` is the console warning. The count query failing (`countFails`)
      silences the warning. Nothing is ever refused. */
  method TrackFailedLogin(db: Db, username: string, ip: string, now: int, countFails: bool) returns (alert: bool)
    requires db.Valid()
    modifies db
    ensures db.Valid()
    ensures db.failedSeq == old(db.failedSeq) + 1
    ensures db.failedLogins == old(db.failedLogins) + [FailedLogin(db.failedSeq, username, ip, now)]
    ensures alert <==> !countFails && RecentFailures(db.failedLogins, username, ip, now) >= AlertThreshold
    ensures alert <==> !countFails && RecentFailures(old(db.failedLogins), username, ip, now) + 1 >= AlertThreshold
    ensures db.users == old(db.users) && db.students == old(db.students) && db.auditLogs == old(db.auditLogs)
    ensures db.usersSeq == old(db.usersSeq) && db.studentsSeq == old(db.studentsSeq) && db.auditSeq == old(db.auditSeq)
  {
    var id := db.InsertFailedLogin(username, ip, now);
    assert db.failedLogins[..|db.failedLogins| - 1] == old(db.failedLogins);
    if countFails {
      alert := false;
    } else {
      var count := RecentFailures(db.failedLogins, username, ip, now);
      alert := count >= AlertThreshold;
    }
  }

  // ---------------------------------------------------------------------------
  // The login decision

  datatype LoginOutcome =
    | MissingFields
    | LookupError
    | UnknownUser
    | WrongPassword
    | Authenticated(user: User)

  /** The branches of the /login handler, in the order it takes them. */
  function Decide(username: string, password: string, users: seq<User>, lookupFails: bool,
                  verify: (string, string) -> bool): (o: LoginOutcome)
    ensures o.MissingFields? <==> username == "" || password == ""
    ensures o.LookupError? <==> username != "" && password != "" && lookupFails
    ensures o.UnknownUser? <==>
      username != "" && password != "" && !lookupFails && FindUserByName(users, username).None?
    ensures o.Authenticated? <==>
      && username != "" && password != "" && !lookupFails
      && FindUserByName(users, username).Some?
      && verify(password, FindUserByName(users, username).value.password)
    ensures o.Authenticated? ==>
      o.user in users && o.user.username == username && verify(password, o.user.password)
  {
    if username == "" || password == "" then MissingFields
    else if lookupFails then LookupError
    else match FindUserByName(users, username)
      case None => UnknownUser
      case Some(u) => if verify(password, u.password) then Authenticated(u) else WrongPassword
  }

  /** The JWT payload and the `user` object of a successful login. */
  function ClaimsOf(u: User): (c: Claims)
    ensures c.id == u.id && c.username == u.username && c.role == u.role
  {
    Claims(u.id, u.username, u.role)
  }

  /** What the client receives: `{ error }` with a status, or `{ token, user }`. */
  datatype LoginReply = Denied(status: int, error: string) | Granted(token: Token, user: Claims)

  function StatusOf(r: LoginReply): int {
    if r.Denied? then r.status else OK
  }

  function ReplyOf(o: LoginOutcome, now: int): (r: LoginReply)
    ensures r.Granted? <==> o.Authenticated?
    ensures o.MissingFields? ==> r == Denied(BAD_REQUEST, "Username and password required")
    ensures o.LookupError? ==> r == Denied(SERVER_ERROR, "Database error")
    ensures o.UnknownUser? || o.WrongPassword? ==> r == Denied(UNAUTHORIZED, "Invalid credentials")
    ensures o.Authenticated? ==> r.user == ClaimsOf(o.user) && r.token == Sign(ClaimsOf(o.user), now)
  {
    match o
    case MissingFields => Denied(BAD_REQUEST, "Username and password required")
    case LookupError => Denied(SERVER_ERROR, "Database error")
    case UnknownUser => Denied(UNAUTHORIZED, "Invalid credentials")
    case WrongPassword => Denied(UNAUTHORIZED, "Invalid credentials")
    case Authenticated(u) => Granted(Sign(ClaimsOf(u), now), ClaimsOf(u))
  }

  /** An unknown username and a wrong password for a known one cannot be told
      apart from the reply. */
  lemma {:induction false} NoUserEnumeration(users: seq<User>, username: string, password: string,
                                              verify: (string, string) -> bool, now: int)
    requires username != "" && password != ""
    requires FindUserByName(users, username).Some? ==> !verify(password, FindUserByName(users, username).value.password)
    ensures ReplyOf(Decide(username, password, users, false, verify), now) == Denied(UNAUTHORIZED, "Invalid credentials")
  {
    var o := Decide(username, password, users, false, verify);
    assert o.UnknownUser? || o.WrongPassword?;
  }

  /** The token and the user of a successful login carry the stored row's id,
      username and role, and the token lasts 24 hours. */
  lemma LoginGrants(username: string, password: string, users: seq<User>, verify: (string, string) -> bool, now: int)
    requires username != "" && password != ""
    requires FindUserByName(users, username).Some?
    requires verify(password, FindUserByName(users, username).value.password)
    ensures var u := FindUserByName(users, username).value;
      var r := ReplyOf(Decide(username, password, users, false, verify), now);
      && r.Granted? && r.user == r.token.payload
      && r.user == Claims(u.id, username, u.role)
      && r.token.expiresAt == now + TokenLifetime
  {
  }

  /** The username `trackFailedLogin` records: `username || 'unknown'`. */
  function RecordedName(username: string): (n: string)
    ensures n != ""
    ensures username != "" ==> n == username
  {
    if username == "" then "unknown" else username
  }

  /** The `LOGIN_SUCCESS` row the handler inserts itself, besides the
      wrapper's row: no user agent, no details, timestamp by default. */
  function SuccessEntry(u: User, ip: string): (a: AuditInsert)
    ensures a.action == "LOGIN_SUCCESS" && a.userId == Some(u.id as int) && a.username == Some(u.username)
    ensures a.httpMethod == Some("POST") && a.path == Some("/api/auth/login") && a.statusCode == Some(OK)
    ensures a.ipAddress == Some(ip) && a.userAgent.None? && a.details.None? && a.timestamp.None?
  {
    AuditInsert("LOGIN_SUCCESS", Some(u.id as int), Some(u.username), Some(ip), None, Some("POST"),
      Some("/api/auth/login"), Some(OK), None, None)
  }

  /** POST /api/auth/login behind `auditLog('LOGIN_ATTEMPT')`. Every refusal
      records one failed attempt (the name `unknown` when none was given); a
      success records none, inserts the LOGIN_SUCCESS row and answers with the
      token. The wrapper then adds the LOGIN_ATTEMPT row with the final status
      unless that insert fails (`auditOk` false). */
  method Login(db: Db, username: string, password: string, req: Request, lookupFails: bool,
               verify: (string, string) -> bool, now: int, countFails: bool, auditOk: bool)
    returns (reply: LoginReply, alert: bool)
    requires db.Valid()
    modifies db
    ensures db.Valid()
    ensures reply == ReplyOf(Decide(username, password, old(db.users), lookupFails, verify), now)
    ensures var before := |old(db.auditLogs)| + (if reply.Granted? then 1 else 0);
      && |db.auditLogs| == before + (if auditOk then 1 else 0)
      && (auditOk ==> db.auditLogs[before] == AuditRowOf(db.auditSeq, EntryFor("LOGIN_ATTEMPT", [], req, StatusOf(reply), now), now))
    ensures reply.Granted? ==>
      && db.failedLogins == old(db.failedLogins) && db.failedSeq == old(db.failedSeq) && !alert
      && db.auditLogs[..|old(db.auditLogs)| + 1] ==
         old(db.auditLogs) + [AuditRowOf(old(db.auditSeq) + 1, SuccessEntry(Decide(username, password, old(db.users), lookupFails, verify).user, req.ip), now)]
    ensures reply.Denied? ==>
      && db.failedSeq == old(db.failedSeq) + 1
      && db.failedLogins == old(db.failedLogins) + [FailedLogin(db.failedSeq, RecordedName(username), req.ip, now)]
      && db.auditLogs[..|old(db.auditLogs)|] == old(db.auditLogs)
      && (alert <==> !countFails && RecentFailures(db.failedLogins, RecordedName(username), req.ip, now) >= AlertThreshold)
    ensures db.users == old(db.users) && db.students == old(db.students)
    ensures db.usersSeq == old(db.usersSeq) && db.studentsSeq == old(db.studentsSeq)
  {
    var outcome := Decide(username, password, db.users, lookupFails, verify);
    reply := ReplyOf(outcome, now);
    alert := false;
    if outcome.Authenticated? {
      var _ := db.InsertAudit(SuccessEntry(outcome.user, req.ip), now);
    } else {
      alert := TrackFailedLogin(db, RecordedName(username), req.ip, now, countFails);
    }
    ghost var mid := db.auditLogs;
    var _ := WrappedSend(db, "LOGIN_ATTEMPT", [], req, StatusOf(reply), reply, now, auditOk);
    assert db.auditLogs[..|mid|] == mid;
  }

  // ---------------------------------------------------------------------------
  // /me

  /** GET /api/auth/me: the id, username and role of the verified token's
      payload, and nothing else it carries. */
  function Me(t: Token): (c: Claims)
    ensures c == t.payload
  {
    Claims(t.payload.id, t.payload.username, t.payload.role)
  }

  /** /me with the token a login issued returns the user that login returned. */
  lemma LoginThenMe(o: LoginOutcome, now: int)
    requires o.Authenticated?
    ensures var r := ReplyOf(o, now); Me(r.token) == r.user == ClaimsOf(o.user)
  {
  }
}
