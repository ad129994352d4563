/** The audit trail of server/middleware/audit.js: the `auditLog(action,
    details)` middleware, whose replacement of `res.send` appends one row to
    audit_logs per response, and `getAuditLogs`, the filtered view of that
    table, ordered by its stored timestamp text and paged. */
module Audit {
  import opened Common
  import opened Collections
  import opened Database
  import opened Http

  // ---------------------------------------------------------------------------
  // JSON.stringify of the `details` argument, a flat object of string
  // properties (every caller in the server passes the default `{}`)

  const HexDigits: string := "0123456789abcdef"

  predicate Printable(s: string) { forall k :: 0 <= k < |s| ==> s[k] >= ' ' }

  /** How JSON.stringify writes one character inside a string literal. */
  function EscapeChar(c: char): (r: string)
    ensures c == '"' || c == '\\' || c < ' ' <==> |r| > 1
    ensures |r| == 1 ==> r == [c]
    ensures Printable(r)
  {
    if c == '"' then "\\\""
    else if c == '\\' then "\\\\"
    else if c == '\U{0008}' then "\\b"
    else if c == '\U{000C}' then "\\f"
    else if c == '\n' then "\\n"
    else if c == '\r' then "\\r"
    else if c == '\t' then "\\t"
    else if c < ' ' then "\\u00" + [HexDigits[c as int / 16], HexDigits[c as int % 16]]
    else [c]
  }

  function Quote(s: string): (r: string)
    ensures |r| >= |s| + 2 && r[0] == '"' && r[|r| - 1] == '"'
  {
    "\"" + EscapeBody(s) + "\""
  }

  /** The escaped text holds no control character, and reading it back as
      JSON.parse does gives the original string. */
  function EscapeBody(s: string): (r: string)
    ensures |r| >= |s|
    ensures Printable(r)
    ensures Unescape(r) == s
  {
    if s == [] then []
    else
      var head := EscapeChar(s[0]);
      var tail := EscapeBody(s[1..]);
      PrintableAppend(head, tail);
      UnescapeChar(s[0], tail);
      head + tail
  }

  /** The value of a lower-case hexadecimal digit (0 for any other character). */
  function HexValue(c: char): (v: nat)
    ensures v < 16
  {
    if '0' <= c <= '9' then c as int - '0' as int
    else if 'a' <= c <= 'f' then c as int - 'a' as int + 10
    else 0
  }

  /** The character a two-character escape `\x` stands for. */
  function ShortEscape(c: char): char {
    if c == 'b' then '\U{0008}'
    else if c == 'f' then '\U{000C}'
    else if c == 'n' then '\n'
    else if c == 'r' then '\r'
    else if c == 't' then '\t'
    else c
  }

  /** How JSON.parse reads the inside of a string literal: `\u00XY` is the
      character with code XY, `\x` the character ShortEscape gives, and any
      other character stands for itself. */
  function Unescape(r: string): string
    decreases |r|
  {
    if r == [] then []
    else if r[0] == '\\' && |r| >= 6 && r[1] == 'u' then
      [(HexValue(r[4]) * 16 + HexValue(r[5])) as char] + Unescape(r[6..])
    else if r[0] == '\\' && |r| >= 2 then [ShortEscape(r[1])] + Unescape(r[2..])
    else [r[0]] + Unescape(r[1..])
  }

  /** Escaping one character and reading it back gives that character, and
      the rest is read on its own. */
  lemma UnescapeChar(c: char, rest: string)
    ensures Unescape(EscapeChar(c) + rest) == [c] + Unescape(rest)
  {
    var e := EscapeChar(c) + rest;
    if |EscapeChar(c)| == 1 {
      assert e[1..] == rest;
    } else if c < ' ' && c != '\U{0008}' && c != '\U{000C}' && c != '\n' && c != '\r' && c != '\t' {
      UnescapeUnicode(c, rest);
    } else {
      assert e[2..] == rest;
    }
  }

  /** A control character without a short escape is read back from its
      `\u00XY` form. */
  lemma UnescapeUnicode(c: char, rest: string)
    requires c < ' '
    ensures Unescape("\\u00" + [HexDigits[c as int / 16], HexDigits[c as int % 16]] + rest) == [c] + Unescape(rest)
  {
    var hi, lo := c as int / 16, c as int % 16;
    var e := "\\u00" + [HexDigits[hi], HexDigits[lo]] + rest;
    assert e[0] == '\\' && e[1] == 'u' && e[4] == HexDigits[hi] && e[5] == HexDigits[lo];
    assert HexValue(HexDigits[hi]) == hi && HexValue(HexDigits[lo]) == lo;
    assert e[6..] == rest;
  }

  lemma PrintableAppend(a: string, b: string)
    requires Printable(a) && Printable(b)
    ensures Printable(a + b)
  {
    forall k | 0 <= k < |a + b| ensures (a + b)[k] >= ' ' {
      if k < |a| { assert (a + b)[k] == a[k]; } else { assert (a + b)[k] == b[k - |a|]; }
    }
  }

  function StringifyDetails(details: seq<(string, string)>): (r: string)
    ensures |r| >= 2 && r[0] == '{' && r[|r| - 1] == '}'
    ensures details == [] <==> r == "{}"
  {
    "{" + Members(details) + "}"
  }

  function Members(details: seq<(string, string)>): (r: string)
    ensures details == [] <==> r == ""
  {
    if details == [] then ""
    else
      var m := Quote(details[0].0) + ":" + Quote(details[0].1);
      if |details| == 1 then m else m + "," + Members(details[1..])
  }

  // ---------------------------------------------------------------------------
  // The wrapped res.send

  /** The row the wrapped `send` inserts: `req.user?.id || null`,
      `req.user?.username || 'anonymous'`, the user agent or 'unknown', the
      request's method and path, `res.statusCode` at the moment of sending,
      the serialised details and the ISO text of the current time. */
  function EntryFor(action: string, details: seq<(string, string)>, req: Request, statusCode: int, now: int): (a: AuditInsert)
    ensures a.action == action && a.statusCode == Some(statusCode) && a.timestamp == Some(now)
    ensures a.userId.Some? <==> req.user.Some? && req.user.value.id != 0
    ensures a.userId.Some? ==> a.userId.value == req.user.value.id
    ensures req.user.None? ==> a.username == Some("anonymous")
    ensures req.user.Some? && req.user.value.username != "" ==> a.username == Some(req.user.value.username)
    ensures a.userAgent == Some(if req.userAgent == "" then "unknown" else req.userAgent)
    ensures a.ipAddress == Some(req.ip) && a.httpMethod == Some(req.httpMethod) && a.path == Some(req.path)
    ensures a.details == Some(StringifyDetails(details))
  {
    var userId := if req.user.Some? && req.user.value.id != 0 then Some(req.user.value.id as int) else None;
    var username := if req.user.Some? && req.user.value.username != "" then req.user.value.username else "anonymous";
    var agent := if req.userAgent == "" then "unknown" else req.userAgent;
    AuditInsert(action, userId, Some(username), Some(req.ip), Some(agent), Some(req.httpMethod),
      Some(req.path), Some(statusCode), Some(StringifyDetails(details)), Some(now))
  }

  /** The audit table after one wrapped `send`: the row for the response is
      appended, with the next id, unless its insert fails. */
  function Appended(logs: seq<AuditRow>, lastId: nat, action: string, details: seq<(string, string)>,
                    req: Request, statusCode: int, now: int, insertOk: bool): (r: seq<AuditRow>)
    ensures |r| == |logs| + (if insertOk then 1 else 0)
    ensures r[..|logs|] == logs
    ensures insertOk ==> r[|logs|] == AuditRowOf(lastId + 1, EntryFor(action, details, req, statusCode, now), now)
  {
    logs + (if insertOk then [AuditRowOf(lastId + 1, EntryFor(action, details, req, statusCode, now), now)] else [])
  }

  /** One call of the `send` that `auditLog(action, details)` installs: the
      audit row is inserted (when the insert fails, `insertOk` is false and the
      error is only logged) and the same `data` goes on to the original `send`.
      `statusCode` is `res.statusCode` as the handler left it. */
  method WrappedSend<D>(db: Db, action: string, details: seq<(string, string)>, req: Request,
                        statusCode: int, data: D, now: int, insertOk: bool)
    returns (forwarded: D)
    requires db.Valid()
    modifies db
    ensures db.Valid()
    ensures forwarded == data
    ensures db.auditLogs == Appended(old(db.auditLogs), old(db.auditSeq), action, details, req, statusCode, now, insertOk)
    ensures db.auditSeq == old(db.auditSeq) + (if insertOk then 1 else 0)
    ensures db.users == old(db.users) && db.students == old(db.students) && db.failedLogins == old(db.failedLogins)
    ensures db.usersSeq == old(db.usersSeq) && db.studentsSeq == old(db.studentsSeq) && db.failedSeq == old(db.failedSeq)
  {
    if insertOk {
      var _ := db.InsertAudit(EntryFor(action, details, req, statusCode, now), now);
    }
    forwarded := data;
  }

  // ---------------------------------------------------------------------------
  // getAuditLogs

  /** The query string of GET /api/admin/audit-logs after defaults: `limit`
      100 and `offset` 0 when absent; `action` is "" and `userId` None when
      absent or empty (both falsy, so no filter). */
  datatype AuditQuery = AuditQuery(limit: int, offset: int, action: string, userId: Option<int>)

  function QueryOf(limit: Option<int>, offset: Option<int>, action: string, userId: Option<int>): (q: AuditQuery)
    ensures limit.None? ==> q.limit == 100
    ensures offset.None? ==> q.offset == 0
    ensures limit.Some? ==> q.limit == limit.value
    ensures offset.Some? ==> q.offset == offset.value
  {
    AuditQuery(limit.GetOr(100), offset.GetOr(0), action, userId)
  }

  predicate MatchesQuery(r: AuditRow, q: AuditQuery) {
    && (q.action == "" || r.action == q.action)
    && (q.userId.None? || r.userId == q.userId)
  }

  /** The key of `ORDER BY timestamp DESC`: the rank of the stored text, in
      which a default-format LOGIN_SUCCESS row sorts below every row the
      wrapper wrote on the same day. */
  function StoredOrder(r: AuditRow): int { TextRank(r.timestamp) }

  /** What the built statement selects: the matching rows, ordered by their
      stored timestamp text from the largest, after `offset` rows, at most
      `limit` of them. */
  function AuditLogs(rows: seq<AuditRow>, q: AuditQuery): seq<AuditRow>
  {
    AuditPage(Matching(rows, q), q)
  }

  /** ORDER BY, LIMIT and OFFSET applied to the rows the WHERE kept. */
  function AuditPage(matching: seq<AuditRow>, q: AuditQuery): seq<AuditRow>
  {
    Page(SortDesc(matching, StoredOrder), q.limit, q.offset)
  }

  /** The WHERE of the statement. */
  function Matching(rows: seq<AuditRow>, q: AuditQuery): seq<AuditRow> {
    Filter(rows, r => MatchesQuery(r, q))
  }

  /** The page holds `limit` of the matching rows after the first `offset`
      (fewer when they run out): a run of them sorted by their stored text,
      largest first. */
  lemma {:induction false} AuditLogsPage(matching: seq<AuditRow>, q: AuditQuery)
    ensures var r := AuditPage(matching, q);
      var sorted := SortDesc(matching, StoredOrder);
      var o := Skip(|matching|, q.offset);
      && |r| == PageLength(|matching|, q.limit, q.offset)
      && r == sorted[o..o + |r|]
  {
    SortedPageIsRun(matching, StoredOrder, q.limit, q.offset);
  }

  /** Every row of the page is a matching row of the table, at most `limit`
      of them, in descending stored-text order. */
  lemma AuditLogsProperties(rows: seq<AuditRow>, q: AuditQuery)
    ensures var r := AuditLogs(rows, q);
      && (q.limit >= 0 ==> |r| <= q.limit)
      && SortedDesc(r, StoredOrder)
      && (forall i :: 0 <= i < |r| ==> r[i] in rows && MatchesQuery(r[i], q))
  {
    var matching := Matching(rows, q);
    var sorted := SortDesc(matching, StoredOrder);
    var r := Page(sorted, q.limit, q.offset);
    PageSorted(sorted, StoredOrder, q.limit, q.offset);
    forall i | 0 <= i < |r| ensures r[i] in rows && MatchesQuery(r[i], q) {
      var x := r[i];
      assert x == sorted[Skip(|sorted|, q.offset) + i];
      assert x in multiset(sorted);
      assert x in multiset(matching);
      assert multiset(matching)[x] > 0;
    }
  }

  /** With no limit and no offset every matching row is returned, each once. */
  lemma AuditLogsComplete(rows: seq<AuditRow>, q: AuditQuery)
    requires q.limit < 0 && q.offset == 0
    ensures forall x :: multiset(AuditLogs(rows, q))[x] == if MatchesQuery(x, q) then multiset(rows)[x] else 0
  {
    var sorted := SortDesc(Matching(rows, q), StoredOrder);
    assert AuditLogs(rows, q) == sorted;
  }

  const AuditSelect: string := "SELECT * FROM audit_logs WHERE 1=1"
  const ActionClause: string := " AND action = ?"
  const UserClause: string := " AND user_id = ?"
  const AuditLimit: string := " ORDER BY timestamp DESC LIMIT ?"
  const AuditOffset: string := " OFFSET ?"

  /** The parameters the statement is run with, in order. */
  function AuditParams(q: AuditQuery): seq<Param> {
    (if q.action != "" then [Text(q.action)] else [])
    + (if q.userId.Some? then [Int(q.userId.value)] else [])
    + [Int(q.limit), Int(q.offset)]
  }

  /** The placeholders of each piece of the statement. */
  lemma AuditClausePlaceholders()
    ensures Placeholders(AuditSelect) == 0
    ensures Placeholders(ActionClause) == 1 && Placeholders(UserClause) == 1
    ensures Placeholders(AuditLimit) == 1 && Placeholders(AuditOffset) == 1
  {
    PlaceholdersNone(AuditSelect);
    PlaceholdersClause(ActionClause);
    PlaceholdersClause(UserClause);
    PlaceholdersClause(AuditLimit);
    PlaceholdersClause(AuditOffset);
  }

  /** The statement text and parameters `getAuditLogs` builds with `sql +=`
      and `params.push`: every `?` has exactly one parameter. */
  method BuildAuditQuery(q: AuditQuery) returns (sql: string, params: seq<Param>)
    ensures Placeholders(sql) == |params|
    ensures params == AuditParams(q)
    ensures AuditSelect <= sql
  {
    AuditClausePlaceholders();
    sql := AuditSelect;
    params := [];
    if q.action != "" {
      AppendClause(sql, ActionClause, 1);
      sql := sql + ActionClause;
      params := params + [Text(q.action)];
    }
    if q.userId.Some? {
      AppendClause(sql, UserClause, 1);
      sql := sql + UserClause;
      params := params + [Int(q.userId.value)];
    }
    AppendClause(sql, AuditLimit, 1);
    sql := sql + AuditLimit;
    AppendClause(sql, AuditOffset, 1);
    sql := sql + AuditOffset;
    params := params + [Int(q.limit), Int(q.offset)];
  }

  /** The route's answer: the rows, or 500 when the query fails. */
  function GetAuditLogs(rows: seq<AuditRow>, q: AuditQuery, storeFails: bool): (r: Outcome<seq<AuditRow>>)
    ensures storeFails <==> r.Fail?
    ensures r.Fail? ==> r.status == SERVER_ERROR && r.error == "Failed to fetch audit logs"
    ensures r.Ok? ==> r.value == AuditLogs(rows, q)
  {
    if storeFails then Fail(SERVER_ERROR, "Failed to fetch audit logs") else Ok(AuditLogs(rows, q))
  }
}
