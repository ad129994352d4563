/** The user administration routes of server/routes/users.js, all behind the
    token check and the admin-role check: the password strength rule, the
    listing, creation, the admin's reset of another user's password, the
    change of one's own password, and deletion. bcrypt is the pair of
    parameters `hash(plain)` (hashSync) and `verify(plain, hash)` (compare);
    a failing statement is a boolean fault parameter. */
module Users {
  import opened Common
  import opened Collections
  import opened Database
  import opened Http
  import opened Audit

  // ---------------------------------------------------------------------------
  // validatePassword: /^(?=.*[a-z])(?=.*[A-Z])(?=.*\d)[a-zA-Z\d@$!%*?&]{8,}$/

  const MinPasswordLength: nat := 8
  const PasswordSymbols: string := "@$!%*?&"

  /** The character class `[a-zA-Z\d@$!%*?&]`. */
  predicate PasswordChar(c: char) { IsLetter(c) || IsDigit(c) || c in PasswordSymbols }

  predicate HasLower(p: string) { exists k :: 0 <= k < |p| && IsLower(p[k]) }
  predicate HasUpper(p: string) { exists k :: 0 <= k < |p| && IsUpper(p[k]) }
  predicate HasDigit(p: string) { exists k :: 0 <= k < |p| && IsDigit(p[k]) }
  predicate AllPasswordChars(p: string) { forall k :: 0 <= k < |p| ==> PasswordChar(p[k]) }

  /** What one left-to-right pass over a password has seen: the three
      look-aheads and whether every character so far is in the class. */
  datatype Seen = Seen(lower: bool, upper: bool, digit: bool, inClass: bool)

  function Scan(p: string): (s: Seen)
    ensures s.lower <==> HasLower(p)
    ensures s.upper <==> HasUpper(p)
    ensures s.digit <==> HasDigit(p)
    ensures s.inClass <==> AllPasswordChars(p)
  {
    if p == [] then Seen(false, false, false, true)
    else
      var init := p[..|p| - 1];
      var c := p[|p| - 1];
      var s := Scan(init);
      assert forall k :: 0 <= k < |init| ==> init[k] == p[k];
      Seen(s.lower || IsLower(c), s.upper || IsUpper(c), s.digit || IsDigit(c), s.inClass && PasswordChar(c))
  }

  /** The regular expression's test, decided by one scan. */
  function ValidatePassword(p: string): (ok: bool)
    ensures ok <==> |p| >= MinPasswordLength && HasLower(p) && HasUpper(p) && HasDigit(p) && AllPasswordChars(p)
  {
    var s := Scan(p);
    |p| >= MinPasswordLength && s.lower && s.upper && s.digit && s.inClass
  }

  // ---------------------------------------------------------------------------
  // Answers

  const PasswordRule: string := "Password must be at least 8 characters with uppercase, lowercase, and number"

  /** What a users route answers: the validator's `{ errors }` (400), an
      `{ error }` with its status, a `{ message }` with its status, or the 201
      of a creation. */
  datatype Answer =
    | Invalid(errors: seq<FieldError>)
    | Error(status: int, error: string)
    | Done(status: int, message: string)
    | Created(id: nat, username: string, role: Role)

  function StatusOf(a: Answer): int {
    match a
    case Invalid(_) => BAD_REQUEST
    case Error(status, _) => status
    case Done(status, _) => status
    case Created(_, _, _) => CREATED
  }

  // ---------------------------------------------------------------------------
  // GET /api/users

  /** `SELECT id, username, role, created_at`: a row without its password. */
  datatype UserView = UserView(id: nat, username: string, role: Role, createdAt: int)

  function ViewOf(u: User): UserView { UserView(u.id, u.username, u.role, u.createdAt) }

  function Views(users: seq<User>): (r: seq<UserView>)
    ensures |r| == |users|
    ensures forall i :: 0 <= i < |users| ==> r[i] == ViewOf(users[i])
  {
    if users == [] then [] else [ViewOf(users[0])] + Views(users[1..])
  }

  function CreatedAt(v: UserView): int { v.createdAt }

  /** `... FROM users ORDER BY created_at DESC`. */
  function UserListing(users: seq<User>): seq<UserView> {
    SortDesc(Views(users), CreatedAt)
  }

  lemma UserListingProperties(users: seq<User>)
    ensures var r := UserListing(users);
      && |r| == |users|
      && SortedDesc(r, CreatedAt)
      && multiset(r) == multiset(Views(users))
      && (forall i :: 0 <= i < |r| ==> exists j :: 0 <= j < |users| && r[i] == ViewOf(users[j]))
  {
    var r := UserListing(users);
    forall i | 0 <= i < |r| ensures exists j :: 0 <= j < |users| && r[i] == ViewOf(users[j]) {
      assert r[i] in multiset(Views(users));
      var j :| 0 <= j < |users| && Views(users)[j] == r[i];
    }
  }

  method ListUsers(db: Db, req: Request, listFails: bool, now: int, auditOk: bool) returns (r: Outcome<seq<UserView>>)
    requires db.Valid() && AdminCaller(req)
    modifies db
    ensures db.Valid()
    ensures listFails ==> r == Fail(SERVER_ERROR, "Database error")
    ensures !listFails ==> r == Ok(UserListing(db.users))
    ensures db.auditLogs == Appended(old(db.auditLogs), old(db.auditSeq), "VIEW_USERS", [], req,
      if listFails then SERVER_ERROR else OK, now, auditOk)
    ensures db.users == old(db.users) && db.students == old(db.students) && db.failedLogins == old(db.failedLogins)
  {
    if listFails {
      r := Fail(SERVER_ERROR, "Database error");
    } else {
      r := Ok(UserListing(db.users));
    }
    r := WrappedSend(db, "VIEW_USERS", [], req, if listFails then SERVER_ERROR else OK, r, now, auditOk);
  }

  // ---------------------------------------------------------------------------
  // POST /api/users

  /** The three validators of the creation route, in declaration order; each
      failing one contributes its message. `username` is the body field before
      the `trim()` sanitizer. */
  function CreateErrors(username: string, password: string, role: string): (errs: seq<FieldError>)
    ensures errs == [] <==> |Trim(username)| >= 3 && ValidatePassword(password) && ParseRole(role).Some?
    ensures FieldError("username", "Username must be at least 3 characters") in errs <==> |Trim(username)| < 3
    ensures FieldError("password", PasswordRule) in errs <==> !ValidatePassword(password)
    ensures FieldError("role", "Role must be admin or staff") in errs <==> ParseRole(role).None?
    ensures |errs| <= 3
  {
    var name := Rule(|Trim(username)| < 3, FieldError("username", "Username must be at least 3 characters"));
    var pass := Rule(!ValidatePassword(password), FieldError("password", PasswordRule));
    var kind := Rule(ParseRole(role).None?, FieldError("role", "Role must be admin or staff"));
    name + pass + kind
  }

  /** The message of one validator: present exactly when it fails. */
  function Rule(fails: bool, e: FieldError): (r: seq<FieldError>)
    ensures |r| <= 1
    ensures r == [] <==> !fails
    ensures forall x :: x in r <==> fails && x == e
  {
    if fails then [e] else []
  }

  /** The answer of the creation route for a users table, the id the
      insert would get, and the request's fields. */
  function CreateAnswer(users: seq<User>, nextId: nat, username: string, password: string, role: string,
                        lookupFails: bool, insertFails: bool): (a: Answer)
    ensures a.Invalid? <==> CreateErrors(username, password, role) != []
    ensures a.Invalid? ==> a.errors == CreateErrors(username, password, role)
    ensures !a.Invalid? && lookupFails ==> a == Error(SERVER_ERROR, "Database error")
    ensures !a.Invalid? && !lookupFails && FindUserByName(users, Trim(username)).Some? ==>
      a == Error(BAD_REQUEST, "Username already exists")
    ensures a.Created? <==>
      CreateErrors(username, password, role) == [] && !lookupFails && !insertFails
      && FindUserByName(users, Trim(username)).None?
    ensures a.Created? ==> a == Created(nextId, Trim(username), ParseRole(role).value)
    ensures !a.Created? && !a.Invalid? && !lookupFails && FindUserByName(users, Trim(username)).None? ==>
      a == Error(SERVER_ERROR, "Failed to create user")
  {
    var name := Trim(username);
    if CreateErrors(username, password, role) != [] then Invalid(CreateErrors(username, password, role))
    else if lookupFails then Error(SERVER_ERROR, "Database error")
    else if FindUserByName(users, name).Some? then Error(BAD_REQUEST, "Username already exists")
    else if insertFails then Error(SERVER_ERROR, "Failed to create user")
    else Created(nextId, name, ParseRole(role).value)
  }

  /** POST /api/users behind `auditLog('CREATE_USER')`. The stored and
      returned username is the trimmed one; the stored password is its hash.
      `lookupFails` and `insertFails` are the two statements' errors. */
  method CreateUser(db: Db, req: Request, username: string, password: string, role: string,
                    hash: string -> string, lookupFails: bool, insertFails: bool, now: int, auditOk: bool)
    returns (a: Answer)
    requires db.Valid() && AdminCaller(req)
    modifies db
    ensures db.Valid()
    ensures a == CreateAnswer(old(db.users), old(db.usersSeq) + 1, username, password, role, lookupFails, insertFails)
    ensures a.Created? ==>
      && db.users == old(db.users) + [User(a.id, a.username, hash(password), a.role, now)]
      && db.usersSeq == a.id
    ensures !a.Created? ==> db.users == old(db.users) && db.usersSeq == old(db.usersSeq)
    ensures db.auditLogs == Appended(old(db.auditLogs), old(db.auditSeq), "CREATE_USER", [], req, StatusOf(a), now, auditOk)
    ensures db.students == old(db.students) && db.failedLogins == old(db.failedLogins)
  {
    a := CreateAnswer(db.users, db.usersSeq + 1, username, password, role, lookupFails, insertFails);
    if a.Created? {
      var _ := db.InsertUser(a.username, hash(password), Some(a.role), now);
    }
    a := WrappedSend(db, "CREATE_USER", [], req, StatusOf(a), a, now, auditOk);
  }

  /** A creation the validators accept for a new name leaves the names unique
      and adds exactly that name. */
  lemma CreateAddsOneName(users: seq<User>, row: User)
    requires UniqueUsernames(users)
    requires FindUserByName(users, row.username).None?
    ensures UniqueUsernames(users + [row])
    ensures FindUserByName(users + [row], row.username) == Some(row)
  {
    var r := users + [row];
    forall i, j | 0 <= i < j < |r| ensures r[i].username != r[j].username {
      assert r[i] == users[i];
      if j < |users| {
        assert r[j] == users[j];
      }
    }
    FoundAtEnd(users, row);
  }

  /** A name missing from the table is found in the row appended for it. */
  lemma {:induction false} FoundAtEnd(users: seq<User>, row: User)
    requires FindUserByName(users, row.username).None?
    ensures FindUserByName(users + [row], row.username) == Some(row)
    decreases |users|
  {
    if users != [] {
      assert (users + [row])[1..] == users[1..] + [row];
      FoundAtEnd(users[1..], row);
    }
  }

  // ---------------------------------------------------------------------------
  // PUT /api/users/:id/password

  /** The answer of the reset route: the validator, the "not yourself"
      guard, the statement's error, then `this.changes`. */
  function ResetAnswer(users: seq<User>, caller: Claims, target: int, password: string, updateFails: bool): (a: Answer)
    ensures !ValidatePassword(password) ==> a == Invalid([FieldError("password", PasswordRule)])
    ensures ValidatePassword(password) && target == caller.id ==>
      a == Error(BAD_REQUEST, "Use /change-password to change your own password")
    ensures ValidatePassword(password) && target != caller.id && updateFails ==>
      a == Error(SERVER_ERROR, "Database error")
    ensures ValidatePassword(password) && target != caller.id && !updateFails && IndexOfUser(users, target).None? ==>
      a == Error(NOT_FOUND, "User not found")
    ensures a.Done? <==>
      ValidatePassword(password) && target != caller.id && !updateFails && IndexOfUser(users, target).Some?
    ensures a.Done? ==> a == Done(OK, "Password updated successfully")
  {
    if !ValidatePassword(password) then Invalid([FieldError("password", PasswordRule)])
    else if target == caller.id then Error(BAD_REQUEST, "Use /change-password to change your own password")
    else if updateFails then Error(SERVER_ERROR, "Database error")
    else if IndexOfUser(users, target).None? then Error(NOT_FOUND, "User not found")
    else Done(OK, "Password updated successfully")
  }

  /** PUT /api/users/:id/password behind `auditLog('CHANGE_PASSWORD')`: an
      admin sets another user's password. `target` is the numeric `:id`. */
  method ResetPassword(db: Db, req: Request, target: int, password: string, hash: string -> string,
                       updateFails: bool, now: int, auditOk: bool)
    returns (a: Answer)
    requires db.Valid() && AdminCaller(req)
    modifies db
    ensures db.Valid()
    ensures a == ResetAnswer(old(db.users), req.user.value, target, password, updateFails)
    ensures a.Done? ==>
      var k := IndexOfUser(old(db.users), target).value;
      db.users == old(db.users)[k := old(db.users)[k].(password := hash(password))]
    ensures !a.Done? ==> db.users == old(db.users)
    ensures db.usersSeq == old(db.usersSeq)
    ensures db.auditLogs == Appended(old(db.auditLogs), old(db.auditSeq), "CHANGE_PASSWORD", [], req, StatusOf(a), now, auditOk)
    ensures db.students == old(db.students) && db.failedLogins == old(db.failedLogins)
  {
    if !ValidatePassword(password) {
      a := Invalid([FieldError("password", PasswordRule)]);
    } else if target == req.user.value.id {
      a := Error(BAD_REQUEST, "Use /change-password to change your own password");
    } else if updateFails {
      a := Error(SERVER_ERROR, "Database error");
    } else {
      var changes := db.UpdateUserPassword(target, hash(password));
      if changes == 0 {
        a := Error(NOT_FOUND, "User not found");
      } else {
        a := Done(OK, "Password updated successfully");
      }
    }
    a := WrappedSend(db, "CHANGE_PASSWORD", [], req, StatusOf(a), a, now, auditOk);
  }

  /** A reset touches only the password of its target: every other row, and
      every other column of the target, is as before. */
  lemma ResetTouchesOnlyTarget(users: seq<User>, k: nat, h: string)
    requires k < |users|
    ensures var after := users[k := users[k].(password := h)];
      && |after| == |users|
      && (forall i :: 0 <= i < |users| && i != k ==> after[i] == users[i])
      && after[k].id == users[k].id && after[k].username == users[k].username
      && after[k].role == users[k].role && after[k].createdAt == users[k].createdAt
      && after[k].password == h
  {
  }

  // ---------------------------------------------------------------------------
  // PUT /api/users/change-password

  function ChangeErrors(currentPassword: string, newPassword: string): (errs: seq<FieldError>)
    ensures errs == [] <==> currentPassword != "" && ValidatePassword(newPassword)
    ensures FieldError("currentPassword", "Current password is required") in errs <==> currentPassword == ""
    ensures FieldError("newPassword", PasswordRule) in errs <==> !ValidatePassword(newPassword)
  {
    (if currentPassword == "" then [FieldError("currentPassword", "Current password is required")] else [])
    + (if !ValidatePassword(newPassword) then [FieldError("newPassword", PasswordRule)] else [])
  }

  /** The answer of the change-own-password route for the caller's id. */
  function ChangeAnswer(users: seq<User>, self: int, currentPassword: string, newPassword: string,
                        verify: (string, string) -> bool, lookupFails: bool, updateFails: bool): (a: Answer)
    ensures a.Invalid? <==> ChangeErrors(currentPassword, newPassword) != []
    ensures a.Invalid? ==> a.errors == ChangeErrors(currentPassword, newPassword)
    ensures !a.Invalid? && (lookupFails || IndexOfUser(users, self).None?) ==>
      a == Error(SERVER_ERROR, "Database error")
    ensures !a.Invalid? && !lookupFails && IndexOfUser(users, self).Some? ==>
      var stored := users[IndexOfUser(users, self).value].password;
      && (!verify(currentPassword, stored) ==> a == Error(UNAUTHORIZED, "Current password is incorrect"))
      && (verify(currentPassword, stored) && updateFails ==> a == Error(SERVER_ERROR, "Failed to update password"))
    ensures a.Done? <==>
      && ChangeErrors(currentPassword, newPassword) == [] && !lookupFails && !updateFails
      && IndexOfUser(users, self).Some?
      && verify(currentPassword, users[IndexOfUser(users, self).value].password)
    ensures a.Done? ==> a == Done(OK, "Password changed successfully")
  {
    var errs := ChangeErrors(currentPassword, newPassword);
    if errs != [] then Invalid(errs)
    else if lookupFails || IndexOfUser(users, self).None? then Error(SERVER_ERROR, "Database error")
    else if !verify(currentPassword, users[IndexOfUser(users, self).value].password) then
      Error(UNAUTHORIZED, "Current password is incorrect")
    else if updateFails then Error(SERVER_ERROR, "Failed to update password")
    else Done(OK, "Password changed successfully")
  }

  /** PUT /api/users/change-password behind `auditLog('CHANGE_OWN_PASSWORD')`:
      the caller's own row is looked up by the token's id (a missing row is a
      500, like a failing lookup), the current password must verify against
      its hash, then only that row's password changes. */
  method ChangeOwnPassword(db: Db, req: Request, currentPassword: string, newPassword: string,
                           hash: string -> string, verify: (string, string) -> bool,
                           lookupFails: bool, updateFails: bool, now: int, auditOk: bool)
    returns (a: Answer)
    requires db.Valid() && AdminCaller(req)
    modifies db
    ensures db.Valid()
    ensures a == ChangeAnswer(old(db.users), req.user.value.id, currentPassword, newPassword, verify, lookupFails, updateFails)
    ensures a.Done? ==>
      var k := IndexOfUser(old(db.users), req.user.value.id).value;
      db.users == old(db.users)[k := old(db.users)[k].(password := hash(newPassword))]
    ensures !a.Done? ==> db.users == old(db.users)
    ensures db.usersSeq == old(db.usersSeq)
    ensures db.auditLogs == Appended(old(db.auditLogs), old(db.auditSeq), "CHANGE_OWN_PASSWORD", [], req, StatusOf(a), now, auditOk)
    ensures db.students == old(db.students) && db.failedLogins == old(db.failedLogins)
  {
    var errs := ChangeErrors(currentPassword, newPassword);
    var self := req.user.value.id;
    if errs != [] {
      a := Invalid(errs);
    } else if lookupFails || IndexOfUser(db.users, self).None? {
      a := Error(SERVER_ERROR, "Database error");
    } else if !verify(currentPassword, db.users[IndexOfUser(db.users, self).value].password) {
      a := Error(UNAUTHORIZED, "Current password is incorrect");
    } else if updateFails {
      a := Error(SERVER_ERROR, "Failed to update password");
    } else {
      var _ := db.UpdateUserPassword(self, hash(newPassword));
      a := Done(OK, "Password changed successfully");
    }
    a := WrappedSend(db, "CHANGE_OWN_PASSWORD", [], req, StatusOf(a), a, now, auditOk);
  }

  // ---------------------------------------------------------------------------
  // DELETE /api/users/:id

  /** The answer of the deletion route: the "not yourself" guard, the
      statement's error, then `this.changes`. */
  function DeleteAnswer(users: seq<User>, caller: Claims, target: int, deleteFails: bool): (a: Answer)
    ensures target == caller.id ==> a == Error(BAD_REQUEST, "Cannot delete your own account")
    ensures target != caller.id && deleteFails ==> a == Error(SERVER_ERROR, "Database error")
    ensures target != caller.id && !deleteFails && IndexOfUser(users, target).None? ==>
      a == Error(NOT_FOUND, "User not found")
    ensures a.Done? <==> target != caller.id && !deleteFails && IndexOfUser(users, target).Some?
    ensures a.Done? ==> a == Done(OK, "User deleted successfully")
  {
    if target == caller.id then Error(BAD_REQUEST, "Cannot delete your own account")
    else if deleteFails then Error(SERVER_ERROR, "Database error")
    else if IndexOfUser(users, target).None? then Error(NOT_FOUND, "User not found")
    else Done(OK, "User deleted successfully")
  }

  /** DELETE /api/users/:id behind `auditLog('DELETE_USER')`; `target` is the
      numeric `:id`. */
  method DeleteUser(db: Db, req: Request, target: int, deleteFails: bool, now: int, auditOk: bool)
    returns (a: Answer)
    requires db.Valid() && AdminCaller(req)
    modifies db
    ensures db.Valid()
    ensures a == DeleteAnswer(old(db.users), req.user.value, target, deleteFails)
    ensures a.Done? ==>
      var k := IndexOfUser(old(db.users), target).value;
      db.users == old(db.users)[..k] + old(db.users)[k + 1..]
    ensures !a.Done? ==> db.users == old(db.users)
    ensures db.usersSeq == old(db.usersSeq)
    ensures db.auditLogs == Appended(old(db.auditLogs), old(db.auditSeq), "DELETE_USER", [], req, StatusOf(a), now, auditOk)
    ensures db.students == old(db.students) && db.failedLogins == old(db.failedLogins)
  {
    if target == req.user.value.id {
      a := Error(BAD_REQUEST, "Cannot delete your own account");
    } else if deleteFails {
      a := Error(SERVER_ERROR, "Database error");
    } else {
      var changes := db.DeleteUser(target);
      if changes == 0 {
        a := Error(NOT_FOUND, "User not found");
      } else {
        a := Done(OK, "User deleted successfully");
      }
    }
    a := WrappedSend(db, "DELETE_USER", [], req, StatusOf(a), a, now, auditOk);
  }

  /** Removing the row at `k` removes exactly the row with that id: every
      other row stays, in order, and no row with the id is left. */
  lemma {:induction false} DeleteRemovesOnlyTarget(users: seq<User>, id: int)
    requires IndexOfUser(users, id).Some?
    requires forall i, j :: 0 <= i < j < |users| ==> users[i].id != users[j].id
    ensures var k := IndexOfUser(users, id).value;
      var after := users[..k] + users[k + 1..];
      && |after| == |users| - 1
      && (forall i :: 0 <= i < |after| ==> after[i].id != id)
      && (forall x :: x in users && x.id != id ==> x in after)
  {
    var k := IndexOfUser(users, id).value;
    var after := users[..k] + users[k + 1..];
    forall x | x in users && x.id != id ensures x in after {
      var i :| 0 <= i < |users| && users[i] == x;
      if i < k { assert after[i] == x; } else { assert after[i - 1] == x; }
    }
  }
}
