/**
 * The account table both versions of the API server keep (`User`: an id,
 * a unique e-mail and a password hash), the request and response shapes
 * of the signup and login routes, and the login rule they share.
 */
module Accounts {
  import opened Wrappers

  /** A row of the `User` table; `password` holds the bcrypt hash. */
  datatype User = User(id: nat, email: string, password: string)

  /**
   * The password hashing library, left uninterpreted: `hash` is
   * `generate_password_hash(p).decode('utf-8')`, `check` is
   * `check_password_hash(stored, p)`. Both are applied to a string only:
   * `generate_password_hash` raises on an empty or absent password and
   * `check_password_hash` on an absent one, and the routes model those
   * raises as a server error (500).
   */
  datatype Bcrypt = Bcrypt(hash: string -> string, check: (string, string) -> bool)

  /** The JSON body's `email` and `password` fields, `None` when absent. */
  datatype Request = Request(email: Option<string>, password: Option<string>)

  /** The JSON bodies the routes answer with. */
  datatype Body =
    | Message(message: string)
    | Error(error: string)
    | LoggedIn(message: string, email: string)
    | InternalServerError

  datatype Response = Response(status: nat, body: Body)

  // ---------------------------------------------------------------------
  // The table
  // ---------------------------------------------------------------------

  /** The `unique=True` constraint on the e-mail column. */
  ghost predicate UniqueEmails(rows: seq<User>) {
    forall i, j :: 0 <= i < j < |rows| ==> rows[i].email != rows[j].email
  }

  /**
   * The table's invariant: e-mails are unique and the integer primary key
   * numbers the rows 1, 2, 3, ... in insertion order (rows are never
   * deleted).
   */
  ghost predicate Valid(rows: seq<User>) {
    UniqueEmails(rows) && forall i :: 0 <= i < |rows| ==> rows[i].id == i + 1
  }

  /**
   * `User.query.filter_by(email=email).first()`: the position of the first
   * row with that e-mail. A `None` e-mail filters on `IS NULL`, which no row
   * matches since the column is `nullable=False`.
   */
  function FindUser(rows: seq<User>, email: Option<string>): (found: Option<nat>)
    ensures found.Some? ==>
      && email.Some? && found.value < |rows| && rows[found.value].email == email.value
      && forall j :: 0 <= j < found.value ==> rows[j].email != email.value
    ensures found.None? ==> email.None? || forall j :: 0 <= j < |rows| ==> rows[j].email != email.value
  {
    if email.None? || rows == [] then None
    else if rows[0].email == email.value then Some(0)
    else
      match FindUser(rows[1..], email)
      case None => None
      case Some(i) => Some(i + 1)
  }

  /** Some row carries this e-mail. */
  predicate HasUser(rows: seq<User>, email: Option<string>) {
    FindUser(rows, email).Some?
  }

  /** With unique e-mails, the row `first()` finds is the one row with that address. */
  lemma FindsTheOnlyRow(rows: seq<User>, k: nat)
    requires UniqueEmails(rows) && k < |rows|
    ensures FindUser(rows, Some(rows[k].email)) == Some(k)
  {
  }

  /** `db.session.add(User(email=..., password=...))` and `commit()`: one row at the end, with the next id. */
  function AddUser(rows: seq<User>, email: string, hash: string): (updated: seq<User>)
    ensures |updated| == |rows| + 1 && updated[..|rows|] == rows
    ensures updated[|rows|] == User(|rows| + 1, email, hash)
  {
    rows + [User(|rows| + 1, email, hash)]
  }

  /** Adding an address not yet in the table keeps the table valid. */
  lemma AddUserKeepsValid(rows: seq<User>, email: string, hash: string)
    requires Valid(rows) && !HasUser(rows, Some(email))
    ensures Valid(AddUser(rows, email, hash))
  {
    var updated := AddUser(rows, email, hash);
    assert forall i :: 0 <= i < |rows| ==> updated[i] == rows[i];
  }

  /** After the insertion, `first()` finds the new row. */
  lemma AddUserIsFound(rows: seq<User>, email: string, hash: string)
    requires Valid(rows) && !HasUser(rows, Some(email))
    ensures FindUser(AddUser(rows, email, hash), Some(email)) == Some(|rows|)
  {
    AddUserKeepsValid(rows, email, hash);
    FindsTheOnlyRow(AddUser(rows, email, hash), |rows|);
  }

  // ---------------------------------------------------------------------
  // Login
  // ---------------------------------------------------------------------

  /**
   * The login route: 200 with the stored e-mail when the first row with the
   * request's e-mail exists and its hash checks against the password, 401
   * otherwise. When that row exists but the password is absent,
   * `check_password_hash` raises and the route fails with 500.
   */
  function Login(rows: seq<User>, bcrypt: Bcrypt, request: Request): (response: Response)
    ensures response.status == 200 || response == Response(401, Error("Invalid email or password"))
         || response == Response(500, InternalServerError)
    ensures response.status == 500 <==> HasUser(rows, request.email) && request.password.None?
  {
    match FindUser(rows, request.email)
    case Some(i) =>
      if request.password.None? then
        Response(500, InternalServerError)
      else if bcrypt.check(rows[i].password, request.password.value) then
        Response(200, LoggedIn("Login successful", rows[i].email))
      else
        Response(401, Error("Invalid email or password"))
    case None =>
      Response(401, Error("Invalid email or password"))
  }

  /** Some row carries the request's e-mail and its hash checks against the request's password. */
  ghost predicate Authenticates(rows: seq<User>, bcrypt: Bcrypt, request: Request) {
    exists k :: 0 <= k < |rows| && Some(rows[k].email) == request.email
      && request.password.Some? && bcrypt.check(rows[k].password, request.password.value)
  }

  /**
   * Login succeeds exactly when some row carries the request's e-mail and
   * the password checks against that row's hash; the answer then names that
   * e-mail.
   */
  lemma LoginSucceedsIff(rows: seq<User>, bcrypt: Bcrypt, request: Request)
    requires UniqueEmails(rows)
    ensures Login(rows, bcrypt, request).status == 200 <==> Authenticates(rows, bcrypt, request)
    ensures Login(rows, bcrypt, request).status == 200 ==>
      Login(rows, bcrypt, request).body == LoggedIn("Login successful", request.email.value)
  {
    if Authenticates(rows, bcrypt, request) {
      var k :| 0 <= k < |rows| && Some(rows[k].email) == request.email
        && request.password.Some? && bcrypt.check(rows[k].password, request.password.value);
      FindsTheOnlyRow(rows, k);
    }
  }

  /** A request without an e-mail never logs in, and never reaches the password check. */
  lemma LoginWithoutEmailFails(rows: seq<User>, bcrypt: Bcrypt, password: Option<string>)
    ensures Login(rows, bcrypt, Request(None, password)) == Response(401, Error("Invalid email or password"))
  {
  }
}
