/**
 * The older copy of the API server kept beside the virtual environment: a
 * fixed sqlite database, and a signup route without the required-field
 * check.
 */
module LegacyBackend {
  import opened Wrappers
  import opened Accounts
  import Backend

  /** The fixed `SQLALCHEMY_DATABASE_URI`. */
  const DatabaseUri: string := "sqlite:///database.db"

  /** The fixed URI is the same string the deployed server falls back to. */
  lemma SameLocalDatabase()
    ensures Backend.DatabaseUri(None) == DatabaseUri
  {
    Backend.FallsBackToSqlite(None);
  }

  /**
   * The older signup route. There is no required-field check:
   *   - a taken e-mail is refused (400);
   *   - an empty or absent password makes `generate_password_hash` raise,
   *     so the request fails with a server error (500) and nothing is stored;
   *   - an absent e-mail reaches the insert as NULL, which the
   *     `nullable=False` column refuses: 500 again, nothing stored;
   *   - otherwise the row is added with the password's hash (201).
   */
  function Signup(rows: seq<User>, bcrypt: Bcrypt, request: Request): (out: Backend.Outcome)
    ensures out.response.status == 201 <==>
      request.email.Some? && !Backend.Blank(request.password) && !HasUser(rows, request.email)
    ensures out.response.status == 400 <==> HasUser(rows, request.email)
    ensures out.response.status != 201 ==> out.rows == rows
    ensures out.response.status != 201 && out.response.status != 400 ==> out.response == Response(500, InternalServerError)
    ensures out.response.status == 201 ==>
      out.rows == AddUser(rows, request.email.value, bcrypt.hash(request.password.value))
  {
    if HasUser(rows, request.email) then
      Backend.Outcome(Response(400, Error("User already exists")), rows)
    else if Backend.Blank(request.password) || request.email.None? then
      Backend.Outcome(Response(500, InternalServerError), rows)
    else
      var hashed := bcrypt.hash(request.password.value);
      Backend.Outcome(Response(201, Message("User created successfully")), AddUser(rows, request.email.value, hashed))
  }

  /** An address already in the table is refused, whatever the password, and the table is untouched. */
  lemma SignupRejectsDuplicate(rows: seq<User>, bcrypt: Bcrypt, k: nat, password: Option<string>)
    requires k < |rows|
    ensures Signup(rows, bcrypt, Request(Some(rows[k].email), password))
         == Backend.Outcome(Response(400, Error("User already exists")), rows)
  {
    assert HasUser(rows, Some(rows[k].email));
  }

  /** Without an e-mail the insert fails on the NOT NULL column and nothing is stored. */
  lemma SignupWithoutEmailFails(rows: seq<User>, bcrypt: Bcrypt, password: Option<string>)
    ensures Signup(rows, bcrypt, Request(None, password)) == Backend.Outcome(Response(500, InternalServerError), rows)
  {
  }

  /** Hashing an empty or absent password raises: a new address gets 500 and nothing is stored. */
  lemma SignupWithoutPasswordFails(rows: seq<User>, bcrypt: Bcrypt, request: Request)
    requires Backend.Blank(request.password) && !HasUser(rows, request.email)
    ensures Signup(rows, bcrypt, request) == Backend.Outcome(Response(500, InternalServerError), rows)
  {
  }

  /** Signup keeps e-mails unique and ids sequential. */
  lemma SignupKeepsValid(rows: seq<User>, bcrypt: Bcrypt, request: Request)
    requires Valid(rows)
    ensures Valid(Signup(rows, bcrypt, request).rows)
  {
    if Signup(rows, bcrypt, request).response.status == 201 {
      AddUserKeepsValid(rows, request.email.value, bcrypt.hash(request.password.value));
    }
  }

  /** On a request with a non-empty e-mail and password, both versions answer and store alike. */
  lemma AgreesOnCompleteRequests(rows: seq<User>, bcrypt: Bcrypt, request: Request)
    requires !Backend.Blank(request.email) && !Backend.Blank(request.password)
    ensures Signup(rows, bcrypt, request) == Backend.Signup(rows, bcrypt, request)
  {
  }

  /**
   * Both versions leave the same table behind for every request whose
   * e-mail is not the empty string.
   */
  lemma SameTableUnlessEmptyEmail(rows: seq<User>, bcrypt: Bcrypt, request: Request)
    requires request.email != Some("")
    ensures Signup(rows, bcrypt, request).rows == Backend.Signup(rows, bcrypt, request).rows
  {
  }

  /**
   * What only the older version stores: an empty e-mail with a non-empty
   * password, while no row has the empty address. The deployed server
   * refuses it with 400 and stores nothing; this one stores a row.
   */
  lemma AcceptsWhatBackendRefuses(rows: seq<User>, bcrypt: Bcrypt, password: string)
    requires password != "" && !HasUser(rows, Some(""))
    ensures Signup(rows, bcrypt, Request(Some(""), Some(password))).response.status == 201
    ensures |Signup(rows, bcrypt, Request(Some(""), Some(password))).rows| == |rows| + 1
    ensures Backend.Signup(rows, bcrypt, Request(Some(""), Some(password)))
         == Backend.Outcome(Response(400, Error("Email and password are required")), rows)
  {
  }

  class Server {
    const bcrypt: Bcrypt
    var users: seq<User>

    ghost predicate Valid()
      reads this
    {
      Accounts.Valid(users)
    }

    /** Start-up: `create_all` keeps the rows already in the database file. */
    constructor (bcrypt: Bcrypt, existing: seq<User>)
      requires Accounts.Valid(existing)
      ensures Valid()
      ensures this.bcrypt == bcrypt && users == existing
    {
      this.bcrypt := bcrypt;
      users := existing;
    }

    /** `POST /api/signup`. */
    method HandleSignup(request: Request) returns (response: Response)
      requires Valid()
      modifies this
      ensures Valid()
      ensures Backend.Outcome(response, users) == Signup(old(users), bcrypt, request)
    {
      var out := Signup(users, bcrypt, request);
      SignupKeepsValid(users, bcrypt, request);
      response := out.response;
      users := out.rows;
    }

    /** `POST /api/login`: the same rule as the deployed server; reads the table and changes nothing. */
    method HandleLogin(request: Request) returns (response: Response)
      requires Valid()
      ensures response == Login(users, bcrypt, request)
      ensures response.status == 200 <==> Authenticates(users, bcrypt, request)
    {
      response := Login(users, bcrypt, request);
      LoginSucceedsIff(users, bcrypt, request);
    }
  }
}
