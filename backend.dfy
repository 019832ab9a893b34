/**
 * The deployed API server: the database URL it connects to, and the signup
 * and login routes over the `User` table.
 */
module Backend {
  import opened Wrappers
  import opened Text
  import opened Accounts

  // ---------------------------------------------------------------------
  // Database URL
  // ---------------------------------------------------------------------

  const PostgresScheme: string := "postgres://"
  const PostgresqlScheme: string := "postgresql://"
  const SqliteUri: string := "sqlite:///database.db"

  /** Python's `s.replace(target, replacement, 1)`: only the first occurrence of `target` is replaced. */
  function ReplaceFirst(s: string, target: string, replacement: string): string
    decreases |s|
  {
    if StartsWith(s, target) then replacement + s[|target|..]
    else if s == [] then s
    else [s[0]] + ReplaceFirst(s[1..], target, replacement)
  }

  /**
   * `SQLALCHEMY_DATABASE_URI`: the `DATABASE_URL` environment variable with
   * a `postgres://` scheme rewritten to `postgresql://`, or the local
   * sqlite file when the variable is absent or empty.
   */
  function DatabaseUri(env: Option<string>): string {
    var url :=
      if env.Some? && env.value != "" && StartsWith(env.value, PostgresScheme) then
        Some(ReplaceFirst(env.value, PostgresScheme, PostgresqlScheme))
      else env;
    if url.Some? && url.value != "" then url.value else SqliteUri
  }

  /** The `postgres://` prefix becomes `postgresql://`; the rest of the URL is kept. */
  lemma RewritesPostgresScheme(rest: string)
    ensures DatabaseUri(Some(PostgresScheme + rest)) == PostgresqlScheme + rest
  {
    var url := PostgresScheme + rest;
    assert url[..|PostgresScheme|] == PostgresScheme;
    assert url[|PostgresScheme|..] == rest;
  }

  /** Any other URL is used as it is. */
  lemma KeepsOtherUrls(url: string)
    requires url != "" && !StartsWith(url, PostgresScheme)
    ensures DatabaseUri(Some(url)) == url
  {
  }

  /** `postgresql://` does not start with `postgres://`: the two differ at their ninth character. */
  lemma PostgresqlIsNotPostgres(rest: string)
    ensures !StartsWith(PostgresqlScheme + rest, PostgresScheme)
  {
    var url := PostgresqlScheme + rest;
    assert url[8] == 'q' && PostgresScheme[8] == ':';
    assert url[..|PostgresScheme|][8] == url[8];
  }

  /** A URL already using `postgresql://` is used as it is. */
  lemma KeepsPostgresqlUrls(rest: string)
    ensures DatabaseUri(Some(PostgresqlScheme + rest)) == PostgresqlScheme + rest
  {
    PostgresqlIsNotPostgres(rest);
    KeepsOtherUrls(PostgresqlScheme + rest);
  }

  /** An absent or empty `DATABASE_URL` selects the local sqlite file. */
  lemma FallsBackToSqlite(env: Option<string>)
    requires env.None? || env.value == ""
    ensures DatabaseUri(env) == SqliteUri
  {
  }

  /** The URL handed to the database driver never uses the `postgres://` scheme. */
  lemma NeverPostgresScheme(env: Option<string>)
    ensures !StartsWith(DatabaseUri(env), PostgresScheme)
  {
    if env.Some? && env.value != "" && StartsWith(env.value, PostgresScheme) {
      var rest := env.value[|PostgresScheme|..];
      assert env.value == PostgresScheme + rest;
      RewritesPostgresScheme(rest);
      PostgresqlIsNotPostgres(rest);
    } else if env.None? || env.value == "" {
      var uri := SqliteUri;
      assert uri[..|PostgresScheme|][0] == 's';
    }
  }

  /** Normalising a normalised URL changes nothing. */
  lemma DatabaseUriIdempotent(env: Option<string>)
    ensures DatabaseUri(Some(DatabaseUri(env))) == DatabaseUri(env)
  {
    NeverPostgresScheme(env);
    var uri := DatabaseUri(env);
    assert uri != "" by {
      if env.None? || env.value == "" {
        assert |SqliteUri| > 0;
      }
    }
    KeepsOtherUrls(uri);
  }

  // ---------------------------------------------------------------------
  // Signup
  // ---------------------------------------------------------------------

  /** A route's answer together with the table after the request. */
  datatype Outcome = Outcome(response: Response, rows: seq<User>)

  /** `not value` for a field that is absent (`None`) or a string. */
  predicate Blank(field: Option<string>) {
    field.None? || field.value == ""
  }

  /**
   * The signup route: both fields must be present and non-empty (400), the
   * e-mail must not be taken (400), and then the row is added with the
   * password's hash (201).
   */
  function Signup(rows: seq<User>, bcrypt: Bcrypt, request: Request): (out: Outcome)
    ensures out.response.status == 201 <==>
      !Blank(request.email) && !Blank(request.password) && !HasUser(rows, request.email)
    ensures out.response.status != 201 ==> out.response.status == 400 && out.rows == rows
    ensures out.response.status == 201 ==>
      out.rows == AddUser(rows, request.email.value, bcrypt.hash(request.password.value))
  {
    if Blank(request.email) || Blank(request.password) then
      Outcome(Response(400, Error("Email and password are required")), rows)
    else if HasUser(rows, request.email) then
      Outcome(Response(400, Error("User already exists")), rows)
    else
      var hashed := bcrypt.hash(request.password.value);
      Outcome(Response(201, Message("User created successfully")), AddUser(rows, request.email.value, hashed))
  }

  /** A missing or empty e-mail or password is refused and the table is untouched. */
  lemma SignupRequiresBothFields(rows: seq<User>, bcrypt: Bcrypt, request: Request)
    requires Blank(request.email) || Blank(request.password)
    ensures Signup(rows, bcrypt, request) == Outcome(Response(400, Error("Email and password are required")), rows)
  {
  }

  /** An address already in the table is refused and the table is untouched. */
  lemma SignupRejectsDuplicate(rows: seq<User>, bcrypt: Bcrypt, k: nat, password: string)
    requires k < |rows| && rows[k].email != "" && password != ""
    ensures Signup(rows, bcrypt, Request(Some(rows[k].email), Some(password)))
         == Outcome(Response(400, Error("User already exists")), rows)
  {
    assert HasUser(rows, Some(rows[k].email));
  }

  /**
   * A successful signup adds exactly one row, at the end, for that e-mail
   * and the password's hash; every earlier row is kept; and the new user is
   * then the one login finds.
   */
  lemma SignupAddsOneRow(rows: seq<User>, bcrypt: Bcrypt, request: Request)
    requires Valid(rows) && Signup(rows, bcrypt, request).response.status == 201
    ensures var after := Signup(rows, bcrypt, request).rows;
      && |after| == |rows| + 1
      && (forall i :: 0 <= i < |rows| ==> after[i] == rows[i])
      && after[|rows|].email == request.email.value
      && after[|rows|].password == bcrypt.hash(request.password.value)
      && FindUser(after, request.email) == Some(|rows|)
  {
    var after := Signup(rows, bcrypt, request).rows;
    assert forall i :: 0 <= i < |rows| ==> after[i] == after[..|rows|][i];
    AddUserIsFound(rows, request.email.value, bcrypt.hash(request.password.value));
  }

  /** Signup keeps e-mails unique and ids sequential. */
  lemma SignupKeepsValid(rows: seq<User>, bcrypt: Bcrypt, request: Request)
    requires Valid(rows)
    ensures Valid(Signup(rows, bcrypt, request).rows)
  {
    if Signup(rows, bcrypt, request).response.status == 201 {
      AddUserKeepsValid(rows, request.email.value, bcrypt.hash(request.password.value));
    }
  }

  // ---------------------------------------------------------------------
  // The running server
  // ---------------------------------------------------------------------

  class Server {
    const databaseUri: string
    const bcrypt: Bcrypt
    var users: seq<User>

    ghost predicate Valid()
      reads this
    {
      Accounts.Valid(users)
    }

    /** Start-up: the URL is read from the environment; `create_all` keeps existing rows. */
    constructor (env: Option<string>, bcrypt: Bcrypt, existing: seq<User>)
      requires Accounts.Valid(existing)
      ensures Valid()
      ensures databaseUri == DatabaseUri(env) && this.bcrypt == bcrypt && users == existing
    {
      databaseUri := DatabaseUri(env);
      this.bcrypt := bcrypt;
      users := existing;
    }

    /** `POST /api/signup`. */
    method HandleSignup(request: Request) returns (response: Response)
      requires Valid()
      modifies this
      ensures Valid()
      ensures Outcome(response, users) == Signup(old(users), bcrypt, request)
    {
      var out := Signup(users, bcrypt, request);
      SignupKeepsValid(users, bcrypt, request);
      response := out.response;
      users := out.rows;
    }

    /** `POST /api/login`: reads the table and changes nothing. */
    method HandleLogin(request: Request) returns (response: Response)
      requires Valid()
      ensures response == Login(users, bcrypt, request)
      ensures response.status == 200 <==> Authenticates(users, bcrypt, request)
    {
      response := Login(users, bcrypt, request);
      LoginSucceedsIff(users, bcrypt, request);
    }
  }
}
