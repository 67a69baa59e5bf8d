/**
 * The account handlers: registration (`create_user`) and log-in (`log_in`).
 * The `users` collection is a map from username to record, since both
 * handlers look users up by `username` only.
 *
 * `encrypt`, `compare` and `create_jwt` are opaque functions the service is
 * built with; each may fail (`None`). The salt bcrypt would draw is an input
 * of `encrypt`, and the clock reading `Utc::now()` an input of `create_jwt`. Each call to the database driver may answer with an error,
 * which the handlers turn into INTERNAL_SERVER_ERROR.
 */
module UsersHandlers {
  import opened Wrappers
  import opened Http
  import RandomIds
  import opened Driver

  /** A record of the `users` collection. */
  datatype User = User(userId: string, username: string, password: string, email: Option<string>, ip: Option<string>)

  /** The body of `create_user`. */
  datatype CreateUser = CreateUser(username: string, password: string, email: Option<string>)

  /** The body of `log_in`. */
  datatype LogUser = LogUser(username: string, password: string)

  /** The JSON body of a successful answer: a message and the issued token. */
  datatype Body = TokenMessage(response: string, token: string)

  datatype Response = Response(status: StatusCode, body: Body)

  type Reply = Result<Response, StatusCode>

  const UserCreated: string := "User Created"
  const LoginSuccessful: string := "Login Successful"

  /** `encrypt`: the bcrypt digest of a password with a given salt, or a failure. */
  type Encrypt = (string, nat) -> Option<string>
  /** `compare`: whether a password matches a stored digest, or a failure. */
  type Compare = (string, string) -> Option<bool>
  /** A reading of the clock, `Utc::now()`. */
  type Instant = int

  /**
   * `create_jwt`: a token for a username, user id and email, or a failure.
   * The claims also carry `iat`, the instant the token is built, so the clock
   * reading is an input too.
   */
  type CreateJwt = (string, string, Option<string>, Instant) -> Option<string>

  /** The record `create_user` stores: the fresh id, the digest in place of the password, the email as given, no ip. */
  function NewUser(req: CreateUser, userId: string, digest: string): (u: User)
    ensures u.username == req.username && u.email == req.email
    ensures u.userId == userId && u.password == digest && u.ip.None?
  {
    User(userId, req.username, digest, req.email, None)
  }

  /**
   * What `log_in` answers once `find_one` has returned: NOT_FOUND for an
   * unknown username, INTERNAL_SERVER_ERROR when `compare` or `create_jwt`
   * fails, UNAUTHORIZED for a wrong password, and otherwise a token for the
   * request's username and the stored id and email, built at `now`.
   */
  function LogInDecision(users: map<string, User>, req: LogUser, now: Instant, compare: Compare, createJwt: CreateJwt): (r: Reply)
    ensures r == Err(NotFound404) <==> req.username !in users
    ensures r == Err(Unauthorized401) <==> req.username in users && compare(req.password, users[req.username].password) == Some(false)
    ensures r.Ok? <==>
      && req.username in users
      && compare(req.password, users[req.username].password) == Some(true)
      && createJwt(req.username, users[req.username].userId, users[req.username].email, now).Some?
    ensures r.Ok? ==>
      r.value == Response(Ok200, TokenMessage(LoginSuccessful, createJwt(req.username, users[req.username].userId, users[req.username].email, now).value))
    ensures r.Err? ==> r.error in {NotFound404, Unauthorized401, InternalServerError500}
  {
    if req.username !in users then
      Err(NotFound404)
    else
      var stored := users[req.username];
      match compare(req.password, stored.password)
      case None => Err(InternalServerError500)
      case Some(false) => Err(Unauthorized401)
      case Some(true) =>
        match createJwt(req.username, stored.userId, stored.email, now)
        case None => Err(InternalServerError500)
        case Some(token) => Ok(Response(Ok200, TokenMessage(LoginSuccessful, token)))
  }

  class UsersService {
    /** The `users` collection, keyed by username. */
    var users: map<string, User>
    const encrypt: Encrypt
    const compare: Compare
    const createJwt: CreateJwt

    /**
     * Every record is filed under its own username, so `users[u]` is the one
     * document `find_one({"username": u})` can return.
     */
    ghost predicate Valid()
      reads this
    {
      forall u :: u in users ==> users[u].username == u
    }

    constructor (encrypt: Encrypt, compare: Compare, createJwt: CreateJwt)
      ensures Valid() && users == map[]
      ensures this.encrypt == encrypt && this.compare == compare && this.createJwt == createJwt
    {
      users := map[];
      this.encrypt := encrypt;
      this.compare := compare;
      this.createJwt := createJwt;
    }

    /**
     * `create_user`. The username is checked before the password is hashed
     * (`hashed` says whether `encrypt` ran); the record is stored before the
     * token is issued, so a `create_jwt` failure leaves the user registered.
     * `now` is the clock reading `create_jwt` takes.
     */
    method CreateUser(req: CreateUser, salt: nat, draws: seq<RandomIds.Draw>, now: Instant) returns (r: Reply, ghost hashed: bool)
      requires Valid()
      requires |draws| == RandomIds.IdLength && forall k :: 0 <= k < |draws| ==> RandomIds.IsDraw(draws[k])
      modifies this
      ensures Valid()
      ensures req.username in old(users) ==> !hashed && users == old(users) && (r == Err(Conflict409) || r == Err(InternalServerError500))
      ensures r == Err(Conflict409) ==> req.username in old(users)
      ensures hashed && encrypt(req.password, salt).None? ==> r == Err(InternalServerError500) && users == old(users)
      ensures r.Err? ==> r.error == Conflict409 || r.error == InternalServerError500
      ensures users == old(users) || (
        && hashed
        && req.username !in old(users)
        && encrypt(req.password, salt).Some?
        && users == old(users)[req.username := NewUser(req, RandomIds.IdFromDraws(draws), encrypt(req.password, salt).value)])
      ensures r.Ok? ==>
        && users != old(users)
        && createJwt(req.username, RandomIds.IdFromDraws(draws), req.email, now).Some?
        && r.value == Response(Ok200, TokenMessage(UserCreated, createJwt(req.username, RandomIds.IdFromDraws(draws), req.email, now).value))
      ensures r.Err? && users != old(users) ==>
        r.error == InternalServerError500 && createJwt(req.username, RandomIds.IdFromDraws(draws), req.email, now).None?
    {
      hashed := false;
      var ok := DriverCall();
      if !ok {
        return Err(InternalServerError500), hashed;
      }
      if req.username in users {
        return Err(Conflict409), hashed;
      }

      hashed := true;
      var encodedPass := encrypt(req.password, salt);
      if encodedPass.None? {
        return Err(InternalServerError500), hashed;
      }

      var userid := RandomIds.RandomId(draws);
      var email := req.email;
      var data := User(userid, req.username, encodedPass.value, email, None);

      ok := DriverCall();
      if !ok {
        return Err(InternalServerError500), hashed;
      }
      users := users[req.username := data];
      assert users != old(users) by {
        assert req.username in users;
      }
      var token := createJwt(req.username, userid, email, now);
      if token.None? {
        return Err(InternalServerError500), hashed;
      }
      return Ok(Response(Ok200, TokenMessage(UserCreated, token.value))), hashed;
    }

    /** `log_in`: a lookup and a password check; the table is only read. `now` is the clock reading `create_jwt` takes. */
    method LogIn(req: LogUser, now: Instant) returns (r: Reply)
      requires Valid()
      ensures r == Err(InternalServerError500) || r == LogInDecision(users, req, now, compare, createJwt)
      ensures r.Ok? ==> req.username in users && compare(req.password, users[req.username].password) == Some(true)
    {
      var ok := DriverCall();
      if !ok {
        return Err(InternalServerError500);
      }
      if req.username !in users {
        return Err(NotFound404);
      }
      var userStored := users[req.username];

      var authenticated := compare(req.password, userStored.password);
      if authenticated.None? {
        return Err(InternalServerError500);
      }
      if authenticated.value {
        var email := userStored.email;
        var token := createJwt(req.username, userStored.userId, email, now);
        if token.None? {
          return Err(InternalServerError500);
        }
        return Ok(Response(Ok200, TokenMessage(LoginSuccessful, token.value)));
      } else {
        return Err(Unauthorized401);
      }
    }
  }

  /**
   * Registration followed by log-in: when `compare` accepts a password against
   * its own digest, logging in at `now` with the registered password calls
   * `create_jwt` with the username, id and email registration stored, and
   * issues the token it builds at `now`.
   */
  lemma LogInAfterCreateUser(users: map<string, User>, req: CreateUser, userId: string, digest: string,
                             now: Instant, compare: Compare, createJwt: CreateJwt)
    requires compare(req.password, digest) == Some(true)
    requires createJwt(req.username, userId, req.email, now).Some?
    ensures LogInDecision(users[req.username := NewUser(req, userId, digest)], LogUser(req.username, req.password), now, compare, createJwt)
      == Ok(Response(Ok200, TokenMessage(LoginSuccessful, createJwt(req.username, userId, req.email, now).value)))
  {
  }

  /** A wrong password never logs in, whatever `create_jwt` does; a failing `compare` is a server error, not UNAUTHORIZED. */
  lemma WrongPasswordNeverLogsIn(users: map<string, User>, req: LogUser, now: Instant, compare: Compare, createJwt: CreateJwt)
    requires req.username in users
    requires compare(req.password, users[req.username].password) != Some(true)
    ensures LogInDecision(users, req, now, compare, createJwt).Err?
    ensures compare(req.password, users[req.username].password).None? ==>
      LogInDecision(users, req, now, compare, createJwt) == Err(InternalServerError500)
  {
  }

  /** Registering one username leaves every other account's log-in outcome as it was. */
  lemma CreateUserKeepsOtherLogIns(users: map<string, User>, req: CreateUser, userId: string, digest: string,
                                   other: LogUser, now: Instant, compare: Compare, createJwt: CreateJwt)
    requires other.username != req.username
    ensures LogInDecision(users[req.username := NewUser(req, userId, digest)], other, now, compare, createJwt)
      == LogInDecision(users, other, now, compare, createJwt)
  {
    var after := users[req.username := NewUser(req, userId, digest)];
    assert other.username in after <==> other.username in users;
    if other.username in users {
      assert after[other.username] == users[other.username];
    }
  }
}
