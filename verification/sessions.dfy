/** The session-token protocol: `register_user`, `login_user` and `logout` in
    src/api/v1/auth_routes.py, and `get_current_user` in
    src/utils/dependencies.py.

    Redis is a map from key to stored string (with the TTL it was written with,
    and no clock); Firebase's user directory is a map from e-mail to uid. */
module Sessions {
  import opened Wrappers

  /** A Redis value and the expiry it was written with, in seconds. */
  datatype Stored = Stored(value: string, ttl: Option<nat>)

  type Store = map<string, Stored>

  /** Firebase accounts, looked up by e-mail (`auth.get_user_by_email`). */
  type Directory = map<string, string>

  /** An `HTTPException(status_code, detail)` raised to the client. */
  datatype HttpError = HttpError(status: int, detail: string)

  /** `3600 * 24`: a session lives one day. */
  const SessionTtl: nat := 86400

  const KeyPrefix: string := "session:"

  /** `f"session:{token}"`. */
  function SessionKey(token: string): (k: string)
    ensures |k| == |KeyPrefix| + |token|
    ensures k[..|KeyPrefix|] == KeyPrefix && k[|KeyPrefix|..] == token
  {
    KeyPrefix + token
  }

  /** Distinct tokens never share a Redis key. */
  lemma SessionKeyInjective(t1: string, t2: string)
    requires SessionKey(t1) == SessionKey(t2)
    ensures t1 == t2
  {
    assert t1 == SessionKey(t1)[|KeyPrefix|..];
  }

  /** `redis_client.get(key)` with `decode_responses=True`. */
  function Get(store: Store, key: string): Option<string> {
    if key in store then Some(store[key].value) else None
  }

  /** `get_current_user(session_token)`: the stored uid, unless it is absent or
      the empty string (both falsy), in which case 401. */
  function GetCurrentUser(store: Store, token: string): (r: Result<string, HttpError>)
    ensures r.Success? <==> SessionKey(token) in store && store[SessionKey(token)].value != ""
    ensures r.Success? ==> r.value == store[SessionKey(token)].value
    ensures r.Failure? ==> r.error == HttpError(401, "Invalid or expired session")
  {
    match Get(store, SessionKey(token))
    case Some(uid) =>
      if uid == "" then Failure(HttpError(401, "Invalid or expired session"))
      else Success(uid)
    case None => Failure(HttpError(401, "Invalid or expired session"))
  }

  /** The reply of a successful `register_user`. */
  datatype Created = Created(message: string, uid: string)

  /** `register_user(email, password)`: `created` is what Firebase's
      `auth.create_user` returned, a new uid or the text of the exception it
      raised. Any failure becomes a 400 carrying that text. */
  function Register(dir: Directory, email: string, password: string, created: Result<string, string>)
    : (r: (Directory, Result<Created, HttpError>))
    ensures created.Success? ==>
      && r.1 == Success(Created("User created", created.value))
      && r.0 == dir[email := created.value]
    ensures created.Failure? ==> r == (dir, Failure(HttpError(400, created.error)))
  {
    match created
    case Success(uid) => (dir[email := uid], Success(Created("User created", uid)))
    case Failure(e) => (dir, Failure(HttpError(400, e)))
  }

  /** `login_user(email, password)`: `newToken` stands for `str(uuid.uuid4())`.
      A known e-mail gets a new session key holding its uid for one day; any
      exception (here: the unknown e-mail) becomes 401. The password is never
      checked. */
  function Login(dir: Directory, store: Store, email: string, password: string, newToken: string)
    : (r: (Store, Result<string, HttpError>))
    ensures email in dir ==>
      && r.1 == Success(newToken)
      && r.0 == store[SessionKey(newToken) := Stored(dir[email], Some(SessionTtl))]
    ensures email !in dir ==> r == (store, Failure(HttpError(401, "Invalid credentials")))
  {
    if email in dir then
      var uid := dir[email];
      (store[SessionKey(newToken) := Stored(uid, Some(3600 * 24))], Success(newToken))
    else
      (store, Failure(HttpError(401, "Invalid credentials")))
  }

  /** `logout(session_token)`: deletes the key, whether present or not. */
  function Logout(store: Store, token: string): (r: (Store, string))
    ensures r.1 == "Logged out"
    ensures SessionKey(token) !in r.0
    ensures forall k :: k != SessionKey(token) ==> (k in r.0 <==> k in store)
    ensures forall k :: k in r.0 ==> r.0[k] == store[k]
  {
    (store - {SessionKey(token)}, "Logged out")
  }

  /** Round trip: the token a successful login returns authenticates as the
      account's uid (Firebase never issues an empty uid). */
  lemma LoginThenCurrentUser(dir: Directory, store: Store, email: string, password: string, newToken: string)
    requires email in dir && dir[email] != ""
    ensures var (store', reply) := Login(dir, store, email, password, newToken);
      && reply == Success(newToken)
      && GetCurrentUser(store', newToken) == Success(dir[email])
  {
  }

  /** A login opens one session and leaves every other token's outcome alone. */
  lemma LoginKeepsOtherSessions(dir: Directory, store: Store, email: string, password: string, newToken: string, other: string)
    requires other != newToken
    ensures GetCurrentUser(Login(dir, store, email, password, newToken).0, other) == GetCurrentUser(store, other)
  {
    if SessionKey(other) == SessionKey(newToken) {
      SessionKeyInjective(other, newToken);
    }
  }

  /** The submitted password plays no part in the login outcome. */
  lemma LoginIgnoresPassword(dir: Directory, store: Store, email: string, p1: string, p2: string, newToken: string)
    ensures Login(dir, store, email, p1, newToken) == Login(dir, store, email, p2, newToken)
  {
  }

  /** After logout the token is rejected with 401. */
  lemma LogoutRevokes(store: Store, token: string)
    ensures GetCurrentUser(Logout(store, token).0, token) == Failure(HttpError(401, "Invalid or expired session"))
  {
  }

  /** Logout touches only the given token's session. */
  lemma LogoutKeepsOtherSessions(store: Store, token: string, other: string)
    requires other != token
    ensures GetCurrentUser(Logout(store, token).0, other) == GetCurrentUser(store, other)
  {
    if SessionKey(other) == SessionKey(token) {
      SessionKeyInjective(other, token);
    }
  }

  /** Logging out the token of a login whose key was unused restores the store exactly. */
  lemma LoginThenLogout(dir: Directory, store: Store, email: string, password: string, newToken: string)
    requires SessionKey(newToken) !in store
    ensures Logout(Login(dir, store, email, password, newToken).0, newToken).0 == store
  {
  }

  /** Round trip: an account that registration just created can log in, with any
      password, and its session resolves to the new uid. */
  lemma RegisterThenLogin(dir: Directory, store: Store, email: string, password: string, created: Result<string, string>, anyPassword: string, newToken: string)
    requires created.Success? && created.value != ""
    ensures var dir' := Register(dir, email, password, created).0;
      var (store', reply) := Login(dir', store, email, anyPassword, newToken);
      && reply == Success(newToken)
      && GetCurrentUser(store', newToken) == Success(created.value)
  {
  }
}
