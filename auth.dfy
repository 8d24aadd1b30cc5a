/**
 * The user and session directory: users keyed by username, sessions keyed
 * by token. Random salts, user ids and tokens are supplied by the caller.
 */
module Auth {
  import opened Wrappers
  import opened Crypto

  datatype User = User(userId: string, username: string, email: string,
                       hashedPassword: HexDigest, salt: string, role: string)

  datatype Session = Session(userId: string, username: string)

  const DefaultRole: string := "user"

  /** _hash_password with a given salt: SHA-256 of the UTF-8 of password + salt. */
  function HashPassword(password: string, salt: string): HexDigest {
    Sha256(Utf8(password + salt))
  }

  class UserAuth {
    /** users.json: username -> record. */
    var users: map<string, User>
    /** sessions.json: token -> {user_id, username}. */
    var sessions: map<string, Session>

    /** Every record is stored under its own username. */
    ghost predicate Valid()
      reads this
    {
      forall name :: name in users ==> users[name].username == name
    }

    /** The check login makes: known user, and the salted hash of `password` matches. */
    predicate CredentialsMatch(username: string, password: string)
      reads this
    {
      username in users && HashPassword(password, users[username].salt) == users[username].hashedPassword
    }

    /** get_user_by_session: the record of the session's username, if both still exist. */
    function GetUserBySession(token: string): (r: Option<User>)
      reads this
      ensures r.Some? <==> token in sessions && sessions[token].username in users
      ensures r.Some? ==> r.value == users[sessions[token].username]
      ensures Valid() && r.Some? ==> r.value.username == sessions[token].username
    {
      if token !in sessions then None
      else if sessions[token].username !in users then None
      else Some(users[sessions[token].username])
    }

    /** A directory with no users and no sessions (loading the JSON files is not modelled). */
    constructor ()
      ensures Valid()
      ensures users == map[] && sessions == map[]
    {
      users := map[];
      sessions := map[];
    }

    /** register_user: `salt` and `userId` stand for the two random hex strings. */
    method RegisterUser(username: string, password: string, email: string, salt: string, userId: string)
      returns (r: Result<User>)
      requires Valid()
      modifies this
      ensures Valid()
      ensures sessions == old(sessions)
      ensures username in old(users) ==> r == Err(DuplicateUser) && users == old(users)
      ensures username !in old(users) ==>
                && r == Ok(User(userId, username, email, HashPassword(password, salt), salt, DefaultRole))
                && users == old(users)[username := r.value]
      ensures r.Ok? ==> CredentialsMatch(username, password)
    {
      if username in users {
        return Err(DuplicateUser);
      }
      var hashed := HashPassword(password, salt);
      var user := User(userId, username, email, hashed, salt, DefaultRole);
      users := users[username := user];
      return Ok(user);
    }

    /** login: a new session under `token` when the credentials match, else None and no change. */
    method Login(username: string, password: string, token: string) returns (r: Option<string>)
      modifies this
      ensures users == old(users)
      ensures r.Some? <==> CredentialsMatch(username, password)
      ensures r.None? ==> sessions == old(sessions)
      ensures r.Some? ==>
                && r.value == token
                && sessions == old(sessions)[token := Session(users[username].userId, username)]
                && GetUserBySession(token) == Some(users[username])
    {
      if username !in users {
        return None;
      }
      var user := users[username];
      var hashed := HashPassword(password, user.salt);
      if hashed != user.hashedPassword {
        return None;
      }
      sessions := sessions[token := Session(user.userId, username)];
      return Some(token);
    }

    /** logout: true exactly when the token was present; it is gone afterwards either way. */
    method Logout(token: string) returns (ok: bool)
      modifies this
      ensures users == old(users)
      ensures ok == (token in old(sessions))
      ensures sessions == old(sessions) - {token}
      ensures GetUserBySession(token) == None
    {
      if token in sessions {
        sessions := sessions - {token};
        return true;
      }
      return false;
    }

    /** get_user_by_id: a scan of the records for one with that id. */
    method GetUserById(userId: string) returns (r: Option<User>)
      ensures r.None? <==> forall name :: name in users ==> users[name].userId != userId
      ensures r.Some? ==> r.value.userId == userId && r.value in users.Values
    {
      var remaining := users.Keys;
      while remaining != {}
        invariant remaining <= users.Keys
        invariant forall name :: name in users && name !in remaining ==> users[name].userId != userId
        decreases remaining
      {
        var name :| name in remaining;
        if users[name].userId == userId {
          return Some(users[name]);
        }
        remaining := remaining - {name};
      }
      return None;
    }

    /** change_password: on matching credentials, replace that user's hash and salt (`newSalt` is the random one). */
    method ChangePassword(username: string, oldPassword: string, newPassword: string, newSalt: string)
      returns (ok: bool)
      requires Valid()
      modifies this
      ensures Valid()
      ensures sessions == old(sessions)
      ensures ok == old(CredentialsMatch(username, oldPassword))
      ensures !ok ==> users == old(users)
      ensures ok ==> users == old(users)[username :=
                old(users)[username].(hashedPassword := HashPassword(newPassword, newSalt), salt := newSalt)]
      ensures ok ==> CredentialsMatch(username, newPassword)
    {
      if username !in users {
        return false;
      }
      var user := users[username];
      var hashedOld := HashPassword(oldPassword, user.salt);
      if hashedOld != user.hashedPassword {
        return false;
      }
      var hashedNew := HashPassword(newPassword, newSalt);
      user := user.(hashedPassword := hashedNew, salt := newSalt);
      users := users[username := user];
      return true;
    }
  }

  /** After registering, logging in with the same password yields a session for that user. */
  method RegisterThenLogin(a: UserAuth, username: string, password: string, email: string,
                           salt: string, userId: string, token: string)
      returns (reg: Result<User>, session: Option<string>)
    requires a.Valid() && username !in a.users
    modifies a
    ensures reg.Ok? && session == Some(token)
    ensures a.GetUserBySession(token) == Some(reg.value)
  {
    reg := a.RegisterUser(username, password, email, salt, userId);
    session := a.Login(username, password, token);
  }
}
