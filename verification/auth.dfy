/** The authentication decision: look the user up by name, then check the
    password against the stored hash. The hash check itself is a parameter
    of the model, and logging in is a change of the session's user. */
module Auth {
  import opened Results
  import opened Models

  /** The error raised on a failed login, carrying its message. */
  datatype AuthenticationError = AuthenticationError(message: string)

  const UnknownUserMessage := "User with that username doesn't exist"
  const WrongPasswordMessage := "Wrong password"
  const SuccessValue := "success"

  /** `str(error)`: the text shown for an error. */
  function ErrorText(e: AuthenticationError): (text: string)
    ensures AuthenticationError(text) == e
  {
    e.message
  }

  /** The login session: the id of the logged-in user, if any. */
  datatype Session = Session(currentUser: Option<int>)

  /** What an authentication attempt returns or raises, and the session
      after it. */
  datatype AuthOutcome = AuthOutcome(result: Result<string, AuthenticationError>, session: Session)

  /** `query.filter_by(username=...).first()`. */
  function FindUser(users: seq<User>, username: string): (r: Option<User>)
    ensures r.None? <==> forall i :: 0 <= i < |users| ==> users[i].username != username
    ensures r.Some? ==> exists i :: 0 <= i < |users| && users[i] == r.value && r.value.username == username
  {
    if |users| == 0 then None
    else if users[0].username == username then Some(users[0])
    else
      var r := FindUser(users[1..], username);
      assert forall i :: 0 <= i < |users| - 1 ==> users[1..][i] == users[i + 1];
      r
  }

  /** Usernames are unique, so the lookup finds the one user with that name. */
  lemma {:induction false} FindUserUnique(users: seq<User>, i: nat)
    requires UsersValid(users) && i < |users|
    ensures FindUser(users, users[i].username) == Some(users[i])
  {
    if i > 0 {
      assert users[0].username != users[i].username;
      assert UsersValid(users[1..]);
      assert users[1..][i - 1] == users[i];
      FindUserUnique(users[1..], i - 1);
    }
  }

  /** Attempts a login. An unknown username fails before any password is
      checked; a matching hash logs the user in (remembered) and returns
      "success"; otherwise the attempt fails and the session is left as it
      was. */
  function Authenticate(
    users: seq<User>, username: string, password: string,
    checkHash: (string, string) -> bool, session: Session): (r: AuthOutcome)
    ensures FindUser(users, username).None? ==>
      r == AuthOutcome(Failure(AuthenticationError(UnknownUserMessage)), session)
    ensures r.result.Success? <==>
      FindUser(users, username).Some? && checkHash(FindUser(users, username).value.password, password)
    ensures r.result.Success? ==>
      r.result.value == SuccessValue && r.session == Session(Some(FindUser(users, username).value.id))
    ensures r.result.Failure? ==> r.session == session
    ensures FindUser(users, username).Some? && r.result.Failure? ==>
      r.result.error == AuthenticationError(WrongPasswordMessage)
  {
    match FindUser(users, username)
    case None => AuthOutcome(Failure(AuthenticationError(UnknownUserMessage)), session)
    case Some(user) =>
      if checkHash(user.password, password) then
        AuthOutcome(Success(SuccessValue), Session(Some(user.id)))
      else
        AuthOutcome(Failure(AuthenticationError(WrongPasswordMessage)), session)
  }

  /** The existence check comes first: for an unknown username neither the
      password nor the hash check has any influence on the outcome. */
  lemma UnknownUserIgnoresPassword(
    users: seq<User>, username: string, p1: string, p2: string,
    h1: (string, string) -> bool, h2: (string, string) -> bool, session: Session)
    requires forall i :: 0 <= i < |users| ==> users[i].username != username
    ensures Authenticate(users, username, p1, h1, session) == Authenticate(users, username, p2, h2, session)
    ensures Authenticate(users, username, p1, h1, session).result.Failure?
  {
  }

  /** In a valid user table, logging in as a stored user succeeds exactly
      when the hash check accepts that user's stored hash, and then the
      session holds that user. */
  lemma AuthenticateStoredUser(
    users: seq<User>, i: nat, password: string, checkHash: (string, string) -> bool, session: Session)
    requires UsersValid(users) && i < |users|
    ensures var r := Authenticate(users, users[i].username, password, checkHash, session);
      (r.result.Success? <==> checkHash(users[i].password, password))
      && (r.result.Success? ==> r.session.currentUser == Some(users[i].id))
  {
    FindUserUnique(users, i);
  }
}
