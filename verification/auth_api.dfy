/** Registration and login. Password hashing, password verification and token signing are
    not modelled: the hash and the verifier are parameters, and a token is represented by the
    claims it carries, so decoding a token the service issued gives back those claims. */
module AuthApi {
  import opened Base
  import opened PyText
  import opened Models
  import opened UserSchemas

  /** The claims of an access token as `decode_access_token` returns them; either may be
      missing from a payload. */
  datatype Claims = Claims(sub: Option<string>, role: Option<string>)

  /** `register`: an already used username or e-mail is refused, each check skipped when the
      field is empty; the password is hashed only when one is given. The new row can still be
      refused by a unique column the handler does not check first (the chat id, or an empty
      username or e-mail that another user has). */
  function Register(s: Store, data: UserCreate, hash: string -> string): (r: Result<(Store, User)>)
    ensures r == Failure(DuplicateUsername) <==> Truthy(data.username) && UserByUsername(s.users, data.username.value).Some?
    ensures r == Failure(DuplicateEmail) <==>
      && !(Truthy(data.username) && UserByUsername(s.users, data.username.value).Some?)
      && Truthy(data.email) && UserByEmail(s.users, data.email.value).Some?
    ensures r == Failure(IntegrityViolation) <==>
      && !(Truthy(data.username) && UserByUsername(s.users, data.username.value).Some?)
      && !(Truthy(data.email) && UserByEmail(s.users, data.email.value).Some?)
      && ClashesWithAny(s.users, Applicant(s, data), -1)
    ensures r.Failure? ==> r.error in {DuplicateUsername, DuplicateEmail, IntegrityViolation}
    ensures r.Success? ==>
      var (s', u) := r.value;
      && u.id == s.nextUserId
      && u.username == data.username && u.email == data.email && u.fullName == Some(data.fullName)
      && u.role == Some(data.role) && u.telegramId == data.telegramId
      && (u.hashedPassword.None? <==> !Truthy(data.password))
      && (u.hashedPassword.Some? ==> u.hashedPassword.value == hash(data.password.value))
      && s' == s.(users := s.users + [u], nextUserId := s.nextUserId + 1)
  {
    if Truthy(data.username) && UserByUsername(s.users, data.username.value).Some? then Failure(DuplicateUsername)
    else if Truthy(data.email) && UserByEmail(s.users, data.email.value).Some? then Failure(DuplicateEmail)
    else
      var hashed := if Truthy(data.password) then Some(hash(data.password.value)) else None;
      var row := User(0, data.telegramId, data.username, Some(data.fullName), data.email, hashed, Some(data.role));
      assert ClashesWithAny(s.users, row.(id := s.nextUserId), -1) <==> ClashesWithAny(s.users, Applicant(s, data), -1) by {
        assert forall u :: Clash(row.(id := s.nextUserId), u) <==> Clash(Applicant(s, data), u);
      }
      InsertUser(s, row)
  }

  /** The row a registration inserts, as far as the unique columns see it: the password hash
      takes no part in them. */
  function Applicant(s: Store, data: UserCreate): User {
    User(s.nextUserId, data.telegramId, data.username, Some(data.fullName), data.email, None, Some(data.role))
  }

  /** `login`: an unknown username and a user without a password hash are refused with the
      same error as a wrong password; otherwise the token names the user's id and role. */
  function Login(s: Store, username: string, password: string, verify: (string, string) -> bool): (r: Result<Claims>)
    ensures r.Failure? ==> r.error == BadCredentials
    ensures UserByUsername(s.users, username).None? ==> r.Failure?
    ensures r.Success? <==>
      && UserByUsername(s.users, username).Some?
      && Truthy(s.users[UserByUsername(s.users, username).value].hashedPassword)
      && verify(password, s.users[UserByUsername(s.users, username).value].hashedPassword.value)
    ensures r.Success? ==>
      var u := s.users[UserByUsername(s.users, username).value];
      u.username == Some(username) && r.value == Claims(Some(IntToStr(u.id)), u.role)
  {
    match UserByUsername(s.users, username)
    case None => Failure(BadCredentials)
    case Some(i) =>
      var u := s.users[i];
      if !Truthy(u.hashedPassword) then Failure(BadCredentials)
      else if !verify(password, u.hashedPassword.value) then Failure(BadCredentials)
      else Success(Claims(Some(IntToStr(u.id)), u.role))
  }

  /** Under the store invariant a username names at most one user, so the row login reads is
      the one holding that username. */
  lemma UsernameUnique(s: Store, i: nat, name: string)
    requires UsersValid(s) && i < |s.users| && s.users[i].username == Some(name)
    ensures UserByUsername(s.users, name) == Some(i)
  {
    var k := UserByUsername(s.users, name).value;
    if k != i {
      assert Clash(s.users[k], s.users[i]);
    }
  }

  /** A user registered with a non-empty username and password can log in with that password,
      given a verifier that accepts a password against its own hash. */
  lemma RegisterThenLogin(s: Store, data: UserCreate, hash: string -> string, verify: (string, string) -> bool)
    requires Valid(s) && Register(s, data, hash).Success?
    requires Truthy(data.username) && Truthy(data.password)
    requires verify(data.password.value, hash(data.password.value))
    requires hash(data.password.value) != ""
    ensures var (s', u) := Register(s, data, hash).value;
      Login(s', data.username.value, data.password.value, verify) == Success(Claims(Some(IntToStr(u.id)), u.role))
  {
    var (s', u) := Register(s, data, hash).value;
    var row := User(0, data.telegramId, data.username, Some(data.fullName), data.email,
                    Some(hash(data.password.value)), Some(data.role));
    assert InsertUser(s, row).Success?;
    InsertUserKeepsValid(s, row);
    assert s'.users[|s.users|] == u;
    UsernameUnique(s', |s.users|, data.username.value);
  }
}
