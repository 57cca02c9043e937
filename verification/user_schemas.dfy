/** The user request schemas: which fields registration takes and defaults, and which fields a
    profile update can carry at all. E-mail syntax (`EmailStr`) is not modelled. */
module UserSchemas {
  import opened Base

  /** The role a registration gets when it names none, and the role a chat user is given. */
  const DefaultRole: string := "user"

  /** A registration request as it arrives. A `None` full name is one left out or sent as null,
      which the required field refuses alike; the role distinguishes a field left out, which
      takes the default, from an explicit null, which the non-optional `str` refuses. */
  datatype UserCreateRequest = UserCreateRequest(
    username: Option<string>,
    fullName: Option<string>,
    email: Option<string>,
    role: Patch<Option<string>>,
    password: Option<string>,
    telegramId: Option<int>)

  /** A validated `UserCreate`: `full_name` and `role` are always present. */
  datatype UserCreate = UserCreate(
    username: Option<string>,
    fullName: string,
    email: Option<string>,
    role: string,
    password: Option<string>,
    telegramId: Option<int>)

  /** `UserCreate` validation: `full_name` is required, username, e-mail, password and chat id
      are optional, and the role, any string, defaults to `user` when left out. */
  function ValidateUserCreate(r: UserCreateRequest): (res: Result<UserCreate>)
    ensures res.Success? <==> r.fullName.Some? && r.role != Set(None)
    ensures res.Failure? ==> res.error == ValidationFailed
    ensures res.Success? ==>
      && res.value.fullName == r.fullName.value
      && res.value.role == (if r.role.Set? then r.role.value.value else DefaultRole)
      && res.value.username == r.username
      && res.value.email == r.email
      && res.value.password == r.password
      && res.value.telegramId == r.telegramId
  {
    match (r.fullName, r.role)
    case (None, _) => Failure(ValidationFailed)
    case (_, Set(None)) => Failure(ValidationFailed)
    case (Some(name), Unset) =>
      Success(UserCreate(r.username, name, r.email, DefaultRole, r.password, r.telegramId))
    case (Some(name), Set(Some(role))) =>
      Success(UserCreate(r.username, name, r.email, role, r.password, r.telegramId))
  }

  /** The request a client would send for a validated registration, every field written out. */
  function UserRequestOf(c: UserCreate): UserCreateRequest {
    UserCreateRequest(c.username, Some(c.fullName), c.email, Set(Some(c.role)), c.password, c.telegramId)
  }

  /** Validation gives back exactly the registration a request was written from, and a request
      that leaves the role out differs from it only in getting the role `user`. */
  lemma UserRequestRoundTrip(c: UserCreate)
    ensures ValidateUserCreate(UserRequestOf(c)) == Success(c)
    ensures ValidateUserCreate(UserRequestOf(c).(role := Unset)) == Success(c.(role := DefaultRole))
  {
  }

  /** A validated `UserUpdate`. It has no field for the username, the password or the chat id, so
      no update can reach them; each of its fields may be sent with an explicit null. */
  datatype UserUpdate = UserUpdate(
    fullName: Patch<Option<string>>,
    email: Patch<Option<string>>,
    role: Patch<Option<string>>)
}
