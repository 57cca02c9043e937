/** The user handlers: resolving the caller from a token's claims, listing and reading users,
    and the profile update. Pagination of the list is not modelled. */
module UsersApi {
  import opened Base
  import opened PyText
  import opened Models
  import opened UserSchemas
  import opened AuthApi

  /** `get_current_user`: no decodable payload, or a payload whose `sub` is missing or empty,
      is Unauthenticated; a `sub` that is not an integer raises; an id that names no user is
      NotFound. */
  function CurrentUser(s: Store, payload: Option<Claims>): (r: Result<User>)
    ensures payload.None? ==> r == Failure(Unauthenticated)
    ensures payload.Some? && !Truthy(payload.value.sub) ==> r == Failure(Unauthenticated)
    ensures payload.Some? && Truthy(payload.value.sub) ==>
      var p := ParseInt(payload.value.sub.value);
      && (p.Failure? ==> r == Failure(InvalidInteger))
      && (p.Success? ==> (r == Failure(NotFound) <==> UserIndex(s.users, p.value).None?))
    ensures r.Success? ==>
      && r.value in s.users
      && ParseInt(payload.value.sub.value) == Success(r.value.id as int)
  {
    match payload
    case None => Failure(Unauthenticated)
    case Some(claims) =>
      if !Truthy(claims.sub) then Failure(Unauthenticated)
      else
        var id :- ParseInt(claims.sub.value);
        match UserIndex(s.users, id)
        case None => Failure(NotFound)
        case Some(i) => Success(s.users[i])
  }

  /** Under the store invariant an id names at most one user. */
  lemma UserIdUnique(s: Store, i: nat)
    requires UsersValid(s) && i < |s.users|
    ensures UserIndex(s.users, s.users[i].id) == Some(i)
  {
  }

  /** A token issued at login resolves back to the user who logged in. */
  lemma LoginThenCurrentUser(s: Store, username: string, password: string, verify: (string, string) -> bool)
    requires UsersValid(s) && Login(s, username, password, verify).Success?
    ensures CurrentUser(s, Some(Login(s, username, password, verify).value))
         == Success(s.users[UserByUsername(s.users, username).value])
  {
    var i := UserByUsername(s.users, username).value;
    ParseIntRoundTrip(s.users[i].id);
    UserIdUnique(s, i);
  }

  /** `get_users`: engineers and admins see every user; any other role, or none, is Forbidden. */
  function ListUsers(s: Store, caller: User): (r: Result<seq<User>>)
    ensures r.Success? <==> IsStaff(caller.role)
    ensures r.Failure? ==> r.error == Forbidden
    ensures r.Success? ==> forall u :: u in r.value <==> u in s.users
  {
    if !IsStaff(caller.role) then Failure(Forbidden) else Success(s.users)
  }

  /** `get_user`: any authenticated caller may read any user; an absent id is NotFound. */
  function GetUser(s: Store, userId: int): (r: Result<User>)
    ensures r.Failure? <==> forall u :: u in s.users ==> u.id != userId
    ensures r.Failure? ==> r.error == NotFound
    ensures r.Success? ==> r.value in s.users && r.value.id == userId
  {
    match UserIndex(s.users, userId)
    case None => Failure(NotFound)
    case Some(i) => Success(s.users[i])
  }

  /** Every user the list shows opens on its own. */
  lemma ListedUserIsViewable(s: Store, caller: User, u: User)
    requires UsersValid(s) && ListUsers(s, caller).Success? && u in ListUsers(s, caller).value
    ensures GetUser(s, u.id) == Success(u)
  {
    var k :| 0 <= k < |s.users| && s.users[k] == u;
    UserIdUnique(s, k);
  }

  /** `setattr` for every field the update carries: a field sent, even as null, takes the sent
      value and a field left out keeps its own; the id, username, password hash and chat id are
      out of the update's reach. */
  function ApplyUserPatch(u: User, p: UserUpdate): (u': User)
    ensures p.fullName.Set? ==> u'.fullName == p.fullName.value
    ensures p.fullName.Unset? ==> u'.fullName == u.fullName
    ensures p.email.Set? ==> u'.email == p.email.value
    ensures p.email.Unset? ==> u'.email == u.email
    ensures p.role.Set? ==> u'.role == p.role.value
    ensures p.role.Unset? ==> u'.role == u.role
    ensures u'.id == u.id && u'.username == u.username && u'.hashedPassword == u.hashedPassword
    ensures u'.telegramId == u.telegramId
  {
    var u1 := if p.fullName.Set? then u.(fullName := p.fullName.value) else u;
    var u2 := if p.email.Set? then u1.(email := p.email.value) else u1;
    if p.role.Set? then u2.(role := p.role.value) else u2
  }

  /** Applying the same update twice is applying it once. */
  lemma PatchIdempotent(u: User, p: UserUpdate)
    ensures ApplyUserPatch(ApplyUserPatch(u, p), p) == ApplyUserPatch(u, p)
  {
  }

  /** An update that carries no field leaves the user as it is. */
  lemma EmptyPatchIdentity(u: User)
    ensures ApplyUserPatch(u, UserUpdate(Unset, Unset, Unset)) == u
  {
  }

  /** `update_user`: a caller other than the target who is not an admin is Forbidden before the
      target is looked up; an absent target is NotFound; otherwise the patch is applied and
      committed, which a clashing e-mail makes fail. */
  function UpdateUser(s: Store, caller: User, userId: int, p: UserUpdate): (r: Result<(Store, User)>)
    ensures caller.id != userId && caller.role != Some(RoleAdmin) ==> r == Failure(Forbidden)
    ensures (caller.id == userId || caller.role == Some(RoleAdmin)) && UserIndex(s.users, userId).None? ==>
      r == Failure(NotFound)
    ensures (caller.id == userId || caller.role == Some(RoleAdmin)) && UserIndex(s.users, userId).Some? ==>
      var i := UserIndex(s.users, userId).value;
      (r == Failure(IntegrityViolation) <==> ClashesWithAny(s.users, ApplyUserPatch(s.users[i], p), i))
    ensures r.Failure? ==> r.error in {Forbidden, NotFound, IntegrityViolation}
    ensures r.Success? ==>
      var i := UserIndex(s.users, userId).value;
      var (s', u') := r.value;
      && u' == ApplyUserPatch(s.users[i], p)
      && s' == s.(users := s.users[i := u'])
  {
    if caller.id != userId && caller.role != Some(RoleAdmin) then Failure(Forbidden)
    else
      match UserIndex(s.users, userId)
      case None => Failure(NotFound)
      case Some(i) =>
        var u' := ApplyUserPatch(s.users[i], p);
        var s' :- ReplaceUser(s, i, u');
        Success((s', u'))
  }

  /** Only the caller's own record or an admin's call gets past the guard. */
  lemma UpdateNeedsSelfOrAdmin(s: Store, caller: User, userId: int, p: UserUpdate)
    requires UpdateUser(s, caller, userId, p).Success?
    ensures caller.id == userId || caller.role == Some(RoleAdmin)
  {
  }

  /** A profile update keeps the user invariants. */
  lemma UpdateUserKeepsValid(s: Store, caller: User, userId: int, p: UserUpdate)
    requires Valid(s) && UpdateUser(s, caller, userId, p).Success?
    ensures Valid(UpdateUser(s, caller, userId, p).value.0)
  {
    var i := UserIndex(s.users, userId).value;
    ReplaceUserKeepsValid(s, i, ApplyUserPatch(s.users[i], p));
  }

  /** A user whose role is `user` may make itself an admin: the guard compares ids, not roles,
      and a role change touches no unique column. After it, the user list opens to it. */
  lemma SelfPromotion(s: Store, caller: User)
    requires Valid(s) && caller in s.users
    ensures var p := UserUpdate(Unset, Unset, Set(Some(RoleAdmin)));
      var r := UpdateUser(s, caller, caller.id, p);
      && r.Success?
      && r.value.1.role == Some(RoleAdmin)
      && ListUsers(r.value.0, r.value.1).Success?
  {
    var p := UserUpdate(Unset, Unset, Set(Some(RoleAdmin)));
    var k :| 0 <= k < |s.users| && s.users[k] == caller;
    UserIdUnique(s, k);
    var u' := ApplyUserPatch(caller, p);
    forall j | 0 <= j < |s.users| && j != k ensures !Clash(u', s.users[j]) {
      assert !Clash(s.users[k], s.users[j]);
    }
  }
}
