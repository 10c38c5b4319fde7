/**
 * The roles guard, and the claims of the access token as they are signed
 * and as the token strategy turns them into the request's user.
 */
module Roles {
  import opened Results
  import opened Text
  import opened Js

  /** The request's user as the token strategy builds it. */
  datatype Principal = Principal(userId: JsValue, email: JsValue, roleId: JsValue)

  /**
   * `canActivate`: no roles metadata lets everyone in; a missing user or a
   * falsy `role_id` is refused; otherwise the roles must list the text of
   * `role_id`.
   */
  predicate RolesAllow(roles: Option<seq<string>>, user: Option<Principal>)
  {
    if roles.None? then true
    else if user.None? || !Truthy(user.value.roleId) then false
    else ToText(user.value.roleId) in roles.value
  }

  /** A route without roles metadata is open to every request, with or without a user. */
  lemma NoRolesAllowsAll(user: Option<Principal>)
    ensures RolesAllow(None, user)
  {
  }

  /**
   * With roles metadata, a user with a non-zero numeric role is let in
   * exactly when the roles list its decimal text; role 0, a missing role and
   * a missing user are refused even when the list names them.
   */
  lemma NumericRoleDecides(roles: seq<string>, userId: JsValue, email: JsValue, n: int)
    ensures n != 0 ==> (RolesAllow(Some(roles), Some(Principal(userId, email, JsNumber(n)))) <==> IntToString(n) in roles)
    ensures !RolesAllow(Some(roles), Some(Principal(userId, email, JsNumber(0))))
    ensures !RolesAllow(Some(roles), Some(Principal(userId, email, JsUndefined)))
    ensures !RolesAllow(Some(roles), None)
  {
  }

  /** Token claims by name; a name that is absent reads as undefined. */
  type Claims = map<string, JsValue>

  function Claim(c: Claims, name: string): JsValue
  {
    if name in c then c[name] else JsUndefined
  }

  /** The claims the access token is signed with: the role goes under 'role'. */
  function SignedClaims(userId: int, username: JsValue, roleId: int): (c: Claims)
    ensures "role_id" !in c
    ensures Claim(c, "role") == JsNumber(roleId) && Claim(c, "user_id") == JsNumber(userId)
  {
    map["user_id" := JsNumber(userId), "username" := username, "role" := JsNumber(roleId)]
  }

  /** The token strategy's `validate`: it reads 'user_id', 'email' and 'role_id'. */
  function Validate(c: Claims): Principal
  {
    Principal(Claim(c, "user_id"), Claim(c, "email"), Claim(c, "role_id"))
  }

  /**
   * The token is signed with 'role' but read through 'role_id', so every
   * user who comes in with a token has an undefined role and is refused by
   * every route that names roles, whatever their role.
   */
  lemma TokenUsersFailRoleChecks(userId: int, username: JsValue, roleId: int, roles: seq<string>)
    ensures Validate(SignedClaims(userId, username, roleId)).roleId == JsUndefined
    ensures !RolesAllow(Some(roles), Some(Validate(SignedClaims(userId, username, roleId))))
  {
  }

  /** The user id survives the round trip through the token. */
  lemma TokenKeepsUserId(userId: int, username: JsValue, roleId: int)
    ensures Validate(SignedClaims(userId, username, roleId)).userId == JsNumber(userId)
  {
  }
}
