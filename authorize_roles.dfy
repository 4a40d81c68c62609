// The role check of the authorisation middleware: access is granted when one
// of the user's role names is among the allowed ones. The roles are read from
// the request the authentication middleware prepared.
module AuthorizeRoles {
  import opened Wrappers
  import AuthMiddleware

  /** `roles.some((role) => allowed.includes(role))`. */
  function AnyAllowed(roles: seq<string>, allowed: seq<string>): bool
    decreases |roles|
  {
    if roles == [] then false else roles[0] in allowed || AnyAllowed(roles[1..], allowed)
  }

  /** `req.roles || []`, then the check. */
  predicate HasRole(userRoles: Option<seq<string>>, allowed: seq<string>) {
    AnyAllowed(userRoles.GetOr([]), allowed)
  }

  /** Access is granted exactly when some role of the user is allowed. */
  lemma {:induction false} HasRoleIff(roles: seq<string>, allowed: seq<string>)
    ensures HasRole(Some(roles), allowed) <==> exists r :: r in roles && r in allowed
    decreases |roles|
  {
    if roles != [] {
      HasRoleIff(roles[1..], allowed);
      assert forall r :: r in roles <==> r == roles[0] || r in roles[1..];
    }
  }

  /** A user without roles is always refused. */
  lemma MissingRolesDenied(allowed: seq<string>)
    ensures !HasRole(None, allowed)
  {
  }

  /** With nothing allowed, nobody is let through. */
  lemma EmptyAllowedDenies(userRoles: Option<seq<string>>)
    ensures !HasRole(userRoles, [])
  {
    HasRoleIff(userRoles.GetOr([]), []);
  }

  /** Granting a user more roles never turns access into refusal. */
  lemma MoreRolesNeverDeny(roles: seq<string>, more: seq<string>, allowed: seq<string>)
    requires forall r :: r in roles ==> r in more
    requires HasRole(Some(roles), allowed)
    ensures HasRole(Some(more), allowed)
  {
    HasRoleIff(roles, allowed);
    HasRoleIff(more, allowed);
  }

  /** The motogp-results route allows its write on `roles.includes("Admin")`, which is this check
      with "Admin" as the only allowed role. */
  lemma AdminGate(userRoles: Option<seq<string>>)
    ensures HasRole(userRoles, ["Admin"]) <==> "Admin" in userRoles.GetOr([])
  {
    HasRoleIff(userRoles.GetOr([]), ["Admin"]);
  }

  /** As written, a request that passed authentication carries no roles, so every route behind
      a role check refuses it, whatever roles its token was signed with. */
  lemma AuthenticatedRequestsRefused(headers: map<string, string>,
                                     verify: string -> Option<AuthMiddleware.Claims>, allowed: seq<string>)
    requires AuthMiddleware.Authenticate(headers, verify).Success?
    ensures !HasRole(AuthMiddleware.Authenticate(headers, verify).value.roles, allowed)
  {
    MissingRolesDenied(allowed);
  }

  /** As written, the motogp-results route's write gate never opens for an authenticated
      request, even when the token names the "Admin" role. */
  lemma AdminWriteNeverOpens(headers: map<string, string>, verify: string -> Option<AuthMiddleware.Claims>)
    requires AuthMiddleware.Authenticate(headers, verify).Success?
    ensures "Admin" !in AuthMiddleware.Authenticate(headers, verify).value.roles.GetOr([])
  {
  }

  /** With the signed roles attached as intended, access is granted exactly when the token names
      an allowed role, and the write gate opens exactly for a token naming "Admin". */
  lemma IntendedRolesDecide(decoded: AuthMiddleware.Claims, allowed: seq<string>)
    ensures HasRole(AuthMiddleware.AttachIntended(decoded).roles, allowed) <==>
      exists r :: r in decoded.roles && r in allowed
    ensures HasRole(AuthMiddleware.AttachIntended(decoded).roles, ["Admin"]) <==> "Admin" in decoded.roles
  {
    HasRoleIff(decoded.roles, allowed);
    AdminGate(Some(decoded.roles));
  }
}
