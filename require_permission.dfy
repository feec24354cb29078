/**
 * RequirePermissionAttribute: an authorization filter that lets a request
 * through only when its authenticated principal carries a "Permission" claim
 * whose value is exactly the required permission name. An unauthenticated
 * request is answered 401 (UnauthorizedResult), an authenticated one without
 * the permission 403 (ForbidResult); an allowed request keeps no result.
 */
module RequirePermission {
  import opened Wrappers
  import opened Text
  import opened Claims

  datatype ActionResult = UnauthorizedResult | ForbidResult

  /** The permission names the principal's "Permission" claims grant. */
  function GrantedPermissions(user: Principal): seq<string> { FindAll(user, PermissionType) }

  /** The filter's verdict: the result it sets, or None when it lets the request through. */
  function Decide(user: Principal, permissionName: string): (r: Option<ActionResult>)
    ensures !user.IsAuthenticated() ==> r == Some(UnauthorizedResult)
    ensures user.IsAuthenticated() ==>
      (r.None? <==> exists c :: c in user.AllClaims() && OfType(c, PermissionType) && c.value == permissionName)
    ensures user.IsAuthenticated() && r.Some? ==> r == Some(ForbidResult)
  {
    if !user.IsAuthenticated() then Some(UnauthorizedResult)
    else if permissionName !in GrantedPermissions(user) then Some(ForbidResult)
    else None
  }

  predicate Allows(user: Principal, permissionName: string) { Decide(user, permissionName).None? }

  /** The part of AuthorizationFilterContext the filter reads and writes. */
  class AuthorizationFilterContext {
    const user: Principal
    var result: Option<ActionResult>

    constructor (user: Principal)
      ensures this.user == user && result.None?
    {
      this.user := user;
      result := None;
    }
  }

  /** The filter object, constructed with the required permission name. */
  class RequirePermissionAttribute {
    const permissionName: string

    constructor (permissionName: string)
      ensures this.permissionName == permissionName
    {
      this.permissionName := permissionName;
    }

    /** OnAuthorization: sets the context's result on refusal and leaves it alone on success. */
    method OnAuthorization(context: AuthorizationFilterContext)
      modifies context
      ensures context.result == if Allows(context.user, permissionName) then old(context.result)
                                else Decide(context.user, permissionName)
    {
      if !context.user.IsAuthenticated() {
        context.result := Some(UnauthorizedResult);
        return;
      }
      var permissions := FindAll(context.user, PermissionType);
      if permissionName !in permissions {
        context.result := Some(ForbidResult);
      }
    }
  }

  /** Adding claims never turns an allowed request into a refused one. */
  lemma {:induction false} MoreClaimsStillAllow(user: Principal, extra: seq<Claim>, permissionName: string)
    requires |user.identities| > 0 && Allows(user, permissionName)
    ensures Allows(user.WithClaims(extra), permissionName)
  {
    FindAllWithClaims(user, extra, PermissionType);
  }

  /** Claims of any other type, Role claims among them, never change the verdict. */
  lemma {:induction false} OtherClaimsIrrelevant(user: Principal, extra: seq<Claim>, permissionName: string)
    requires |user.identities| > 0
    requires forall i :: 0 <= i < |extra| ==> !OfType(extra[i], PermissionType)
    ensures Decide(user.WithClaims(extra), permissionName) == Decide(user, permissionName)
  {
    FindAllWithClaims(user, extra, PermissionType);
    ValuesOfNone(extra, PermissionType);
  }

  /** A Role claim never grants a permission, whatever its value. */
  lemma {:induction false} RoleClaimsNeverGrant(user: Principal, roles: seq<string>, permissionName: string)
    requires |user.identities| > 0
    ensures Decide(user.WithClaims(ClaimsFor(RoleType, roles)), permissionName) == Decide(user, permissionName)
  {
    var extra := ClaimsFor(RoleType, roles);
    assert |RoleType| != |PermissionType|;
    assert forall i :: 0 <= i < |extra| ==> extra[i].claimType == RoleType;
    OtherClaimsIrrelevant(user, extra, permissionName);
  }
}
