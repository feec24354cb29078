/**
 * AuthService: registration, login, token refresh, the current user and the
 * language preference. Register, login and refresh all answer with a token
 * built from the user's current roles and the permission names
 * GetUserPermissionsAsync resolves for them.
 *
 * The fresh Guids the code draws (the user's id, a new role's id, the
 * token's jti), the random refresh token and the clock are parameters.
 */
module AuthService {
  import opened Wrappers
  import opened Text
  import opened Entities
  import opened GenericRepository
  import opened Identity
  import opened Claims
  import opened RequirePermission
  import opened JwtService
  import PermissionService
  import PermissionRepository

  /** The fields of a registration the service reads. */
  datatype RegisterRequest = RegisterRequest(email: string, password: string, firstName: Option<string>,
                                             lastName: Option<string>, role: Option<string>)

  datatype LoginRequest = LoginRequest(usernameOrEmail: string, password: string)

  datatype RefreshTokenRequest = RefreshTokenRequest(token: TokenText, refreshToken: string)

  datatype AuthResponse = AuthResponse(token: Jwt, refreshToken: string, expiration: int, email: string, roles: seq<string>)

  datatype UserResponse = UserResponse(id: string, email: string, userName: Option<string>, firstName: Option<string>,
                                       lastName: Option<string>, roles: seq<string>, isActive: bool, createdAt: int)

  /** The response's Expiration is fixed at 60 minutes, whatever the token's configured lifetime. */
  const ResponseLifetimeMinutes: int := 60

  /** The mapping of a RegisterRequest to a User: the email is also the user name; active, Vietnamese, created now. */
  function NewUser(request: RegisterRequest, id: string, now: int): User {
    User(id, Some(request.email), Some(request.email), request.firstName, request.lastName, true, "vi", now, None, "")
  }

  /** The user as CreateAsync stores it, holding its password secret. */
  function StoredUser(request: RegisterRequest, id: string, now: int): User {
    NewUser(request, id, now).(password := request.password)
  }

  /** A null or empty Role means the "User" role. */
  function RoleNameOf(request: RegisterRequest): (r: string)
    ensures r != []
    ensures request.role.Some? && request.role.value != "" ==> r == request.role.value
  {
    if request.role.None? || request.role.value == "" then "User" else request.role.value
  }

  /**
   * The request's role can be joined: it exists already, or its name passes
   * RoleValidator (not whitespace only), so creating it succeeds.
   */
  predicate RoleAvailable(s: Store, request: RegisterRequest) {
    RoleExists(s, RoleNameOf(request)) || !IsNullOrWhiteSpace(Some(RoleNameOf(request)))
  }

  /** The store after the new user is created and, when missing, its role. */
  function WithUserAndRole(s: Store, request: RegisterRequest, userId: string, roleId: string, now: int): Store {
    WithRole(s.(users := s.users + [StoredUser(request, userId, now)]), request, roleId)
  }

  /** The store with the request's role created when it is missing. */
  function WithRole(s: Store, request: RegisterRequest, roleId: string): Store {
    if RoleExists(s, RoleNameOf(request)) then s else s.(roles := s.roles + [Role(roleId, RoleNameOf(request))])
  }

  /** What register, login and refresh answer for a user of the store. */
  function IssuedResponse(settings: JwtSettings, s: Store, permissions: Table<Permission>, links: Table<RolePermission>,
                          user: User, jti: string, refreshToken: string, now: int): AuthResponse
    requires user in s.users
  {
    var roles := RolesOf(s, user);
    var names := PermissionService.UserPermissionNames(s, permissions, links, FindById(s, user.id).value);
    AuthResponse(Jwt(HmacSha256, TokenClaims(user, roles, names, jti), settings.issuer, settings.audience,
                     now + settings.expirationInMinutes * TicksPerMinute, settings.secretKey),
                 refreshToken, now + ResponseLifetimeMinutes * TicksPerMinute, user.email.GetOr(""), roles)
  }

  /** GetRolesAsync, GetUserPermissionsAsync, GenerateToken and GenerateRefreshToken for a found user. */
  method IssueTokens(settings: JwtSettings, s: Store, permissions: Table<Permission>, links: Table<RolePermission>,
                     user: User, jti: string, refreshToken: string, now: int) returns (response: AuthResponse)
    requires user in s.users
    ensures response == IssuedResponse(settings, s, permissions, links, user, jti, refreshToken, now)
  {
    var roles := RolesOf(s, user);
    var names := PermissionService.GetUserPermissions(s, permissions, links, user.id);
    assert names.Ok?;
    var token := GenerateToken(settings, user, roles, names.value, jti, now);
    response := AuthResponse(token, refreshToken, now + ResponseLifetimeMinutes * TicksPerMinute, user.email.GetOr(""), roles);
  }

  /**
   * The issued token carries the user's roles as Role claims and it passes
   * RequirePermission(p) exactly when p is the name of an active permission
   * linked to one of the user's roles.
   */
  lemma {:induction false} IssuedResponseAllows(settings: JwtSettings, s: Store, permissions: Table<Permission>, links: Table<RolePermission>,
                             user: User, jti: string, refreshToken: string, now: int, name: string)
    requires FindById(s, user.id) == Some(user)
    ensures var response := IssuedResponse(settings, s, permissions, links, user, jti, refreshToken, now);
      && response.roles == RolesOf(s, user)
      && (Allows(PrincipalOf(response.token), name) <==>
          exists p :: p in permissions.All() && !p.isDeleted && p.data.name == name
            && PermissionRepository.LinkedToAny(links, PermissionService.ResolvedRoleIds(s, RolesOf(s, user)), p))
  {
    var names := PermissionService.UserPermissionNames(s, permissions, links, user);
    IssuedTokenAllows(settings, user, RolesOf(s, user), names, jti, now, name);
    PermissionService.UserPermissionNamesMembers(s, permissions, links, user, name);
  }

  /** The response's Expiration does not follow the token lifetime: it is always an hour after issue. */
  lemma {:induction false} ResponseExpirationFixed(settings: JwtSettings, s: Store, permissions: Table<Permission>, links: Table<RolePermission>,
                                user: User, jti: string, refreshToken: string, now: int)
    requires user in s.users
    ensures var response := IssuedResponse(settings, s, permissions, links, user, jti, refreshToken, now);
      response.expiration == now + 60 * TicksPerMinute
      && (response.token.expires == response.expiration <==> settings.expirationInMinutes == 60)
  {
  }

  /**
   * RegisterAsync. An email already in use is refused before anything is
   * created. Then the user is created (refused when a validator fails), its
   * role is created when missing (refused for a whitespace-only name), and
   * the user is added to it; the user is not removed when either of the last
   * two steps is refused.
   */
  method Register(settings: JwtSettings, identity: IdentityStore, permissions: Table<Permission>, links: Table<RolePermission>,
                  request: RegisterRequest, newUserId: string, newRoleId: string, jti: string, refreshToken: string, now: int)
    returns (r: Result<AuthResponse>)
    modifies identity
    ensures FindByEmail(old(identity.store), request.email).Some? ==>
      r == Err(InvalidOperation("UserAlreadyExists")) && identity.store == old(identity.store)
    ensures FindByEmail(old(identity.store), request.email).None? && !CreateAccepted(old(identity.store), NewUser(request, newUserId, now), request.password) ==>
      r == Err(InvalidOperation("CreateUserFailed")) && identity.store == old(identity.store)
    ensures FindByEmail(old(identity.store), request.email).None? && CreateAccepted(old(identity.store), NewUser(request, newUserId, now), request.password)
            && !RoleAvailable(old(identity.store), request) ==>
      r == Err(InvalidOperation("CreateRoleFailed"))
      && identity.store == old(identity.store).(users := old(identity.store).users + [StoredUser(request, newUserId, now)])
    ensures FindByEmail(old(identity.store), request.email).None? && CreateAccepted(old(identity.store), NewUser(request, newUserId, now), request.password)
            && RoleAvailable(old(identity.store), request) ==>
      var s1 := WithUserAndRole(old(identity.store), request, newUserId, newRoleId, now);
      var role := FindRoleByName(s1, RoleNameOf(request));
      && role.Some?
      && (r.Ok? <==> (newUserId, role.value.id) !in s1.memberships)
      && (r.Err? ==> r == Err(InvalidOperation("AddToRoleFailed")) && identity.store == s1)
      && (r.Ok? ==> && identity.store == s1.(memberships := s1.memberships + [(newUserId, role.value.id)])
                    && StoredUser(request, newUserId, now) in identity.store.users
                    && r.value == IssuedResponse(settings, identity.store, permissions, links,
                                                 StoredUser(request, newUserId, now), jti, refreshToken, now)
                    && role.value.name in r.value.roles)
  {
    var existing := FindByEmail(identity.store, request.email);
    if existing.Some? {
      return Err(InvalidOperation("UserAlreadyExists"));
    }
    var user := NewUser(request, newUserId, now);
    var created := identity.CreateAsync(user, request.password);
    if !created {
      return Err(InvalidOperation("CreateUserFailed"));
    }
    assert StoredUser(request, newUserId, now) == identity.store.users[|identity.store.users| - 1];
    r := JoinRole(settings, identity, permissions, links, request, newUserId, newRoleId, jti, refreshToken, now);
  }

  /**
   * The rest of RegisterAsync once the user exists: its role is created when
   * missing, then the user is added to it and answered with tokens. A
   * whitespace-only role name that no role has makes the creation throw.
   */
  method JoinRole(settings: JwtSettings, identity: IdentityStore, permissions: Table<Permission>, links: Table<RolePermission>,
                  request: RegisterRequest, newUserId: string, newRoleId: string, jti: string, refreshToken: string, now: int)
    returns (r: Result<AuthResponse>)
    requires StoredUser(request, newUserId, now) in identity.store.users
    modifies identity
    ensures !RoleAvailable(old(identity.store), request) ==>
      r == Err(InvalidOperation("CreateRoleFailed")) && identity.store == old(identity.store)
    ensures RoleAvailable(old(identity.store), request) ==>
      var s1 := WithRole(old(identity.store), request, newRoleId);
      var role := FindRoleByName(s1, RoleNameOf(request));
      && role.Some?
      && (r.Ok? <==> (newUserId, role.value.id) !in s1.memberships)
      && (r.Err? ==> r == Err(InvalidOperation("AddToRoleFailed")) && identity.store == s1)
      && (r.Ok? ==> && identity.store == s1.(memberships := s1.memberships + [(newUserId, role.value.id)])
                    && StoredUser(request, newUserId, now) in identity.store.users
                    && r.value == IssuedResponse(settings, identity.store, permissions, links,
                                                 StoredUser(request, newUserId, now), jti, refreshToken, now)
                    && role.value.name in r.value.roles)
  {
    var stored := StoredUser(request, newUserId, now);
    var roleName := if request.role.None? || request.role.value == "" then "User" else request.role.value;
    if !RoleExists(identity.store, roleName) {
      var roleCreated := identity.CreateRoleAsync(roleName, newRoleId);
      if !roleCreated {
        return Err(InvalidOperation("CreateRoleFailed"));
      }
    }
    ghost var s1 := identity.store;
    assert s1 == WithRole(old(identity.store), request, newRoleId);
    assert FindRoleByName(s1, roleName).Some? by {
      if !RoleExists(old(identity.store), roleName) {
        assert s1.roles[|s1.roles| - 1] == Role(newRoleId, roleName);
      }
    }
    var added := identity.AddToRoleAsync(stored, roleName);
    if !added {
      return Err(InvalidOperation("AddToRoleFailed"));
    }
    AddedRoleIsListed(s1, stored, roleName);
    var response := IssueTokens(settings, identity.store, permissions, links, stored, jti, refreshToken, now);
    r := Ok(response);
  }

  /**
   * LoginAsync: the user is looked up by user name, then by email. An unknown
   * user and a wrong password give the same LoginFailed; an inactive account
   * is reported before the password is checked.
   */
  method Login(settings: JwtSettings, s: Store, permissions: Table<Permission>, links: Table<RolePermission>,
               request: LoginRequest, jti: string, refreshToken: string, now: int) returns (r: Result<AuthResponse>)
    ensures FindByUserNameOrEmail(s, request.usernameOrEmail).None? ==> r == Err(Unauthorized("LoginFailed"))
    ensures var found := FindByUserNameOrEmail(s, request.usernameOrEmail);
      found.Some? && !found.value.isActive ==> r == Err(Unauthorized("UserAccountInactive"))
    ensures var found := FindByUserNameOrEmail(s, request.usernameOrEmail);
      found.Some? && found.value.isActive && !CheckPassword(found.value, request.password) ==> r == Err(Unauthorized("LoginFailed"))
    ensures var found := FindByUserNameOrEmail(s, request.usernameOrEmail);
      r.Ok? <==> found.Some? && found.value.isActive && CheckPassword(found.value, request.password)
    ensures r.Ok? ==> var user := FindByUserNameOrEmail(s, request.usernameOrEmail).value;
      user in s.users && r.value == IssuedResponse(settings, s, permissions, links, user, jti, refreshToken, now)
  {
    var user := FindByUserNameOrEmail(s, request.usernameOrEmail);
    if user.None? {
      return Err(Unauthorized("LoginFailed"));
    }
    if !user.value.isActive {
      return Err(Unauthorized("UserAccountInactive"));
    }
    if !CheckPassword(user.value, request.password) {
      return Err(Unauthorized("LoginFailed"));
    }
    var response := IssueTokens(settings, s, permissions, links, user.value, jti, refreshToken, now);
    r := Ok(response);
  }

  /**
   * What RefreshTokenAsync answers for a presented access token: the
   * validation error, InvalidToken without a user id claim, UserNotFound for
   * a missing or inactive user, or a fresh response for that user. The
   * request's refresh token is not an argument: the code never reads it.
   */
  function RefreshOutcome(settings: JwtSettings, s: Store, permissions: Table<Permission>, links: Table<RolePermission>,
                          token: TokenText, jti: string, refreshToken: string, now: int): (r: Result<AuthResponse>)
    ensures GetPrincipalFromExpiredToken(settings, token).Err? ==> r == Err(GetPrincipalFromExpiredToken(settings, token).error)
    ensures r.Ok? ==> exists u :: (u in s.users && u.isActive && u.id != "" &&
                                   r.value == IssuedResponse(settings, s, permissions, links, u, jti, refreshToken, now))
  {
    match GetPrincipalFromExpiredToken(settings, token)
    case Err(e) => Err(e)
    case Ok(principal) =>
      var userId := FindFirst(principal, NameIdentifierType);
      if IsNullOrEmpty(userId) then Err(Unauthorized("InvalidToken"))
      else
        var user := FindById(s, userId.value);
        if user.None? || !user.value.isActive then Err(Unauthorized("UserNotFound"))
        else Ok(IssuedResponse(settings, s, permissions, links, user.value, jti, refreshToken, now))
  }

  /** RefreshTokenAsync. */
  method Refresh(settings: JwtSettings, s: Store, permissions: Table<Permission>, links: Table<RolePermission>,
                 request: RefreshTokenRequest, jti: string, refreshToken: string, now: int) returns (r: Result<AuthResponse>)
    ensures r == RefreshOutcome(settings, s, permissions, links, request.token, jti, refreshToken, now)
  {
    var principal := GetPrincipalFromExpiredToken(settings, request.token);
    if principal.Err? {
      return Err(principal.error);
    }
    var userId := FindFirst(principal.value, NameIdentifierType);
    if userId.None? || userId.value == "" {
      return Err(Unauthorized("InvalidToken"));
    }
    var user := FindById(s, userId.value);
    if user.None? || !user.value.isActive {
      return Err(Unauthorized("UserNotFound"));
    }
    var response := IssueTokens(settings, s, permissions, links, user.value, jti, refreshToken, now);
    r := Ok(response);
  }

  /** The user id claim of an issued token is the first claim's value. */
  lemma {:induction false} IssuedTokenUserId(user: User, roles: seq<string>, names: seq<string>, jti: string)
    ensures FindFirst(Principal([ClaimsIdentity(true, TokenClaims(user, roles, names, jti))]), NameIdentifierType) == Some(user.id)
  {
    var cs := TokenClaims(user, roles, names, jti);
    SingleIdentityClaims(ClaimsIdentity(true, cs));
    assert OfType(cs[0], NameIdentifierType);
  }

  /**
   * Round trip: a token issued to an active user of the store refreshes,
   * after any time, into a fresh response for the same user.
   */
  lemma {:induction false} IssuedTokenRefreshes(settings: JwtSettings, s: Store, permissions: Table<Permission>, links: Table<RolePermission>,
                             user: User, jti: string, refreshToken: string, now: int,
                             jti': string, refreshToken': string, later: int)
    requires FindById(s, user.id) == Some(user) && user.isActive && user.id != ""
    ensures var issued := IssuedResponse(settings, s, permissions, links, user, jti, refreshToken, now);
      RefreshOutcome(settings, s, permissions, links, Encoded(issued.token), jti', refreshToken', later)
        == Ok(IssuedResponse(settings, s, permissions, links, user, jti', refreshToken', later))
  {
    var issued := IssuedResponse(settings, s, permissions, links, user, jti, refreshToken, now);
    var names := PermissionService.UserPermissionNames(s, permissions, links, user);
    var claims := TokenClaims(user, RolesOf(s, user), names, jti);
    assert issued.token == Jwt(HmacSha256, claims, settings.issuer, settings.audience,
                               now + settings.expirationInMinutes * TicksPerMinute, settings.secretKey);
    IssuedTokenValidates(settings, user, RolesOf(s, user), names, jti, now + settings.expirationInMinutes * TicksPerMinute);
    IssuedTokenUserId(user, RolesOf(s, user), names, jti);
    var principal := Principal([ClaimsIdentity(true, claims)]);
    assert GetPrincipalFromExpiredToken(settings, Encoded(issued.token)) == Ok(principal);
    assert FindFirst(principal, NameIdentifierType) == Some(user.id);
  }

  /** GetCurrentUserAsync: the user's profile, creation time and role names. */
  function GetCurrentUser(s: Store, userId: string): (r: Result<UserResponse>)
    ensures FindById(s, userId).None? <==> r == Err(KeyNotFound("UserNotFound"))
    ensures r.Ok? ==> var u := FindById(s, userId).value;
      && r.value.id == userId && r.value.email == u.email.GetOr("") && r.value.userName == u.userName
      && r.value.firstName == u.firstName && r.value.lastName == u.lastName
      && r.value.isActive == u.isActive && r.value.createdAt == u.createdAt
      && forall n :: n in r.value.roles <==>
           exists j :: 0 <= j < |s.roles| && (userId, s.roles[j].id) in s.memberships && s.roles[j].name == n
  {
    match FindById(s, userId)
    case None => Err(KeyNotFound("UserNotFound"))
    case Some(u) => Ok(UserResponse(u.id, u.email.GetOr(""), u.userName, u.firstName, u.lastName, RolesOf(s, u), u.isActive, u.createdAt))
  }

  /** UpdateLanguageAsync: any code is stored as given, with no check that it names a language. */
  method UpdateLanguage(identity: IdentityStore, userId: string, language: string, now: int) returns (r: Result<string>)
    modifies identity
    ensures FindById(old(identity.store), userId).None? ==>
      r == Err(KeyNotFound("UserNotFound")) && identity.store == old(identity.store)
    ensures FindById(old(identity.store), userId).Some? ==>
      var u := FindById(old(identity.store), userId).value;
      && r == Ok(language)
      && identity.store == old(identity.store).(users := ReplacedUser(old(identity.store).users,
                                                                       u.(language := language, updatedAt := Some(now))))
  {
    var user := FindById(identity.store, userId);
    if user.None? {
      return Err(KeyNotFound("UserNotFound"));
    }
    identity.UpdateLanguageAsync(user.value, language, now);
    r := Ok(language);
  }

  /** After the update, the user is found with the new language and stamp, and nothing else of it changed. */
  lemma {:induction false} UpdatedLanguageIsStored(s: Store, userId: string, language: string, now: int)
    requires FindById(s, userId).Some?
    ensures var u := FindById(s, userId).value;
      FindById(s.(users := ReplacedUser(s.users, u.(language := language, updatedAt := Some(now)))), userId)
        == Some(u.(language := language, updatedAt := Some(now)))
  {
    var u := FindById(s, userId).value;
    var v := u.(language := language, updatedAt := Some(now));
    var t := s.(users := ReplacedUser(s.users, v));
    var k :| 0 <= k < |s.users| && s.users[k] == u;
    assert t.users[k] == v;
    var found := FindById(t, userId);
    var j :| 0 <= j < |t.users| && t.users[j] == found.value;
    assert s.users[j].id == userId;
  }
}
