/**
 * JwtService: the claim list an access token carries, the token around it,
 * and the validation the refresh flow applies to an expired token.
 *
 * A token is modelled by its content: the header algorithm, the claims, the
 * issuer, audience and expiry, and the key it was signed with. Signing and
 * the compact serialisation are not modelled, and a validated token yields
 * the claims it was built with; the registered iss, aud and exp claims the
 * handler also turns into claims are not modelled.
 */
module JwtService {
  import opened Wrappers
  import opened Text
  import opened Claims
  import opened RequirePermission
  import opened Identity

  /** .NET ticks (100 ns) in a minute: DateTime.AddMinutes. */
  const TicksPerMinute: int := 600_000_000

  /** SecurityAlgorithms.HmacSha256. */
  const HmacSha256: string := "HS256"

  /** The JwtSettings section of the configuration. */
  datatype JwtSettings = JwtSettings(secretKey: string, issuer: string, audience: string, expirationInMinutes: int)

  datatype Jwt = Jwt(alg: string, claims: seq<Claim>, issuer: string, audience: string, expires: int, signingKey: string)

  /** The string a client presents: either something that does not parse as a JWT, or a token. */
  datatype TokenText = Malformed | Encoded(jwt: Jwt)

  /** The four claims every token starts with. */
  function HeaderClaims(user: User, jti: string): seq<Claim> {
    [Claim(NameIdentifierType, user.id), Claim(EmailType, user.email.GetOr("")),
     Claim(NameType, user.userName.GetOr("")), Claim(JtiType, jti)]
  }

  /** The claims of a token issued for `user` with the given roles and permission names. */
  function TokenClaims(user: User, roles: seq<string>, permissions: seq<string>, jti: string): (r: seq<Claim>)
    ensures |r| == 4 + |roles| + |permissions|
    ensures r[0] == Claim(NameIdentifierType, user.id)
    ensures r[1] == Claim(EmailType, if user.email.Some? then user.email.value else "")
    ensures r[2] == Claim(NameType, if user.userName.Some? then user.userName.value else "")
    ensures r[3] == Claim(JtiType, jti)
    ensures forall i :: 0 <= i < |roles| ==> r[4 + i] == Claim(RoleType, roles[i])
    ensures forall j :: 0 <= j < |permissions| ==> r[4 + |roles| + j] == Claim(PermissionType, permissions[j])
  {
    HeaderClaims(user, jti) + ClaimsFor(RoleType, roles) + ClaimsFor(PermissionType, permissions)
  }

  /** The claims list of GenerateToken: the four fixed claims, then a Role claim per role, then a Permission claim per permission. */
  method GenerateClaims(user: User, roles: seq<string>, permissions: seq<string>, jti: string) returns (claims: seq<Claim>)
    ensures claims == TokenClaims(user, roles, permissions, jti)
  {
    claims := [Claim(NameIdentifierType, user.id), Claim(EmailType, user.email.GetOr("")),
               Claim(NameType, user.userName.GetOr("")), Claim(JtiType, jti)];
    var i := 0;
    while i < |roles|
      invariant 0 <= i <= |roles|
      invariant claims == HeaderClaims(user, jti) + ClaimsFor(RoleType, roles[..i])
    {
      ClaimsForAppend(RoleType, roles[..i], roles[i]);
      assert roles[..i + 1] == roles[..i] + [roles[i]];
      claims := claims + [Claim(RoleType, roles[i])];
      i := i + 1;
    }
    assert roles[..i] == roles;
    var j := 0;
    while j < |permissions|
      invariant 0 <= j <= |permissions|
      invariant claims == HeaderClaims(user, jti) + ClaimsFor(RoleType, roles) + ClaimsFor(PermissionType, permissions[..j])
    {
      ClaimsForAppend(PermissionType, permissions[..j], permissions[j]);
      assert permissions[..j + 1] == permissions[..j] + [permissions[j]];
      claims := claims + [Claim(PermissionType, permissions[j])];
      j := j + 1;
    }
    assert permissions[..j] == permissions;
  }

  lemma {:induction false} ClaimsForAppend(claimType: string, values: seq<string>, v: string)
    ensures ClaimsFor(claimType, values + [v]) == ClaimsFor(claimType, values) + [Claim(claimType, v)]
  {
  }

  /** GenerateToken: HS256, the configured issuer and audience, expiring the configured minutes after `now`. */
  method GenerateToken(settings: JwtSettings, user: User, roles: seq<string>, permissions: seq<string>, jti: string, now: int)
    returns (token: Jwt)
    ensures token.claims == TokenClaims(user, roles, permissions, jti)
    ensures token.alg == HmacSha256 && token.signingKey == settings.secretKey
    ensures token.issuer == settings.issuer && token.audience == settings.audience
    ensures token.expires == now + settings.expirationInMinutes * TicksPerMinute
  {
    var claims := GenerateClaims(user, roles, permissions, jti);
    token := Jwt(HmacSha256, claims, settings.issuer, settings.audience,
                 now + settings.expirationInMinutes * TicksPerMinute, settings.secretKey);
  }

  /** The principal the handler builds from a validated token: one authenticated identity with its claims. */
  function PrincipalOf(token: Jwt): Principal {
    Principal([ClaimsIdentity(true, token.claims)])
  }

  /**
   * GetPrincipalFromExpiredToken: the handler rejects what does not parse and
   * what is not signed with the configured key; lifetime, issuer and audience
   * are not checked. A validated token whose header algorithm is not HS256,
   * compared ignoring case, is then refused with "Invalid token".
   */
  function GetPrincipalFromExpiredToken(settings: JwtSettings, token: TokenText): (r: Result<Principal>)
    ensures token.Malformed? ==> r.Err? && r.error.SecurityToken?
    ensures token.Encoded? && token.jwt.signingKey != settings.secretKey ==> r.Err? && r.error.SecurityToken?
    ensures token.Encoded? && token.jwt.signingKey == settings.secretKey && !EqualsIgnoreCase(token.jwt.alg, HmacSha256)
            ==> r == Err(SecurityToken("Invalid token"))
    ensures r.Ok? <==> token.Encoded? && token.jwt.signingKey == settings.secretKey && EqualsIgnoreCase(token.jwt.alg, HmacSha256)
    ensures r.Ok? ==> r.value.IsAuthenticated() && r.value.AllClaims() == token.jwt.claims
  {
    match token
    case Malformed => Err(SecurityToken("TokenMalformed"))
    case Encoded(jwt) =>
      if jwt.signingKey != settings.secretKey then Err(SecurityToken("InvalidSignature"))
      else if !EqualsIgnoreCase(jwt.alg, HmacSha256) then Err(SecurityToken("Invalid token"))
      else
        SingleIdentityClaims(ClaimsIdentity(true, jwt.claims));
        Ok(PrincipalOf(jwt))
  }

  /** The refresh validation does not look at the expiry, the issuer or the audience. */
  lemma {:induction false} LifetimeIssuerAudienceIgnored(settings: JwtSettings, jwt: Jwt, issuer: string, audience: string, expires: int)
    ensures GetPrincipalFromExpiredToken(settings, Encoded(jwt.(issuer := issuer, audience := audience, expires := expires)))
         == GetPrincipalFromExpiredToken(settings, Encoded(jwt))
  {
  }

  /** A token this service issued passes the refresh validation, whenever it expired, and yields its claims. */
  lemma {:induction false} IssuedTokenValidates(settings: JwtSettings, user: User, roles: seq<string>, permissions: seq<string>, jti: string, expires: int)
    ensures var jwt := Jwt(HmacSha256, TokenClaims(user, roles, permissions, jti), settings.issuer, settings.audience, expires, settings.secretKey);
      GetPrincipalFromExpiredToken(settings, Encoded(jwt)) == Ok(PrincipalOf(jwt))
  {
  }

  lemma {:induction false} ValuesOfClaimsFor(claimType: string, values: seq<string>)
    ensures ValuesOf(ClaimsFor(claimType, values), claimType) == values
    decreases |values|
  {
    if values != [] {
      var cs := ClaimsFor(claimType, values);
      assert cs[1..] == ClaimsFor(claimType, values[1..]);
      assert OfType(cs[0], claimType);
      ValuesOfClaimsFor(claimType, values[1..]);
    }
  }

  /** No fixed claim and no Role claim has the Permission type. */
  lemma {:induction false} NoPermissionBeforePermissions(user: User, roles: seq<string>, jti: string)
    ensures ValuesOf(HeaderClaims(user, jti) + ClaimsFor(RoleType, roles), PermissionType) == []
  {
    var cs := HeaderClaims(user, jti) + ClaimsFor(RoleType, roles);
    forall i | 0 <= i < |cs| ensures !OfType(cs[i], PermissionType) {
      assert |Lower(cs[i].claimType)| == |cs[i].claimType| != |PermissionType| == |Lower(PermissionType)|;
    }
    ValuesOfNone(cs, PermissionType);
  }

  /** The Permission claims of an issued token are the permission names, in order and with repeats. */
  lemma {:induction false} TokenPermissions(user: User, roles: seq<string>, permissions: seq<string>, jti: string)
    ensures FindAll(Principal([ClaimsIdentity(true, TokenClaims(user, roles, permissions, jti))]), PermissionType) == permissions
  {
    var before := HeaderClaims(user, jti) + ClaimsFor(RoleType, roles);
    var cs := TokenClaims(user, roles, permissions, jti);
    assert cs == before + ClaimsFor(PermissionType, permissions);
    SingleIdentityClaims(ClaimsIdentity(true, cs));
    ValuesOfAppend(before, ClaimsFor(PermissionType, permissions), PermissionType);
    NoPermissionBeforePermissions(user, roles, jti);
    ValuesOfClaimsFor(PermissionType, permissions);
  }

  /**
   * End to end: a request carrying a token issued with permission names P
   * passes RequirePermission(p) exactly when p is in P.
   */
  lemma {:induction false} IssuedTokenAllows(settings: JwtSettings, user: User, roles: seq<string>, permissions: seq<string>, jti: string,
                          now: int, permissionName: string)
    ensures var jwt := Jwt(HmacSha256, TokenClaims(user, roles, permissions, jti), settings.issuer, settings.audience,
                           now + settings.expirationInMinutes * TicksPerMinute, settings.secretKey);
      Allows(PrincipalOf(jwt), permissionName) <==> permissionName in permissions
  {
    TokenPermissions(user, roles, permissions, jti);
  }
}
