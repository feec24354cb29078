/**
 * Claims-based identity as System.Security.Claims presents it: a principal
 * holds identities, each identity holds (type, value) claims and says whether
 * it was authenticated. Claim types are compared ignoring case, claim values
 * exactly.
 */
module Claims {
  import opened Wrappers
  import opened Text

  /** The ClaimTypes constants the core uses, and the JWT "jti" name. */
  const NameIdentifierType: string := "http://schemas.xmlsoap.org/ws/2005/05/identity/claims/nameidentifier"
  const EmailType: string := "http://schemas.xmlsoap.org/ws/2005/05/identity/claims/emailaddress"
  const NameType: string := "http://schemas.xmlsoap.org/ws/2005/05/identity/claims/name"
  const RoleType: string := "http://schemas.microsoft.com/ws/2008/06/identity/claims/role"
  const JtiType: string := "jti"
  /** The application's own claim type for a granted permission name. */
  const PermissionType: string := "Permission"

  datatype Claim = Claim(claimType: string, value: string)

  /** A ClaimsIdentity; it is authenticated when it carries an authentication type. */
  datatype ClaimsIdentity = ClaimsIdentity(isAuthenticated: bool, claims: seq<Claim>)

  /** A ClaimsPrincipal; `Identity` is its first identity. */
  datatype Principal = Principal(identities: seq<ClaimsIdentity>) {

    /** `user.Identity?.IsAuthenticated == true`: a principal without identity is not authenticated. */
    predicate IsAuthenticated() {
      |identities| > 0 && identities[0].isAuthenticated
    }

    /** Every claim of every identity, in order. */
    function AllClaims(): seq<Claim> { ClaimsOf(identities) }

    /** The principal with extra claims added to its first identity. */
    function WithClaims(extra: seq<Claim>): Principal
      requires |identities| > 0
    {
      var first := identities[0];
      Principal([first.(claims := first.claims + extra)] + identities[1..])
    }
  }

  function ClaimsOf(ids: seq<ClaimsIdentity>): (r: seq<Claim>)
    ensures forall c :: c in r <==> exists i :: 0 <= i < |ids| && c in ids[i].claims
  {
    if ids == [] then []
    else
      var rest := ClaimsOf(ids[1..]);
      assert forall i :: 1 <= i < |ids| ==> ids[i] == ids[1..][i - 1];
      ids[0].claims + rest
  }

  predicate OfType(c: Claim, claimType: string) { EqualsIgnoreCase(c.claimType, claimType) }

  /** The values of the given claims whose type is `claimType`, in order. */
  function ValuesOf(cs: seq<Claim>, claimType: string): (r: seq<string>)
    ensures |r| <= |cs|
    ensures forall v :: v in r <==> exists i :: 0 <= i < |cs| && OfType(cs[i], claimType) && cs[i].value == v
  {
    if cs == [] then []
    else
      var rest := ValuesOf(cs[1..], claimType);
      assert forall i :: 1 <= i < |cs| ==> cs[i] == cs[1..][i - 1];
      (if OfType(cs[0], claimType) then [cs[0].value] else []) + rest
  }

  /** `FindAll(type).Select(c => c.Value)`: the values of all its claims of that type. */
  function FindAll(p: Principal, claimType: string): (r: seq<string>)
    ensures forall v :: v in r <==> exists c :: c in p.AllClaims() && OfType(c, claimType) && c.value == v
  {
    ValuesOf(p.AllClaims(), claimType)
  }

  /** `FindFirst(type)?.Value`: the value of the first claim of that type, if any. */
  function FindFirst(p: Principal, claimType: string): (r: Option<string>)
    ensures r.Some? <==> exists c :: c in p.AllClaims() && OfType(c, claimType)
    ensures r.Some? ==> r.value in FindAll(p, claimType)
  {
    var vs := FindAll(p, claimType);
    if vs == [] then
      assert forall c :: c in p.AllClaims() && OfType(c, claimType) ==> c.value in vs;
      None
    else
      assert vs[0] in vs;
      Some(vs[0])
  }

  /** Values of a concatenation are the values of the parts, concatenated. */
  lemma {:induction false} ValuesOfAppend(a: seq<Claim>, b: seq<Claim>, claimType: string)
    ensures ValuesOf(a + b, claimType) == ValuesOf(a, claimType) + ValuesOf(b, claimType)
    decreases |a|
  {
    if a == [] {
      assert a + b == b;
    } else {
      assert (a + b)[0] == a[0];
      assert (a + b)[1..] == a[1..] + b;
      ValuesOfAppend(a[1..], b, claimType);
      var head := if OfType(a[0], claimType) then [a[0].value] else [];
      assert ValuesOf(a + b, claimType) == head + ValuesOf(a[1..] + b, claimType);
      assert ValuesOf(a, claimType) == head + ValuesOf(a[1..], claimType);
    }
  }

  /** One claim of the given type per value, in order. */
  function ClaimsFor(claimType: string, values: seq<string>): (r: seq<Claim>)
    ensures |r| == |values| && forall i :: 0 <= i < |values| ==> r[i] == Claim(claimType, values[i])
  {
    if values == [] then [] else [Claim(claimType, values[0])] + ClaimsFor(claimType, values[1..])
  }

  lemma {:induction false} ValuesOfNone(cs: seq<Claim>, claimType: string)
    requires forall i :: 0 <= i < |cs| ==> !OfType(cs[i], claimType)
    ensures ValuesOf(cs, claimType) == []
  {
    if cs != [] {
      ValuesOfNone(cs[1..], claimType);
    }
  }

  /** The claims of a principal with extra claims are its own and the extra ones. */
  lemma {:induction false} AllClaimsWithClaims(p: Principal, extra: seq<Claim>)
    requires |p.identities| > 0
    ensures forall c :: c in p.WithClaims(extra).AllClaims() <==> c in p.AllClaims() || c in extra
  {
    var ids := p.WithClaims(extra).identities;
    forall c | c in p.AllClaims() ensures c in p.WithClaims(extra).AllClaims() {
      var i :| 0 <= i < |p.identities| && c in p.identities[i].claims;
      if i == 0 {
        assert c in ids[0].claims;
      } else {
        assert ids[i] == p.identities[i];
      }
    }
    forall c | c in extra ensures c in p.WithClaims(extra).AllClaims() {
      assert c in ids[0].claims;
    }
    forall c | c in p.WithClaims(extra).AllClaims() ensures c in p.AllClaims() || c in extra {
      var i :| 0 <= i < |ids| && c in ids[i].claims;
      if i == 0 {
        assert c in p.identities[0].claims || c in extra;
      } else {
        assert ids[i] == p.identities[i];
      }
    }
  }

  /** FindAll on the extended principal finds the old values and those of the extra claims. */
  lemma {:induction false} FindAllWithClaims(p: Principal, extra: seq<Claim>, claimType: string)
    requires |p.identities| > 0
    ensures forall v :: v in FindAll(p.WithClaims(extra), claimType) <==> v in FindAll(p, claimType) || v in ValuesOf(extra, claimType)
  {
    AllClaimsWithClaims(p, extra);
    forall v | v in ValuesOf(extra, claimType) ensures v in FindAll(p.WithClaims(extra), claimType) {
      var i :| 0 <= i < |extra| && OfType(extra[i], claimType) && extra[i].value == v;
      assert extra[i] in p.WithClaims(extra).AllClaims();
    }
    forall v | v in FindAll(p.WithClaims(extra), claimType) ensures v in FindAll(p, claimType) || v in ValuesOf(extra, claimType) {
      var c :| c in p.WithClaims(extra).AllClaims() && OfType(c, claimType) && c.value == v;
      if c in extra {
        var i :| 0 <= i < |extra| && extra[i] == c;
      }
    }
  }

  /** A principal with one identity has exactly that identity's claims. */
  lemma {:induction false} SingleIdentityClaims(identity: ClaimsIdentity)
    ensures Principal([identity]).AllClaims() == identity.claims
  {
    var ids := [identity];
    assert ids[1..] == [];
    assert ClaimsOf(ids[1..]) == [];
    assert ClaimsOf(ids) == ids[0].claims + ClaimsOf(ids[1..]);
    assert identity.claims + [] == identity.claims;
  }
}
