/**
 * The ASP.NET Core Identity store behind UserRepository and RoleManager:
 * users, roles and the user-role memberships. Lookups by user name, email and
 * role name compare normalised (case-folded) values, as Identity's key
 * normaliser does; a lookup by id is exact. Passwords are kept as the secret
 * the password hasher verifies; hashing itself is not modelled.
 */
module Identity {
  import opened Wrappers
  import opened Text
  import opened Seqs

  /** The User entity: IdentityUser's Id, UserName and Email plus the application's own columns. */
  datatype User = User(id: string, userName: Option<string>, email: Option<string>,
                       firstName: Option<string>, lastName: Option<string>,
                       isActive: bool, language: string, createdAt: int, updatedAt: Option<int>, password: string)

  datatype Role = Role(id: string, name: string)

  /** Users and roles in insertion order; a membership is a (user id, role id) pair. */
  datatype Store = Store(users: seq<User>, roles: seq<Role>, memberships: seq<(string, string)>)

  predicate SameName(stored: Option<string>, wanted: string) {
    stored.Some? && Lower(stored.value) == Lower(wanted)
  }

  /** FindByIdAsync. */
  function FindById(s: Store, id: string): (r: Option<User>)
    ensures r.Some? ==> r.value in s.users && r.value.id == id
    ensures r.None? <==> forall i :: 0 <= i < |s.users| ==> s.users[i].id != id
  {
    First(s.users, (u: User) => u.id == id)
  }

  /** FindByNameAsync: the user whose normalised UserName is the normalised argument. */
  function FindByName(s: Store, userName: string): (r: Option<User>)
    ensures r.Some? ==> r.value in s.users && SameName(r.value.userName, userName)
    ensures r.None? <==> forall i :: 0 <= i < |s.users| ==> !SameName(s.users[i].userName, userName)
  {
    First(s.users, (u: User) => SameName(u.userName, userName))
  }

  /** FindByEmailAsync: the user whose normalised Email is the normalised argument. */
  function FindByEmail(s: Store, email: string): (r: Option<User>)
    ensures r.Some? ==> r.value in s.users && SameName(r.value.email, email)
    ensures r.None? <==> forall i :: 0 <= i < |s.users| ==> !SameName(s.users[i].email, email)
  {
    First(s.users, (u: User) => SameName(u.email, email))
  }

  /** GetByUsernameOrEmailAsync (UserRepository.cs): the user name is tried first, then the email. */
  function FindByUserNameOrEmail(s: Store, usernameOrEmail: string): Option<User> {
    var byName := FindByName(s, usernameOrEmail);
    if byName.Some? then byName else FindByEmail(s, usernameOrEmail)
  }

  /**
   * Login finds a user exactly when some user has the value as user name or
   * as email, and an email match is used only when no user name matches.
   */
  lemma {:induction false} FindByUserNameOrEmailSpec(s: Store, x: string)
    ensures FindByUserNameOrEmail(s, x).Some? <==>
      exists i :: 0 <= i < |s.users| && (SameName(s.users[i].userName, x) || SameName(s.users[i].email, x))
    ensures FindByUserNameOrEmail(s, x).Some? && !SameName(FindByUserNameOrEmail(s, x).value.userName, x) ==>
      SameName(FindByUserNameOrEmail(s, x).value.email, x)
      && forall i :: 0 <= i < |s.users| ==> !SameName(s.users[i].userName, x)
  {
  }

  /** RoleManager.FindByNameAsync. */
  function FindRoleByName(s: Store, name: string): (r: Option<Role>)
    ensures r.Some? ==> r.value in s.roles && Lower(r.value.name) == Lower(name)
    ensures r.None? <==> forall i :: 0 <= i < |s.roles| ==> Lower(s.roles[i].name) != Lower(name)
  {
    First(s.roles, (r: Role) => Lower(r.name) == Lower(name))
  }

  /** RoleExistsAsync. */
  predicate RoleExists(s: Store, name: string) { FindRoleByName(s, name).Some? }

  function RoleName(r: Role): string { r.name }

  /** GetRolesAsync: the names of the roles the user is a member of. */
  function RolesOf(s: Store, user: User): (r: seq<string>)
    ensures forall n :: n in r <==> exists j :: 0 <= j < |s.roles| && (user.id, s.roles[j].id) in s.memberships && s.roles[j].name == n
  {
    var member := (x: Role) => (user.id, x.id) in s.memberships;
    var rs := Filter(s.roles, member);
    FilterMembers(s.roles, member);
    forall n | exists j :: 0 <= j < |s.roles| && (user.id, s.roles[j].id) in s.memberships && s.roles[j].name == n
      ensures n in Map(rs, RoleName)
    {
      var j :| 0 <= j < |s.roles| && (user.id, s.roles[j].id) in s.memberships && s.roles[j].name == n;
      assert member(s.roles[j]);
      var k :| 0 <= k < |rs| && rs[k] == s.roles[j];
      assert Map(rs, RoleName)[k] == n;
    }
    Map(rs, RoleName)
  }

  /** CheckPasswordAsync: the password verifies against the user's stored secret. */
  predicate CheckPassword(user: User, password: string) { user.password == password }

  // ------------------------------------------------- the configured validators

  predicate IsDigit(c: char) { '0' <= c <= '9' }

  predicate IsLowerLetter(c: char) { 'a' <= c <= 'z' }

  /**
   * The password options: at least 6 characters with a digit, a lower-case
   * and an upper-case letter; no non-alphanumeric character is required.
   */
  predicate PasswordAccepted(p: string) {
    |p| >= 6
    && (exists i :: 0 <= i < |p| && IsDigit(p[i]))
    && (exists i :: 0 <= i < |p| && IsLowerLetter(p[i]))
    && (exists i :: 0 <= i < |p| && IsUpper(p[i]))
  }

  /** Identity's default AllowedUserNameCharacters. */
  const UserNameCharacters: string := "abcdefghijklmnopqrstuvwxyzABCDEFGHIJKLMNOPQRSTUVWXYZ0123456789-._@+"

  /** The user validator's name rule: non-empty, allowed characters only, and not taken. */
  predicate UserNameAccepted(s: Store, userName: Option<string>) {
    userName.Some? && userName.value != []
    && (forall i :: 0 <= i < |userName.value| ==> userName.value[i] in UserNameCharacters)
    && FindByName(s, userName.value).None?
  }

  /** An address with exactly one '@', neither first nor last (the email attribute's rule). */
  predicate EmailShaped(e: string) {
    exists i :: 0 < i < |e| - 1 && e[i] == '@' && forall j :: 0 <= j < |e| && j != i ==> e[j] != '@'
  }

  /** RequireUniqueEmail: a well-formed email no other user has. */
  predicate EmailAccepted(s: Store, email: Option<string>) {
    email.Some? && EmailShaped(email.value) && FindByEmail(s, email.value).None?
  }

  /** UserManager.CreateAsync succeeds: a fresh id, and every configured validator passes. */
  predicate CreateAccepted(s: Store, user: User, password: string) {
    FindById(s, user.id).None? && UserNameAccepted(s, user.userName) && EmailAccepted(s, user.email)
    && PasswordAccepted(password)
  }

  /** The users with the one whose id is `user.id` replaced by `user`. */
  function ReplacedUser(users: seq<User>, user: User): (r: seq<User>)
    ensures |r| == |users|
    ensures forall i :: 0 <= i < |users| ==> r[i] == if users[i].id == user.id then user else users[i]
  {
    Map(users, (u: User) => if u.id == user.id then user else u)
  }

  /**
   * The identity store as UserRepository and RoleManager change it: each
   * method is one UserManager or RoleManager call, which persists at once.
   */
  class IdentityStore {
    var store: Store

    constructor (s: Store)
      ensures store == s
    {
      store := s;
    }

    /** UserManager.CreateAsync(user, password): refused unless every validator passes. */
    method CreateAsync(user: User, password: string) returns (ok: bool)
      modifies this
      ensures ok <==> CreateAccepted(old(store), user, password)
      ensures store == if ok then old(store).(users := old(store).users + [user.(password := password)]) else old(store)
    {
      ok := CreateAccepted(store, user, password);
      if ok {
        store := store.(users := store.users + [user.(password := password)]);
      }
    }

    /**
     * RoleManager.CreateAsync(new IdentityRole(name)); the role's fresh Guid is
     * `id`. RoleValidator refuses a null, empty or whitespace-only name and a
     * name another role already has.
     */
    method CreateRoleAsync(name: string, id: string) returns (ok: bool)
      modifies this
      ensures ok <==> !IsNullOrWhiteSpace(Some(name)) && !RoleExists(old(store), name)
      ensures store == if ok then old(store).(roles := old(store).roles + [Role(id, name)]) else old(store)
    {
      ok := !IsNullOrWhiteSpace(Some(name)) && !RoleExists(store, name);
      if ok {
        store := store.(roles := store.roles + [Role(id, name)]);
      }
    }

    /** UserManager.AddToRoleAsync: refused for a missing role or an existing membership. */
    method AddToRoleAsync(user: User, roleName: string) returns (ok: bool)
      modifies this
      ensures var role := FindRoleByName(old(store), roleName);
        && (ok <==> role.Some? && (user.id, role.value.id) !in old(store).memberships)
        && store == if ok then old(store).(memberships := old(store).memberships + [(user.id, role.value.id)]) else old(store)
    {
      var role := FindRoleByName(store, roleName);
      ok := role.Some? && (user.id, role.value.id) !in store.memberships;
      if ok {
        store := store.(memberships := store.memberships + [(user.id, role.value.id)]);
      }
    }

    /** UserRepository.UpdateLanguageAsync: Language and UpdatedAt of the user are replaced. */
    method UpdateLanguageAsync(user: User, language: string, now: int)
      modifies this
      ensures store == old(store).(users := ReplacedUser(old(store).users, user.(language := language, updatedAt := Some(now))))
    {
      store := store.(users := ReplacedUser(store.users, user.(language := language, updatedAt := Some(now))));
    }
  }

  /** After a successful AddToRoleAsync the role's name is among the user's roles. */
  lemma {:induction false} AddedRoleIsListed(s: Store, user: User, roleName: string)
    requires FindRoleByName(s, roleName).Some?
    ensures var role := FindRoleByName(s, roleName).value;
      role.name in RolesOf(s.(memberships := s.memberships + [(user.id, role.id)]), user)
  {
    var role := FindRoleByName(s, roleName).value;
    var t := s.(memberships := s.memberships + [(user.id, role.id)]);
    var j :| 0 <= j < |s.roles| && s.roles[j] == role;
    assert (user.id, t.roles[j].id) in t.memberships;
  }

  /** Updating a user's language leaves every lookup of the store finding the same user ids. */
  lemma {:induction false} ReplacedUserKeepsIds(users: seq<User>, user: User, id: string)
    ensures (exists i :: 0 <= i < |users| && users[i].id == id) <==>
            (exists i :: 0 <= i < |ReplacedUser(users, user)| && ReplacedUser(users, user)[i].id == id)
  {
    var r := ReplacedUser(users, user);
    if exists i :: 0 <= i < |r| && r[i].id == id {
      var i :| 0 <= i < |r| && r[i].id == id;
      assert users[i].id == id;
    }
  }
}
