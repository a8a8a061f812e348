/**
 * The values the account service works on (users, roles, identities, errors)
 * and the pure rules it applies to them: how requested role names resolve,
 * how the id-based role edit changes a role set, and how token fields are
 * read and overwritten.
 */
module AccountModel {
  import opened Wrappers
  import opened Usernames

  /** A constant of the RoleName enumeration, by its name. */
  type RoleName = string

  const ROLE_USER: RoleName := "ROLE_USER"

  /** A role of the role store; roles are reference data, unique by name. */
  datatype Role = Role(id: nat, name: RoleName)

  /**
   * A user of the user store. Roles are kept by name (a role is unique by its
   * name); a token is None while it is still the Java `null` of a new user.
   */
  datatype User = User(
    id: nat,
    username: string,
    roles: set<RoleName>,
    accessToken: Option<string>,
    refreshToken: Option<string>)

  /** The verified identity the external token exchange returns. */
  datatype Identity = Identity(id: string)

  /** UserLoginDTO: the identity paired with the local user. */
  datatype LoginResult = LoginResult(identity: Identity, user: User)

  /** What a NOT_FOUND error is about. */
  datatype Subject = UserNamed(username: string) | RoleNamed(role: RoleName)

  /** The exceptions the service raises, by kind. */
  datatype Error =
    | BadLogin(problem: LoginProblem)
    | BadRequest
    | UserAlreadyExists
    | UserNotFound
    | NotFound(subject: Subject)
      /** ROLE_NOT_EXISTS with the names its message lists (none when it carries no detail). */
    | RoleNotExists(listed: seq<string>)
      /** RoleName.valueOf refused a string that names no constant of the enumeration. */
    | IllegalRoleName(name: string)
      /** Long.parseLong refused the identity id. */
    | NumberFormat(text: string)
      /** token.substring(0, 20) on a token shorter than 20 characters. */
    | TokenTooShort
      /** Set.of given the same role twice. */
    | DuplicateRole
      /** Roles.greaterPermission refused the operation. */
    | PermissionDenied
      /** The external token exchange refused the token. */
    | TokenRejected

  /** A user as the store saves it: the identity it assigns, the name and roles given, no tokens yet. */
  function NewUser(id: nat, username: string, roles: set<RoleName>): User {
    User(id, username, roles, None, None)
  }

  /**
   * The user store's consistency: every user is filed under its own name, has
   * an identity below the next one to be assigned, holds only roles of the
   * role store, and no two users share an identity.
   */
  ghost predicate StoreInvariant(users: map<string, User>, nextId: nat, roleStore: set<RoleName>) {
    && (forall name :: name in users ==>
          users[name].username == name && users[name].id < nextId && users[name].roles <= roleStore)
    && (forall a, b :: a in users && b in users && users[a].id == users[b].id ==> a == b)
  }

  /** A list naming each element of a set exactly once, in some order. */
  ghost predicate ListsExactly(list: seq<string>, elements: set<string>) {
    && (forall i, j :: 0 <= i < j < |list| ==> list[i] != list[j])
    && (forall x :: x in list <==> x in elements)
  }

  /** A null role collection counts as an empty one. */
  function RolesOrEmpty(roles: Option<set<string>>): (r: set<string>)
    ensures forall x :: x in r <==> roles.Some? && x in roles.value
  {
    if roles.None? then {} else roles.value
  }

  /**
   * addUser's stream over the requested names: each passes RoleName.valueOf
   * (the first that names no constant raises), is looked up in the role store,
   * and is dropped when the store lacks it.
   */
  function ResolveExisting(names: seq<string>, roleNames: set<string>, roleStore: set<RoleName>)
    : (r: Result<set<RoleName>, Error>)
    ensures r.Success? <==> forall i :: 0 <= i < |names| ==> names[i] in roleNames
    ensures r.Success? ==> r.value == (set n | n in names && n in roleStore)
    ensures r.Failure? ==>
      exists i :: 0 <= i < |names| && r.error == IllegalRoleName(names[i]) && names[i] !in roleNames
                  && forall j :: 0 <= j < i ==> names[j] in roleNames
  {
    if names == [] then Success({})
    else if names[0] !in roleNames then Failure(IllegalRoleName(names[0]))
    else
      var rest := ResolveExisting(names[1..], roleNames, roleStore);
      assert forall i :: 0 < i < |names| ==> names[i] == names[1..][i - 1];
      if rest.Failure? then rest
      else Success(if names[0] in roleStore then {names[0]} + rest.value else rest.value)
  }

  /**
   * The role set after addRoleToUser(id, addRole, removeRole): addRole joins
   * when it is given, user-tier and stored; then removeRole leaves when it is
   * given and -- as written -- when addRole is user-tier. `userTier` is the
   * answer of Roles.isUserRole(addRole). Where the source adds the null that
   * the role store answers for an unstored addRole, this adds nothing.
   */
  function ReassignRoles(
    roles: set<RoleName>, addRole: Option<RoleName>, removeRole: Option<RoleName>,
    userTier: bool, roleStore: set<RoleName>): (r: set<RoleName>)
    ensures r - roles <= (if addRole.Some? && addRole.value in roleStore then {addRole.value} else {})
    ensures roles - r <= (if removeRole.Some? then {removeRole.value} else {})
  {
    var added := if addRole.Some? && userTier && addRole.value in roleStore then roles + {addRole.value} else roles;
    if removeRole.Some? && userTier then added - {removeRole.value} else added
  }

  /** addRoleToUser(name, role) on the user itself: the role joins, the access token becomes "". */
  function GrantRole(u: User, role: RoleName): (g: User)
    ensures role in g.roles && g.roles - u.roles <= {role} && u.roles <= g.roles
    ensures g.id == u.id && g.username == u.username && g.refreshToken == u.refreshToken
    ensures g.accessToken == Some("")
  {
    u.(roles := u.roles + {role}, accessToken := Some(""))
  }

  /** getAccessToken: the user's access token, or USER_NOT_FOUND. */
  function AccessTokenOf(users: map<string, User>, username: string): (r: Result<Option<string>, Error>)
    ensures r.Success? <==> username in users
    ensures r.Failure? ==> r.error == UserNotFound
    ensures r.Success? ==> r.value == users[username].accessToken
  {
    if username in users then Success(users[username].accessToken) else Failure(UserNotFound)
  }

  /** getRefreshToken: the user's refresh token, or USER_NOT_FOUND. */
  function RefreshTokenOf(users: map<string, User>, username: string): (r: Result<Option<string>, Error>)
    ensures r.Success? <==> username in users
    ensures r.Failure? ==> r.error == UserNotFound
    ensures r.Success? ==> r.value == users[username].refreshToken
  {
    if username in users then Success(users[username].refreshToken) else Failure(UserNotFound)
  }

  /** The store after updateAccessToken; unchanged when the user is absent. */
  function WithAccessToken(users: map<string, User>, username: string, token: Option<string>)
    : (w: map<string, User>)
    ensures w.Keys == users.Keys
    ensures forall n :: n in w && n != username ==> w[n] == users[n]
    ensures username in users ==>
              w[username].accessToken == token && w[username].(accessToken := users[username].accessToken) == users[username]
  {
    if username in users then users[username := users[username].(accessToken := token)] else users
  }

  /** The store after updateRefreshToken; unchanged when the user is absent. */
  function WithRefreshToken(users: map<string, User>, username: string, token: Option<string>)
    : (w: map<string, User>)
    ensures w.Keys == users.Keys
    ensures forall n :: n in w && n != username ==> w[n] == users[n]
    ensures username in users ==>
              w[username].refreshToken == token && w[username].(refreshToken := users[username].refreshToken) == users[username]
  {
    if username in users then users[username := users[username].(refreshToken := token)] else users
  }

  // ---- Role resolution: addUser against createAppUser ----

  /**
   * Where every requested name is a constant of the enumeration, addUser keeps
   * exactly the stored ones, and all of them when none is missing (the one
   * case in which createAppUser's contract lets it succeed on the same names).
   */
  lemma AddUserKeepsResolvable(names: seq<string>, roleNames: set<string>, roleStore: set<RoleName>)
    requires forall i :: 0 <= i < |names| ==> names[i] in roleNames
    ensures ResolveExisting(names, roleNames, roleStore).Success?
    ensures ResolveExisting(names, roleNames, roleStore).value
            == (set n | n in names) * roleStore
    ensures (set n | n in names) <= roleStore ==>
            ResolveExisting(names, roleNames, roleStore).value == (set n | n in names)
  {
  }

  /** One requested name the store has and one it lacks: addUser keeps only the first, and does not fail. */
  lemma AddUserDropsMissingExample(have: RoleName, lack: RoleName, roleNames: set<string>, roleStore: set<RoleName>)
    requires have in roleNames && lack in roleNames
    requires have in roleStore && lack !in roleStore
    ensures ResolveExisting([have, lack], roleNames, roleStore) == Success({have})
  {
    var names := [have, lack];
    assert forall i :: 0 <= i < |names| ==> names[i] in roleNames;
    var r := ResolveExisting(names, roleNames, roleStore);
    assert r.Success?;
    assert r.value == {have} by {
      forall n ensures n in r.value <==> n == have {
        assert n in names <==> n == have || n == lack;
      }
    }
  }

  // ---- The id-based role edit ----

  /** The edit never brings in a role the role store lacks. */
  lemma ReassignRolesStaysInStore(
    roles: set<RoleName>, addRole: Option<RoleName>, removeRole: Option<RoleName>,
    userTier: bool, roleStore: set<RoleName>)
    requires roles <= roleStore
    ensures ReassignRoles(roles, addRole, removeRole, userTier, roleStore) <= roleStore
  {
  }

  /**
   * Removal is gated on addRole, not on removeRole: when addRole is not
   * user-tier (or is null and isUserRole(null) is false) nothing changes,
   * whatever removeRole asks for.
   */
  lemma RemovalGatedOnAddRole(
    roles: set<RoleName>, addRole: Option<RoleName>, removeRole: Option<RoleName>, roleStore: set<RoleName>)
    ensures ReassignRoles(roles, addRole, removeRole, false, roleStore) == roles
  {
  }

  /**
   * When addRole is user-tier, removeRole leaves the set whatever its own tier
   * is; removing the role just added undoes the addition.
   */
  lemma RemovalIgnoresRemoveRoleTier(
    roles: set<RoleName>, addRole: Option<RoleName>, removed: RoleName, roleStore: set<RoleName>)
    ensures removed !in ReassignRoles(roles, addRole, Some(removed), true, roleStore)
    ensures addRole == Some(removed) ==>
            ReassignRoles(roles, addRole, Some(removed), true, roleStore) == roles - {removed}
  {
  }

  /** A user-tier, stored addRole is held afterwards unless removeRole names it too. */
  lemma ReassignRolesAdds(
    roles: set<RoleName>, added: RoleName, removeRole: Option<RoleName>, roleStore: set<RoleName>)
    requires added in roleStore && removeRole != Some(added)
    ensures ReassignRoles(roles, Some(added), removeRole, true, roleStore)
            == roles + {added} - (if removeRole.Some? then {removeRole.value} else {})
  {
  }

  // ---- addRoleToUser(name, role) ----

  /** Granting a role twice is granting it once; granting a held role changes only the access token. */
  lemma GrantRoleIdempotent(u: User, role: RoleName)
    ensures GrantRole(GrantRole(u, role), role) == GrantRole(u, role)
    ensures role in u.roles ==> GrantRole(u, role) == u.(accessToken := Some(""))
  {
  }

  // ---- Tokens ----

  /** getAccessToken reads back what updateAccessToken wrote; nothing else it reads changes. */
  lemma AccessTokenRoundTrip(users: map<string, User>, username: string, token: Option<string>, other: string)
    requires username in users
    ensures AccessTokenOf(WithAccessToken(users, username, token), username) == Success(token)
    ensures other != username ==>
            AccessTokenOf(WithAccessToken(users, username, token), other) == AccessTokenOf(users, other)
    ensures RefreshTokenOf(WithAccessToken(users, username, token), other) == RefreshTokenOf(users, other)
  {
  }

  /** getRefreshToken reads back what updateRefreshToken wrote; nothing else it reads changes. */
  lemma RefreshTokenRoundTrip(users: map<string, User>, username: string, token: Option<string>, other: string)
    requires username in users
    ensures RefreshTokenOf(WithRefreshToken(users, username, token), username) == Success(token)
    ensures other != username ==>
            RefreshTokenOf(WithRefreshToken(users, username, token), other) == RefreshTokenOf(users, other)
    ensures AccessTokenOf(WithRefreshToken(users, username, token), other) == AccessTokenOf(users, other)
  {
  }

  /** Updating a token keeps the store consistent: only a token field of one user changes. */
  lemma TokenUpdatesKeepInvariant(
    users: map<string, User>, nextId: nat, roleStore: set<RoleName>, username: string, token: Option<string>)
    requires StoreInvariant(users, nextId, roleStore)
    ensures StoreInvariant(WithAccessToken(users, username, token), nextId, roleStore)
    ensures StoreInvariant(WithRefreshToken(users, username, token), nextId, roleStore)
    ensures WithAccessToken(users, username, token).Keys == users.Keys
    ensures WithRefreshToken(users, username, token).Keys == users.Keys
  {
  }
}
