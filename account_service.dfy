/**
 * AccountService: the backend's single place for user and role rules. It keeps
 * the user store (a map from username to user), reads the role store (reference
 * data it never changes) and holds the in-memory set of URLs that need an
 * authorisation challenge. Every exception of the source is a Failure result
 * here, raised at the same point, so the order of the checks decides which
 * error a call reports.
 */
module Accounts {
  import opened Wrappers
  import opened Usernames
  import opened JavaLong
  import opened AccountModel

  class AccountService {
    /** The user store, keyed by username. */
    var users: map<string, User>
    /** The identity the user store gives to the next user it saves. */
    var nextId: nat
    /** The URLs that need an authorisation challenge. */
    var authURLs: set<string>
    /** The role store: the roles that exist, looked up by name and never changed here. */
    const roleStore: set<RoleName>
    /** The constants of the RoleName enumeration: the strings RoleName.valueOf accepts. */
    const roleNames: set<string>
    /** Roles.isUserRole, whose definition is not part of this model; it may be asked about a null role. */
    const isUserRole: Option<RoleName> -> bool

    ghost predicate Valid()
      reads this
    {
      roleStore <= roleNames && StoreInvariant(users, nextId, roleStore)
    }

    constructor (roleNames: set<string>, roleStore: set<RoleName>, isUserRole: Option<RoleName> -> bool)
      requires roleStore <= roleNames
      ensures Valid()
      ensures this.roleNames == roleNames && this.roleStore == roleStore && this.isUserRole == isUserRole
      ensures users == map[] && authURLs == {}
    {
      this.roleNames := roleNames;
      this.roleStore := roleStore;
      this.isUserRole := isUserRole;
      users := map[];
      nextId := 0;
      authURLs := {};
    }

    /** needAuthorisation: whether the URL was registered. */
    function NeedAuthorisation(url: string): (need: bool)
      reads this
      ensures need <==> url in authURLs
    {
      url in authURLs
    }

    /** addAuthURL: registers the URL; registration is never undone. */
    method AddAuthURL(url: string)
      modifies this`authURLs
      ensures authURLs == old(authURLs) + {url}
      ensures NeedAuthorisation(url)
      ensures forall u :: old(NeedAuthorisation(u)) ==> NeedAuthorisation(u)
    {
      authURLs := authURLs + {url};
    }

    /** roleExists: whether the role store holds a role of that name. */
    function RoleExists(role: Role): (found: bool)
      ensures found <==> role.name in roleStore
    {
      role.name in roleStore
    }

    /** userRepository.save of a new user: it gets the next identity and no tokens. */
    method Save(username: string, roles: set<RoleName>) returns (u: User)
      requires Valid() && username !in users && roles <= roleStore
      modifies this`users, this`nextId
      ensures Valid()
      ensures u == NewUser(old(nextId), username, roles)
      ensures users == old(users)[username := u] && nextId == old(nextId) + 1
    {
      u := NewUser(nextId, username, roles);
      users := users[username := u];
      nextId := nextId + 1;
    }

    /**
     * The loop of createAppUser: each requested name goes through
     * RoleName.valueOf (a name that is no constant raises at once) and is then
     * found in the role store or listed as missing. The names are taken in an
     * unspecified order, as a HashSet yields them.
     */
    method ResolveRoleNames(names: set<string>) returns (found: set<RoleName>, missing: seq<string>, illegal: Option<string>)
      ensures illegal.None? <==> names <= roleNames
      ensures illegal.Some? ==> illegal.value in names && illegal.value !in roleNames
      ensures illegal.None? ==> found == names * roleStore && ListsExactly(missing, names - roleStore)
    {
      found, missing, illegal := {}, [], None;
      var rest := names;
      while rest != {}
        invariant rest <= names
        invariant names - rest <= roleNames
        invariant found == (names - rest) * roleStore
        invariant ListsExactly(missing, (names - rest) - roleStore)
        decreases rest
      {
        var name :| name in rest;
        if name !in roleNames {
          illegal := Some(name);
          return;
        }
        if name in roleStore {
          found := found + {name};
        } else {
          assert name !in missing;
          missing := missing + [name];
        }
        rest := rest - {name};
      }
    }

    /**
     * createAppUser: a null role set counts as empty; the username is checked,
     * then must be new; every requested role must exist, and the missing ones
     * are reported together; only then is the user saved, with exactly the
     * requested roles.
     */
    method CreateAppUser(userName: Option<string>, roles: Option<set<string>>) returns (r: Result<User, Error>)
      requires Valid()
      modifies this`users, this`nextId
      ensures Valid()
      ensures r.Failure? ==> users == old(users) && nextId == old(nextId)
      ensures CheckUserName(userName).Fail? ==> r == Failure(BadLogin(CheckUserName(userName).error))
      ensures CheckUserName(userName).Pass? && userName.value in old(users) ==> r == Failure(UserAlreadyExists)
      ensures CheckUserName(userName).Pass? && userName.value !in old(users) ==>
        var names := RolesOrEmpty(roles);
        && (!(names <= roleNames) ==>
              r.Failure? && r.error.IllegalRoleName? && r.error.name in names - roleNames)
        && (names <= roleNames && !(names <= roleStore) ==>
              r.Failure? && r.error.RoleNotExists? && ListsExactly(r.error.listed, names - roleStore))
        && (names <= roleStore ==>
              && r == Success(NewUser(old(nextId), userName.value, names))
              && users == old(users)[userName.value := r.value]
              && nextId == old(nextId) + 1)
    {
      var names := RolesOrEmpty(roles);
      var check := CheckUserName(userName);
      if check.Fail? {
        return Failure(BadLogin(check.error));
      }
      var name := userName.value;
      if name in users {
        return Failure(UserAlreadyExists);
      }
      var found, missing, illegal := ResolveRoleNames(names);
      if illegal.Some? {
        return Failure(IllegalRoleName(illegal.value));
      }
      if missing != [] {
        assert missing[0] in names - roleStore;
        return Failure(RoleNotExists(missing));
      }
      assert names <= roleStore by {
        forall n | n in names ensures n in roleStore {
          assert n !in missing;
        }
      }
      assert found == names;
      var u := Save(name, found);
      return Success(u);
    }

    /**
     * addRoleToUser(userName, roleName): the user must exist (checked first),
     * then the role; the role joins the user's set and the access token is
     * reset to "", forcing a new login.
     */
    method AddRoleToUser(userName: string, roleName: RoleName) returns (r: Result<User, Error>)
      requires Valid()
      modifies this`users
      ensures Valid()
      ensures userName !in old(users) ==>
                r == Failure(NotFound(UserNamed(userName))) && users == old(users)
      ensures userName in old(users) && roleName !in roleStore ==>
                r == Failure(NotFound(RoleNamed(roleName))) && users == old(users)
      ensures userName in old(users) && roleName in roleStore ==>
                && r == Success(GrantRole(old(users)[userName], roleName))
                && users == old(users)[userName := r.value]
    {
      if userName !in users {
        return Failure(NotFound(UserNamed(userName)));
      }
      if roleName !in roleStore {
        return Failure(NotFound(RoleNamed(roleName)));
      }
      var u := users[userName];
      u := u.(roles := u.roles + {roleName});
      u := u.(accessToken := Some(""));
      users := users[userName := u];
      return Success(u);
    }

    /**
     * addRoleToUser(id, addRole, removeRole): the user is found by identity;
     * a given, user-tier addRole joins (where the source adds a null for a
     * role the store lacks, this adds nothing);
     * a given removeRole leaves when addRole -- not removeRole -- is user-tier.
     */
    method AddRoleToUserById(id: int, addRole: Option<RoleName>, removeRole: Option<RoleName>)
      returns (r: Result<User, Error>)
      requires Valid()
      modifies this`users
      ensures Valid()
      ensures (forall name :: name in old(users) ==> old(users)[name].id != id) ==>
                r == Failure(UserNotFound) && users == old(users)
      ensures forall name :: name in old(users) && old(users)[name].id == id ==>
                var u := old(users)[name];
                && r == Success(u.(roles := ReassignRoles(u.roles, addRole, removeRole, isUserRole(addRole), roleStore)))
                && users == old(users)[name := r.value]
    {
      if name :| name in users && users[name].id == id {
        var u := users[name];
        if addRole.Some? && isUserRole(addRole) && addRole.value in roleStore {
          u := u.(roles := u.roles + {addRole.value});
        }
        if removeRole.Some? && isUserRole(addRole) {
          u := u.(roles := u.roles - {removeRole.value});
        }
        ReassignRolesStaysInStore(users[name].roles, addRole, removeRole, isUserRole(addRole), roleStore);
        users := users[name := u];
        r := Success(u);
      } else {
        r := Failure(UserNotFound);
      }
    }

    /** getUser: the user of that name, or USER_NOT_FOUND. */
    method GetUser(username: string) returns (r: Result<User, Error>)
      requires Valid()
      ensures username in users ==> r == Success(users[username]) && r.value.username == username
      ensures username !in users ==> r == Failure(UserNotFound)
    {
      if username !in users {
        return Failure(UserNotFound);
      }
      return Success(users[username]);
    }

    /**
     * login(token): the identity id is read as a `long` and printed back, so
     * "007" looks up "7"; a user that is not there is an error, and this
     * overload never registers one (it changes nothing). `exchange` is what
     * the external token exchange answered for the token.
     */
    method Login(exchange: Option<Identity>) returns (r: Result<LoginResult, Error>)
      requires Valid()
      ensures exchange.None? ==> r == Failure(TokenRejected)
      ensures exchange.Some? && ParseLong(exchange.value.id).None? ==>
                r == Failure(NumberFormat(exchange.value.id))
      ensures exchange.Some? && ParseLong(exchange.value.id).Some? ==>
                (r.Success? <==> LongToString(ParseLong(exchange.value.id).value) in users)
      ensures r.Failure? && exchange.Some? && ParseLong(exchange.value.id).Some? ==> r == Failure(UserNotFound)
      ensures r.Success? ==>
                && exchange.Some? && r.value.identity == exchange.value
                && r.value.user in users.Values
                && IsCanonical(r.value.user.username)
                && ParseLong(r.value.user.username) == ParseLong(exchange.value.id)
                && r.value.user == users[LongToString(ParseLong(exchange.value.id).value)]
    {
      if exchange.None? {
        return Failure(TokenRejected);
      }
      var response := exchange.value;
      var id := ParseLong(response.id);
      if id.None? {
        return Failure(NumberFormat(response.id));
      }
      var key := LongToString(id.value);
      if key !in users {
        return Failure(UserNotFound);
      }
      ParseLongOfLongToString(id.value);
      return Success(LoginResult(response, users[key]));
    }

    /**
     * login(token, role): the first 20 characters of the token are taken for
     * the log before anything else; an existing user is returned as it is;
     * otherwise the requested role and then ROLE_USER must exist, and a new
     * user named by the identity id is saved holding both.
     */
    method LoginWithRole(token: string, role: RoleName, exchange: Option<Identity>) returns (r: Result<LoginResult, Error>)
      requires Valid()
      modifies this`users, this`nextId
      ensures Valid()
      ensures r.Failure? ==> users == old(users) && nextId == old(nextId)
      ensures |token| < 20 ==> r == Failure(TokenTooShort)
      ensures |token| >= 20 && exchange.None? ==> r == Failure(TokenRejected)
      ensures |token| >= 20 && exchange.Some? && exchange.value.id in old(users) ==>
                && r == Success(LoginResult(exchange.value, old(users)[exchange.value.id]))
                && users == old(users) && nextId == old(nextId)
      ensures |token| >= 20 && exchange.Some? && exchange.value.id !in old(users) ==>
                && (role !in roleStore ==> r == Failure(RoleNotExists([])))
                && (role in roleStore && ROLE_USER !in roleStore ==> r == Failure(RoleNotExists([ROLE_USER])))
                && (role in roleStore && ROLE_USER in roleStore && role == ROLE_USER ==> r == Failure(DuplicateRole))
                && (role in roleStore && ROLE_USER in roleStore && role != ROLE_USER ==>
                      && r == Success(LoginResult(exchange.value, NewUser(old(nextId), exchange.value.id, {ROLE_USER, role})))
                      && users == old(users)[exchange.value.id := r.value.user]
                      && nextId == old(nextId) + 1)
    {
      if |token| < 20 {
        return Failure(TokenTooShort);
      }
      if exchange.None? {
        return Failure(TokenRejected);
      }
      var response := exchange.value;
      var id := response.id;
      if id in users {
        return Success(LoginResult(response, users[id]));
      }
      if role !in roleStore {
        return Failure(RoleNotExists([]));
      }
      if ROLE_USER !in roleStore {
        return Failure(RoleNotExists([ROLE_USER]));
      }
      if role == ROLE_USER {
        return Failure(DuplicateRole);
      }
      var u := Save(id, {ROLE_USER, role});
      return Success(LoginResult(response, u));
    }

    /** getUsers: every user of the store. */
    method GetUsers() returns (all: set<User>)
      requires Valid()
      ensures forall u :: u in all <==> u.username in users && users[u.username] == u
    {
      all := users.Values;
    }

    /** getRoles: every role name of the role store. */
    method GetRoles() returns (all: set<RoleName>)
      ensures forall role: Role :: RoleExists(role) <==> role.name in all
    {
      all := roleStore;
    }

    /**
     * deleteUser: a null name is a bad request; the user must exist and pass
     * the greater-permission gate on its roles; its roles are cleared and it
     * leaves the store, every other user untouched.
     */
    method DeleteUser(username: Option<string>, greaterPermission: set<RoleName> -> bool) returns (r: Outcome<Error>)
      requires Valid()
      modifies this`users
      ensures Valid()
      ensures username.None? ==> r == Fail(BadRequest) && users == old(users)
      ensures username.Some? && username.value !in old(users) ==> r == Fail(UserNotFound) && users == old(users)
      ensures username.Some? && username.value in old(users) && !greaterPermission(old(users)[username.value].roles) ==>
                r == Fail(PermissionDenied) && users == old(users)
      ensures username.Some? && username.value in old(users) && greaterPermission(old(users)[username.value].roles) ==>
                && r == Pass
                && users.Keys == old(users).Keys - {username.value}
                && forall other :: other in users ==> users[other] == old(users)[other]
    {
      if username.None? {
        return Fail(BadRequest);
      }
      var name := username.value;
      var found := GetUser(name);
      if found.Failure? {
        return Fail(found.error);
      }
      var appUser := found.value;
      if !greaterPermission(appUser.roles) {
        return Fail(PermissionDenied);
      }
      users := users[name := appUser.(roles := {})];
      users := users - {name};
      return Pass;
    }

    /** updateRefreshToken: overwrites the user's refresh token, or USER_NOT_FOUND. */
    method UpdateRefreshToken(username: string, token: Option<string>) returns (r: Outcome<Error>)
      requires Valid()
      modifies this`users
      ensures Valid()
      ensures r == if username in old(users) then Pass else Fail(UserNotFound)
      ensures users == WithRefreshToken(old(users), username, token)
    {
      var found := GetUser(username);
      if found.Failure? {
        return Fail(found.error);
      }
      TokenUpdatesKeepInvariant(users, nextId, roleStore, username, token);
      users := users[username := found.value.(refreshToken := token)];
      return Pass;
    }

    /** updateAccessToken: overwrites the user's access token, or USER_NOT_FOUND. */
    method UpdateAccessToken(username: string, token: Option<string>) returns (r: Outcome<Error>)
      requires Valid()
      modifies this`users
      ensures Valid()
      ensures r == if username in old(users) then Pass else Fail(UserNotFound)
      ensures users == WithAccessToken(old(users), username, token)
    {
      var found := GetUser(username);
      if found.Failure? {
        return Fail(found.error);
      }
      TokenUpdatesKeepInvariant(users, nextId, roleStore, username, token);
      users := users[username := found.value.(accessToken := token)];
      return Pass;
    }

    /** getRefreshToken: the user's refresh token, or USER_NOT_FOUND. */
    method GetRefreshToken(username: string) returns (r: Result<Option<string>, Error>)
      requires Valid()
      ensures r == RefreshTokenOf(users, username)
    {
      var found := GetUser(username);
      if found.Failure? {
        return Failure(found.error);
      }
      return Success(found.value.refreshToken);
    }

    /** getAccessToken: the user's access token, or USER_NOT_FOUND. */
    method GetAccessToken(username: string) returns (r: Result<Option<string>, Error>)
      requires Valid()
      ensures r == AccessTokenOf(users, username)
    {
      var found := GetUser(username);
      if found.Failure? {
        return Failure(found.error);
      }
      return Success(found.value.accessToken);
    }

    /**
     * addUser: the username must be new but is not validated; each requested
     * role name must be a constant of the enumeration, and the ones the role
     * store lacks are dropped, so the user may end up with no role at all.
     */
    method AddUser(username: string, requested: seq<string>) returns (r: Result<User, Error>)
      requires Valid()
      modifies this`users, this`nextId
      ensures Valid()
      ensures r.Failure? ==> users == old(users) && nextId == old(nextId)
      ensures username in old(users) ==> r == Failure(UserAlreadyExists)
      ensures username !in old(users) && ResolveExisting(requested, roleNames, roleStore).Failure? ==>
                r == Failure(ResolveExisting(requested, roleNames, roleStore).error)
      ensures username !in old(users) && ResolveExisting(requested, roleNames, roleStore).Success? ==>
                && r == Success(NewUser(old(nextId), username, ResolveExisting(requested, roleNames, roleStore).value))
                && users == old(users)[username := r.value]
                && nextId == old(nextId) + 1
    {
      if username in users {
        return Failure(UserAlreadyExists);
      }
      var resolved := ResolveExisting(requested, roleNames, roleStore);
      if resolved.Failure? {
        return Failure(resolved.error);
      }
      var u := Save(username, resolved.value);
      return Success(u);
    }
  }
}
