/**
 * Clients of the account service: sequences of calls whose outcome follows
 * from the contracts of the single operations alone.
 */
module Scenarios {
  import opened Wrappers
  import opened Usernames
  import opened AccountModel
  import opened Accounts

  /** Creating the same user twice: the second call reports UserAlreadyExists and saves nothing. */
  method CreateTwice(s: AccountService, name: string, roles: Option<set<string>>)
    returns (first: Result<User, Error>, second: Result<User, Error>)
    requires s.Valid() && CheckUserName(Some(name)) == Pass
    modifies s
    ensures s.Valid()
    ensures first.Success? ==> second == Failure(UserAlreadyExists) && s.users == old(s.users)[name := first.value]
  {
    first := s.CreateAppUser(Some(name), roles);
    ghost var afterFirst := s.users;
    second := s.CreateAppUser(Some(name), roles);
    if first.Success? {
      assert name in afterFirst;
    }
  }

  /**
   * Logging in twice with the same identity: the second call returns the user
   * the first one found or registered, and registers nobody.
   */
  method LoginTwice(s: AccountService, token: string, role: RoleName, identity: Identity)
    returns (first: Result<LoginResult, Error>, second: Result<LoginResult, Error>)
    requires s.Valid() && |token| >= 20
    modifies s
    ensures s.Valid()
    ensures first.Success? ==> second == first && identity.id in s.users && first.value.user == s.users[identity.id]
  {
    first := s.LoginWithRole(token, role, Some(identity));
    ghost var afterFirst := s.users;
    second := s.LoginWithRole(token, role, Some(identity));
    if first.Success? {
      assert identity.id in afterFirst && afterFirst[identity.id] == first.value.user;
      assert s.users == afterFirst;
    }
  }

  /** Writing both tokens of a user and reading them back gives what was written. */
  method TokensRoundTrip(s: AccountService, name: string, access: Option<string>, refresh: Option<string>)
    returns (gotAccess: Result<Option<string>, Error>, gotRefresh: Result<Option<string>, Error>)
    requires s.Valid()
    modifies s
    ensures s.Valid()
    ensures name in old(s.users) ==> gotAccess == Success(access) && gotRefresh == Success(refresh)
    ensures name !in old(s.users) ==> gotAccess == Failure(UserNotFound) && gotRefresh == Failure(UserNotFound)
  {
    var _ := s.UpdateAccessToken(name, access);
    ghost var between := s.users;
    var _ := s.UpdateRefreshToken(name, refresh);
    if name in old(s.users) {
      AccessTokenRoundTrip(old(s.users), name, access, name);
      RefreshTokenRoundTrip(between, name, refresh, name);
    }
    gotAccess := s.GetAccessToken(name);
    gotRefresh := s.GetRefreshToken(name);
  }

  /** After a successful deleteUser, getUser reports USER_NOT_FOUND for that name. */
  method DeleteThenGet(s: AccountService, name: string, greaterPermission: set<RoleName> -> bool)
    returns (deleted: Outcome<Error>, lookup: Result<User, Error>)
    requires s.Valid()
    modifies s
    ensures s.Valid()
    ensures deleted == Pass ==> lookup == Failure(UserNotFound) && |s.users| == |old(s.users)| - 1
  {
    deleted := s.DeleteUser(Some(name), greaterPermission);
    lookup := s.GetUser(name);
  }

  /** After addRoleToUser succeeds, the user holds the role and must log in again (access token ""). */
  method GrantThenRead(s: AccountService, name: string, role: RoleName)
    returns (granted: Result<User, Error>, token: Result<Option<string>, Error>)
    requires s.Valid()
    modifies s
    ensures s.Valid()
    ensures granted.Success? ==> role in granted.value.roles && token == Success(Some(""))
    ensures granted.Failure? ==> s.users == old(s.users)
  {
    granted := s.AddRoleToUser(name, role);
    token := s.GetAccessToken(name);
  }
}
