# Account and role rules of the GrocerySenpai backend, in Dafny

This project models `AccountService`, the backend service that holds all of
the application's account rules. It covers user creation under two different
error policies, role assignment by name and by identity, login with and
without registration, user deletion, session tokens, and the in-memory set of
URLs that need an authorisation challenge.

The model has these parts:

- `Wrappers` (`wrappers.dfy`): `Option` stands for a Java `null`. `Result` and `Outcome` stand for a return value or a thrown exception.
- `Usernames` (`usernames.dfy`): `checkUserName` as a pure function. `\w` is ASCII `[A-Za-z0-9_]`. `isBlank` uses Java's `Character.isWhitespace`. Lemmas give the exact conditions for acceptance and for each rejection.
- `JavaLong` (`java_long.dfy`): `Long.parseLong` and `Long.toString` in radix 10. `login(token)` uses them to turn an identity id into a store key. Lemmas prove the round trip and the canonical form ("007" looks up "7").
- `AccountModel` (`account_model.dfy`): users, roles, identities and error kinds. It also has the pure rules: how `addUser` resolves role names, how the id-based `addRoleToUser` edits a role set, and how tokens are written and read. Lemmas state the properties of each rule.
- `Accounts` (`account_service.dfy`): the class `AccountService`. Its field `users` is the user store, a map from username to user. It also holds the `authURLs` set and an identity counter. The role store, the RoleName constants and `Roles.isUserRole` are constants. Each public operation is a method. Every exception is a `Failure` returned at the point where the source throws. So the contracts keep the source's check order, which decides the error reported. The invariant `Valid()` holds after every operation. It says each user is filed under its own name, has a unique identity, and holds only roles of the role store.
- `Scenarios` (`scenarios.dfy`): callers that chain operations. Their outcomes follow from the single-operation contracts.

The model keeps some behaviour exactly as the code has it, even where it looks
unintended:

- The id-based `addRoleToUser` decides removal by `Roles.isUserRole(addRole)`, not by `removeRole`. `RemovalGatedOnAddRole` and `RemovalIgnoresRemoveRoleTier` state the effect.
- `login(token, ROLE_USER)` for a new identity fails. `Set.of(userRole, roleFound)` refuses two equal elements. The model reports this as the `DuplicateRole` error.
- `createAppUser` reports every missing role name together and saves nothing. `addUser` silently drops the missing names.
- The id-based `addRoleToUser` adds `addRole` only when `Roles.isUserRole(addRole)` holds, not whenever it is given.
- `addUser` and `login(token, role)` save usernames without passing them through `checkUserName`. So a stored username need not match `(\w)+`, and `Valid()` does not claim it does.

## Model

| member | source | states |
|---|---|---|
| `Usernames.IsWordChar` | mainbackend/src/main/kotlin/org/example/mainbackend/service/AccountService.java:168 | `\w` without the Unicode flag: a word character is ASCII |
| `Usernames.IsJavaWhitespace` | mainbackend/src/main/kotlin/org/example/mainbackend/service/AccountService.java:164 | Java's `Character.isWhitespace`: no word character is whitespace, and the non-breaking spaces U+00A0, U+2007 and U+202F are not whitespace |
| `Usernames.IsBlank` | mainbackend/src/main/kotlin/org/example/mainbackend/service/AccountService.java:164 | `String.isBlank`: the empty string is blank, and a blank string does not start with a word character |
| `Usernames.MatchesWordPlus` | mainbackend/src/main/kotlin/org/example/mainbackend/service/AccountService.java:168 | `matches("(\\w)+")` as a recursive match: a matching name is non-empty, all word characters, and not blank |
| `Usernames.CheckUserName` | mainbackend/src/main/kotlin/org/example/mainbackend/service/AccountService.java:163-173 | checkUserName: a pass means a non-null name of word characters; a BadUsername failure means a non-null, non-blank name |
| `Usernames.MatchesWordPlusIff` | mainbackend/src/main/kotlin/org/example/mainbackend/service/AccountService.java:168 | `matches("(\\w)+")` holds exactly for non-empty strings of `[A-Za-z0-9_]` |
| `Usernames.ValidUsernameNotBlank` | mainbackend/src/main/kotlin/org/example/mainbackend/service/AccountService.java:164-168 | a non-empty name of word characters is never blank, so the blank check cannot reject it |
| `Usernames.CheckUserNameAccepts` | mainbackend/src/main/kotlin/org/example/mainbackend/service/AccountService.java:163-173 | checkUserName passes if and only if the name is non-null, non-empty and every character is in `[A-Za-z0-9_]` |
| `Usernames.CheckUserNameNoLogin` | mainbackend/src/main/kotlin/org/example/mainbackend/service/AccountService.java:164-167 | the "no login" failure comes first, and exactly for null, empty and whitespace-only names |
| `Usernames.CheckUserNameRejectsBadChar` | mainbackend/src/main/kotlin/org/example/mainbackend/service/AccountService.java:168-172 | a "bad username" failure means the name is present, not blank and holds a character outside `\w` |
| `Usernames.BadCharRefused` | mainbackend/src/main/kotlin/org/example/mainbackend/service/AccountService.java:168-172 | a name starting with a word character that holds a non-word character fails with BadUsername |
| `Usernames.CheckUserNameExamplesBlank` | mainbackend/src/main/kotlin/org/example/mainbackend/service/AccountService.java:164-167 | "alice_01" passes; null, "" and whitespace-only names fail with NoLogin |
| `Usernames.CheckUserNameExamplesBadChar` | mainbackend/src/main/kotlin/org/example/mainbackend/service/AccountService.java:168-172 | names with '-', a space or '@' fail with BadUsername |
| `JavaLong.ParseLong` | mainbackend/src/main/kotlin/org/example/mainbackend/service/AccountService.java:121 | Long.parseLong: a parsed value fits a `long`, comes from a non-empty text, and is non-positive after a leading '-' and non-negative otherwise |
| `JavaLong.LongToString` | mainbackend/src/main/kotlin/org/example/mainbackend/service/AccountService.java:122 | Long.toString: non-empty, a leading '-' exactly for negative values, and decimal digits after it |
| `JavaLong.NatToString` | mainbackend/src/main/kotlin/org/example/mainbackend/service/AccountService.java:122 | Long.toString of a magnitude is a non-empty run of digits with no leading zero |
| `JavaLong.DigitsValueOfNatToString` | mainbackend/src/main/kotlin/org/example/mainbackend/service/AccountService.java:121-122 | reading back the digits Long.toString printed gives the number |
| `JavaLong.DigitsValuePositive` | mainbackend/src/main/kotlin/org/example/mainbackend/service/AccountService.java:121 | a digit run that does not start with '0' has a positive value |
| `JavaLong.NatToStringOfDigitsValue` | mainbackend/src/main/kotlin/org/example/mainbackend/service/AccountService.java:121-122 | printing the value of a digit run without a leading zero gives that run back |
| `JavaLong.ParseLongOfLongToString` | mainbackend/src/main/kotlin/org/example/mainbackend/service/AccountService.java:121-122 | for every `long`, Long.toString gives canonical text and Long.parseLong reads it back to the same value |
| `JavaLong.LongToStringOfParseLong` | mainbackend/src/main/kotlin/org/example/mainbackend/service/AccountService.java:121-122 | a canonical text is the only key Long.toString gives for its value |
| `JavaLong.LeadingZeroIgnored` | mainbackend/src/main/kotlin/org/example/mainbackend/service/AccountService.java:121 | a leading zero does not change the parsed value |
| `JavaLong.LookupKeyExamples` | mainbackend/src/main/kotlin/org/example/mainbackend/service/AccountService.java:121-122 | "007" and "+7" give the key "7", "-0" gives "0", and "abc", "" and "-" do not parse |
| `AccountModel.RolesOrEmpty` | mainbackend/src/main/kotlin/org/example/mainbackend/service/AccountService.java:42-44 | a null role collection counts as the empty set; otherwise the collection itself |
| `AccountModel.ResolveExisting` | mainbackend/src/main/kotlin/org/example/mainbackend/service/AccountService.java:226-230 | addUser's role stream succeeds if and only if every name is a RoleName constant, and then yields exactly the names the role store holds; otherwise it fails on the first non-constant name |
| `AccountModel.AddUserKeepsResolvable` | mainbackend/src/main/kotlin/org/example/mainbackend/service/AccountService.java:226-230 | with valid names, addUser keeps the requested names the store holds, and all of them when none is missing |
| `AccountModel.AddUserDropsMissingExample` | mainbackend/src/main/kotlin/org/example/mainbackend/service/AccountService.java:226-230 | one stored and one unstored name: addUser does not fail and keeps only the stored one |
| `AccountModel.ReassignRoles` | mainbackend/src/main/kotlin/org/example/mainbackend/service/AccountService.java:100-105 | the id-based role edit adds at most a stored addRole and removes at most removeRole |
| `AccountModel.ReassignRolesStaysInStore` | mainbackend/src/main/kotlin/org/example/mainbackend/service/AccountService.java:100-105 | the id-based role edit never gives a user a role the role store lacks |
| `AccountModel.RemovalGatedOnAddRole` | mainbackend/src/main/kotlin/org/example/mainbackend/service/AccountService.java:100-105 | when addRole is not user-tier, the role set is unchanged whatever removeRole asks for |
| `AccountModel.RemovalIgnoresRemoveRoleTier` | mainbackend/src/main/kotlin/org/example/mainbackend/service/AccountService.java:103-104 | when addRole is user-tier, removeRole leaves the set whatever its own tier; removing the role just added undoes the addition |
| `AccountModel.ReassignRolesAdds` | mainbackend/src/main/kotlin/org/example/mainbackend/service/AccountService.java:100-105 | a user-tier, stored addRole joins the set, and removeRole leaves it |
| `AccountModel.GrantRole` | mainbackend/src/main/kotlin/org/example/mainbackend/service/AccountService.java:88-89 | granting a role adds that role and no other, resets the access token to "" and keeps identity, name and refresh token |
| `AccountModel.GrantRoleIdempotent` | mainbackend/src/main/kotlin/org/example/mainbackend/service/AccountService.java:88-89 | granting a role twice is granting it once; granting a role already held changes only the access token |
| `AccountModel.AccessTokenOf` | mainbackend/src/main/kotlin/org/example/mainbackend/service/AccountService.java:210-213 | getAccessToken on the store: the user's access token when the name is present, otherwise UserNotFound |
| `AccountModel.RefreshTokenOf` | mainbackend/src/main/kotlin/org/example/mainbackend/service/AccountService.java:205-208 | getRefreshToken on the store: the user's refresh token when the name is present, otherwise UserNotFound |
| `AccountModel.WithAccessToken` | mainbackend/src/main/kotlin/org/example/mainbackend/service/AccountService.java:196-203 | updateAccessToken on the store: same names, every other user unchanged, and the named user differs only in its access token, which is the one given |
| `AccountModel.WithRefreshToken` | mainbackend/src/main/kotlin/org/example/mainbackend/service/AccountService.java:190-194 | updateRefreshToken on the store: same names, every other user unchanged, and the named user differs only in its refresh token, which is the one given |
| `AccountModel.AccessTokenRoundTrip` | mainbackend/src/main/kotlin/org/example/mainbackend/service/AccountService.java:196-213 | getAccessToken after updateAccessToken gives the token written; other users' tokens and every refresh token are unchanged |
| `AccountModel.RefreshTokenRoundTrip` | mainbackend/src/main/kotlin/org/example/mainbackend/service/AccountService.java:190-208 | getRefreshToken after updateRefreshToken gives the token written; other users' tokens and every access token are unchanged |
| `AccountModel.TokenUpdatesKeepInvariant` | mainbackend/src/main/kotlin/org/example/mainbackend/service/AccountService.java:190-203 | token updates keep the store invariant and the set of usernames |
| `Accounts.AccountService.constructor` | mainbackend/src/main/kotlin/org/example/mainbackend/service/AccountService.java:26-30 | a new service has an empty URL set over the given role store and role constants |
| `Accounts.AccountService.NeedAuthorisation` | mainbackend/src/main/kotlin/org/example/mainbackend/service/AccountService.java:32-34 | a URL needs authorisation exactly when it was registered |
| `Accounts.AccountService.AddAuthURL` | mainbackend/src/main/kotlin/org/example/mainbackend/service/AccountService.java:36-38 | the URL is registered afterwards, and no earlier registration is lost |
| `Accounts.AccountService.RoleExists` | mainbackend/src/main/kotlin/org/example/mainbackend/service/AccountService.java:186-188 | a role exists exactly when the role store holds its name |
| `Accounts.AccountService.Save` | mainbackend/src/main/kotlin/org/example/mainbackend/service/AccountService.java:70 | saving a new user gives it a fresh identity and no tokens, adds exactly that user and keeps the store invariant |
| `Accounts.AccountService.ResolveRoleNames` | mainbackend/src/main/kotlin/org/example/mainbackend/service/AccountService.java:51-61 | in any iteration order, the loop stops on a non-constant name if and only if there is one; otherwise it finds exactly the stored names and lists every missing name once |
| `Accounts.AccountService.CreateAppUser` | mainbackend/src/main/kotlin/org/example/mainbackend/service/AccountService.java:41-71 | null roles count as empty; the username check comes before the duplicate check; missing roles are all reported together and nothing is saved; on success the new user holds exactly the requested roles |
| `Accounts.AccountService.AddRoleToUser` | mainbackend/src/main/kotlin/org/example/mainbackend/service/AccountService.java:74-91 | an absent user gives NotFound, checked before an absent role; on success the roles become old roles plus the role, the access token becomes "", and nothing else changes |
| `Accounts.AccountService.AddRoleToUserById` | mainbackend/src/main/kotlin/org/example/mainbackend/service/AccountService.java:93-107 | an unknown identity gives UserNotFound; otherwise only that user's roles change, as ReassignRoles says, gated twice on isUserRole(addRole) |
| `Accounts.AccountService.GetUser` | mainbackend/src/main/kotlin/org/example/mainbackend/service/AccountService.java:110-117 | the user of that name, or UserNotFound |
| `Accounts.AccountService.Login` | mainbackend/src/main/kotlin/org/example/mainbackend/service/AccountService.java:119-127 | the user returned is the one stored under Long.toString(Long.parseLong(id)); a non-numeric id fails; an absent user gives UserNotFound; the user found has a canonical name that parses to the same number; nothing is ever saved |
| `Accounts.AccountService.LoginWithRole` | mainbackend/src/main/kotlin/org/example/mainbackend/service/AccountService.java:129-150 | a token shorter than 20 characters fails first; an existing user is returned unchanged; a new one is saved under the identity id with {ROLE_USER, role}; the requested role is checked before ROLE_USER, and either missing role saves nothing |
| `Accounts.AccountService.GetUsers` | mainbackend/src/main/kotlin/org/example/mainbackend/service/AccountService.java:152-154 | exactly the users of the store |
| `Accounts.AccountService.GetRoles` | mainbackend/src/main/kotlin/org/example/mainbackend/service/AccountService.java:156-159 | exactly the roles that exist |
| `Accounts.AccountService.DeleteUser` | mainbackend/src/main/kotlin/org/example/mainbackend/service/AccountService.java:175-184 | a null name gives BadRequest, an absent user UserNotFound, a refused gate PermissionDenied; otherwise exactly that user leaves the store and every other user is unchanged |
| `Accounts.AccountService.UpdateRefreshToken` | mainbackend/src/main/kotlin/org/example/mainbackend/service/AccountService.java:190-194 | an absent user gives UserNotFound; otherwise only that user's refresh token changes |
| `Accounts.AccountService.UpdateAccessToken` | mainbackend/src/main/kotlin/org/example/mainbackend/service/AccountService.java:196-203 | an absent user gives UserNotFound; otherwise only that user's access token changes |
| `Accounts.AccountService.GetRefreshToken` | mainbackend/src/main/kotlin/org/example/mainbackend/service/AccountService.java:205-208 | the user's refresh token, or UserNotFound |
| `Accounts.AccountService.GetAccessToken` | mainbackend/src/main/kotlin/org/example/mainbackend/service/AccountService.java:210-213 | the user's access token, or UserNotFound |
| `Accounts.AccountService.AddUser` | mainbackend/src/main/kotlin/org/example/mainbackend/service/AccountService.java:220-232 | the name is not validated; an existing name gives UserAlreadyExists; unstored role names are dropped, so the saved roles are the stored subset and may be empty |
| `Scenarios.CreateTwice` | mainbackend/src/main/kotlin/org/example/mainbackend/service/AccountService.java:41-71 | after a successful createAppUser, the same call again gives UserAlreadyExists |
| `Scenarios.LoginTwice` | mainbackend/src/main/kotlin/org/example/mainbackend/service/AccountService.java:129-150 | a second login with a role returns the user the first one found or registered, and registers no duplicate |
| `Scenarios.TokensRoundTrip` | mainbackend/src/main/kotlin/org/example/mainbackend/service/AccountService.java:190-213 | both tokens read back as written for a present user; both calls give UserNotFound for an absent one |
| `Scenarios.DeleteThenGet` | mainbackend/src/main/kotlin/org/example/mainbackend/service/AccountService.java:175-184 | after a successful deleteUser, getUser reports UserNotFound and the store holds one user fewer |
| `Scenarios.GrantThenRead` | mainbackend/src/main/kotlin/org/example/mainbackend/service/AccountService.java:74-91 | after addRoleToUser succeeds, the user holds the role and getAccessToken gives "" |

## Left out

- The external token exchange (`yandexIdService.parseToken` and `getId`) is a network and cryptography service. Both login methods take its answer as the parameter `exchange`, and `None` means it refused the token.
- `Roles.isUserRole` and `Roles.greaterPermission` are not part of this model. The first is the constant `isUserRole`; it may be asked about a null role, and a possible exception inside it is not modelled. The second is the `greaterPermission` parameter of `DeleteUser`.
- The RoleName enumeration is not part of this model. Its constants are the constant `roleNames`, and a role is represented by its name.
- JPA persistence, transactions and logging are left out. The store is a map, `save` assigns identities from a counter, and `@Transactional` is approximated by saving nothing on failure.
- Users are values in the store map. The source hands out and mutates managed entities, so the aliasing between a returned user and the stored one is not modelled. For the same reason, `deleteUser` clearing the user's roles before the deletion cannot be observed in the model: the cleared entry leaves the store in the next step.
- `getUsers` returns a list in store order in the source; the model returns a set.
- Null arguments are modelled where the source tests for them: the username and roles of `createAppUser`, the username of `deleteUser`, and the roles of the id-based `addRoleToUser`. They are also modelled for the token of `updateAccessToken` and `updateRefreshToken`, which the source stores without a test, so a null token is written as it is. A null login token, username, id or role name elsewhere, and a null element inside a role collection, are not modelled. In the source these raise NullPointerException or whatever the repositories do with null.
- Error messages are kept only as the detail each error kind carries: the role names `ROLE_NOT_EXISTS` lists, the user or role name of `NOT_FOUND`, the id `Long.parseLong` refused, and the string `RoleName.valueOf` refused. The rest of the message text is not modelled.
- JavaLong.ParseLong: accepts only ASCII digits. Long.parseLong also accepts other Unicode decimal digits.
- Strings are sequences of Unicode scalar values, not UTF-16 code units. For `\w` and `isBlank` this makes no difference, because every whitespace character is in the BMP and no word character is a surrogate. It does matter for the 20-character check of `login(token, role)`; see the `LoginWithRole` line.
- LoginWithRole: counts the token's length in Unicode scalar values, while `token.substring(0, 20)` counts UTF-16 code units. So a token of 10 characters outside the BMP (Java length 20) gets past the source's check but fails here with TokenTooShort.
- AddRoleToUserById: when `addRole` is user-tier but the role store lacks it, the source adds the `null` that `roleRepository.findByName` returns to the user's role set. The model adds nothing. What JPA does with a null element when it writes the change is not modelled. Leaving it out is what lets `Valid()` say that users hold only stored roles.
- ReassignRoles: leaves out the same null element for an unstored, user-tier `addRole`; see the `AddRoleToUserById` line.
- Thread safety of the shared `authURLs` set is a concurrency concern and is left out.
- The Jetpack Compose screens `HistoryScreen.kt` and `GroceryItemTextInputComponent.kt` are not part of this model. They are user interface with no rules to state.
