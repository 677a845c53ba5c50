# Auth, RBAC and permission sync of nestjs-ecommerce, in Dafny

This project models the authentication and role-based access core of the
`nestjs-ecommerce` service as pure Dafny functions over an immutable store,
and proves the properties that core promises.

- **Store** (`Store.Db`) holds the Prisma tables the core touches:
  - users, with an email index;
  - verification codes, keyed by email;
  - refresh tokens, keyed by token;
  - devices;
  - roles and permissions, kept in id order so that `findFirst`, `skip` and `take` mean something.

  Every auth operation returns the store together with its result. The source uses no transactions, so a failure after a write keeps that write.
- **Auth protocol** (`AuthService`): OTP issue and validation, register, login with the optional second factor, token issue and rotation, logout, forgotten password, and TOTP set-up and removal. `AuthRepo` models the repository calls behind them. `AuthInvariants` proves that every operation keeps the store's structural invariant.
- **Request bodies** (`AuthModel`): the `superRefine` rules of the zod body schemas.
- **Guard chain**:
  - `AuthDecorator`: the route metadata.
  - `AuthenticationGuard`: resolving the guards, and the `and` / `or` evaluation with its short-circuit and error choice.
  - `AccessTokenGuard`: bearer-token extraction and the role/permission check.
- **Roles**:
  - `RolesService`: the memoised client-role id.
  - `RoleRepo`: the role repository, with soft and hard delete and replacement of the permission set.
  - `RoleService`: the role service, which refuses to change the built-in roles.
  - `Seed`: the initial seeding script.
- **Helpers**:
  - `Pagination`: the pagination helper.
  - `CreatePermissions`: the route/permission reconciliation script.

External services are fields of `Externals.Services`. These are password hashing and comparison, TOTP checking, and JWT signing and verification. Randomness (OTP codes, token nonces, TOTP secrets), the mail outcome and the clock are parameters.

## Model

| member | source | states |
|---|---|---|
| Strings.Split | src/shared/guards/access-token.guard.ts:44 | `split(' ')` gives at least one piece, no piece contains the separator, and there are two or more pieces exactly when the separator occurs |
| Strings.JoinSplit | src/shared/guards/access-token.guard.ts:44 | joining the pieces with the separator gives back the original string (the split loses nothing) |
| Strings.ToUpper | initialScript/create-permissions.ts:29 | upper-casing keeps the length, turns each lower-case ASCII letter into its upper-case partner (code point minus 32), and leaves every other character as it is |
| Strings.ToUpperRouteMethods | initialScript/create-permissions.ts:29 | the route methods `get`, `post`, `put`, `patch` and `delete` become `GET`, `POST`, `PUT`, `PATCH` and `DELETE` |
| Strings.ToUpperIdempotent | initialScript/create-permissions.ts:29 | upper-casing twice is the same as once |
| Seqs.Page | src/routes/role/role.repo.ts:17-23 | `skip`/`take` returns at most `take` rows, in order, each at position `skip + i`; nothing past the end; a full page when enough rows remain |
| Seqs.Filter | src/routes/role/role.repo.ts:13-23 | a `where` filter keeps exactly the rows satisfying it, in table order: its length is the number of matching rows, and a matching row preceded by k matching rows is the k-th kept one |
| Seqs.RankPosition | src/routes/role/role.repo.ts:17-23 | for every rank below the number of matches, a position holding a matching row with exactly that many matching rows before it |
| Seqs.FilterSlot | src/routes/role/role.repo.ts:17-23 | the k-th kept row is the matching row of rank k |
| Seqs.PageSlotHasRank | src/routes/role/role.repo.ts:17-23 | slot i of a page over the filtered rows holds the matching row ranked `skip + i` |
| Seqs.RankHasPageSlot | src/routes/role/role.repo.ts:17-23 | every matching row ranked inside the page sits in the slot of its rank |
| Seqs.OccurrencesIsCount | src/routes/role/role.repo.ts:13-15 | the running count of matching rows equals the number of matching positions |
| Seqs.PagesJoin | src/routes/role/role.repo.ts:17-23 | two adjacent `skip`/`take` pages, concatenated, are the page spanning both |
| Seqs.FilterIdempotent | src/routes/role/role.repo.ts:13-23 | filtering twice with the same predicate changes nothing |
| Seqs.FilterAppend | initialScript/create-permissions.ts:90-94 | filtering distributes over concatenation of two tables |
| Seqs.FilterUpdateDrops | src/routes/role/role.repo.ts:86-101 | overwriting one kept row with a filtered-out one lowers the filtered count by exactly one |
| Seqs.FilterRemoveDrops | src/routes/role/role.repo.ts:86-101 | removing one kept row lowers the filtered count by exactly one |
| Store.FindUserByEmailSpec | src/shared/repositories/shared-user.repo.ts:9-11 | `findUnique({ email })` finds a user exactly when one with that email exists, and returns that user |
| AuthRepo.RoleById | src/routes/auth/auth.repo.ts:66-79 | the included role is a stored role with that id, or none exists |
| AuthRepo.CreateUser | src/routes/auth/auth.repo.ts:17-27 | fails with a unique violation exactly on a taken email; otherwise inserts the user under the next id without a TOTP secret, indexes its email, bumps the counter, changes nothing else and returns it without password and secret |
| AuthRepo.CreateValidationCode | src/routes/auth/auth.repo.ts:29-42 | upsert on email: a new email gets all four fields; an existing row gets the new code and expiry but keeps its old type; other rows unchanged |
| AuthRepo.FindValidationCode | src/routes/auth/auth.repo.ts:44-50 | returns a row only when email, code and type all match; none when no row carries the triple |
| AuthRepo.DeleteValidationCode | src/routes/auth/auth.service.ts:272 | deletes exactly when the triple is present, after which no code is found for that email; otherwise record-not-found |
| AuthRepo.CreateRefreshToken | src/routes/auth/auth.repo.ts:52-56 | stores exactly the given row; a reused token is a unique violation; other tokens unchanged |
| AuthRepo.CreateDevice | src/routes/auth/auth.repo.ts:58-64 | a new active device under a fresh id; one more device; the others unchanged |
| AuthRepo.FindUserIncludeRole | src/routes/auth/auth.repo.ts:66-70 | none exactly when no user has the email; otherwise that user with the role its roleId names |
| AuthRepo.FindRefreshTokenIncludeUserRole | src/routes/auth/auth.repo.ts:72-79 | none exactly when the token is absent; otherwise the row with its owner and the owner's role |
| AuthRepo.DeleteRefreshToken | src/routes/auth/auth.repo.ts:81-85 | removes exactly that token and returns its row; absent token is record-not-found |
| AuthRepo.UpdateDevice | src/routes/auth/auth.repo.ts:87-94 | changes only the supplied columns of that device; no other device changes |
| AuthRepo.UpdatePassword | src/routes/auth/auth.service.ts:271 | replaces only that user's password; fails exactly when no user has the email |
| AuthRepo.SetTotpSecret | src/routes/auth/auth.service.ts:283-296 | sets or clears only that user's TOTP secret; fails exactly for an unknown id |
| AuthModel.RegisterIssues | src/routes/auth/auth.model.ts:16-24 | no issue exactly when the confirmation equals the password; otherwise one issue on `confirmPassword` |
| AuthModel.LoginIssues | src/routes/auth/auth.model.ts:56-69 | no issue exactly when at most one of `totpCode` and `code` is sent; otherwise issues on both fields |
| AuthModel.ForgotPasswordIssues | src/routes/auth/auth.model.ts:132-140 | no issue exactly when the confirmation equals the new password |
| AuthModel.DisableTwoFactorIssues | src/routes/auth/auth.model.ts:148-161 | no issue exactly when one and only one of the two codes is sent |
| AuthModel.AcceptedRegisterPasswordBounded | src/routes/auth/auth.model.ts:12-24 | an accepted register body has a password of 6 to 100 characters (through the confirmation's bounds and equality) |
| AuthModel.AcceptedDisableHasExactlyOneCode | src/routes/auth/auth.model.ts:142-161 | an accepted disable body carries exactly one non-empty code |
| AuthService.ValidateValidationCode | src/routes/auth/auth.service.ts:50-70 | succeeds exactly when the triple is stored and not yet expired; missing row is InvalidOTP, expired row is OTPExpired |
| AuthService.OtpExpiryBoundary | src/routes/auth/auth.service.ts:50-70 | a code is valid up to and including its expiry instant and expired strictly after |
| AuthService.SendOtp | src/routes/auth/auth.service.ts:95-119 | register needs a new email, forgot-password a known one; refusals leave the store alone; otherwise the code is stored (kept even when mail fails) |
| AuthService.ResendOnlyLatestCodeValidates | src/routes/auth/auth.service.ts:95-119 | after two sends to one email only the second code validates |
| AuthService.SendOtpKeepsStaleType | src/routes/auth/auth.repo.ts:29-42 | re-sending for another purpose keeps the old type, so the new code does not validate for the new purpose |
| AuthService.RegisterAsWritten | src/routes/auth/auth.service.ts:72-93 | the code as written: a duplicate email escapes the catch as a raw unique violation |
| AuthService.RegisterSteps | src/routes/auth/auth.service.ts:72-91 | the awaited steps with their raw errors: any failure changes nothing; success requires a valid REGISTER code and a free email, and adds exactly the one user under the next id |
| AuthService.Register | src/routes/auth/auth.service.ts:72-93 | a failure changes nothing; success creates a client-role user with the hashed password under the next user id and returns it without secrets, changing nothing else (other users, codes, tokens, devices, roles and other counters stay); a duplicate email is EmailAlreadyExists |
| AuthService.RegisterDuplicateEmail | src/routes/auth/auth.service.ts:72-93 | for a valid code and a taken email, the code as written reports a raw unique violation while the corrected register reports EmailAlreadyExists |
| AuthService.LoginSecondFactor | src/routes/auth/auth.service.ts:130-151 | without 2FA nothing is checked; with 2FA the TOTP code is checked when sent, else the login OTP, else InvalidTOTPAndCode |
| AuthService.GenerateTokens | src/routes/auth/auth.service.ts:171-191 | signs both tokens from the claims and stores the refresh token for that user and device with the verified expiry |
| AuthService.Login | src/routes/auth/auth.service.ts:121-169 | unknown email is EmailNotFound; credential failures change nothing; success issues tokens for the user's id, device and role |
| AuthService.WrongPasswordIsRefused | src/routes/auth/auth.service.ts:121-129 | a password that does not match the stored hash gives InvalidPassword and leaves the store alone |
| AuthService.Refresh | src/routes/auth/auth.service.ts:193-235 | an unverifiable token is UnauthorizedAccess; a verified but unknown token is RefreshTokenAlreadyUsed; success refreshes the device's ip and user agent, replaces the old token with the new refresh token, signs the access token from the verified user id, the stored device and the owner's role id and role name, and changes no other table |
| AuthService.RefreshTokenSingleUse | src/routes/auth/auth.service.ts:193-235 | a refresh token used successfully is refused as already used the next time |
| AuthService.RefreshWritesLandBeforeTokens | src/routes/auth/auth.service.ts:213-227 | once the owner is loaded, the device update and the old token's delete are in the store whether or not the new pair is issued; a failed issue reports UnauthorizedAccess |
| AuthService.Logout | src/routes/auth/auth.service.ts:237-255 | a verified stored token is deleted and its device marked inactive; every failure is UnauthorizedAccess |
| AuthService.LogoutRevokes | src/routes/auth/auth.service.ts:237-255 | after logout, the token can be used neither to refresh nor to log out again |
| AuthService.ForgotPassword | src/routes/auth/auth.service.ts:257-281 | unknown email is EmailNotFound; an invalid code is refused; success stores the new hash on that user and deletes that email's code, and nothing else changes |
| AuthService.ForgotPasswordCodeSingleUse | src/routes/auth/auth.service.ts:257-281 | a code used to reset a password cannot be used again |
| AuthService.SetupTwoFactorAuth | src/routes/auth/auth.service.ts:283-296 | succeeds exactly for a known user without 2FA, storing the new secret |
| AuthService.DisableTwoFactorAuth | src/routes/auth/auth.service.ts:298-328 | needs a known user with 2FA on and a valid TOTP code or OTP; success clears the secret; failures change nothing |
| AuthService.DisableThroughSchemaChecksAFactor | src/routes/auth/auth.service.ts:298-328 | for a body the schema accepts, success means the one code sent was checked |
| AuthInvariants.SendOtpPreservesValid | src/routes/auth/auth.service.ts:95-119 | sending an OTP keeps the store's invariant (the email index names each user once, codes keyed by their email, each refresh token keyed by itself and bound to an existing device, user and device ids below their counters) |
| AuthInvariants.RegisterPreservesValid | src/routes/auth/auth.service.ts:72-93 | register keeps the store's invariant |
| AuthInvariants.CreateDevicePreservesValid | src/routes/auth/auth.repo.ts:58-64 | creating a device keeps the store's invariant |
| AuthInvariants.GenerateTokensPreservesValid | src/routes/auth/auth.service.ts:171-191 | issuing tokens for an existing user keeps the store's invariant |
| AuthInvariants.LoginPreservesValid | src/routes/auth/auth.service.ts:121-169 | login keeps the store's invariant |
| AuthInvariants.RefreshPreservesValid | src/routes/auth/auth.service.ts:193-235 | token rotation keeps the store's invariant |
| AuthInvariants.LogoutPreservesValid | src/routes/auth/auth.service.ts:237-255 | logout keeps the store's invariant |
| AuthInvariants.ForgotPasswordPreservesValid | src/routes/auth/auth.service.ts:257-281 | password reset keeps the store's invariant |
| AuthInvariants.SetupTwoFactorPreservesValid | src/routes/auth/auth.service.ts:283-296 | 2FA set-up keeps the store's invariant |
| AuthInvariants.DisableTwoFactorPreservesValid | src/routes/auth/auth.service.ts:298-328 | 2FA removal keeps the store's invariant |
| AuthInvariants.LoginTokenIdentifiesUser | src/routes/auth/auth.service.ts:152-168 | with a verifier that recovers what was signed, the access token of a successful login names the user, the new device and the user's role |
| RolesService.LiveClientRole | src/routes/auth/roles.service.ts:15-19 | the first role named Client that is not deleted, or none exists |
| RolesService.GetClientRoleId | src/routes/auth/roles.service.ts:11-22 | a truthy cached id is returned without a lookup; otherwise the live Client role's id is looked up and cached; no such role is record-not-found |
| RolesService.CachedIdIsFinal | src/routes/auth/roles.service.ts:11-22 | once a non-zero id is cached, every later call returns it and the cache never changes |
| RolesService.FirstNonZeroIdSticks | src/routes/auth/roles.service.ts:11-22 | over a sequence of calls, a non-zero id once returned is returned by every later call, whatever the store becomes |
| RolesService.ZeroIsNeverServedFromCache | src/routes/auth/roles.service.ts:12-14 | a cached id of 0 is falsy, so the call behaves as with an empty cache |
| AuthDecorator.Auth | src/shared/decorators/auth.decorator.ts:11-12 | records the auth types and the condition, `and` by default |
| AuthDecorator.IsPublic | src/shared/decorators/auth.decorator.ts:14 | a public route is `[None]` under `and` |
| AuthenticationGuard.ResolveGuards | src/shared/guards/authentication.guard.ts:31-35 | resolves every type to its guard exactly when all types are supported; otherwise reports an unsupported type |
| AuthenticationGuard.EvalAnd | src/shared/guards/authentication.guard.ts:47-52 | allows exactly when every guard passes; stops at the first that does not, rejecting with its error (a rejection or a synchronous throw) or Unauthorized |
| AuthenticationGuard.EvalOr | src/shared/guards/authentication.guard.ts:37-46 | allows exactly when some guard passes with every earlier guard caught (resolved false or rejected), stopping there; otherwise rejects either after running every guard, all caught, or at the first synchronous throw with its error |
| AuthenticationGuard.OrFirstUncaughtDecides | src/shared/guards/authentication.guard.ts:39-45 | the first guard `.catch` does not absorb decides `or` and is the last one run: a pass allows, a synchronous throw rejects with its error |
| AuthenticationGuard.AndFirstFailureDecides | src/shared/guards/authentication.guard.ts:48-51 | the first guard that does not pass decides `and` and is the last one run, rejecting with its error or Unauthorized |
| AuthenticationGuard.OrFoldDecides | src/shared/guards/authentication.guard.ts:37-46 | `or` meets every rule of its reference decision table |
| AuthenticationGuard.AndFoldDecides | src/shared/guards/authentication.guard.ts:47-52 | `and` meets every rule of its reference decision table |
| AuthenticationGuard.ResolvedChainDecides | src/shared/guards/authentication.guard.ts:25-54 | for any list whose types all resolve, the outcomes are the mapped guards' outcomes in list order and the decision follows the table: under `or`, the first uncaught outcome decides and all caught gives the last rejection's error (else Unauthorized) after every guard; under `and`, allowed exactly when all pass, else the first non-pass decides |
| AuthenticationGuard.LastThrownCons | src/shared/guards/authentication.guard.ts:38-46 | the reference "last thrown error" folds one outcome at a time |
| AuthenticationGuard.OrRejectsWithLastThrown | src/shared/guards/authentication.guard.ts:37-46 | when every guard is caught, `or` rejects with the last thrown error (or the initial Unauthorized) after running all guards |
| AuthenticationGuard.CanActivate | src/shared/guards/authentication.guard.ts:25-54 | a missing decorator means `[None]`/`and`; an unsupported type rejects before any guard runs; otherwise the chosen condition decides |
| AuthenticationGuard.UndecoratedRouteIsPublic | src/shared/guards/authentication.guard.ts:26-29 | an undecorated route is allowed after running only the allow-all guard |
| AuthenticationGuard.IsPublicIsTheDefault | src/shared/decorators/auth.decorator.ts:14 | `@IsPublic()` behaves exactly like no decorator |
| AuthenticationGuard.UnsupportedTypeRejectsFirst | src/shared/guards/authentication.guard.ts:31-35 | any unsupported type rejects with Unauthorized and runs no guard |
| AuthenticationGuard.EmptyGuardList | src/shared/guards/authentication.guard.ts:37-52 | an empty list is allowed under `and` and rejected with the initial Unauthorized under `or` |
| AuthenticationGuard.BearerOrApiKey | src/shared/guards/authentication.guard.ts:38-46 | `[Bearer, ApiKey]` under `or`, every combination: a passing bearer allows after one guard and a synchronously throwing one rejects with its error; otherwise an API-key pass allows, its throw wins over the bearer's, a bearer rejection is kept when the API key only refuses, and two refusals give the generic Unauthorized |
| AuthenticationGuard.BearerOnlyRoute | src/shared/guards/authentication.guard.ts:47-52 | a bearer-only route allows exactly when the access-token guard passes, and passes its request on |
| AccessTokenGuard.ExtractAccessToken | src/shared/guards/access-token.guard.ts:43-47 | the token is the non-empty second space-separated piece of the header |
| AccessTokenGuard.ExtractAfterFirstSpace | src/shared/guards/access-token.guard.ts:43-47 | the token is what lies between the first and second space |
| AccessTokenGuard.SchemeIsNotChecked | src/shared/guards/access-token.guard.ts:43-47 | any first word is accepted as the scheme, not only "Bearer" |
| AccessTokenGuard.NoSpaceNoToken | src/shared/guards/access-token.guard.ts:43-47 | a header without a space (or no header) yields no token |
| AccessTokenGuard.FindActiveRole | src/shared/guards/access-token.guard.ts:56-63 | the first active, undeleted role with the claimed id, or none exists |
| AccessTokenGuard.ValidateUserPermissions | src/shared/guards/access-token.guard.ts:49-71 | every failure is Forbidden; a missing role or an undefined route path always fails |
| AccessTokenGuard.PermissionGate | src/shared/guards/access-token.guard.ts:49-71 | access is granted exactly when the active role holds an undeleted permission for this path and method |
| AccessTokenGuard.CanActivate | src/shared/guards/access-token.guard.ts:21-41 | never denies silently and, being async, never throws synchronously; a missing or unverifiable token throws Unauthorized; a verified token attaches its claims and then the permission check decides |
| AccessTokenGuard.TokenFailureIgnoresStore | src/shared/guards/access-token.guard.ts:31-41 | a token that fails to verify throws Unauthorized whatever the store holds |
| AccessTokenGuard.BearerPassesIff | src/shared/guards/access-token.guard.ts:21-71 | the guard passes exactly when a token is extracted and verified and the permission gate opens |
| Pagination.CeilDiv | src/shared/helper/pagination.helper.ts:2 | the result is the least page count covering all items |
| Pagination.GetPagination | src/shared/helper/pagination.helper.ts:1-11 | echoes the inputs; the page count is the ceiling of items over limit; there is a next page exactly when `page < totalPages` and a previous one exactly when `page > 1` |
| Pagination.NoItemsNoPages | src/shared/helper/pagination.helper.ts:2-8 | no items means no pages; then "has next" holds only for a negative page |
| Pagination.PagesStartInsideTable | src/shared/helper/pagination.helper.ts:2 | for page >= 1, the page is within the page count exactly when its first row exists |
| Pagination.NextPageStartsInside | src/shared/helper/pagination.helper.ts:8 | when there is a next page, its first row exists |
| RoleRepo.LiveRoleIndex | src/routes/role/role.repo.ts:25-34 | the position of the undeleted role with that id, or none exists |
| RoleRepo.Count | src/routes/role/role.repo.ts:13-15 | the count is the number of table positions holding an undeleted role |
| RoleRepo.List | src/routes/role/role.repo.ts:17-23 | at most `limit` undeleted roles, empty past the count, full when enough remain; row i is the undeleted role with exactly `skip + i` undeleted roles before it, and every undeleted role so ranked appears |
| RoleRepo.LivePosition | src/routes/role/role.repo.ts:17-23 | for each rank below the count, the position of the undeleted role with exactly that many undeleted roles before it |
| RoleRepo.PageSizes | src/routes/role/role.repo.ts:13-23 | a page of undeleted roles is bounded by `limit`, empty past the count and full while enough remain |
| RoleRepo.PageRanks | src/routes/role/role.repo.ts:17-23 | slot i of a page of undeleted roles holds the one ranked `skip + i`, and each undeleted role ranked inside the page is in its slot |
| RoleRepo.ConsecutivePagesJoin | src/routes/role/role.repo.ts:17-23 | the page at `skip` of size a followed by the page at `skip + a` of size b is the page at `skip` of size a + b |
| RoleRepo.LivePermissionsOf | src/routes/role/role.repo.ts:25-34 | the included permissions are exactly the role's permissions that are not deleted |
| RoleRepo.FindById | src/routes/role/role.repo.ts:25-34 | found exactly when an undeleted role has the id; returns it with its live permissions |
| RoleRepo.NameHolder | src/routes/role/role.repo.ts:36-46 | the position of another role holding the name, or no other role holds it |
| RoleRepo.Create | src/routes/role/role.repo.ts:36-46 | a taken name is a unique violation; otherwise appends the role under a fresh id, recording the creator |
| RoleRepo.DeletedRequested | src/routes/role/role.repo.ts:58-69 | exactly the requested permissions that are deleted |
| RoleRepo.Update | src/routes/role/role.repo.ts:48-84 | a deleted permission in the request is refused first; a missing role is an error; success replaces the role's fields and sets its permission set to exactly the requested ids |
| RoleRepo.Delete | src/routes/role/role.repo.ts:86-101 | fails exactly when no undeleted role has the id; a hard delete removes the row, a soft delete marks it deleted by the actor |
| RoleRepo.CreateIsFound | src/routes/role/role.repo.ts:25-46 | a created role is then found by id with no permissions, and the count of undeleted roles grows by one |
| RoleRepo.AppendIsFound | src/routes/role/role.repo.ts:25-46 | a live role appended under the next id keeps ids distinct and is then found by id with no permissions |
| RoleRepo.AppendIsCounted | src/routes/role/role.repo.ts:13-15 | appending a live role adds one to the count of undeleted roles |
| RoleRepo.UpdateIsFound | src/routes/role/role.repo.ts:25-84 | an updated role is then found by id with the new fields and every requested live permission |
| RoleRepo.DeleteHides | src/routes/role/role.repo.ts:25-34 | after delete (hard or soft) ids stay distinct, the role is no longer found and the count of undeleted roles drops by one |
| RoleRepo.HardDeleteHides | src/routes/role/role.repo.ts:86-101 | removing a live row keeps ids distinct, leaves no live row with its id, and lowers the count by one |
| RoleRepo.SoftDeleteHides | src/routes/role/role.repo.ts:86-101 | replacing a live row by its deleted copy keeps ids distinct, hides the id, and lowers the count by one |
| RoleService.VerifyRole | src/routes/role/role.service.ts:21-31 | NotFoundRecord exactly when no undeleted role has the id; RoleIsProtected exactly when it is one of the three built-in roles |
| RoleService.Skip | src/routes/role/role.service.ts:34 | with a positive limit, the skip is negative exactly for a page below 1 |
| RoleService.List | src/routes/role/role.service.ts:33-45 | a page below 1 is InvalidSkip; otherwise one page of undeleted roles with its pagination info |
| RoleService.ListPageIsNonEmptyIff | src/routes/role/role.service.ts:33-45 | a listed page holds at most `limit` rows, and holds some exactly when the page is within the page count |
| RoleService.FindById | src/routes/role/role.service.ts:47-51 | RoleNotFound exactly when no undeleted role has the id |
| RoleService.Create | src/routes/role/role.service.ts:53-60 | a taken name is RoleAlreadyExists; otherwise the repository's new role |
| RoleService.Update | src/routes/role/role.service.ts:62-80 | the verification runs first; success is the repository update; repository failures are mapped to the service errors |
| RoleService.Delete | src/routes/role/role.service.ts:82-92 | the verification runs first; success soft-deletes the role and returns the message |
| RoleService.ProtectedRolesStay | src/routes/role/role.service.ts:26-30 | Admin, Client and Seller can be neither updated nor deleted |
| RoleService.DeleteNeverReportsRoleNotFound | src/routes/role/role.service.ts:82-92 | delete reports NotFoundRecord for a missing role and never RoleNotFound |
| RoleService.DeletedRoleIsNotFound | src/routes/role/role.service.ts:47-92 | after a successful delete, finding the role gives RoleNotFound |
| RoleService.UpdatedRoleIsFound | src/routes/role/role.service.ts:47-80 | after a successful update the role is found as updated, with its live permissions exactly among the requested ids and every requested live permission present |
| CreatePermissions.ModuleOf | initialScript/create-permissions.ts:30 | the module is a single path segment; there is none exactly when the path has no slash |
| CreatePermissions.ModuleOfTopLevel | initialScript/create-permissions.ts:30 | `/x` belongs to module `x` |
| CreatePermissions.ModuleOfNested | initialScript/create-permissions.ts:30 | `/x/rest` belongs to module `x` |
| CreatePermissions.ToRoute | initialScript/create-permissions.ts:26-37 | path is prefix plus route path, method upper-cased, name is "METHOD path", module from the path |
| CreatePermissions.AvailableRoutes | initialScript/create-permissions.ts:20-39 | exactly the router layers that carry a route, each turned into a route record |
| CreatePermissions.KeyIsInjective | initialScript/create-permissions.ts:41-55 | the `method-path` key identifies method and path uniquely (methods carry no dash) |
| CreatePermissions.ToDelete | initialScript/create-permissions.ts:58-60 | exactly the live permissions whose key no route has |
| CreatePermissions.ToAdd | initialScript/create-permissions.ts:75-77 | exactly the routes whose key no live permission has |
| CreatePermissions.DeleteAndAddAreDisjoint | initialScript/create-permissions.ts:58-77 | no permission slated for deletion shares a key with a route slated for creation |
| CreatePermissions.NewRows | initialScript/create-permissions.ts:79-87 | one new permission per route, with fresh consecutive ids and the route's fields |
| CreatePermissions.AdminIndex | initialScript/create-permissions.ts:97-99 | the first undeleted role named Admin, or none exists |
| CreatePermissions.Kept | initialScript/create-permissions.ts:62-73 | exactly the rows not slated for deletion survive |
| CreatePermissions.Reconcile | initialScript/create-permissions.ts:58-87 | roles untouched; the table is the surviving rows followed by the new ones |
| CreatePermissions.Sync | initialScript/create-permissions.ts:15-108 | reconciles, then gives Admin every live permission, or fails when there is no Admin role (keeping the reconciliation) |
| CreatePermissions.AfterReconcile | initialScript/create-permissions.ts:90-94 | the live permissions after reconciling are the live survivors followed by the new rows |
| CreatePermissions.EveryPermissionHasRoute | initialScript/create-permissions.ts:58-73 | every live permission after reconciling has a route |
| CreatePermissions.MatchedPermissionSurvives | initialScript/create-permissions.ts:58-73 | a live permission that matches a route is kept |
| CreatePermissions.UnmatchedRouteIsAdded | initialScript/create-permissions.ts:75-87 | a route no live permission matches gets a permission |
| CreatePermissions.EveryRouteHasPermission | initialScript/create-permissions.ts:58-87 | every route has a live permission after reconciling |
| CreatePermissions.ReconcileMatchesRoutes | initialScript/create-permissions.ts:58-94 | after reconciling, the live permissions' keys are exactly the routes' keys |
| CreatePermissions.AdminHoldsEveryPermission | initialScript/create-permissions.ts:97-108 | after a successful sync the Admin role holds exactly the live permissions' ids |
| Seed.Main | initialScript/index.ts:8-40 | refuses when any role exists; otherwise creates the three built-in roles and an Admin user with the hashed password, failing on a taken email; only the roles, the role counter and the one new user (with its email index entry and counter) change |
| Seed.SeededRolesAreProtected | initialScript/index.ts:13-19 | every seeded role is one the role service refuses to change |
| Seed.SeededClientRoleIsFound | initialScript/index.ts:13-19 | after seeding, the client-role lookup finds the seeded Client role |

## Left out

- JWT signing and verification, bcrypt hashing, TOTP checking and mail sending are external. They are function-valued parameters (`Externals.Services`) or a boolean outcome. OTP codes, UUID nonces and TOTP secrets are parameters too, because they are random.
- The clock is a parameter `now` in milliseconds. `createdAt`, `updatedAt` and `expiresIn` string parsing are not modelled.
- Only refresh (`auth.service.ts:227`) runs writes under `Promise.all`: the device update, the old token's delete and the new token's insert. The model runs them in that order and stops at the first failure. Under `Store.Valid` the first two cannot fail once the owner is loaded, and the insert writes a different key, so the sequential order gives the same store (`AuthService.RefreshWritesLandBeforeTokens`). A new token equal to the old one would make the concurrent order matter; it is not modelled.
- Email-format, length and enum validation of the body schemas is left out. Only the `superRefine` rules and the lengths the proofs use are modelled.
- Google OAuth (`google.service.ts`), the controllers, the DTOs and the language and permission modules are not part of this model.
- The API-key guard's implementation is not part of this model; its outcome is a parameter of `AuthenticationGuard.CanActivateRequest`.
- `role.constant.ts`, `app.constant.ts` and the user model file are not part of this model. The role names Admin, Client and Seller come from the code that uses them, and `GLOBAL_PREFIX` is a parameter.
- `updateUser` and `deleteVerificationCode` are called by the auth service but are not defined in `auth.repo.ts`. They are modelled as a Prisma update or delete by the unique key.
- RoleService.List, RoleService.Skip and Pagination.GetPagination: require `limit > 0`, a modelling choice. The query schema only coerces `limit` to a number with default 10 and the controller passes it on unchanged. A zero limit makes `Math.ceil` divide by zero (Infinity or NaN) and a negative one makes Prisma reject `take`; neither is modelled. A non-integer page is not modelled.
- Strings.ToUpper: upper-cases ASCII letters only, not the full Unicode case mapping of `toUpperCase`.
- RoleRepo.Update: assumes Prisma checks the role, then the permission ids, then the unique name. A missing role or permission id is a record-not-found error.
- CreatePermissions.Sync: no unique constraint on a permission's (path, method) is assumed, so `skipDuplicates` has nothing to skip. The permission table gets no soft-delete flag: `deleteMany` removes the rows.
- RoleRepo.Delete: a hard delete does not check foreign keys (users still holding the role).
- Seed.Main: assumes the schema defaults `isActive` to true for the seeded roles. Their description is the role name followed by " role".

## Findings

| source | as written | input that shows it | evidently intended | confidence | as-written member | corrected member |
|---|---|---|---|---|---|---|
| src/routes/auth/auth.service.ts:82-91 | `return this.authRepository.createUser(...)` without `await` inside `try`, so the rejected promise escapes the `catch` | a valid REGISTER code for an email that already belongs to a user (the code was sent before the user was created) | a duplicate email reported as EmailAlreadyExists, as the `catch` says | high, not executed | AuthService.RegisterAsWritten (with AuthService.RegisterDuplicateEmail) | AuthService.Register |

Observations that follow the code and are not defects claimed here:

- `RoleService.Delete` can never report RoleNotFound. The verification before it uses the same filter, so that mapping is dead (`RoleService.DeleteNeverReportsRoleNotFound`).
- In logout, the branch for an HTTP error is unreachable. A token that is not stored gives UnauthorizedAccess, not RefreshTokenAlreadyUsed.
- Re-sending an OTP for a different purpose keeps the old purpose, because the upsert updates only the code and the expiry (`AuthService.SendOtpKeepsStaleType`).
- For a negative page, `hasNext` holds even when there are no items (`Pagination.NoItemsNoPages`).
- In `or`, the `.catch` absorbs only a rejected promise. A guard whose `canActivate` throws synchronously ends the chain at once with its error, and later guards do not run (`AuthenticationGuard.OrFirstUncaughtDecides`). The access-token guard is `async`, so it never does this; the API-key guard's outcome is free.
