# Accounts, tenants and migrations: a verified model

A Dafny model of the parts of the toolkit where a mistake would cost most: the password account store
over its tables, tenant isolation from a session to a pooled connection, the merge of migration files, the
printers and parsers of stored hashes and tokens, one data migration, and the shutdown of the HTTP server.
`dafny verify dfyconfig.toml` checks all of it.

## How it is built

- **Tables and queries.** `Schema` gives the tables and the meaning of each query, `Memberships` the laws of
  their listing and upsert. `Database` is the mutable database with transactions, one method per query of
  internal/db/password.sql.go and internal/db/auth.sql.go, foreign keys and unique indexes included. A call that
  fails is named by a `Point`; every operation takes the set of points that fail, so every theorem holds for a
  failure at any query.
- **The store twice.** `Store` holds the operations statement by statement, with early returns, commits and
  the deferred rollback. `StoreSpec` says what each does to the tables as a function, and each method is
  proved to do exactly that. Everything else is proved about `StoreSpec`.
- **Runs.** `Runs` is any sequence of operations, clock ticks and changes of the hashing parameters, from
  empty tables. `Accounts`, `Provisioning`, `Registration`, `TokenHistory`, `PasswordMap`,
  `EmailVerification` and `Unlock` prove what holds over all runs, and `Journeys` that the runs a user expects
  exist. `LockoutInterleaved`, `LiveTokens` and `RegistrationRace` split the operations at the points where
  concurrent calls can come in between, and prove what holds over all interleavings.
- **Tenants.** `TenantContext` is the request context, `Sessions` the handlers and the middleware, `Pool` the
  hooks of the connection pool, with the search_path of each connection, and `TenantSafety` puts them
  together: login, selection, logout, requests, acquire, use and release interleave freely.
- **Methods.** Where the source changes state the model does: besides `Store` and `Database`, the handlers are
  methods of `Sessions.SessionStore`, the hooks and the pool of `Pool.Pool`, the two threads of the server of
  `Shutdown.HTTPServerRun`, and `Hasher.ParseParams` and `Hasher.DecodePhcString` are the parsing loops. Each is
  proved to do what a function says, and the theorems are about that function.
- **The rest.** `Base64`, `Text`, `Hasher`, `Token` and `Quote` are printers with their readers;
  `MigrationMerge` and `FlatDirectory` the merged migration files; `TenantMigration` the move of
  `users.tenant_id`; `Shutdown` the two threads of `runHTTPServer`.

## What is assumed

- Argon2id and SHA-256 are parameters, arbitrary functions. Where a theorem needs that two passwords do not
  collide, it asks this only of the password presented and the current one, under the salt and cost of the
  stored hash (`CollisionFree`). Fresh tokens have hashes not seen before. Salts have the configured length,
  and Argon2id returns as many bytes as asked.
- The password policy is a parameter, any predicate of the password and its context words.
- One clock that never goes back; an operation reads it once.
- As in PostgreSQL, a statement that fails inside a transaction aborts it, and a commit that fails or comes
  after an abort rolls back. Outside a transaction each statement is its own commit.
- Federated identities have another issuer than the local accounts; `DeletePasswordCredential` is not called.
- As in pgx, a hook that returns false destroys the connection. Where the name `set_tenant` resolves, it is the
  function of the core migration.
- A Go panic inside a handler (Argon2id refuses zero iterations, zero threads or an empty key) unwinds through
  the deferred rollback; the model reports it as an internal error.
- Strings are sequences of code points. The order of code points is that of their UTF-8 bytes.

## What the proofs found

- The comment at auth/password/store.go:359-360 says that committing the attempt of an unverified user whose
  password matched resets the lockout window. The query at internal/db/password.sql.go:38-44 counts failures
  only, so neither that attempt nor a successful login does: `Unlock.MatchKeepsFailures`.
- Two registrations of one email can both succeed: one that looked the email up before the other committed
  then finds the other's user and overwrites its password: `RegistrationRace.TwoRegistrationsSucceed`.
- With N calls of one user in flight the lockout admits MaxAttempts + N - 1 failures in one window, and
  `LockoutInterleaved.BoundIsReached` shows a run that gets there.
- The hooks tolerate that `set_tenant` does not resolve, which depends on the connection's search_path. A lessee
  that moves the search_path away leaves its tenant on the connection, and the next lessee starts with it, though
  the function exists and nobody set a tenant directly: `Pool.TenantLeaks`. Releasing a connection with a tenant
  while the name does not resolve on it is the only way an idle connection keeps one: `Pool.IdleCleanExactly`.
- `flatDir.ReadDir(n)` panics exactly when files are left and `pos + n` exceeds the largest int:
  `FlatDirectory.PageAt`, and for whole sequences of calls `FlatDirectory.NeverPanicsExactly`. Two files, read with
  size 1 and then with the largest int, are enough: `FlatDirectory.LargestSizePanics`.
- `quoteIdentifier("")` prints `""`, which is no delimited identifier in section 5.2 of ISO/IEC 9075:1992, as
  a delimited identifier has at least one part; every other string is read back: `Quote.QuotedReadsBack`.
- Down after Up does not restore every `tenant_id`. It does exactly for users who had no membership or whose one
  oldest membership is in that tenant: `TenantMigration.DownAfterUpRestores`.
- An error of `Shutdown` hides the error that ended serving: `Shutdown.ResultExactly`.

## Model

| member | source | states |
|---|---|---|
| Schema.FindUser | internal/db/password.sql.go:89-140 | a returned user is in the table and has the key; with none returned, no user has it |
| Schema.TokenOwner | internal/db/password.sql.go:16-24 | a returned owner has a usable token of that hash and type; with none returned there is no such token |
| Memberships.ListingExactly | internal/db/auth.sql.go:161-196 | a user's listing shows exactly the rows of that user whose tenant exists, each once, in the order of the rows, with tenant, name and role |
| Memberships.ViewExactly | auth/postgres_store.go:143-158 | a view is listed exactly when some membership row of the user and its tenant row are what it shows |
| Memberships.TenantsExactly | internal/db/auth.sql.go:161-170 | the tenants listed are exactly those of the user's memberships, each once |
| Memberships.UpsertExactly | internal/db/auth.sql.go:198-204 | an upsert replaces the row of its key in place, or appends, and leaves all others |
| Store.PostgresIdentityStore.FirstTenantOrCreate | auth/postgres_store.go:172-196 | returns the first tenant, or creates one exactly when there is none, with every failure |
| Store.PostgresIdentityStore.ListMemberships | auth/postgres_store.go:143-158 | the loop copies exactly the rows of the query |
| Store.PostgresIdentityStore.CreateMembership | auth/postgres_store.go:198-220 | writes the membership; a failure to read the tenant's name is ignored, but aborts an open transaction |
| Store.PostgresIdentityStore.ResolveOrProvisionUser | auth/postgres_store.go:60-140 | finds the user of issuer and subject, or writes tenant, user and membership in order, leaving exactly what was written before a failure |
| Store.PasswordIdentityStore.Register | auth/password/store.go:93-236 | runs the registration in one transaction; an error of any kind, the sender's included, leaves every table as it was |
| Store.PasswordIdentityStore.RegisterInTx | auth/password/store.go:164-224 | the statements of that transaction; a failed lookup lets the code go on in an aborted transaction, where the next statement fails |
| Store.PasswordIdentityStore.Authenticate | auth/password/store.go:245-424 | lookup, lockout, credential, verification, attempt, commit and rehash, with the outcome of every failure |
| Store.PasswordIdentityStore.FinishLogIn | auth/password/store.go:347-424 | after a match: the attempt is committed also for an unverified user; the rehash comes after the commit and cannot fail the login |
| Store.PasswordIdentityStore.ChangePassword | auth/password/store.go:427-486 | verifies the old password before anything is written; invalidates reset tokens last, its failure ignored |
| Store.PasswordIdentityStore.InitiatePasswordReset | auth/password/store.go:492-530 | an unknown email gets the same empty success as a failing lookup; a known one gets a new token after its old ones are invalidated |
| Store.PasswordIdentityStore.CompletePasswordReset | auth/password/store.go:533-579 | consumes first; the token stays consumed when the policy, the hashing or the update then fails |
| Store.PasswordIdentityStore.IssueTokenFor | auth/password/store.go:586-614 | invalidates the old tokens (failure ignored outside a transaction), then inserts the new one |
| Store.PasswordIdentityStore.VerifyEmail | auth/password/store.go:617-638 | consumes first and then sets the flag of the token's owner |
| Accounts.StepKeepsInvariant | auth/password/store.go:101-236 | every operation, whichever of its calls fail, keeps: each local account has exactly one credential, a membership, and its email as subject; users do not clash on id, issuer and subject, or non-empty email and issuer; tokens belong to users |
| Accounts.RunKeepsInvariant | migrations/auth/20260422000000_unique_email_issuer.sql:11-13 | so in every world of every run |
| Accounts.RegisterCreates | auth/password/store.go:156-225 | a successful registration adds exactly one unverified user and its hash, and no attempt |
| Accounts.CreateForeignKeeps | auth/postgres_store.go:60-140 | a federated first login that stops anywhere leaves the invariant intact |
| Provisioning.UnknownIsCreated | auth/postgres_store.go:83-140 | an unknown user is created with these columns and one membership of the first tenant as a member; a call that fails, or a row that breaks a key, stops it there, and what was written before stays |
| Provisioning.KnownIsReturned | auth/postgres_store.go:65-81 | a known user is returned, exactly if there is a membership and no call fails, and nothing is written |
| Provisioning.UnknownIsProvisioned | auth/postgres_store.go:60-140 | so over every run: reply and tables of a federated first login, whichever calls fail |
| Provisioning.KnownLogsIn | auth/postgres_store.go:60-81 | and of a later one |
| Provisioning.RunRowsFit | migrations/auth/20260221161000_auth.sql:25-33 | in every run the keys of tenants and memberships are unique and memberships have their user |
| Provisioning.RunListing | auth/postgres_store.go:143-158 | in every run ListMemberships shows exactly the tenants of the user's memberships |
| Registration.RegisterRefines | auth/password/store.go:132-236 | a registration succeeds exactly when email and password are there, the policy accepts the password beside email and username, no local account has the email, the generated id is free and no call it depends on fails; otherwise it is a policy violation or a taken email, each with its condition, and nothing changes |
| Registration.RegisteredRows | auth/password/store.go:186-215 | the new account's columns, its one membership of the first tenant, and no attempt |
| Journeys.WelcomeUsersLogIn | auth/password/store.go:101-424 | after any history a new account can be registered, confirmed with its token and logged into |
| Runs.RunsExtend | auth/password/store.go:101-638 | any operation the surroundings allow extends any run |
| RegistrationRace.AtMostOneExactly | auth/password/store.go:162-228 | under read committed at most one registration of an email succeeds exactly when no successful one had another committed between its lookup of the email and its lookup of the user |
| RegistrationRace.LastRegistrationWins | auth/password/store.go:210-228 | all successes of an email are for one account, and its password is the one of the last |
| RegistrationRace.TwoRegistrationsSucceed | auth/password/store.go:168-228 | a run in which two succeed and the first password no longer works |
| RegistrationRace.AloneIsRegister | auth/password/store.go:162-228 | the steps of one call alone do what the registration transaction does |
| TokenHistory.RowHistory | auth/password/store.go:586-614 | every token row was issued, by the operation that appended it, to its user; while it is live nothing since has superseded or consumed it |
| TokenHistory.RequestExactly | auth/password/store.go:492-530 | a reset request for an unknown email, or whose lookup fails, answers an empty success and changes nothing; any other request answers exactly the token it leaves in the table, or fails |
| TokenHistory.SupersedesAt | auth/password/store.go:473-482 | after a newer request or a password change whose invalidation runs, no earlier token of that user and type is live |
| TokenHistory.ConsumptionTraces | internal/db/password.sql.go:16-24 | every consumption traces back to the issue of that token to that user, not expired, with no consumption, newer request or password change in between |
| TokenHistory.ResetProvenance | auth/password/store.go:502-545 | every successful reset traces back to one InitiatePasswordReset for the same user in that way |
| TokenHistory.SingleUse | auth/password/store.go:536-561 | a consumed token is refused for ever, as either type, also when the consuming call failed afterwards, and the refusal changes nothing |
| TokenHistory.KindsNeverMix | internal/db/password.sql.go:16-24 | a token of one type never serves as the other |
| TokenHistory.ConsumedIsWriteOnce | internal/db/password.sql.go:164-170 | between any two points of a run rows stay, with user, hash, type and expiry, and consumed_at is written at most once |
| TokenHistory.RunDistinctHashes | auth/password/store.go:596-611 | no two token rows share a hash |
| TokenHistory.SerialRunsHaveOneLiveToken | auth/password/store.go:502-527 | in serial runs whose invalidations succeed a user has at most one live token of each type |
| TokenHistory.ConsumedExactly | internal/db/password.sql.go:16-24 | a presented token is consumed for a user exactly when it was issued to that user, has not expired, and nothing since has consumed or superseded it |
| TokenHistory.ResetExactly | auth/password/store.go:533-579 | a reset completes exactly when no call it depends on fails, its token traces back to a request and the policy accepts the new password beside the user's email and username |
| TokenHistory.ConfirmExactly | auth/password/store.go:617-638 | a confirmation completes exactly when neither of its calls fails and its token traces back to its issue |
| LiveTokens.LiveTokensFromStart | auth/password/store.go:586-611 | however at most N requests of a user and type interleave, live tokens and requests in flight together never exceed N |
| LiveTokens.InterleavedWriteOnce | internal/db/password.sql.go:164-170 | however the statements of all calls interleave, rows keep user, hash, type and expiry, and consumed_at is written at most once |
| LiveTokens.InterleavedSingleUse | internal/db/password.sql.go:16-24 | among all those statements at most one consumption of a hash finds its token, as either type |
| LiveTokens.IssueIsTwoSteps | auth/password/store.go:502-527 | a request that runs alone is the two steps of that model |
| PasswordMap.RunRepresents | auth/password/store.go:245-424 | over every run the stored hashes stand for the passwords last set; logins and rehashes never change that map |
| PasswordMap.LoginRefines | auth/password/store.go:245-424 | whichever calls fail, a login answers as the map says: it succeeds exactly when none fails that it depends on, the account exists, is not locked, is verified if required and the password is the one last set; else it fails with the listed error |
| PasswordMap.ChangeRefines | auth/password/store.go:427-486 | whichever calls fail, a change succeeds exactly for the current password and a new one the policy accepts beside the user's email and username, and then sets it |
| PasswordMap.RehashExactly | auth/password/store.go:384-413 | a successful login leaves the user's hash made from the same password with the present parameters, unless salt or update fails; it writes no hash that was up to date, and no other user's |
| PasswordMap.ResetRefines | auth/password/store.go:533-579 | a reset whose token traces back to a request of a user completes exactly for a password the policy accepts, no call failing, and then sets it for that user; a refused password is a policy violation |
| PasswordMap.UntracedResetFails | auth/password/store.go:536-545 | any other reset is refused and sets nothing |
| EmailVerification.VerifiedStays | internal/db/password.sql.go:198-202 | a user stays and email_verified never goes back to false |
| EmailVerification.VerifiedWasConfirmed | auth/password/store.go:187-194 | a local account is verified only after a successful VerifyEmail that consumed a token of that user |
| EmailVerification.VerifiedByOwnToken | auth/password/store.go:586-638 | and that token had been issued to that user and had not expired |
| EmailVerification.LoginWasConfirmed | auth/password/store.go:361-372 | with RequireEmailVerification every successful login has such a confirmation earlier in its run |
| EmailVerification.UsersAt | internal/db/password.sql.go:198-218 | a user's row changes only in email_verified, by that user's confirmation, and in last_login_at, by that user's login |
| Unlock.LockedExactly | auth/password/lockout.go:7-9 | locked exactly while the MaxAttempts-th newest failure is inside the window |
| Unlock.LockedUntil | auth/password/store.go:275-293 | in every run: locked exactly until the opening time |
| Unlock.OpeningTimeStays | auth/password/store.go:275-293 | no number of calls made while locked adds a failure or moves the opening time |
| Unlock.UnlocksOnTime | auth/password/store.go:264-345 | at the opening time the correct password of a verified account logs in |
| Unlock.AttemptsExactly | auth/password/store.go:322-365 | a login leaves exactly one attempt row, failed or successful, if it gets to its outcome and commits it, and no row otherwise; no other operation leaves any |
| Unlock.WrongPasswordCounts | auth/password/store.go:322-344 | a wrong password for an account that is not locked is answered as such and adds one failure of that user and of nobody else |
| Unlock.WrongPasswordsLock | auth/password/store.go:264-344 | after MaxAttempts of them within one window the next login is refused as locked, the correct password included |
| Unlock.MatchKeepsFailures | auth/password/store.go:347-372 | a matching password, of a verified user or not, takes no failure out of the count, and the account is locked at the same times as before |
| Unlock.FailuresSorted | internal/db/password.sql.go:182-191 | failures are recorded in the order of their times, none in the future |
| LockoutInterleaved.LockoutBound | auth/password/store.go:264-345 | however at most N calls of a user interleave, no window holds more than MaxAttempts + N - 1 failures of that user |
| LockoutInterleaved.BoundIsReached | auth/password/store.go:264-345 | for all limits some run reaches that number, so the bound is the least |
| LockoutInterleaved.AuthenticateIsTwoSteps | auth/password/store.go:264-424 | a login that runs alone is a check and, exactly if it is decided and committed, the success of a matching password or the failure of another |
| LockoutInterleaved.SerialLockoutBound | auth/password/store.go:275-293 | in serial runs no window holds more than MaxAttempts failures |
| Base64.RoundTrip | auth/password/token.go:13-22 | decoding undoes encoding, for both alphabets of RFC 4648 without padding |
| Base64.EncodeShape | auth/password/token.go:13-22 | the text has ceil(4n/3) characters, all of the alphabet |
| Base64.GroupsAreNumbers | auth/password/token.go:13-22 | three bytes and their four digits are the same number, and short groups are filled with zero bits |
| Base64.DecodesExactly | auth/password/hasher.go:124-135 | exactly the texts of letters and newlines decode whose letters do not leave a single one over, newlines skipped |
| Text.DecimalRoundTrip | auth/password/hasher.go:140-172 | the decimal digits of a number read back as that number |
| Text.SplitFirst | auth/password/hasher.go:96-104 | splitting cuts at the first separator and splits the rest |
| Text.SplitExactly | auth/password/hasher.go:97-101 | the parts are free of the separator and joined by it give the text back |
| Text.CutFirst | auth/password/hasher.go:143-147 | a pair is cut at its first separator, and not at all without one |
| Text.AtoiOfDecimal | auth/password/hasher.go:108-115 | numbers of 64 bits read back with either sign or none, others are refused |
| Hasher.ParseParams | auth/password/hasher.go:140-172 | the loop applies the pairs in order and fails at the first bad one |
| Hasher.ParamsRoundTrip | auth/password/hasher.go:140-172 | all uint32 memory and iterations and uint8 parallelism come back |
| Hasher.ParamsExactly | auth/password/hasher.go:140-172 | parameters are read exactly if every pair is well formed; the last pair of a key counts, and a missing key is zero |
| Hasher.HashFormat | auth/password/hasher.go:39-56 | the stored hash, spelled out |
| Hasher.DecodesExactly | auth/password/hasher.go:96-138 | exactly the texts of six such parts decode, to exactly what the parts say |
| Hasher.PhcRoundTrip | auth/password/hasher.go:39-56 | decoding what Hash prints returns the same parameters, salt and key, for all of them |
| Hasher.VerifyStored | auth/password/hasher.go:61-84 | under any later configuration a stored hash matches exactly when the keys agree, and asks for a rehash exactly on a match with one of five parameters changed |
| Hasher.VerifyOwnHash | auth/password/hasher.go:39-73 | under the same configuration a password verifies against its own hash and needs no rehash |
| Token.TokenRoundTrip | auth/password/token.go:13-22 | a token of n bytes has ceil(4n/3) letters of the URL-safe alphabet and decodes to the bytes |
| Token.TokensInjective | auth/password/token.go:13-22 | different bytes give different tokens |
| Quote.QuoteIdentifier | cmd/migration-regression/main.go:211-221 | the loop doubles every quote; the result is read as one identifier with the input as its value |
| Quote.QuotedReadsBack | cmd/migration-regression/main.go:211-221 | so also with other text behind it, exactly for inputs that are not empty |
| TenantContext.TextInjective | tenantctx/tenantctx.go:48-50 | different tenants have different texts |
| TenantContext.TenantReadsBack | tenantctx/tenantctx.go:48-75 | a tenant put into a context comes out as that tenant, never as another, as none or as the system tenant |
| TenantContext.TextReadsBack | tenantctx/tenantctx.go:48-75 | the text of a tenant, dashes and lower-case digits, reads back as that tenant |
| Sessions.OptionalExactly | auth/middleware.go:135-152 | a path needs no tenant exactly when it is among the allowed ones, or a prefix of it is with a star behind |
| Pool.AcquireExactly | db/db.go:351-369 | for no tenant, an empty one and the system tenant the hook leaves the connection alone; for a tenant it sets that one where set_tenant resolves, tolerates that it does not, and destroys the connection on another failure |
| Pool.Pool.BeforeAcquire | db/db.go:351-369 | sets the context's tenant, or none for a missing or system tenant; where set_tenant does not resolve on that connection the setting stays as it was |
| Pool.Pool.AfterRelease | db/db.go:371-382 | clears the tenant; where set_tenant does not resolve the tenant stays, and any other failure destroys the connection |
| Pool.IdleCleanExactly | db/db.go:371-382 | a step leaves idle connections clean exactly unless it releases one with a tenant while set_tenant does not resolve on it |
| Pool.LeaseStartsExactly | db/db.go:351-369 | a step leaves leases starting with their own tenant or none exactly unless it hands out a connection that carries a tenant which the hook does not replace |
| Pool.IsolationExactly | db/db.go:348-385 | over all interleavings and hook failures, idle connections are clean all along exactly when no release was dirty in that way |
| Pool.StartsExactly | db/db.go:348-385 | and leases start right all along exactly when no acquire was stale in that way |
| Pool.StaleNeedsDirty | db/db.go:348-385 | only a dirty release makes an acquire stale |
| Pool.PoolIsolation | migrations/core/20260221160000_core.sql:3-7 | from the start it is enough that nobody sets a tenant where set_tenant does not resolve, or hides or drops it from under one |
| Pool.DirectSettingSurvives | db/db.go:371-382 | a run in which a tenant set directly before set_tenant exists survives on an idle connection |
| Pool.TenantLeaks | db/db.go:360-377 | a run in which a lessee moves the search_path away from set_tenant and the next lessee, of another tenant, starts with the first one's |
| TenantSafety.SessionTenantIsMembership | auth/handler.go:175-189 | in every reachable state a session's active tenant is a membership of its user |
| TenantSafety.MiddlewareExactly | auth/middleware.go:82-112 | in every reachable state: without a session the middleware refuses, without an active tenant it lets only allowed paths through, with one it puts exactly that tenant into the context |
| TenantSafety.SelectionTakesEffect | auth/handler.go:269-290 | selecting a listed tenant makes it the session's, and the next request gets through and wants that tenant; another changes nothing |
| TenantSafety.LoginTakesEffect | auth/handler.go:165-189 | a login starts a session with the only tenant active, and with none for none or several; the OIDC callback starts none for a user without memberships |
| TenantSafety.ListingIsRead | auth/postgres_store.go:143-158 | what a listing of the tables shows is what the handlers are modelled to read |
| TenantSafety.ConnectionCarriesSessionTenant | auth/middleware.go:98-104 | a connection acquired for a session with an active tenant, set_tenant resolving on it, starts with exactly that tenant, and the session's user is a member |
| TenantSafety.HeldExactly | db/db.go:351-369 | over every run, each session's connections start with its tenant, or none where set_tenant did not resolve, exactly when no connection still carrying a tenant was acquired for one |
| TenantSafety.CleanRunsAreExact | db/db.go:371-382 | so from the start it is enough that no connection is released with a tenant set_tenant does not reach |
| MigrationMerge.MergeMigrationSources | db/db.go:198-225 | the nested loops stop at the first obstacle of the walk, a read before a duplicate, and otherwise hold all files |
| MigrationMerge.MergeIsDisjointUnion | db/db.go:198-225 | succeeds exactly when every source is readable and no name occurs twice; the result holds exactly the files offered, contents unchanged |
| MigrationMerge.ErrorIsFirstObstacle | db/db.go:201-219 | an error tells the first obstacle of the walk; a file is read before its name is looked up |
| MigrationMerge.PathExactly | db/db.go:208-212 | a file is read at its name in the current directory, else at directory, slash, name |
| MigrationMerge.SourceOrderDoesNotMatter | db/db.go:198-225 | permuted sources succeed together with the same result, and fail together |
| FlatDirectory.FlatFS.OpenRoot | db/db.go:249-260 | whatever the order of the map, the listing holds every file once, ascending, with its size |
| FlatDirectory.FlatFS.Open | db/db.go:234-247 | the root for ".", the content of a file, and an error exactly for other names |
| FlatDirectory.FlatDir.ReadDir | db/db.go:281-300 | one page and the new position, or the end, or the panic |
| FlatDirectory.PageAt | db/db.go:281-300 | a page is the stretch between the old and the new position: n entries or what is left, and all that is left for n <= 0; a panic exactly when files are left and the sum overflows |
| FlatDirectory.ListingIsUnique | db/db.go:249-260 | a file map has one listing |
| FlatDirectory.PagesArePrefix | db/db.go:281-300 | for any calls, the pages together are a prefix of the listing |
| FlatDirectory.WholeListing | db/db.go:288-292 | any calls among which one has n <= 0 yield the whole listing |
| FlatDirectory.NeverPanicsExactly | db/db.go:293-297 | a sequence of calls never panics exactly when each size asked while files are left fits beside the sizes before it |
| FlatDirectory.SizesFitExactly | db/db.go:293-297 | that is, for positive sizes, is at most the largest int less their sum |
| FlatDirectory.LargestSizePanics | db/db.go:293-298 | two files are enough: size 1 and then the largest int |
| FlatDirectory.ReadToTheEnd | db/db.go:281-300 | with sizes that fit, the end is reported exactly when every file was yielded once, and as many calls as files get there |
| FlatDirectory.OneSizeNeverPanics | db/db.go:281-300 | reading with one positive size throughout never panics |
| FlatDirectory.ListingInVersionOrder | db/db.go:249-254 | with numeric prefixes of equal width the listing is in the order of the versions |
| FlatDirectory.DigitOrder | db/db.go:249-254 | for equal lengths, order of digit strings is order of numbers |
| TenantMigration.Tables.Up | migrations/auth/20260330043700_remove_tenant_id_from_users.sql:7-16 | adds a member row for exactly the users with a tenant and no membership, and drops the column; fails without the column |
| TenantMigration.Tables.Down | migrations/auth/20260330043700_remove_tenant_id_from_users.sql:22-35 | adds the column and fills it with an oldest membership, NULL for users without any; fails if it is there |
| TenantMigration.UpLosesNobody | migrations/auth/20260330043700_remove_tenant_id_from_users.sql:7-13 | no membership is lost or changed, a user gains at most one, and exactly users who had a tenant or a membership have one |
| TenantMigration.DownAfterUpRestores | migrations/auth/20260330043700_remove_tenant_id_from_users.sql:25-35 | Down after Up restores a tenant_id, however ties break, exactly for users without memberships before or with their one oldest in that tenant |
| TenantMigration.DownUpChangesNothing | migrations/auth/20260330043700_remove_tenant_id_from_users.sql:7-35 | Down and Up leave the tables as they were, so Up-Down-Up is Up |
| Shutdown.ExactlyOneSend | app/app.go:375-382 | under every interleaving the send never blocks, and exactly one value is sent once serving ends |
| Shutdown.ResultExactly | app/app.go:384-394 | the result is the error of Shutdown if it gave one, else what serving ended with; nil exactly for a clean end or ErrServerClosed without such an error |
| Shutdown.NoDeadlock | app/app.go:374-395 | no run has more than six steps, and one that cannot go on has returned, ended the goroutine and sent one value |

## Left out

- Argon2id, SHA-256, randomness, constant-time comparison and the dummy hash: parameters; timing is not modelled.
- OIDC exchange, ID token verification and userinfo: the callback takes a resolved identity.
- HTTP encoding, headers, cookies, redirects, JSON bodies and the IP address column.
- The session store itself and its expiry: a session is an entry of a map from key to claims.
- OpenAPI validation, OTEL, audit logging, tracers, scaffold generator, CLI, option builders: no hard property.
- RegistrationRace: one issuer's users and credentials; tenants and memberships, which a registration writes in the same transaction, are left to the serial model.
- Goose, SQL text, row-level-security policies and PostgreSQL's locks: only the stated rules of transactions.
- Column widths, NUL characters in text and other refusals by PostgreSQL: each is one of the failing calls.
- updated_at columns, and the created_at of accounts: no modelled query reads them but for the order of insertion.
- The password-map refinement when a rehash interleaves with a password change, and one tenant when first logins interleave: the code protects neither.
- TenantID (tenantctx/tenantctx.go:82-92) parses text with a library that accepts several forms: only the text form is modelled.
- DeletePasswordCredential: no modelled operation calls it.
- Text that is not valid UTF-8, which quoteIdentifier would replace: strings are code points here.
- GetFirstTenant: its order by created_at is the order of insertion; ties are not modelled.
- ListMemberships: its order by created_at is the order of insertion; ties are not modelled.
- RecordLoginAttempt: attempted_at is the clock reading of the operation, which stands for NOW().
- fs.FS implementations whose answers change between calls: a source is a fixed listing and a fixed map of files.
- sort.Strings is modelled as repeated insertion; only its result matters, and FlatDirectory.ListingIsUnique fixes that.
- Reading the content of an opened migration file: the library's bytes.Reader.
- LiveTokens.LiveTokensFromStart: assumes that invalidations succeed, since the code goes on when one fails.
