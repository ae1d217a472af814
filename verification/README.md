# A verified model of the auth service

This project models the auth service: its transactional outbox and relays, its tenant-scoped
RBAC tables under row-level security, its refresh-token sessions, its login lockout and second
factor, its authorization-code grant, its permission cache and token denylist, its API keys, and
the two text formats it stores secrets in. `dafny verify dfyconfig.toml` checks all of it.

Every component has up to three layers. A state machine over values says what each statement or
handler does (`Apply`, `Step`, `Do`, `Exec`, `Run`); any sequence of steps is a run, and a step
that is not enabled changes nothing. A class holds the same state in fields that methods update
in the order of the source's statements, each proved equal to the function. Theorems about runs
are proved over the state machine and so hold of the methods.

| modules | what they are |
|---|---|
| `Outbox`, `OutboxOrder`, `OutboxRelay`, `OutboxTheorems` | the outbox, any number of crashing relays interleaved statement by statement, and the polling relay itself |
| `Rbac`, `RbacInvariant`, `RbacIsolation`, `RbacTheorems`, `RbacEffects`, `RbacBulk`, `RbacStore` | roles, grants, assignments, projects and members of many tenants, the policy over them, and the handlers |
| `Sessions`, `SessionHandlers`, `SessionWipes` | refresh tokens, as interleaved statements, as whole handlers, and what a wipe does to refreshes under way |
| `Account`, `TwoFactor`, `AccountStore` | one user's lockout counter, TOTP secret and recovery codes |
| `AuthCode` | the authorization-code grant with any number of exchanges in progress |
| `Lifecycle` | register, delete and restore as transactions that announce themselves, and the replay of those events |
| `PermCache`, `Staleness` | cache keys, the invalidation pattern, and the cache against the RBAC tables |
| `IdText`, `Glob`, `Spellings` | the text of identifiers with every spelling a UUID parser takes, Redis patterns, and which spelling matches which text |
| `Denylist` | revoked access tokens in Postgres and Redis |
| `ApiKeys` | what an API key may do |
| `Base64`, `Decimal`, `Phc`, `TotpSecret` | the stored password hash and the stored TOTP secret |
| `Seqs` | filters over sequences |

Assumptions, all stated as parameters or in the definitions: identifiers are naturals, those
with a text 128-bit ones; text is a string of bytes; time is a natural number of seconds that
never runs backwards; e-mails are unique; token hashes are injective and generated values do not repeat; Argon2id,
AES-GCM and SHA-256 are function parameters, of which only opening-undoes-sealing and key lengths
are assumed; a TOTP validator is an arbitrary function of code, secret and time; the broker
remembers every message id; Redis matches patterns against keys that are not empty.

Some promises hold only under a condition. The model follows the code, and for each such promise
one lemma shows an input that breaks it and another gives the exact condition:

- Outbox events reach consumers in `created_at` order exactly if rows also commit in that order;
  `now()` is the start of a transaction, so a slow one can be overtaken
  (`OutboxTheorems.Overtaken`; exactly: `OutboxTheorems.StreamOrdered`).
- A wipe is commented as revoking all sessions. A row rotated less than 60 s earlier can still be
  refreshed after it, and the session goes on (`SessionHandlers.SessionOutlivesReset`; exactly:
  `SessionHandlers.WipeIsFinalUnlessInGrace`).
- The same comment at the level of statements: a refresh that read its token before the wipe
  inserts a live one after it (`SessionWipes.ReadOutlivesWipe`; exactly: `SessionWipes.WipeIsFinal`
  and `SessionWipes.WipeIsFinalUnread`).
- The second login step is commented as getting the same lockout as the password step. A right
  password clears the counter that both share, before the second step, so wrong codes between
  right passwords never lock (`Account.CodesNeverLock`); without completed logins the lockout
  bounds the guesses by itself exactly if it sets in at the first (`Account.LockoutBoundsCodes`),
  and in general with an allowance for each reset (`Account.GuessRate`).
- A logout revokes the token it is given, unless that was rotated less than 60 s earlier: then it
  is refreshed again afterwards (`SessionHandlers.RotatedTokenOutlivesLogout`; exactly:
  `SessionHandlers.LogoutIsFinalUnlessInGrace`).
- `InvalidatePerms` is commented as dropping all of a user's entries. It scans for the id as the
  request spelled it, so it drops them only for the canonical text, or for that text after a star
  or a backslash and before a star (`Staleness.SpellingLeavesStale`, `Staleness.BracesLeaveStale`;
  exactly: `Staleness.SpellingDecides`).
- A tenant role may share its name with the template `viewer`, which `isBuiltinRole` does not
  reserve. Revoking by that name then fails (`RbacTheorems.ShadowedRoleCannotBeRevoked`; exactly:
  `RbacTheorems.RevokeUndoesAssign`).
- A revocation is of one assignment in one scope. It reads a project text that is no identifier
  as none, and then takes the tenant-wide assignment, where an assignment with such a text is
  refused (both the input and exactly when: `RbacTheorems.UnreadableProjectMeansTenantWide`).
- Redis, preferred over the durable denylist, forgets a token 60 s before the signature check does
  (`Denylist.LeewayGap`; exactly: `Denylist.VerdictsAgree`).
- `RevokeRole` first looks the name up among all tenants' roles, so its reply can depend on other
  tenants (`RbacTheorems.RevokeReplyCrossesTenants`; exactly: `RbacIsolation.RevokeReplyIsLocal`,
  and over runs `RbacTheorems.TenantsDoNotInterfere`); its effect does not.

## Model

Rows stand by component. From `RbacEffects.GrantGives` on they say what single operations do, on
the rows and fields themselves; the rows before them span operations or runs, or tie a method to
its specification.

| member | source | states |
|---|---|---|
| OutboxTheorems.StreamOrdered | internal/outbox/relay.go:50-68 | The deduplicated stream is ordered and gap-free in every run of any number of relays, with crashes, lost acks and failed marks anywhere, if and only if rows commit in creation order |
| OutboxTheorems.StreamIsPrefix | db/queries/auth.sql:370-378 | Without ties the deduplicated stream is at every moment of every run exactly a prefix of the outbox, and every marked row is in it |
| OutboxTheorems.Overtaken | db/queries/auth.sql:374 | Whenever a row commits after a younger one, some run publishes the younger one first |
| OutboxOrder.StepKeepsInv | internal/outbox/relay.go:55-66 | Every statement of every relay, and every crash, keeps: accepted rows are downward closed, marked rows were accepted, and a relay's batch overlooks no older row |
| OutboxRelay.FetchIsBatch | db/queries/auth.sql:370-375 | The query returns the oldest unpublished rows, oldest first, at most 100 |
| OutboxRelay.BacklogDrains | internal/outbox/relay.go:31-48 | Whatever failed in earlier ticks, a lone relay empties the backlog of n rows they left after k ticks without failures exactly when k >= n/100 rounded up |
| OutboxRelay.TickOutcome | internal/outbox/relay.go:50-68 | Whatever fails, a tick publishes and marks the oldest unpublished rows up to its first failure, publishes the failing row unless refused, marks it only if the mark took effect, and touches no other row or relay |
| OutboxRelay.TicksOutcome | internal/outbox/relay.go:35-48 | Each tick of the loop goes on from the last; one whose fetch fails changes nothing, any other has the outcome of a tick |
| OutboxRelay.InterruptedRowRepeats | internal/outbox/relay.go:57-65 | Interrupted after the broker accepted it, by a lost acknowledgement, a crash or a failed mark, the oldest row is published again by the next tick, and consumers see it once |
| OutboxRelay.Relay.Drain | internal/outbox/relay.go:50-68 | The fetch, publish and mark loop has the effect of its statements in the interleaved machine, stopping at the first failure, and returns an error exactly if the fetch failed or some row of the batch was not published and marked |
| OutboxRelay.Relay.Run | internal/outbox/relay.go:35-48 | The polling loop is one drain after another, a failed one retried by the next; it ends drained exactly when the clean ticks at its end suffice for what was then left |
| OutboxRelay.Relay.Deliver | internal/outbox/relay.go:57-65 | Publishing and marking one row is those two steps; an error at either ends the drain |
| OutboxRelay.Backend.FetchUnpublishedOutbox | db/queries/auth.sql:370-375 | Reads the batch that the specification of the query gives |
| RbacInvariant.MigrationEstablishesInv | db/migrations/000010_multitenant.up.sql:70-82 | The backfill puts every assignment in a tenant its role fits, loses none, and establishes the invariant; seeding `viewer` keeps it |
| RbacInvariant.MigrationKeepsAccess | db/migrations/000010_multitenant.up.sql:70-82 | After the migration everyone may do in the default tenant what they could do before, and nothing anywhere else |
| RbacInvariant.Migration.Backfill | db/migrations/000010_multitenant.up.sql:70-98 | The UPDATEs, run one after the other, produce the migrated tables, after which every assignment, client, API key and refresh token has a tenant |
| RbacInvariant.ViewerOnlyReads | db/migrations/000015_demo_viewer.up.sql:11-19 | The seeded `viewer` holds exactly the permissions that end in `:read` |
| RbacInvariant.SeedKeepsInv | db/migrations/000015_demo_viewer.up.sql:5-19 | Adding the `viewer` template with every read permission keeps the invariant |
| RbacInvariant.RunKeepsInv | internal/handler/auth.go:441-687 | In every run of every operation each assignment has a template or its own tenant's role, and a project of its own tenant; role names stay unique per tenant |
| RbacIsolation.FailClosed | db/migrations/000013_rls_fail_closed.up.sql:10-19 | With the setting unset no tenant row is visible; with it set, exactly the rows of that tenant and the templates are, unaltered |
| RbacIsolation.WritesConfined | db/migrations/000013_rls_fail_closed.up.sql:13-17 | Under the policy no role, project, assignment or membership of a tenant other than the setting's is inserted, and no role, assignment or membership of another is deleted; a template row is writable whatever the setting, as the policy has no check of its own for writes |
| RbacIsolation.RolesUnderPolicy | db/migrations/000013_rls_fail_closed.up.sql:13-17 | The roles read is the same under the policy and under bypass, for all users and projects of a tenant, if and only if each of its assignments has a fitting role |
| RbacIsolation.PermissionsUnderPolicy | db/queries/auth.sql:233-241 | The permissions read is the same under the policy and under bypass in any state |
| RbacIsolation.CutoverKeepsReads | internal/handler/tenant.go:50-63 | In every reachable state both wrapped reads return the same list under the policy and under bypass |
| RbacIsolation.RegisterUnderPolicy | internal/handler/auth.go:115-130 | Registration writes the same rows whether the service bypasses the policy or runs under its default-tenant setting |
| RbacIsolation.OthersChangeNothing | internal/handler/auth.go:492-513 | An operation of another tenant, the cascade of a role deletion included, changes nothing a tenant sees |
| RbacIsolation.OwnPartDecides | internal/handler/tenant.go:23-39 | What an operation does to a tenant's part of the tables, and its reply, depends on that part alone |
| RbacTheorems.PurgeAgrees | internal/handler/auth.go:441-687 | Deleting all other tenants' operations from any run leaves everything a tenant sees as it was |
| RbacTheorems.TenantsDoNotInterfere | db/queries/auth.sql:233-250 | Other tenants' operations, anywhere in a run, influence neither scoped roles nor scoped permissions; every reply of the tenant is as without them, but for a revocation, whose reply is the same exactly if the role name is known to anyone with them just when it is without them |
| RbacIsolation.RevokeReplyIsLocal | internal/handler/auth.go:596-619 | The reply of a revocation is decided by what the tenant sees if and only if the id does not parse, no tenant has a role of the name, or a role of it is visible to the tenant |
| RbacTheorems.OtherTenantUntouched | internal/handler/tenant.go:137-285 | Any sequence of one tenant's operations leaves every user's access in another tenant unchanged |
| RbacTheorems.RevokeReplyCrossesTenants | internal/handler/auth.go:608-610 | An input for which it is not: for any id that parses, another tenant creating a role of the name turns `NotFound` into `Done` |
| RbacTheorems.RevokeUndoesAssign | internal/handler/auth.go:535-619 | Revoking a fresh assignment restores the tables if and only if the role name is visible once in the tenant; otherwise it fails and the row stays |
| RbacTheorems.ShadowedRoleCannotBeRevoked | internal/handler/auth.go:833-835 | An input for which it fails: on the migrated tables a tenant creates its own `viewer`, assigns it, and cannot revoke it |
| RbacTheorems.RevokeTakesRow | db/queries/auth.sql:333-339 | A revocation deletes exactly the row of that user, role, tenant and scope, or fails when the name is visible twice |
| RbacTheorems.UnreadableProjectMeansTenantWide | internal/handler/auth.go:612 | A revocation takes a tenant-wide assignment if and only if the name is visible once and the project text is no identifier; an assignment with such a text is refused |
| RbacEffects.RolesListed | db/queries/auth.sql:243-250 | The scoped roles are the names of the user's assignments in the tenant that are tenant-wide or for the token's project, one each, in ascending order, and no others |
| RbacEffects.AccessMeans | db/queries/auth.sql:229-241 | On the rows: a token without a project has what tenant-wide assignments carry, one with a project also what assignments for that project carry, and nothing else counts |
| RbacEffects.PermissionsListed | db/queries/auth.sql:214-241 | The permission lists, scoped or not, hold of the catalog exactly what the token holds, each once, in ascending order |
| RbacEffects.DeletionTakes | internal/handler/auth.go:492-513 | Deleting a role leaves everyone exactly what they hold through other roles, and its name falls back to the template |
| RbacEffects.CreationGivesNothing | internal/handler/auth.go:441-468 | A new role gives no one anything and changes what no other name means, in any tenant |
| RbacEffects.AssignmentReply | internal/handler/tenant.go:352-367 | An assignment succeeds exactly for a known user, a role visible in the tenant and a project of the tenant, and then adds its row once |
| RbacEffects.AssignmentGives | db/queries/auth.sql:318-326 | An assignment adds what its role carries, for that user, in that tenant and scope only |
| RbacEffects.RegistrationGives | internal/handler/auth.go:115-130 | A registered user holds what the `user` role carries in the default tenant, and nothing anywhere else |
| RbacEffects.TemplatesNeverChange | db/queries/auth.sql:266-283 | No run of any operations changes a template or what it grants |
| RbacEffects.BuiltinNamesMeanTemplates | internal/handler/auth.go:833-835 | In every run from the migrated and seeded tables, in every tenant, the names `admin` and `user` mean the templates |
| RbacBulk.BulkAssigns | internal/handler/auth.go:563-594 | Bulk assignment equals single assignments in order; assigned plus failed is the request, failed is the ordered list of unassignable ids, and each requested row is there once |
| RbacBulk.RepeatsAreHarmless | internal/handler/auth.go:577-591 | Repeating or reordering ids leaves the same rows |
| RbacStore.Store.RoleInTenant | db/queries/auth.sql:259-264 | Finds the tenant's own role of a name, else the template |
| RbacStore.Store.ValidAssignment | internal/handler/tenant.go:352-367 | Accepts exactly the assignments whose role is visible and whose project is the tenant's |
| RbacStore.Store.CreateRole | internal/handler/auth.go:441-468 | The handler on the tables in place, every error case included, keeping the invariant |
| RbacStore.Store.DeleteRole | internal/handler/auth.go:492-513 | The deletion with both cascades in place |
| RbacStore.Store.GrantPermission | internal/handler/auth.go:649-667 | The grant in place; an unknown permission changes nothing |
| RbacStore.Store.RevokePermission | internal/handler/auth.go:669-687 | The revocation of a grant in place |
| RbacStore.Store.Assign | db/queries/auth.sql:318-326 | The guarded insert under the policy, with its conflict and foreign-key cases |
| RbacStore.Store.AssignRole | internal/handler/auth.go:535-558 | Parse, validate, insert: the handler in place |
| RbacStore.Store.AssignListed | internal/handler/auth.go:577-591 | One turn of the bulk loop: parse, write, and count the user or list them as failed |
| RbacStore.Store.AssignRoleBulk | internal/handler/auth.go:563-594 | The loop with its counter and its failed list produces the result `BulkAssigns` is about, and keeps the invariant |
| RbacStore.Store.Revoke | db/queries/auth.sql:333-339 | The delete whose role id is a subquery over the visible roles |
| RbacStore.Store.RevokeRole | internal/handler/auth.go:596-619 | Parse, look the name up among all roles, delete under the policy |
| RbacStore.Store.CreateProject | internal/handler/tenant.go:190-213 | The handler in place, an empty slug or name and a slug taken in the tenant refused |
| RbacStore.Store.AddMember | internal/handler/tenant.go:241-263 | The lookup by e-mail and the membership upsert in place |
| RbacStore.Store.RemoveMember | internal/handler/tenant.go:266-285 | The membership delete in place, text that is no id refused |
| RbacStore.Store.Register | internal/handler/auth.go:92-148 | User, default role and membership together or not at all, the empty e-mail and password refused first |
| RbacStore.Store.DeleteUser | internal/handler/auth.go:387-406 | A hard delete with its cascades in all tenants, text that is no id refused |
| Sessions.RunKeepsInv | internal/handler/auth.go:218-260 | Every interleaving of the statements of refreshes with logins, logouts, wipes and deletions keeps the token forest and what each refresh in progress remembers |
| Sessions.RevokedRowsAreFinal | db/queries/auth.sql:201-212 | In every interleaving a revoked row never changes again, so `revoked_at` and `replaced_by` are written at most once |
| Sessions.SuccessorsNeverCycle | db/queries/auth.sql:206-212 | In every reachable state no chain of `replaced_by` returns to its start |
| Sessions.DescentKeepsBinding | internal/handler/auth.go:846-872 | In every reachable state every token descends from a login of the run and is bound to the user, tenant and project that login asked for; a successor is a younger token of a revoked row |
| Sessions.LoginWasAskedFor | db/queries/auth.sql:132-135 | In every run a token without a parent goes back to the login that asked for it, with that binding and an expiry counted from then |
| Sessions.UsersApart | internal/handler/auth.go:218-280 | However sessions interleave, steps about other users leave a user's rows exactly as they are |
| Sessions.RefreshesCanFork | internal/handler/auth.go:249-259 | Two refreshes of one token can both succeed with live successors when their statements interleave |
| Sessions.CrashLeavesBoth | internal/handler/auth.go:254-259 | A refresh that dies between its insert and its rotation leaves the presented token live beside the new one |
| SessionHandlers.RefreshIsItsStatements | internal/handler/auth.go:218-260 | A refresh with nothing in between is its three statements in the interleaved machine |
| SessionHandlers.DoAllIsItsSteps | internal/handler/auth.go:218-280 | Every run of whole handlers is one of the interleaved runs |
| SessionHandlers.RefreshOutcome | internal/handler/auth.go:219-259 | A refresh yields a pair exactly for a live token or one rotated under 60 s ago; what the new row, the old row and all others then are; and what a reuse revokes |
| SessionHandlers.DoAllKeepsTokensOk | internal/handler/auth.go:218-280 | Every run of whole handlers keeps the token forest |
| SessionHandlers.WipeEndsLiveRows | db/queries/auth.sql:91-92 | A wipe revokes the user's live rows at that time and changes no other row; exactly the rows rotated under 60 s earlier can be refreshed after it |
| SessionHandlers.QuietUserStaysOut | internal/handler/auth.go:211-242 | A wiped user who does not refresh within 60 s and does not log in never gets a pair by refreshing, in any continuation |
| SessionHandlers.WipeIsFinalUnlessInGrace | internal/handler/auth.go:751-799 | After a wipe every continuation without a login refuses all the user's refreshes if and only if none of their rows was rotated under 60 s before |
| SessionHandlers.SessionOutlivesReset | internal/handler/auth.go:225-236 | An input that outlives a wipe: log in, refresh, reset the password, refresh the rotated token, and a live session remains |
| SessionWipes.WipeIsFinal | internal/handler/auth.go:218-260 | After a wipe no interleaved continuation without a login ever makes a token of the user live, if and only if no refresh of theirs is past its read and none of their rows was rotated under 60 s before |
| SessionWipes.WipeIsFinalUnread | db/queries/auth.sql:91-92 | With every interleaving and no login, nothing of the user is live after a wipe as long as none of their tokens is presented again, if and only if no refresh of theirs had read its token |
| SessionWipes.ReadOutlivesWipe | internal/handler/auth.go:249-259 | An input that outlives a wipe: a refresh reads its token, the wipe runs, and the refresh inserts a live token |
| SessionHandlers.LogoutIsFinalUnlessInGrace | internal/handler/auth.go:263-266 | After a logout the token is never refreshed again, in any continuation, if and only if it was not rotated under 60 s before; every other row stays as it is, so the successor of a rotated token stays live |
| SessionHandlers.RotatedTokenOutlivesLogout | db/queries/auth.sql:201-204 | An input that outlives a logout: log in, refresh, log out the rotated token, and it refreshes again while its successor is live |
| SessionHandlers.TokenTable.CreateRefreshToken | db/queries/auth.sql:132-135 | The insert in place, refused for a used hash or a missing user |
| SessionHandlers.TokenTable.RotateRefreshToken | db/queries/auth.sql:209-212 | The guarded rotation in place |
| SessionHandlers.TokenTable.RevokeRefreshToken | db/queries/auth.sql:201-204 | The guarded revocation in place |
| SessionHandlers.TokenTable.RevokeAllUserRefreshTokens | db/queries/auth.sql:91-92 | The wipe in place: the user's live rows and no others |
| SessionHandlers.TokenTable.Refresh | internal/handler/auth.go:218-260 | The handler on the table in place has the effect and the answer of the specified refresh |
| Account.CounterBelowMax | internal/handler/auth.go:165-176 | In every run the stored failure counter is below the threshold between handlers |
| Account.GuessBudget | internal/handler/m4.go:166-181 | How many wrong passwords and codes any run can still contain, by the time left, the counter, and how often a right password or code clears it |
| Account.GuessRate | internal/handler/auth.go:159-178 | From every reachable state, every run of length W looks at most at max * (W / lockout + 1) wrong passwords and codes, both steps together, and at max - 1 more for each time a right password or an accepted code clears the counter |
| Account.RateIsAttained | db/queries/auth.sql:74-83 | For every number of lockout periods and of resets some run attains that bound |
| Account.CodesNeverLock | internal/handler/auth.go:189 | The input for any larger threshold: a right password and a wrong code, n times over, completes no login, takes no time, has n codes looked at and does not lock |
| Account.LockoutBoundsCodes | internal/handler/m4.go:164-176 | Over all runs that complete no login, of an account that awaits a code that is wrong, or of any account if one such is reachable, max * (W / lockout + 1) bounds the guesses if and only if the threshold is one |
| TwoFactor.EnrolledAwaits | internal/handler/m4.go:39-119 | Such an account is reachable: verifying, enrolling and activating leads to one that awaits every code wrong for its secret |
| TwoFactor.CodeOutcome | internal/handler/m4.go:153-188 | Exactly who passes the second step and what each refusal replies; an accepted code clears counter and lock and spends the recovery code it was, a wrong one costs what a wrong password costs, and the token stays good |
| TwoFactor.CodeFollowsPassword | internal/handler/auth.go:194-202 | In every run a code is looked at only if a right password was entered before it, less than six minutes ago, and answered with the token that is presented |
| TwoFactor.EnabledWasProven | internal/handler/m4.go:39-119 | In every run an enabled second factor was activated by a code right for the secret still stored, and stayed on with that secret since |
| TwoFactor.OffOnlyByCode | internal/handler/m4.go:122-149 | In every run a second factor that is on stays on with the same secret until an event switches it off by a right code or an unused recovery code |
| TwoFactor.DeletedStaysOut | internal/handler/auth.go:183-187 | In every run a soft-deleted user completes no login until restored |
| TwoFactor.EnrolledSecretActivates | internal/handler/m4.go:56-75 | Enrolling while the second factor is on is refused and changes nothing; otherwise exactly the codes right for the new plaintext secret activate it, through whatever encryption is configured |
| TwoFactor.HashAcceptedOnce | db/queries/auth.sql:45-48 | A recovery-code hash is accepted at most once until the next enrolment, even if stored twice |
| TwoFactor.TenRecoveriesPerEnrolment | internal/handler/m4.go:53-72 | Between two enrolments recovery codes are accepted at most ten times, and only codes of that enrolment |
| AccountStore.UserRow.Login | internal/handler/auth.go:151-205 | The password step on the row in place, statement by statement, signing a token when a second step follows |
| AccountStore.UserRow.LoginTotp | internal/handler/m4.go:153-189 | The second step on the row in place, the token of the password step checked first |
| AccountStore.UserRow.EnrollTotp | internal/handler/m4.go:39-79 | Enrolment in place; the loop over recovery codes may fail anywhere and leaves those stored so far |
| AccountStore.UserRow.ActivateTotp | internal/handler/m4.go:95-119 | Activation in place |
| AccountStore.UserRow.DisableTotp | internal/handler/m4.go:122-149 | Deactivation in place |
| AccountStore.UserRow.ConsumeRecoveryCode | db/queries/auth.sql:45-48 | The guarded update marks every unused row of the hash, or reports none |
| AccountStore.UserRow.CountFailure | internal/handler/auth.go:166-172 | Increment, and at the threshold lock and clear the counter |
| AuthCode.ChallengeNeedsDigest | internal/handler/oidc_flow.go:251-261 | An S256 challenge accepts a verifier exactly if its digest is that of the original one |
| AuthCode.AtMostOneWins | internal/handler/oidc_flow.go:134-138 | In every interleaving of any number of exchanges at most one obtains tokens for a code |
| AuthCode.SpentIsSpent | internal/handler/oidc_flow.go:131-138 | A spent code that nobody holds yields tokens to no later exchange |
| AuthCode.WrongVerifierSpendsCode | internal/handler/oidc_flow.go:140-143 | An exchange rejected for its verifier has spent the code for good |
| AuthCode.CrashSpendsCode | internal/handler/oidc_flow.go:134-138 | An exchange that dies after spending its code leaves it spent for good |
| AuthCode.WinnerPassedEveryCheck | internal/handler/oidc_flow.go:115-184 | Whoever obtains tokens read an unspent, unexpired, matching code, then spent it itself, then proved the verifier and authenticated the client, then existed, then was an active member of the client's tenant, to which the session is bound, and still existed; all these steps were its own |
| AuthCode.CodesWereIssued | internal/handler/oidc_flow.go:50-78 | Every code row goes back to one issuing step, for an active member of the client's tenant, valid five minutes from then |
| AuthCode.ExchangeOutcome | internal/handler/oidc_flow.go:115-199 | An uninterrupted exchange spends the code exactly if the request matched it, and yields the session exactly if client and verifier are proven as well, a challenge being demanded of public clients only, and the user is an active member of the tenant |
| AuthCode.DeservesMeans | internal/handler/oidc_flow.go:120-184 | A request is granted if and only if it passes every check that winners are shown to have passed |
| AuthCode.NothingElseRejects | internal/handler/oidc_flow.go:115-184 | In any interleaving an exchange in progress is rejected exactly if the check of its own stage fails |
| AuthCode.CodeLivesFiveMinutes | internal/handler/oidc_flow.go:66-78 | An active member is given a code, and a right request gets its session for five minutes from then and not after |
| AuthCode.Provider.CreateAuthorizationCode | internal/handler/oidc_flow.go:50-78 | Issuing in place; it succeeds if and only if the client exists, the user is an active member of its tenant, and the code is new |
| AuthCode.Provider.ClaimCode | internal/handler/oidc_flow.go:134-138 | The guarded update and its row count |
| AuthCode.Provider.ExchangeAuthorizationCode | internal/handler/oidc_flow.go:115-199 | The exchange in place, check by check |
| Lifecycle.OneRowPerCommit | internal/handler/auth.go:101-144 | A committed transaction writes exactly one outbox row, the status change it announces, and what belongs to it: default role and membership for a registration, the end of all sessions for a soft delete; an aborted one writes nothing |
| Lifecycle.RunIsDated | db/queries/auth.sql:366-368 | In every run rows get increasing times and distinct ids in commit order |
| Lifecycle.EmailsStayUnique | db/migrations/000001_init.up.sql:7 | In every run no two accounts share an e-mail, the soft-deleted included |
| Lifecycle.ReplayIsTheTable | internal/handler/m4.go:352-372 | Replaying a user's rows gives their status in the users table if and only if they were not seeded without an event |
| Lifecycle.StreamReplaysTheTable | internal/handler/auth.go:395-425 | However relays interleave and fail, replaying the deduplicated stream gives the table as it was after some earlier transaction, and once all rows were accepted, as it is |
| Lifecycle.RestoreOfTheGone | internal/handler/m4.go:352-372 | Restoring a missing user announces itself and restores no one |
| Lifecycle.Store.Transact | internal/handler/auth.go:102-144 | Statements run on a draft that a commit writes back; an error or a failed commit leaves the tables alone |
| Lifecycle.Store.RegisterUser | internal/handler/auth.go:92-148 | Registration in place, with user, default role, membership and outbox row in one transaction, reporting success exactly if it committed |
| Lifecycle.Store.DeleteUser | internal/handler/auth.go:385-428 | Hard and soft deletion in place, the soft one with the revocation of all the user's tokens |
| Lifecycle.Store.RestoreUser | internal/handler/m4.go:344-375 | Restoration in place |
| PermCache.KeysEqual | internal/cache/cache.go:68-76 | Two keys are equal exactly if they name the same user, tenant and project, with `-` standing for none |
| PermCache.KeysByTenant | internal/cache/cache.go:68-76 | A key begins with the texts of its tenant and its project, in that order |
| PermCache.PatternFindsTheUser | internal/cache/cache.go:113 | For any text, the scan pattern for it matches a key exactly if the text, read as a Redis pattern, matches the user part of the key |
| IdText.ParseOfSpellings | internal/handler/auth.go:604-607 | Every id parses back from each of its spellings |
| IdText.SpellingsOf | internal/handler/auth.go:543-546 | A text parses to an id if and only if it is, in either case, its hyphenated text, that after `urn:uuid:`, that between any two characters, or its 32 digits |
| Spellings.SpellingMatches | internal/cache/cache.go:113 | A spelling that parses, read as a Redis pattern, matches the canonical text of an id if and only if it is that text, or that text after a star or backslash and before a star |
| PermCache.Cache.GetPerms | internal/cache/cache.go:80-93 | A hit exactly on an entry that has not expired |
| PermCache.Cache.SetPerms | internal/cache/cache.go:96-105 | Stores the list for 60 s |
| PermCache.Cache.InvalidatePerms | internal/cache/cache.go:109-128 | The scan loop deletes what the pages it read list; a complete scan deletes exactly the matching entries |
| Staleness.CurrentMeans | db/queries/auth.sql:214-241 | On the rows: a list holds exactly what the user's assignments in the token's tenant carry that are tenant-wide or for its project or, without a tenant claim, what all their assignments carry |
| Staleness.KeysDiffer | internal/cache/cache.go:65-67 | Different tokens never share a cache entry |
| Staleness.StalenessBound | internal/handler/auth.go:354-372 | In every run the returned list was the tables' list for that token at an instant less than 60 s before, plus the longest delay between a read and its cache write |
| Staleness.BoundIsReached | internal/cache/cache.go:15 | For every such delay some run serves a list last true that long ago |
| Staleness.InvalidationByText | internal/handler/auth.go:555 | Invalidation by the request's text drops a token's entry exactly if the text is a spelling that reaches the token's user, and no other entry |
| Staleness.FirstValidationIsCurrent | internal/handler/auth.go:616 | After a role change by a spelling that reaches the user, the canonical id for one, their next validation returns the list current at that time |
| Staleness.SpellingDecides | internal/handler/auth.go:585 | For a cached token the next validation reads the tables if and only if the request spelled the id canonically, or so between outer characters that the pattern ignores |
| Staleness.SpellingLeavesStale | internal/handler/auth.go:616 | The run validate, revoke by some spelling, validate: the second validation is served the revoked permission exactly if the spelling does not reach its user |
| Staleness.BracesLeaveStale | internal/handler/auth.go:616 | In that run an id between two characters, braces for one, leaves the stale list, unless they are a star or a backslash, and a star |
| Staleness.LateWriteUndoesInvalidation | internal/handler/auth.go:354-372 | A cache write that comes after the invalidation brings the old list back |
| Staleness.LoadPermissions | internal/handler/auth.go:354-372 | The cached read on the cache in place |
| Denylist.LogoutIsDurable | internal/handler/auth.go:263-280 | A logged-out token is never again accepted by a replica that asks Postgres |
| Denylist.RedisNeverOverrefuses | internal/cache/cache.go:54-63 | Whatever Redis lost, a token it refuses is refused by Postgres too |
| Denylist.VerdictsAgree | internal/jwt/jwt.go:131-151 | While Redis loses nothing both give the same verdict if and only if the token is not a revoked one in the 60 s of leeway after its expiry |
| Denylist.OthersStayAccepted | internal/jwt/jwt.go:131-151 | In every run a token nobody logged out is accepted, by either store, until 60 s after its expiry and not longer |
| Denylist.LeewayGap | internal/cache/cache.go:45-50 | A concrete run into that gap |
| Denylist.LossLetsThrough | internal/cache/cache.go:54-63 | A token whose entry Redis lost passes there while the table refuses it |
| Denylist.Stores.LogoutToken | internal/handler/auth.go:268-277 | Logout in place: the durable row, then the mirror while life is left |
| Denylist.Stores.CheckToken | internal/handler/auth.go:286-306 | The check in place: expiry, then Redis, then Postgres if Redis does not answer |
| ApiKeys.Intersect | internal/handler/m4.go:324-333 | The two loops compute the ordered intersection |
| ApiKeys.ValidateApiKey | internal/handler/m4.go:291-338 | The validation, the lookup by hash first, under the policy or not, returns the specified scopes |
| ApiKeys.ScopesAreHeld | internal/handler/m4.go:288-290 | A key carries exactly those of its scopes its owner holds in its tenant and project, in the key's order |
| ApiKeys.KeysOnlyNarrow | internal/handler/m4.go:289-290 | After any sequence of removals a key is refused or carries a subsequence of what it carried |
| ApiKeys.OtherTenantsKeepKeys | internal/handler/m4.go:305-323 | Other tenants' operations never change what a key carries |
| Base64.RoundTrip | internal/password/password.go:29 | Decoding undoes encoding in all three dialects, for all byte strings (sections 4 and 5 of RFC 4648) |
| Base64.DecodeMeans | internal/password/password.go:62-69 | A text decodes to given bytes if and only if, but for line breaks and the unused bits of its last symbol, it is their encoding |
| Phc.SplitOfJoin | internal/password/password.go:47 | Splitting at `$` recovers joined fields that do not contain it |
| Phc.JoinOfSplit | internal/password/password.go:47 | Joining what splitting gave restores any text, and no field contains `$` |
| Phc.ScanUintMeans | internal/password/password.go:56-60 | An unsigned field is read if and only if it is its literal, blanks, and digits of a number in range; the rest is left over |
| Phc.VerifyOfRender | internal/password/password.go:46-71 | A stored hash is verified under exactly the parameters it was printed with, whatever they are |
| Phc.VerifyOfHash | internal/password/password.go:32-71 | A password verifies against a stored hash if and only if both derive the same key under its salt |
| Phc.StoredForm | internal/password/password.go:19-44 | A new hash splits into `argon2id`, `v=19`, `m=19456,t=2,p=1`, the salt and a 32-byte key |
| Phc.OtherFormsRejected | internal/password/password.go:47-56 | Another number of fields, algorithm or version is rejected for every password |
| TotpSecret.DerivedKey | internal/totpsecret/totpsecret.go:56-62 | The cipher always gets 32 bytes, and base64 of 32 bytes is used as it is |
| TotpSecret.EnvelopeRoundTrip | internal/totpsecret/totpsecret.go:69-104 | A secret reads back if and only if a key is set or it does not look tagged |
| TotpSecret.ReadsBack | internal/totpsecret/totpsecret.go:84-104 | What any stored text reads back as: without the tag itself; with it the opened plaintext, if a key is set, the rest is base64 of a nonce and more, and the cipher opens it; else which error |
| TotpSecret.SecretsSurvive | internal/totpsecret/totpsecret.go:39-104 | In every history, a key being introduced included, each user's last untagged secret decrypts to what was enrolled |
| RbacEffects.GrantGives | internal/handler/auth.go:649-667 | A grant gives the permission to exactly the holders of the role, in its tenant |
| RbacEffects.UngrantTakes | internal/handler/auth.go:669-687 | Taking a permission from a role takes it from exactly those who hold it through no other role |
| RbacEffects.ProjectBecomesAssignable | internal/handler/tenant.go:190-213 | A new project can be assigned in from then on, by its own tenant and no other |
| RbacEffects.RemovalUndoesAdding | internal/handler/tenant.go:241-285 | Removing a member by id undoes adding them by e-mail if and only if they were not one before, and touches nobody else |
| RbacEffects.TenantCreationGives | internal/handler/tenant.go:137-171 | The creator of a tenant holds what the `admin` template carries there; nobody holds anything else new |
| RbacEffects.UserDeletionTakes | internal/handler/auth.go:403-406 | A hard-deleted user holds nothing anywhere; nobody else loses or gains anything |
| TwoFactor.PasswordOutcome | internal/handler/auth.go:159-204 | Exactly who passes the password step, what each refusal replies, when a second step follows, and what a wrong password costs |
| TwoFactor.DisableOutcome | internal/handler/m4.go:122-149 | Switching off takes a right code or an unused recovery code, and forgets secret and codes; otherwise it changes nothing |
| ApiKeys.KeysEnd | internal/handler/m4.go:296-313 | A key is refused once revoked, forever once expired, and as soon as its owner leaves the tenant or is deleted either way |
| TotpSecret.KeyIsNeeded | internal/totpsecret/totpsecret.go:88-90 | Encrypted text read without a key is an error |
| RbacEffects.RoleMeans | db/queries/auth.sql:259-264 | A name means the tenant's own role of that name, and the template only if there is none |
| RbacEffects.AssignableMeans | internal/handler/tenant.go:352-367 | May be assigned: a role the tenant owns or a template, tenant-wide or in a project of the tenant; which error otherwise |
| RbacEffects.RoleReplies | internal/handler/auth.go:441-513 | When creating and deleting a role and granting and revoking a permission succeed, on the rows, and what they reply otherwise |
| RbacEffects.PlatformReplies | internal/handler/tenant.go:137-285 | When the operations on tenants, projects, members and users succeed, on the rows, and what they reply otherwise |
| RbacEffects.FailuresChangeNothing | internal/handler/auth.go:441-687 | An operation that does not succeed changes nothing |
| RbacEffects.OnlyItsTables | internal/handler/auth.go:441-687 | An operation changes no table but its own |
| RbacBulk.BulkRefused | internal/handler/auth.go:563-576 | A bulk request that may not be assigned is refused before the first user |
| RbacInvariant.MigratedTables | db/migrations/000010_multitenant.up.sql:40-82 | What the migration makes of roles, tenants, projects and memberships: built-in roles become templates, all else the default tenant's |
| Sessions.LoginOutcome | db/queries/auth.sql:132-135 | A login inserts its row exactly for a user who exists and a token never handed out |
| Sessions.OnlyItsState | internal/handler/auth.go:218-280 | Which steps move the clock, add and remove users, and move or drop a refresh in progress |
| TwoFactor.ActivationOutcome | internal/handler/m4.go:95-119 | Activation takes a code right for the stored secret, and changes nothing without one |
| TwoFactor.AuthenticMeans | internal/handler/m4.go:127-137 | A code is right if it validates now against the decrypted secret; a recovery code is good while an unused row has its hash |
| TwoFactor.OnlyItsFields | internal/handler/auth.go:151-205 | Which events change the clock, verification, deletion and the tokens of the password step |
| AuthCode.CodeRefused | internal/handler/oidc_flow.go:57-77 | No code is issued to a user who is not an active member of the client's tenant, or under a hash that is taken |
| AuthCode.LeaverGetsNothing | internal/handler/oidc_flow.go:172-181 | Someone who left the tenant or was deleted gets no session for a code issued before |
| AuthCode.OnlyItsState | internal/handler/oidc_flow.go:50-184 | Which steps change the clock, clients, users, members and codes, and what a crash does |
| Staleness.CacheAfter | internal/handler/auth.go:354-372 | What every event does to every cache entry: only a finished validation writes, for 60 s, and only an invalidation that took place or an eviction removes |
| Staleness.WorldAfter | internal/handler/auth.go:354-372 | When a validation is under way, and which events change the tables and the clock |
| Staleness.ServedMeans | internal/cache/cache.go:80-93 | A validation returns an unexpired entry as it is, else the list it read |
| Denylist.LogoutOutcome | internal/handler/auth.go:268-277 | What a logout records in the table and in Redis, and what both then answer |
| Denylist.TimeAndExpired | internal/handler/auth.go:268-277 | A token that no longer parses is refused and not recorded |
| Lifecycle.SucceedsMeans | internal/handler/auth.go:101-144 | What each request needs to commit; the e-mail of a soft-deleted account is still taken |
| Lifecycle.EmailsKept | internal/handler/auth.go:92-148 | Accounts keep their e-mail, and get the one they register or are seeded with |
| Lifecycle.UnannouncedOutcome | internal/handler/auth.go:151-205 | What seeding and signing in change |
| ApiKeys.KeyIsGood | internal/handler/m4.go:296-318 | A key is good if and only if it is not revoked, not past its expiry, and its owner exists, is not soft-deleted and belongs to its tenant |
| Phc.ScanIntReads | internal/password/password.go:52-55 | What a signed field reads: literal, blanks, a sign, digits, anything after |
| Phc.BlanksAre | internal/password/password.go:52-60 | The blanks a scan skips, one by one |
| Phc.VerifyMeans | internal/password/password.go:46-71 | A stored hash verifies if and only if its fields are of the known form and the key is the one derived under them |
| Base64.Alphabets | internal/handler/oidc_flow.go:251-256 | The alphabets of RFC 4648 in order, with the last two symbols of each dialect |
| Base64.Vectors | internal/password/password.go:29 | Test vectors of RFC 4648, section 10, and one that tells the dialects apart |
| TotpSecret.OtherKeysHashed | internal/totpsecret/totpsecret.go:56-62 | A key text that is not base64 of 32 bytes is hashed |
| Glob.StarMeans | internal/cache/cache.go:113-116 | A star matches any text before what the rest matches |
| Glob.OneCharacter | internal/cache/cache.go:113-116 | A question mark matches one character, and a backslash makes the next one literal |
| Glob.ClassMeans | internal/cache/cache.go:113-116 | A class matches one of its members, a negated one one character that is none |
| Glob.RangeMeans | internal/cache/cache.go:113-116 | A range holds what lies between its ends, either way round |

## Left out

- Transport, connection pools, configuration, tracing, metrics, health checks: plumbing.
- Strength of SHA-256, Argon2id, AES-GCM, RSA and of randomness, and the timing of comparisons.
- Hash collisions: tokens, codes and secrets are known by hashes taken to be injective.
- Audit rows, e-mail, consent, list endpoints, `UpdateRole` (it changes a description only), `SwitchTenant` (a login, for sessions): they would only add easy members.
- Seeding of permissions, admin and demo users: permissions are the `catalog`, kept in name order, and `Lifecycle` treats seeded users as users without an event.
- Membership and tenant status: a membership in the model is an active one of an active tenant; suspending a tenant is not modelled.
- Unwrapped reads of strict tables (`validateAssign`, `permRoleGuard`, `ListRoles`, `GetUserRoleAssignments`, the insert of `CreateTenant`): no equality under the policy is claimed for them; the model reads them with bypass.
- Collation: `ORDER BY` on names is code-point order.
- Sign-in around the modelled steps: looking the user up by e-mail, and picking the active tenant after `Issued`; signing tokens does not fail.
- JSON form of cached lists and event payloads.
- Lockout and the second factor at statement level: these are proved for handlers that run as a whole, with writes whose errors the service discards taken to succeed.
- `CreateTenant` in place: it is modelled and its effects proved on values only, so update in place is not captured for it.
- OutboxTheorems.StreamIsPrefix: assumes that creation times strictly increase in commit order; `StreamOrdered` gives the exact condition, ties included.
- OutboxRelay.Relay.Drain: the object sees no other process between its statements; interleaving is covered by the state machine it is proved equal to.
- Lifecycle.StreamReplaysTheTable: lifecycle transactions run one at a time and the clock moves between them.
- Staleness.StalenessBound: membership and account checks of a validation are not repeated there; it covers every list a validation returns, and more.
- TotpSecret.SecretsSurvive: a key may be introduced, never removed or changed, and plaintexts start with no tag, as base32 secrets do not.
- AuthCode.WinnerPassedEveryCheck: clients are never removed and their tenant never changes, as the service offers neither.
- RbacTheorems.RevokeTakesRow: PostgreSQL may skip the subquery for the role when no row needs it, so for a name visible twice a revocation that would find no row may succeed instead of failing; the tables are the same either way.
- RbacStore.Store.Revoke: as above, the error for a name visible twice is taken to be raised whether or not a row needs it.
- RbacStore.Store.Register: the outbox row of the same transaction is in `Lifecycle`.
- Lifecycle.Store.RegisterUser: which role row the transaction inserts is in `RbacStore`; here it is that the user holds the default role.
- Lifecycle.Store.DeleteUser: the token rows themselves are in `SessionHandlers`; here it is that the user has no live session.
