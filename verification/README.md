# Verification of the NocoDB middleware

A Dafny model of the stateful parts of the middleware and of its client
library, with proofs about whole runs. `dafny verify dfyconfig.toml` checks
everything.

## What is modelled

**Access control** (`Store`, `Permissions`, `PermissionRows`, `CopyLaws`,
`RoleServices`, `RbacRuns`, `MissedGrants`, `Interleaving`, `LoadLaws`,
`ClearLaws`). The system tables are sequences of rows
with increasing ids. `Permissions.Load` is the three-table join behind a user's
grants, and `Permissions.Granted` says what it means: an assigned, existing role
with a row that has the flag. The cache is a map in insertion order; the service
class sweeps, evicts, inserts and clears it in place, and each method equals a
function of the old cache. Two layers follow:

- `RbacRuns` and `MissedGrants`: every service call is one atomic step. The cache
  never grants what a fresh join would not, equals it while every call is one that
  clears, and over runs of all calls misses no grant exactly when no role
  creation, bootstrap or local user adds one for a user with a valid entry.
- `Interleaving`, `LoadLaws` and `ClearLaws`: a load is split at each of its
  awaits (table lookups, the user, and every page of the three lists). Arbitrary
  writes, clears, other loads, failures and the clock come in between. Every
  allowed action rests on rows that were stored, in order, during one load, and
  that load ended now or less than five minutes ago. The bound is reached: a load
  caught between its last read and its end answers for the old tables, past a
  clear, until the entry expires. A load on quiet tables is exactly the join; once
  the tables have been quiet for the TTL every answer is. A clear takes effect at
  once exactly when every load still running will return the join of the current
  tables.

**The client's token refresh** (`HttpClient`). The interceptors are a class; the
protocol is a step system over any number of requests, split where the
interceptor awaits `onRefresh`, with sign-ins and sign-outs at any point.

**The NocoDB access layer** (`RateLimiter`, `Paging`, `Retry`). The limiter is a
class whose run gives the n-th slot. The earliest possible times have a max-plus
form, and the run meets them, being the least schedule there is, exactly when no
call is held up by a late timer; the release rate is bounded however late they
are. The paging loop is proved complete, with its exact condition. The retry
decision keeps writes at most once for every sequence of outcomes.

**Filters** (`Text`, `Filter`, `FilterLaws`, `Lexicon`, `Queries`). The builders
print clauses, `andFilters` checks them against a pattern, and a parser inverts
both. `Lexicon` writes the character classes and names out as patterns. `Queries`
ties all this to the tables: the `where` strings the services send select exactly
the rows the store functions return.

**Start-up** (`Startup`, `StartupLaws`, `SchemaLaws`). Table creation, missing
fields, legacy detection and seeding, call by call, with any set of calls failing;
and what the result means for the permission join and the lookups.

**Identities** (`Identity`). Provisioning of external and local users and of the
first administrator, as a run of calls over the users table, with what each call
answers.

### Assumptions about what is not modelled code

- One monotone clock, in whole milliseconds. A record call that fails has had no
  effect, except in `Retry`, where the outcome of each attempt is arbitrary.
- A server that answers 429 has not processed the request
  (`Retry.RejectsUnprocessed`).
- The client's environment stores pairs of one session, tokens of different
  sessions differ, and a refresh returns a token of the session stored when it
  began (`HttpClient.Contract`).
- NocoDB ids start at 1 and are not reused. Lists are in a fixed order. Where a
  complete list matters, the server honours a page size of 1000
  (`cap >= 1000`); `Paging.ReadAllCompleteIff` says what happens otherwise.
- Claims reach provisioning normalised: a trimmed subject, a trimmed email or
  none, and only the provider `external` is upserted (`Identity.CallOk`). Nothing
  is assumed of the names and emails of local users and of the bootstrap.
- A PATCH answers with the whole stored row.

### Where the code does not do what one might expect

- The client's documentation (client/README.md:212-213) says any 401 leads to a
  refresh and a retry. It is so exactly for the first 401 of a request, with a
  callback, while no other refresh is pending; any other 401 is final
  (`HttpClient.UnauthorizedIsRetriedIff`). Of two concurrent 401s the second is
  lost although the refresh succeeds (`HttpClient.SecondUnauthorizedIsLost`).
- The guard against signing over another account covers a refresh that succeeds.
  A refresh that fails empties the storage whatever it holds, also an account
  signed in meanwhile (`HttpClient.CompletionKeepsNewSession`,
  `HttpClient.FailedRefreshSignsOutNewSession`).
- Permission rows are looked up by the trimmed table name and stored under the
  raw one, so a name with outer spaces can get a second row
  (`PermissionRows.SetKeepsUniqueKeysIff`, `PermissionRows.SetIsMapUpdateIff`).
  The requests that set permissions refuse such names
  (src/permissions/dto/set-table-permissions.dto.ts:26-28 and
  src/permissions/dto/batch-permissions.dto.ts:24); `copyPermissions` does not
  check them, and reaches the case through a row typed into NocoDB. Copying such
  a role twice leaves two rows for one key (`CopyLaws.CopyTwiceDuplicates`), and a
  copy is idempotent exactly when the usable source names are trimmed
  (`CopyLaws.CopyIsIdempotentIff`).
- `deleteRolePermissions` clears the cache only after its last delete. If one of
  the deletes fails, the rows already gone stay granted by the cache
  (`RbacRuns.InterruptedDeleteOverGrants`). A cached answer stays right exactly
  when the user does not hold the role, or rows that are left, of this role or
  another one of the user, give all that those rows gave
  (`RbacRuns.InterruptedDeleteIsHarmlessIff`,
  `RbacRuns.InterruptedDeleteLeavesEntrySoundIff`).
- Role creation, bootstrap and local users with roles do not clear the cache, so a
  cached answer may lack a grant until it expires: an administrator made of a
  cached user is one in the tables only (`MissedGrants.BootstrapIsMissed`, with
  the exact condition over runs in `MissedGrants.CacheStaysCompleteIff`).
- Local users and the bootstrap are looked up by the trimmed name and email and
  stored under the raw ones. Nothing on the way trims them, and the address
  validation (src/auth/dto/provision-user.dto.ts:20,
  src/auth/dto/bootstrap-admin.dto.ts:17) allows an ideographic space in front,
  which `trim` drops (`Identity.IdeographicSpaceIsTrimmed`). Two local users with
  such an email share it and its identity (`Identity.LocalUsersShareEmail`). A
  local user " ann" and then a bootstrap of " ann" with the same address leave two
  users with one email (`Identity.BootstrapDuplicatesEmail`). Over a run, emails
  and identities are unique all along exactly when no call adds a row for a raw
  email somebody holds (`Identity.IdentitiesStayUniqueIff`); with trimmed texts
  none does (`Identity.IdentitiesStayUnique`).
- A bootstrap whose assignment call fails leaves a user without the role. Calling
  again repairs it exactly for a trimmed name, and otherwise stores a second user
  (`Identity.InterruptedBootstrapIsRepairedIff`).
- A server that caps pages below the requested size ends `listAll` after the first
  page (`Paging.ReadAllCompleteIff`).
- A timer that fires more than one interval late holds up a call made before it
  fired, although the slots were already spaced. A run meets the earliest
  possible times exactly when this happens to no call
  (`RateLimiter.SlotsAreBestIff`, `RateLimiter.ScheduleIsLeastIff`).

## Model

| member | source | states |
|---|---|---|
| `Interleaving.BoundedStaleness` | src/permissions/permissions.service.ts:51-187 | in every interleaving, whatever an answer allows rests on an assignment, a role and a permission row stored in that order during one load, which ended at this step or less than 5·60·1000 ms ago |
| `Interleaving.RunKeepsInv` | src/permissions/permissions.service.ts:51-187 | the invariant behind it: rows sent to a load in flight were stored while it ran, and every cache entry is the result of one load |
| `Interleaving.ServeKeepsLoad` | src/nocodb/nocodb.service.ts:587-606 | a page served at any moment only brings rows stored at that moment, after those of the tables before it |
| `Interleaving.ReturnRests` | src/permissions/permissions.service.ts:134-161 | a grant of a finished load has its three rows among those the load was sent |
| `LoadLaws.UndisturbedLoadIsTheJoin` | src/permissions/permissions.service.ts:51-161 | a load during which the tables stay the same returns exactly the atomic join, over any number of pages and whatever else runs |
| `LoadLaws.AnswersConverge` | src/permissions/permissions.service.ts:24-187 | once the tables have stayed the same for five minutes and no older load runs, every answer is the fresh join |
| `LoadLaws.AnswersAreFreshAfterClear` | src/permissions/permissions.service.ts:287-293 | from a step with an empty cache and no load running, as long as the tables stay the same, every answer is the fresh join at once |
| `ClearLaws.ClearTakesEffectIff` | src/permissions/permissions.service.ts:287-293 | after any run, a clear makes every answer until the next write the fresh join exactly when every load still running would return it, finished on the current tables |
| `ClearLaws.AnswersAreFreshIff` | src/permissions/permissions.service.ts:51-187 | from any reachable state, every answer until the next write is the fresh join exactly when every valid entry is and every running load will return it |
| `ClearLaws.FinishesAlone` | src/permissions/permissions.service.ts:51-161 | a running load, answered by the server from the current tables, comes to an end and returns what is foretold of it |
| `ClearLaws.FinishIsJoin` | src/permissions/permissions.service.ts:51-161 | a load in step with the current tables will return their join |
| `LoadLaws.AnswersAreExactWithoutWrites` | src/permissions/permissions.service.ts:51-187 | from an empty cache and without writes every answer is the join |
| `LoadLaws.OnlyCompleteLoadsAreCached` | src/permissions/permissions.service.ts:90-159 | without writes every entry is the answer of a load that got to its end, so a user without an existing role is never cached |
| `LoadLaws.LateLoadOutlivesClear` | src/permissions/permissions.service.ts:159-187 | the bound is tight to the millisecond: for every small complete load and any later tables there is a run in which, after a write and a full clear, the old grants are answered for exactly the first 5·60·1000 ms after the load, and a call after that begins a new load |
| `LoadLaws.TakeInPage` | src/nocodb/nocodb.service.ts:593-605 | a full page advances a list in step with the whole result, a short one completes it |
| `RbacRuns.NeverOverGrants` | src/permissions/permissions.service.ts:51-187 | after any sequence of atomic service calls, failed ones included, an unexpired cached grant is granted by a fresh join |
| `RbacRuns.CachedEqualsFresh` | src/permissions/permissions.service.ts:51-187 | after any run without role creation and provisioning, a cached answer equals the fresh one, names included |
| `MissedGrants.CacheStaysCompleteIff` | src/permissions/permissions.service.ts:51-187 | over any run of all calls, every valid cached answer allows exactly what a fresh join grants, all along, exactly when no role creation, bootstrap or local user gives a user with a valid entry a role with a row for something not yet granted |
| `MissedGrants.CachedGrantsAreFresh` | src/permissions/permissions.service.ts:51-187 | so also with external identities, status changes and local users without roles in the run |
| `MissedGrants.BootstrapIsMissed` | src/auth/bootstrap-admin.service.ts:88-111 | for any tables in which a cached user becomes administrator, the cached answer lacks what only that role gives |
| `MissedGrants.HoldsAfter` | src/auth/user-provisioning.service.ts:168-202 | after a call that does not clear, a user holds the roles it held and those the guards of the call give it |
| `MissedGrants.GrantedAfter` | src/auth/bootstrap-admin.service.ts:75-134 | and is granted what it was and what the rows of those roles give |
| `RbacRuns.CacheStaysOrdered` | src/permissions/permissions.service.ts:173-187 | in every reachable state the cache is ordered by expiry, holds a user once and at most 1000 entries |
| `RbacRuns.OtherEntriesStay` | src/permissions/permissions.service.ts:287-293 | calls about one user and calls that only add leave the entries of all others |
| `RbacRuns.RefusedChangesNothing` | src/users/user-roles.service.ts:47-51 | a call that is refused at once changes neither the tables nor the cache |
| `RbacRuns.GrantedIsMonotone` | src/roles/roles.service.ts:45-52 | adding rows never takes a grant away |
| `RbacRuns.ProvisionExtends` | src/auth/bootstrap-admin.service.ts:88-141 | provisioning and bootstrap, which do not clear the cache, only add rows to the tables of the join |
| `RbacRuns.RemoveKeepsOthers` | src/users/user-roles.service.ts:106-133 | removing a role of one user leaves every grant of the others, so clearing that user is enough |
| `RbacRuns.InterruptedDeleteOverGrants` | src/permissions/permissions-management.service.ts:178-193 | a reachable state and a failing delete call after which the cache grants what the tables no longer do |
| `RbacRuns.InterruptedDeleteIsHarmlessIff` | src/permissions/permissions-management.service.ts:178-193 | for every user and any stored rows, duplicates included, an interrupted delete takes no grant exactly when the user does not hold the role, or each action a deleted row gave on its table is given by a row that is left, of any role the user holds |
| `RbacRuns.InterruptedDeleteLeavesEntrySoundIff` | src/permissions/permissions-management.service.ts:178-193 | under the same condition, and no other, a cached answer that was the fresh one is no over-grant after the interrupted delete |
| `RbacRuns.UniqueKeysInterruptedDeleteIff` | src/permissions/permissions-management.service.ts:178-193 | while every (role, table) has one row: exactly when another role of the user gives it |
| `RbacRuns.OneRoleInterruptedDeleteIff` | src/permissions/permissions-management.service.ts:178-193 | for a user with this one role: exactly when rows of it that are left give it |
| `RbacRuns.OneRoleUniqueKeysInterruptedDeleteIff` | src/permissions/permissions-management.service.ts:178-193 | with both: exactly when the rows deleted granted nothing |
| `Permissions.LoadMeetsSpecification` | src/permissions/permissions.service.ts:77-150 | the join grants (table, action) exactly when an assigned, existing role with a positive id has a row with the flag, with duplicates, dangling rows and missing tables |
| `Permissions.FlagsGrant` | src/permissions/permissions.service.ts:146-149 | each of the four flags of a row grants its own action, and no other |
| `Permissions.LoadIsCachedIff` | src/permissions/permissions.service.ts:56-127 | a load gets to its end exactly if the four tables are there and the user is assigned an existing role |
| `Permissions.LoadNamesRoles` | src/permissions/permissions.service.ts:107-109 | the role names answered are the non-empty names of the user's existing roles, and none for an incomplete load |
| `Permissions.LoadNamesUser` | src/permissions/permissions.service.ts:66-67 | the user name answered is that of the user with the id, and "unknown" without one |
| `Permissions.AggregateMembers` | src/permissions/permissions.service.ts:134-150 | the aggregation holds an action exactly when some counted row gives it |
| `Permissions.RoleIdsMembers` | src/permissions/permissions.service.ts:82-88 | the role ids are exactly the positive integer ids assigned |
| `Permissions.RoleIdsDistinct` | src/permissions/permissions.service.ts:82-88 | and each occurs once |
| `Permissions.InsertKeepsOk` | src/permissions/permissions.service.ts:173-187 | an insert keeps expiry order, unique users and the size bound, leaves no expired entry, and the user's new entry is found |
| `Permissions.EvictsOldestFirst` | src/permissions/permissions.service.ts:173-187 | an unexpired entry of another user is dropped only from a full cache, and then expires no later than any survivor |
| `Permissions.ClearDrops` | src/permissions/permissions.service.ts:287-293 | a clear keeps exactly the other users' entries, and nothing without a user or for id 0 |
| `Permissions.PermissionsService.GetUserPermissions` | src/permissions/permissions.service.ts:51-161 | a valid cached answer or the join; the cache gets the entry exactly for a completed load |
| `Permissions.PermissionsService.AggregateRecords` | src/permissions/permissions.service.ts:134-150 | the loop over the rows computes the aggregation |
| `Permissions.PermissionsService.SweepExpired` | src/permissions/permissions.service.ts:175-177 | deleting expired entries by key while walking leaves exactly the unexpired ones in order |
| `Permissions.PermissionsService.MakeRoom` | src/permissions/permissions.service.ts:179-182 | the eviction loop drops the oldest entries down to 999 and no more |
| `Permissions.PermissionsService.CachePermissions` | src/permissions/permissions.service.ts:173-187 | sweep, delete, evict and append, as one function of the old cache |
| `Permissions.PermissionsService.ClearCache` | src/permissions/permissions.service.ts:287-293 | clears one user, or everything for a missing or zero id |
| `Permissions.PermissionsService.CanUserPerformAction` | src/permissions/permissions.service.ts:192-206 | without a valid entry the answer is the relational specification |
| `PermissionRows.SetIsMapUpdate` | src/permissions/permissions-management.service.ts:25-74 | on a trimmed name an update sets its own (role, table) and leaves every other one |
| `PermissionRows.SetIsRefusedIff` | src/permissions/permissions-management.service.ts:30-40 | which errors an update answers, and exactly when |
| `PermissionRows.SetIsMapUpdateIff` | src/permissions/permissions-management.service.ts:34-67 | for any stored rows and any name that can be looked up, an update is a map update exactly when the name is trimmed, or nothing is stored under the trimmed name and the first row of the raw one has the same flags, or the renamed row is followed by one of its name and flags and not preceded by a row of the raw name with others |
| `PermissionRows.SetIsMapUpdateUniqueIff` | src/permissions/permissions-management.service.ts:34-67 | with one row per key the last of these cases cannot occur |
| `PermissionRows.SetKeepsUniqueKeysIff` | src/permissions/permissions-management.service.ts:34-67 | an update keeps one row per (role, table) exactly when the name is trimmed or no row is stored under the raw name |
| `PermissionRows.SetKeepsOtherRoles` | src/permissions/permissions-management.service.ts:25-74 | rows of other roles are unchanged in content and order, for any name |
| `PermissionRows.SetAgainIsNoop` | src/permissions/permissions-management.service.ts:53-58 | setting what is set changes nothing |
| `PermissionRows.BatchIsFold` | src/permissions/permissions-management.service.ts:86-113 | a batch applies every entry, the last one per table wins, nothing else changes |
| `PermissionRows.BatchKeepsOtherRoles` | src/permissions/permissions-management.service.ts:86-113 | whatever the names, and whether or not it gets through, a batch leaves the rows of every other role |
| `PermissionRows.BatchAppliesUsable` | src/permissions/permissions-management.service.ts:95-106 | a batch applies its entries up to the first name that cannot be looked up, and fails exactly if there is one |
| `PermissionRows.CopyLaw` | src/permissions/permissions-management.service.ts:118-159 | a copy fails exactly at a source row without a usable name, having copied the rows before; other roles' rows are unchanged for any names; with trimmed usable names the target gets the last flags of each and keeps its other tables |
| `PermissionRows.CopyMakesEqual` | src/permissions/permissions-management.service.ts:118-159 | with one trimmed row per source table the target equals the source on the source's tables |
| `CopyLaws.CopyIsIdempotentIff` | src/permissions/permissions-management.service.ts:130-149 | for any rows, also with duplicates and also onto itself, copying twice is copying once exactly when every source name before the first unusable one is trimmed |
| `CopyLaws.CopyIsIdempotent` | src/permissions/permissions-management.service.ts:118-159 | in particular while all names are trimmed and unique |
| `CopyLaws.UntrimmedCopyGrows` | src/permissions/permissions-management.service.ts:34-67 | with an untrimmed source name each further copy leaves one more such row in the target |
| `CopyLaws.CopyTwiceDuplicates` | src/permissions/permissions-management.service.ts:130-149 | a row " a" typed into the table, copied twice to another role, gives that role two rows " a" |
| `CopyLaws.BatchIsOverlay` | src/permissions/permissions-management.service.ts:95-106 | a batch on names already stored sets the flags of the first row of each to the last ones listed, and changes no other row |
| `PermissionRows.DeleteRemovesOneRole` | src/permissions/permissions-management.service.ts:164-194 | for any stored rows, a delete leaves no row of the role and all others in order |
| `PermissionRows.DeleteIsMapDelete` | src/permissions/permissions-management.service.ts:164-194 | seen as a map, it empties the role and keeps every other key |
| `PermissionRows.PermissionsManagementService.SetTablePermissions` | src/permissions/permissions-management.service.ts:25-81 | the store after find, update or create; errors change nothing; success clears the cache |
| `PermissionRows.PermissionsManagementService.BatchSetPermissions` | src/permissions/permissions-management.service.ts:86-113 | the loop is the fold of single updates, stopped by the first error |
| `PermissionRows.PermissionsManagementService.CopyPermissionsTo` | src/permissions/permissions-management.service.ts:118-159 | the copy is the batch of the source's rows for the target |
| `PermissionRows.PermissionsManagementService.DeletePermissionsOf` | src/permissions/permissions-management.service.ts:164-194 | the delete loop removes the listed rows by id, then clears the cache |
| `RoleServices.AssignKeepsRows` | src/users/user-roles.service.ts:39-57 | an assignment is found afterwards and stays the only one of its user and role |
| `RoleServices.AssignIsRefusedIff` | src/users/user-roles.service.ts:35-51 | a missing table is not found, an assigned role a conflict, and nothing else is refused |
| `RoleServices.RemoveIsRefusedIff` | src/users/user-roles.service.ts:111-124 | not found exactly without the table or the assignment |
| `RoleServices.CreateIsRefusedIff` | src/roles/roles.service.ts:34-43 | a missing table, a bad name and a taken name, and nothing else is refused |
| `RoleServices.DeleteIsRefusedIff` | src/roles/roles.service.ts:137-141 | not found exactly without the table or the role |
| `RoleServices.AssignRolesCounts` | src/users/user-roles.service.ts:80-99 | the count of a list is the number of rows it adds |
| `RoleServices.RemoveDeletesOneRow` | src/users/user-roles.service.ts:115-129 | removing deletes one row and keeps the others in order |
| `RoleServices.RemoveUndoesAssign` | src/users/user-roles.service.ts:30-138 | removing a role just assigned gives back the same rows |
| `RoleServices.AssignRolesLaw` | src/users/user-roles.service.ts:73-101 | assigning a list leaves every listed role assigned exactly once and only appends rows |
| `RoleServices.CreateRoleLaw` | src/roles/roles.service.ts:29-53 | role names stay unique and the new id is nobody's |
| `RoleServices.DeleteRoleLaw` | src/roles/roles.service.ts:132-145 | deleting leaves every other role and none with the id |
| `RoleServices.UserRolesService.Assign` | src/users/user-roles.service.ts:30-68 | conflict, missing table or a new row and that user's cache entry cleared |
| `RoleServices.UserRolesService.AssignMultiple` | src/users/user-roles.service.ts:73-101 | the loop skips conflicts and counts new assignments |
| `RoleServices.UserRolesService.Remove` | src/users/user-roles.service.ts:106-138 | not found, or the row deleted and that user's cache entry cleared |
| `RoleServices.RolesService.Create` | src/roles/roles.service.ts:29-57 | name check, conflict or a new role; the cache is left alone |
| `RoleServices.RolesService.Delete` | src/roles/roles.service.ts:132-150 | the role deleted and the whole cache cleared |
| `HttpClient.Client.AttachToken` | client/src/http-client.ts:55-62 | the header is the stored access token, or what it was |
| `HttpClient.Client.OnError` | client/src/http-client.ts:71-88 | a refresh begins exactly on a first 401, and no other status, with a callback and a free lock, and sets flag and lock |
| `HttpClient.Client.OnRefreshFailed` | client/src/http-client.ts:89-95 | the storage is emptied and the lock released |
| `HttpClient.Client.OnRefreshed` | client/src/http-client.ts:94-112 | the token is stored and the request retried exactly if the session is unchanged or the callback stored the token |
| `HttpClient.SameSessionIsEquality` | client/src/http-client.ts:16-20 | comparing the two tokens is comparing the pairs |
| `HttpClient.NoSessionMixing` | client/src/http-client.ts:69-117 | in every run the stored pair never joins tokens of two sessions |
| `HttpClient.OneRefreshAtATime` | client/src/http-client.ts:67-95 | at most one refresh is pending, and the lock is set exactly while one is |
| `HttpClient.SentAtMostTwice` | client/src/http-client.ts:74-112 | a request is sent at most twice and causes at most one refresh; without a callback it is sent once |
| `HttpClient.SettledStays` | client/src/http-client.ts:69-117 | a request that succeeded or failed stays as it is in every continuation and is never sent again |
| `HttpClient.ResponseIsRetriedIff` | client/src/http-client.ts:69-117 | after an answer with any status some continuation sends the request again exactly if it is 401, there is a callback, it was not retried before and no refresh is pending |
| `HttpClient.RespondSettlesOrRefreshes` | client/src/http-client.ts:70-115 | a 2xx succeeds, every other status settles the request with it and leaves tokens, lock and other requests, except the 401 that may refresh |
| `HttpClient.FailedRefreshFails` | client/src/http-client.ts:89-95 | a refresh that throws fails its request with the 401, empties the storage and frees the lock |
| `HttpClient.SendsCarryStoredToken` | client/src/http-client.ts:55-62 | every send carries the access token stored at that moment |
| `HttpClient.SignedOutStaysSignedOut` | client/src/http-client.ts:97-107 | a refresh that completes on an empty storage ends its request for good in every continuation, and the storage stays empty until the next sign-in |
| `HttpClient.UnauthorizedIsRetriedIff` | client/src/http-client.ts:74-88 | after a 401 some continuation sends the request again exactly if there is a callback, it was not retried before and no refresh is pending |
| `HttpClient.SecondUnauthorizedIsLost` | client/src/http-client.ts:75-80 | a run in which the second of two concurrent 401s fails for good although the refresh succeeds and a valid token is stored |
| `HttpClient.RefreshOnlyTouchesItsSession` | client/src/http-client.ts:97-112 | a successful refresh replaces the access token of its own pair and leaves any other pair |
| `HttpClient.CompletionKeepsNewSession` | client/src/http-client.ts:87-107 | a completed refresh keeps a changed storage exactly when it succeeded or the storage is empty |
| `HttpClient.FailedRefreshSignsOutNewSession` | client/src/http-client.ts:89-93 | a run in which a failed refresh signs out an account signed in meanwhile |
| `HttpClient.LockFreezesTokens` | client/src/http-client.ts:74-95 | while a refresh is pending, other requests change neither the tokens nor that request |
| `HttpClient.UndisturbedRefreshRetries` | client/src/http-client.ts:74-112 | a first 401 with a free lock, if nobody signs in or out while the refresh is pending, ends in one retry carrying the new token beside the old refresh token |
| `HttpClient.RequestsTerminate` | client/src/http-client.ts:69-117 | in any run a request takes at most five steps |
| `HttpClient.UnsettledCanStep` | client/src/http-client.ts:69-117 | and until it is settled one of them is possible |
| `RateLimiter.Limiter.Enforce` | src/nocodb/nocodb.service.ts:366-378 | the delay leads to the later of now and the next allowed time, and the next slot is one interval after it |
| `RateLimiter.RunCalls` | src/nocodb/nocodb.service.ts:355-381 | the limiter run over any list of calls gives the slots of the specification |
| `RateLimiter.SlotsAreBestIff` | src/nocodb/nocodb.service.ts:355-381 | for every list of calls, each slot is the earliest possible exactly when no call is held up: made before a timer of the call before it, more than an interval late, has fired |
| `RateLimiter.SlotIsNotBeforeBest` | src/nocodb/nocodb.service.ts:355-381 | a slot is never before the earliest time |
| `RateLimiter.BestIsMaxPlus` | src/nocodb/nocodb.service.ts:355-381 | the earliest time of call n is the maximum over j of arrival(j) + (n - j)·200 |
| `RateLimiter.ScheduleIsMaxPlus` | src/nocodb/nocodb.service.ts:355-381 | with timers at most 200 ms late the n-th slot is that maximum |
| `RateLimiter.ScheduleIsLeastIff` | src/nocodb/nocodb.service.ts:355-381 | the limiter's schedule is pointwise the least of all in call order, never before arrival and spaced by 200 ms, exactly when no call is held up |
| `RateLimiter.ScheduleIsLeast` | src/nocodb/nocodb.service.ts:355-381 | with timers at most 200 ms late it is the least |
| `RateLimiter.NoScheduleIsEarlier` | src/nocodb/nocodb.service.ts:355-381 | no such schedule serves a call before the earliest time |
| `RateLimiter.VeryLateTimerDelays` | src/nocodb/nocodb.service.ts:364-378 | an instance: the last of three calls loses its earliest time exactly when the timer before it is more than an interval late and the call was made before that timer fired |
| `RateLimiter.Spaced` | src/nocodb/nocodb.service.ts:367-371 | slots i and j are at least (j - i)·200 ms apart, whatever the arrivals and timers |
| `RateLimiter.ReleasesInOrder` | src/nocodb/nocodb.service.ts:364-380 | callers are released in the order of their calls |
| `RateLimiter.RateBound` | src/nocodb/nocodb.service.ts:109-112 | with timers at most L late, a window of length W holds at most ceil((W + L)/200) releases |
| `RateLimiter.FivePerSecond` | src/nocodb/nocodb.service.ts:109-112 | with punctual timers, at most five a second |
| `Paging.Query.List` | src/nocodb/nocodb.service.ts:535-564 | one page of a stable result, after exactly one slot granted by the limiter |
| `Paging.Query.ListAll` | src/nocodb/nocodb.service.ts:587-606 | the loop collects the pages of the specification and takes exactly one limiter slot per call |
| `Paging.ReadAllComplete` | src/nocodb/nocodb.service.ts:587-606 | if the server honours the page size, the pages are the whole result in order, in n div p + 1 calls |
| `Paging.ReadAllCompleteIff` | src/nocodb/nocodb.service.ts:593-605 | the result is complete exactly when the server's cap is at least the page size or covers the whole result |
| `Paging.PagesPartition` | src/nocodb/dto/page-options.dto.ts:31-33 | pages 1 to pageCount, concatenated, are the whole list |
| `Paging.PageNonEmptyIff` | src/nocodb/dto/page-meta.dto.ts:16-23 | a page holds rows exactly when its number is at most pageCount |
| `Paging.NextPageIffRowsLeft` | src/nocodb/dto/page-meta.dto.ts:16-23 | there is a next page exactly when skip + take < itemCount, and a previous one exactly when skip > 0 |
| `Paging.DefaultPage` | src/nocodb/dto/page-meta.dto.ts:17-18 | without options, or with zeros, it is the first page of ten |
| `Paging.GivenPage` | src/nocodb/dto/page-options.dto.ts:31-33 | given options are taken as they are |
| `Retry.RetriedIff` | src/nocodb/nocodb-retry.util.ts:25-42 | for every method, outcome and retry count a call is sent again exactly while retries are left and the answer is 429, or a read meets a status of at least 500 or one of the six network codes |
| `Retry.SentExactlyIff` | src/nocodb/nocodb-retry.util.ts:25-42 | it is sent k + 1 times exactly if the first k outcomes are such and the next is not, or no retry is left |
| `Retry.RateLimitedIsSentAgain` | src/nocodb/nocodb-retry.util.ts:28-30 | any method answered 429 k times and then let through is sent k + 1 times |
| `Retry.WritesAreAppliedAtMostOnce` | src/nocodb/nocodb-retry.util.ts:25-42 | for every sequence of outcomes a write is applied at most once, only by its last attempt, and a call is sent at most retries + 1 times |
| `Retry.AtMostOnceIffWrite` | src/nocodb/nocodb-retry.util.ts:32-41 | at-most-once for every server that honours 429 holds exactly for writes or without retries |
| `Retry.ClientErrorsAreFinal` | src/nocodb/nocodb-retry.util.ts:25-42 | a 4xx other than 429 is never sent again |
| `Retry.BackoffGrows` | src/nocodb/nocodb.service.ts:168-172 | the nominal delay never decreases, at least doubles below the cap and never exceeds it |
| `Retry.BackoffDoubles` | src/nocodb/nocodb.service.ts:169-172 | the first retry waits for the base delay and each further one twice as long, up to the cap |
| `Retry.JitterSpreads` | src/nocodb/nocodb.service.ts:174-175 | the random number moves the wait from a quarter less, over none in the middle, towards a quarter more |
| `Retry.DelayBounds` | src/nocodb/nocodb.service.ts:168-176 | every wait is within a quarter of min(base·2^(k-1), max) up to rounding, and not negative |
| `Retry.WaitsBetweenSends` | src/nocodb/nocodb.service.ts:166-176 | a call waits for the k-th delay before its k-th retry, and for nothing else; the middle of the jitter before the first is the base delay |
| `Retry.TotalDelayBound` | src/nocodb/nocodb.service.ts:155-179 | for every sequence of outcomes, the waits of a call together are at most retries·(1.25·max + 0.5) |
| `FilterLaws.PrintThenParse` | src/nocodb/nocodb-filter.util.ts:18-19 | printing any list of clauses and parsing it gives the list back |
| `FilterLaws.ParseThenPrint` | src/nocodb/nocodb-filter.util.ts:18-19 | whatever parses prints back to the same string |
| `FilterLaws.ExpressionIsPattern` | src/nocodb/nocodb-filter.util.ts:18-19 | the scanner accepts exactly the strings the pattern matches |
| `FilterLaws.PatternIsPrinted` | src/nocodb/nocodb-filter.util.ts:18-19 | the pattern matches exactly the printed clauses |
| `FilterLaws.AndFiltersParses` | src/nocodb/nocodb-filter.util.ts:52-60 | the conjunction is refused exactly if some part is not one whole clause, and else parses into exactly its parts |
| `FilterLaws.BuiltFiltersRoundTrip` | src/nocodb/nocodb-filter.util.ts:24-96 | any list of built clauses is accepted and comes back with the same number and meaning, values trimmed and `id` as `Id` |
| `FilterLaws.BuildMeans` | src/nocodb/nocodb-filter.util.ts:24-50 | a builder that succeeds prints one clause that says what was asked |
| `FilterLaws.PrintInjective` | src/nocodb/nocodb-filter.util.ts:37-59 | two different lists of clauses never print alike |
| `FilterLaws.AndIsConjunction` | src/nocodb/nocodb-filter.util.ts:52-60 | a record is selected exactly if every part selects it |
| `FilterLaws.EqSelects` | src/nocodb/nocodb-filter.util.ts:24-30 | an `eq` filter selects the records whose cell is the trimmed text or the number |
| `FilterLaws.InSelects` | src/nocodb/nocodb-filter.util.ts:32-40 | an `in` filter over numbers selects the records whose cell is one of them |
| `Lexicon.CheckedSelects` | src/nocodb/nocodb-filter.util.ts:42-50 | the check box filters select the ticked records and all others, and `filterEq` on a boolean is one of them |
| `Lexicon.BuildSucceedsIff` | src/nocodb/nocodb-filter.util.ts:24-50 | a builder refuses, as a bad request, exactly a bad field, a value that cannot be written, a flag in a list and an empty list |
| `Lexicon.FieldIsRefusedIff` | src/nocodb/nocodb-filter.util.ts:62-68 | a field is taken exactly if it is one or more of letters, digits, `_` and `-`, by code point, and `id` becomes `Id` |
| `Lexicon.TextIsRefusedIff` | src/nocodb/nocodb-filter.util.ts:85-103 | a text is quoted trimmed, and refused exactly if that is empty or holds a quote or a control character, by code point |
| `Lexicon.TrimDrops` | src/nocodb/nocodb-filter.util.ts:85 | trimming drops white space, by code point, at both ends, as much as there is, and nothing else |
| `Lexicon.NumberIsPattern` | src/nocodb/nocodb-filter.util.ts:18-19 | a number is an optional minus, digits, and optionally a point with more digits |
| `Lexicon.TableNameIs` | src/common/validation/table-name.ts:9-10 | a table name is one outer character, or two with at most 253 outer characters or spaces between |
| `Lexicon.RoleNameIs` | src/roles/roles.service.ts:63 | a role name is words of letters, digits, `_` and `-` with one space between each two |
| `FilterLaws.TableNamesAreSafe` | src/common/validation/table-name.ts:9-17 | every valid table name is accepted, parses back unchanged and selects exactly its rows |
| `FilterLaws.RoleNamesAreSafe` | src/roles/roles.service.ts:63-79 | every accepted role name is looked up unchanged |
| `Queries.AssignmentsOfQuery` | src/permissions/permissions.service.ts:77-80 | the `where` of the assignment list selects exactly the user's rows |
| `Queries.RolesInQuery` | src/permissions/permissions.service.ts:103-105 | the `where` of the role list selects exactly the roles with these ids |
| `Queries.PermissionsInQuery` | src/permissions/permissions.service.ts:129-132 | the `where` of the permission list selects exactly the rows of these roles |
| `Queries.AssignmentQuery` | src/users/user-roles.service.ts:39-45 | the lookup of an assignment selects exactly the rows of that user and role |
| `Queries.PermissionQuery` | src/permissions/permissions-management.service.ts:34-40 | the lookup of a permission row is refused exactly for a name that cannot be quoted, and else selects the rows under the trimmed name |
| `Queries.SubjectQuery` | src/auth/user-provisioning.service.ts:153-166 | the lookup of an identity is refused exactly when provider or subject cannot be quoted, and else selects exactly its rows |
| `Queries.EmailQuery` | src/auth/user-provisioning.service.ts:34-41 | the lookup by email is refused exactly for an email that cannot be quoted, and else selects the rows with the trimmed email |
| `Queries.UsernameQuery` | src/auth/user-provisioning.service.ts:97-100 | the same for the lookup by user name |
| `Queries.RoleTextQuery` | src/auth/user-provisioning.service.ts:180-183 | the same for the lookup of any role name |
| `Queries.RoleNameQuery` | src/roles/roles.service.ts:76-79 | a role name the service accepts is never refused and selects exactly the roles of that name |
| `Queries.ListedIsSelected` | src/nocodb/nocodb.service.ts:623-626 | listing by such a query gives the rows of the predicate in order, and `findOne` its first row or nothing |
| `Queries.ListsOfTheLoad` | src/permissions/permissions.service.ts:77-132 | the three lists of a load are what the `where` strings list from the tables |
| `Queries.FindsPermission` | src/permissions/permissions-management.service.ts:34-40 | the row the model finds for a role and a table is the first that the `where` string lists |
| `Queries.FindsAssignment` | src/users/user-roles.service.ts:39-45 | so is the assignment |
| `Queries.FindsRole` | src/roles/roles.service.ts:76-79 | so is the role |
| `Queries.FindsUsers` | src/auth/bootstrap-admin.service.ts:51-63 | so are the users by name and by email |
| `Queries.FindsSubject` | src/auth/user-provisioning.service.ts:153-166 | so is the user by identity |
| `Startup.DatabaseInitializationService.EnsureFieldsExist` | src/nocodb/database-initialization.service.ts:186-218 | the loop over the definition creates the fields the metadata did not list, whichever calls fail |
| `Startup.DatabaseInitializationService.EnsureTableExists` | src/nocodb/database-initialization.service.ts:110-184 | lookup, legacy check, fields or creation, with its three ways to end |
| `Startup.DatabaseInitializationService.InitializeTables` | src/nocodb/database-initialization.service.ts:96-108 | tables in order up to the first that does not end well, then the seeding |
| `Startup.DatabaseInitializationService.SeedDefaultPermissions` | src/nocodb/database-initialization.service.ts:220-254 | finds or creates the administrator role, then its rows; failures end it quietly |
| `Startup.DatabaseInitializationService.EnsureAdminPermissions` | src/nocodb/database-initialization.service.ts:256-289 | one find and one write per system table, up to the first failure |
| `StartupLaws.StartOnlyAdds` | src/nocodb/database-initialization.service.ts:96-289 | whichever calls fail, a start only adds tables, fields and rows and only sets flags of the administrator's system-table rows |
| `StartupLaws.CleanStartCompletesIff` | src/nocodb/database-initialization.service.ts:96-289 | a start without failures reaches the complete state exactly from a schema without legacy link fields, and else throws |
| `StartupLaws.CompleteIsFixed` | src/nocodb/database-initialization.service.ts:96-289 | no start, failing or not, changes the complete state |
| `StartupLaws.LegacyTableStops` | src/nocodb/database-initialization.service.ts:163-184 | a legacy table stops every start, is itself untouched, and nothing is seeded |
| `StartupLaws.StartupConverges` | src/nocodb/database-initialization.service.ts:87-289 | after any starts with any failures one clean start completes the schema, and no later start leaves that state |
| `SchemaLaws.StartedAdminRules` | src/nocodb/database-initialization.service.ts:256-289 | after any starts, one clean start without old links, and any more, there is a role named "admin", and the permission join grants every user who holds it all four actions on "users", "roles", "user_roles" and "table_permissions" |
| `SchemaLaws.CleanStartThrowsIff` | src/nocodb/database-initialization.service.ts:75-79 | a clean start throws exactly if `user_roles` has a link field `user` or `role`, or `table_permissions` one named `role` |
| `SchemaLaws.TablesBehindAreUntouched` | src/nocodb/database-initialization.service.ts:96-108 | a legacy assignments table keeps the start from touching the permissions table behind it |
| `SchemaLaws.FaultsEndTheStart` | src/nocodb/database-initialization.service.ts:110-155 | a failing lookup throws, a failing creation ends the start without seeding |
| `SchemaLaws.StartedTablesHave` | src/nocodb/database-initialization.service.ts:26-69 | after a clean start the tables have the fields of the definitions, by name |
| `SchemaLaws.StartedTablesFit` | src/nocodb/database-initialization.service.ts:26-69 | among them every cell the lookups and the join read |
| `SchemaLaws.RelationsAreNumbers` | src/nocodb/database-initialization.service.ts:49-69 | relations are created as numbers and flags as check boxes |
| `StartupLaws.RestartsOnlyAdd` | src/nocodb/database-initialization.service.ts:87-289 | over any sequence of starts only tables, fields and rows are added and the administrator role keeps its id |
| `StartupLaws.EnsureTableLaw` | src/nocodb/database-initialization.service.ts:110-156 | one table's step: what it changes, when it completes, when it stops |
| `StartupLaws.EnsureRowsLaw` | src/nocodb/database-initialization.service.ts:256-289 | the rows' loop: every listed row has all flags if it gets through, and full rows are left as they are |
| `Identity.IdentitiesStayUniqueIff` | src/auth/user-provisioning.service.ts:26-151 | over any sequence of provisioning calls, no two users share an email or an identity at any point exactly when no local user and no bootstrap, whether or not its assignment fails, adds a row for a raw email somebody holds |
| `Identity.IdentitiesStayUnique` | src/auth/user-provisioning.service.ts:26-151 | in particular when emails and bootstrap names have no outer white space |
| `Identity.UpsertKeepsOk` | src/auth/user-provisioning.service.ts:26-90 | an upsert keeps both unique and never changes the id or `is_active` of an existing user |
| `Identity.UpsertIsIdempotent` | src/auth/user-provisioning.service.ts:26-90 | repeating an upsert returns the same user and changes nothing |
| `Identity.UpsertStores` | src/auth/user-provisioning.service.ts:53-89 | the answer is a stored row that carries the claims, with its status and the roles of the token |
| `Identity.FirstUpsertCreates` | src/auth/user-provisioning.service.ts:80-89 | an identity nobody is found for adds one active user with the claims in its cells, named by the claims, the part of the email before the at sign or the subject, and is answered as active |
| `Identity.UpsertUpdatesFound` | src/auth/user-provisioning.service.ts:53-64 | a user found by subject keeps every cell but the email and name the claims bring |
| `Identity.UpsertLinksEmail` | src/auth/user-provisioning.service.ts:66-78 | a user found by email alone gets the identity and keeps email and status |
| `Identity.UpsertIsRefusedIff` | src/auth/user-provisioning.service.ts:29-51 | which errors an upsert answers, and exactly when; it then changes nothing |
| `Identity.NewIdentityStaysIn` | src/auth/strategies/jwt.strategy.ts:102-106 | from its first login on, whatever calls come in between short of deactivating the user, a new identity is answered as active |
| `Identity.DeactivatedStaysOut` | src/auth/strategies/jwt.strategy.ts:102-106 | whatever calls come in between, short of setting the status again, an identity that resolves to a deactivated user is answered as inactive |
| `Identity.StatusIsAnswered` | src/auth/user-provisioning.service.ts:138-151 | setting a status changes that one cell and answers the user with it |
| `Identity.StatusIsRefusedIff` | src/auth/user-provisioning.service.ts:138-150 | a status is refused exactly for a user that is not stored |
| `Identity.BootstrapMakesAdmin` | src/auth/bootstrap-admin.service.ts:88-140 | a successful bootstrap answers a stored user that holds the administrator role, and says whether it created it |
| `Identity.AssignByNamesKeepsUnique` | src/auth/user-provisioning.service.ts:179-201 | assigning by name never assigns a role twice, and only adds rows |
| `Identity.BootstrapKeepsUniqueAssignmentsIff` | src/auth/bootstrap-admin.service.ts:88-133 | a bootstrap assigns the role twice exactly if it adds a user for whose new id a row was there before |
| `Identity.BootstrapDuplicatesEmail` | src/auth/bootstrap-admin.service.ts:51-121 | a local user and a bootstrap under one untrimmed name leave two users with one email |
| `Identity.CreateLocalKeepsOkIff` | src/auth/user-provisioning.service.ts:97-124 | creating a local user keeps emails and identities unique exactly unless nobody is found under the trimmed name and email and somebody holds the raw email |
| `Identity.CreateLocalKeepsOk` | src/auth/user-provisioning.service.ts:92-136 | with a trimmed email it always does |
| `Identity.LocalUserIsStored` | src/auth/user-provisioning.service.ts:117-135 | the cells of the row a local user is stored in, active unless asked otherwise, and the answer |
| `Identity.LocalUserIsRefusedIff` | src/auth/user-provisioning.service.ts:92-115 | which errors a local user without a row is answered |
| `Identity.LocalUsersShareEmail` | src/auth/user-provisioning.service.ts:107-124 | two local users with an email that `trim` shortens share the email and the identity |
| `Identity.IdeographicSpaceIsTrimmed` | src/nocodb/nocodb-filter.util.ts:85-95 | such an email can be looked up |
| `Identity.BootstrapKeepsOkIff` | src/auth/bootstrap-admin.service.ts:51-128 | a bootstrap keeps emails and identities unique exactly unless the tables and the role are there, nobody has the trimmed name, the holder of the trimmed email, if any, has the raw name, and somebody holds the raw email |
| `Identity.BootstrapKeepsOk` | src/auth/bootstrap-admin.service.ts:51-128 | with a trimmed user name and email it always does |
| `Identity.AdminIsStored` | src/auth/bootstrap-admin.service.ts:113-140 | the user a bootstrap adds is active and without an identity, and assigned the role |
| `Identity.BootstrapIsRefusedIff` | src/auth/bootstrap-admin.service.ts:41-84 | which errors a bootstrap answers, and exactly when; it then changes nothing |
| `Identity.InterruptedBootstrapIsRepairedIff` | src/auth/bootstrap-admin.service.ts:88-133 | after a created user's assignment failed, calling again succeeds, and finds that user and makes it administrator exactly if the name is trimmed; otherwise it stores a second user |
| `Identity.LocalUpsertBreaksUniqueness` | src/auth/strategies/jwt.strategy.ts:70-102 | why the local provider must not be upserted: two calls after which two users share an identity |
| `Identity.UserProvisioningService.Upsert` | src/auth/user-provisioning.service.ts:26-90 | lookups, conflict, update or creation, and the resolved identity answered, as one function of the table |
| `Identity.UserProvisioningService.AssignByNames` | src/auth/user-provisioning.service.ts:168-202 | the loop assigns each existing named role once and skips the others |
| `Identity.UserProvisioningService.CreateLocal` | src/auth/user-provisioning.service.ts:92-136 | conflicts on name and email, then the user, its roles and the resolved identity |
| `Identity.UserProvisioningService.SetStatus` | src/auth/user-provisioning.service.ts:138-151 | one row's `is_active` is set, and the user is answered with it |
| `Identity.BootstrapAdminService.Bootstrap` | src/auth/bootstrap-admin.service.ts:51-141 | finds or creates the user and its administrator assignment and answers id, name and whether it was created; if the assignment call fails, a user created before stays |
| `Text.TrimIdentity` | src/nocodb/nocodb-filter.util.ts:85 | a value trims to itself exactly when it has no outer white space |
| `Text.DecimalRoundTrip` | src/nocodb/nocodb-filter.util.ts:71-77 | an integer printed in plain decimal reads back as itself |

## Left out

- NestJS wiring, controllers, DTO validation, Swagger, logging, tracing and
  configuration: no state of their own.
- The internals of axios, axios-retry, passport and scrypt; of axios-retry only
  "send again while retries are left and the condition holds" is used.
- `DataService`, `TablePermissionsGuard`, the table catalog and scopes: the same
  TTL pattern or short expressions. Data-API writes do not reach the system
  tables, so they are not operations of `RbacRuns`.
- The physical `table_name` fallback of `getTableByName`, the table prefix, JSON
  and paths of the NocoDB API, and the SDK client.
- Numbers that are not integers, and integers printed with an exponent: filter
  numbers are integers in plain decimal.
- The bootstrap token check, password hashing, and the `description`,
  `is_system_role` and `assigned_at` cells.
- `initializePermissionsForRole`, `batchCreate`, `batchUpdate` and the paginated
  read endpoints: loops over operations that are modelled, or reads. The first,
  which nothing calls, would be another way for an untrimmed table name.
- Clocks that go backwards, timers that fire early by part of a millisecond, and
  tokens that are empty strings.
- `createTable` answering without an id, which the start-up treats as a failure
  although the table exists, and a store that accepts a write and drops the cells
  of missing fields: in `Startup` a call either succeeds or changes nothing.
- In the atomic layer a call is done whole or not at all, except for batches,
  copies, local users and bootstraps, whose stores after an error are modelled,
  and for the interrupted delete, which has its own lemmas. A local user whose
  assignment call fails is stored like one with the roles before it only.
- `Permissions.PermissionsService.GetUserPermissions` and the other service
  methods read one unchanging store; what changes between their awaits is the
  matter of `Interleaving`.
- Permission flags and ids are taken as stored booleans and integers; the
  conversions `Number(...)` and `Boolean(...)` are folded into `Option` cells.
- Text: strings are sequences of characters, without normalisation or case rules;
  `TableNamesAreSafe` takes the letters and digits of all scripts as any class of
  characters without white space, quotes and control characters.
