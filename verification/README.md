# Verified models of the schulcloud-server core

Dafny models of the stateful and algorithmic parts of the server, with proofs of what they promise. Databases,
Redis and message brokers appear as maps, queues and expiring keys; what other services answer is a parameter, so
that a theorem holds for every answer. `dafny verify dfyconfig.toml` checks everything.

| files | what they model |
|---|---|
| LockProtocol, LockingQueue, LdapProtocol, LdapService | the locking queue with its one-shot release handles, and LDAP searches that release on several error paths |
| RoleGraphs, RoleClosure, RoleModel, Cache | resolving role permissions by asynchronous lookups, and the cache in front of it |
| TeamRoleWalk | the stack walk over inherited team roles that decides file permissions |
| SubmissionModel, SubmissionHooks, SubmissionOutcomes, SubmissionPipeline, SubmissionInvariants, SubmissionAccess | homework submissions: what the guards of create, update, patch and remove decide, the hooks that decide it step by step, and the two ways to decide who may read |
| Whitelist | login sessions with sliding expiry |
| Messenger | the messenger queue consumer: acknowledge, reject, retry once, fan out |
| RssNews | importing feeds: upsert by guid, then prune |
| StorageProviders | choosing the storage provider with most free buckets |
| SupportJwt, Text | base64url and the compact token form |
| Documents, DataTransfer, SecretFilter | rewriting result trees, masking secrets in error data |
| ArrayUtils, RandomNumbers | the sort comparator, paging, random integers |
| Options | values that may be missing |

State machines come in two forms. A protocol is a function on values with theorems over all runs; the code that
updates fields is a class whose methods are proved to perform exactly the protocol's steps.

## What the proofs found

Where a promise is not kept by the code as it is, the model keeps the code and the project proves when the promise holds.

- Visited roles are compared by object identity (`processedRoleIds.includes`), and ids read from different documents are
  different objects. The computed permissions are right either way, but compared by identity the number of lookups is
  bounded if and only if no reachable role inherits from itself (`SelfInheritanceIsUnbounded`); compared by value it always is. `Comparison` selects
  the reading, and theorems say which one they are about.
- Stored team members are objects and the requesting user's id is a string, so the duplicate guards of submissions find
  stored creators but never anybody in a stored team list. Over runs of any requests memberships stay unique if and only if
  every accepted write passes the duplicate check by value for its whole team, names a creator of its team and has no
  course group (`OnePerUserThroughoutIff`). As ids are stored, what an accepted request in one's own name leaves
  open is exactly that it adds somebody who is in a team that somebody else created; by value nothing is left open.
- No hook looks at the creator a request sends: b can create a submission in the name of a (`CreatorIsNotChecked`). The
  submissions of a homework have different creators if and only if no accepted write sends the creator of another
  one, which the guards ensure for requests in the caller's own name, under both readings. Team sizes hold under both, too.
- The duplicate guard runs against the homework id of the request. A patch that sends a team without the homework is checked
  against nothing, and the size guard never looks at a stored team that a patch moves to another homework
  (`MovedTeamIsUnchecked`); all teams of a run fit if and only if no accepted patch does that to a team that does not fit.
- Only eight write operations clear the permission cache; exactly these keep it truthful. With any other write an answer
  is at most one hour old. The cache is read twice, and the answer is undefined if and only if the entry expires
  between the two readings (`EntryCanExpireBetween` is such a run).
- `get` shows some submissions that `find` does not list; the three gaps are stated exactly, with a submission in each
  (`TeamOfPrivateHomework`, `PublicPrivateHomework`, `GroupOfAnotherCourse`). `find` can list what `get` does not open, exactly
  to readers other than creator, team and teacher where the homework's course is not stored.
- The walk over team roles can run forever. It ends if and only if there is no cycle among the roles it can get to: along
  roles without an entry, and past later inherited roles only if below these there is neither a stop nor a cycle.
  An entry does not help behind a cycle (`EntryBehindCycleIsNotFound`), and a cycle does no harm behind an entry
  (`CycleBehindEntryIsHarmless`).
- A school sync is not repeatable: a user is queued twice if and only if there was a second attempt, the first one failed in
  its course lookup after it had found users, and the second one found one of them again.
- A school sync reads one page of users and one of courses: it reaches every user if and only if the school has no more than
  1000, and every archived course if and only if none stands behind the first 10000.
- The guard against choosing a storage provider twice is outside the transaction: once all requests are
  answered, buckets were lost if and only if there is a provider and two requests of one school overlapped.
- A feed that fails late leaves no document of its own, but its text stays in documents that another feed confirms
  (`LateFailureLeavesItsText`); a document has the text of the successful feeds unless the last text that the
  failing feeds behind the last successful one with its guid write under it is a different one.
- The transfer hook ignores the value its recursion returns. Objects are changed in place, so object results are always
  cleaned; a result that is an array is cleaned if and only if no date or id stands directly in its outer arrays
  (`DateInListStays`).
- Secrets nested deeper than level 12 are not masked, and only those (`DeepSecretsStay`): the marker returned for them is dropped.
- Dates mixed with other values break the transitivity of the sort order if and only if some text stands, in print, between a
  later and an earlier date, where a tie in print or in time is enough as long as not all three tie (`TieBreaksOrder`).

## Model

| member | source | states |
|---|---|---|
| LockProtocol.MutualExclusion | src/services/ldap/lockingQueue.js:39-68 | in every interleaving of requests and releases, repeated ones included, at most one handle is unreleased, `locked` says whether there is one, and nobody waits for a free lock |
| LockProtocol.GrantsInRequestOrder | src/services/ldap/lockingQueue.js:58-67 | promises are fulfilled in exact request order; issued tickets are those waiting, holding and released |
| LockProtocol.ServedAfterExactly | src/services/ldap/lockingQueue.js:44-54 | a waiter behind k others is served exactly when k + 1 effective releases have happened |
| LockProtocol.OnlyTheHolderReleases | src/services/ldap/lockingQueue.js:41-54 | a release changes something if and only if it comes from the current holder; old handles never free the next one |
| LockProtocol.DrainServesEveryone | src/services/ldap/lockingQueue.js:16-68 | no wake-up is lost: one release by each holder serves all waiters in order and leaves the lock free |
| LockingQueues.LockingQueue.GetLock | src/services/ldap/lockingQueue.js:39-68 | the class performs the request step of the protocol and hands out the next ticket's handle |
| LockingQueues.ReleaseHandle.ReleaseLock | src/services/ldap/lockingQueue.js:44-54 | the closure performs the release step, fulfils the oldest waiting promise, and does nothing the second time |
| LdapProtocol.OneSearchPerServer | src/services/ldap/index.js:238-279 | whatever the servers deliver, at most one search per url is sent and unanswered |
| LdapProtocol.FinalEventReleasesOnce | src/services/ldap/index.js:246-274 | an error or end event, however many releases it makes, takes one step of the lock and settles the search once |
| LdapProtocol.WaitingSearchIsNext | src/services/ldap/index.js:242-279 | while a search waits another one is in flight, and every final event of that one sends the longest waiting |
| LdapProtocol.CallerGetsItsEntries | src/services/ldap/index.js:244-274 | a caller gets the entries that arrived for its own search, in order, if and only if the first final event was an end with status 0 |
| LdapProtocol.PromiseFollowsAnswer | src/services/ldap/index.js:246-274 | the promise is resolved exactly if the first event that answers the search is an end with status 0, rejected exactly if it is any other, and holds exactly the entries that arrived |
| LdapProtocol.ServersAreIndependent | src/services/ldap/index.js:239-242 | events of other urls leave a url's lock and searches alone |
| LdapServices.SearchCall.OnEnd | src/services/ldap/index.js:267-274 | the end handler's one or two releases amount to one step of the lock, and the promise settles once |
| LdapServices.SearchCall.HandleError | src/services/ldap/index.js:246-250 | releases the lock and rejects unless already settled |
| LdapServices.LdapService.SearchCollection | src/services/ldap/index.js:229-242 | draws the next ticket of the server's own queue, created on first use, and touches no other queue |
| RoleClosure.ResolvesToClosure | src/services/role/model.js:61-94 | for every graph, cyclic or dangling, and every order of answers: a finished resolution holds exactly the permissions of all reachable roles and has failed exactly if one of these is missing |
| RoleClosure.ByValueTerminates | src/services/role/model.js:77-82 | with ids compared by value every schedule of lookups is bounded, on cyclic graphs too |
| RoleClosure.ByIdentityTerminatesIffAcyclic | src/services/role/model.js:77-82 | with ids compared by identity lookups are bounded if and only if no reachable role inherits from itself |
| RoleClosure.SelfInheritanceIsUnbounded | src/services/role/model.js:77-82 | compared by identity no number bounds the lookups of a role that inherits from itself |
| RoleGraphs.AcyclicIffBounded | src/services/role/model.js:28-29 | inheritance without a reachable cycle is the same as a bound on inheritance paths |
| RoleGraphs.ForestIsReachable | src/services/fileStorage/utils/filePermissionHelper.js:30-35 | unfolding without a visited list meets exactly the reachable roles |
| RoleGraphs.ExpandingOneRole | src/services/role/model.js:77-83 | replacing a role of the work list by its inherited roles takes exactly one unit off the remaining work, whatever the order |
| Caches.KeysAreInjective | src/utils/cache.js:18-24 | concatenated keys of lists of 24-digit ids are equal only for equal lists |
| Caches.ConcatJoins | src/utils/cache.js:18-24 | a key lists the ids in their order |
| Caches.Cache.CreateMongooseIndex | src/utils/cache.js:18-24 | the loop computes the concatenation |
| Caches.ServedIffLastUpdate | src/utils/cache.js:13-38 | in every run of updates and clearings a value is served exactly if the last update of its key stored it at most `clearInterval` ago and nothing cleared the cache since |
| RoleModel.CachedEqualsFreshIff | src/services/role/model.js:37-94 | in every run of creations, lookups and writes by findOneAndDelete, findOneAndRemove, findOneAndUpdate, deleteMany, deleteOne, remove, updateOne and updateMany an answer equals a fresh resolution of the current roles if and only if the entry does not expire between the two readings of the cache, and is undefined otherwise |
| RoleModel.HookedWriteIsSeen | src/services/role/model.js:37-52 | right after one of these eight operations every answer is made from the roles as they are then |
| RoleModel.ClosureUnfolds | src/services/role/model.js:64-83 | resolved permissions are each role's own ones and those of the roles it inherits from, and exist if all of these are stored |
| RoleModel.EntryCanExpireBetween | src/services/role/model.js:86-88 | a run in which the answer is undefined |
| RoleModel.CoherenceNeedsTheHooks | src/services/role/model.js:37-52 | an operation keeps the cache truthful for every change if and only if it is one of these eight, that is, none of save, insertMany, replaceOne and bulkWrite |
| RoleModel.StaleAtMostOneHour | src/services/role/model.js:20-21 | with any writes an answer is fresh, undefined for the reason above, or the resolution of the roles at some moment of the last 3600000 ms |
| RoleModel.RoleService.ResolvePermissions | src/services/role/model.js:61-94 | decides by one reading of the cache and answers with a second one, otherwise resolves and stores the result, and stores nothing on failure |
| RoleModel.RoleService.LookUpAll | src/services/role/model.js:66-93 | the lookups, answered in any order, terminate with the closure |
| TeamRoleWalk.WalkRoles | src/services/fileStorage/utils/filePermissionHelper.js:26-35 | wherever the loop ends it reports the first role of its depth-first order that has an entry or is unknown |
| TeamRoleWalk.NothingFoundIffNoEntry | src/services/fileStorage/utils/filePermissionHelper.js:30-35 | wherever it ends it comes back empty if and only if all inherited roles are stored and none has an entry |
| TeamRoleWalk.WalkEndsIff | src/services/fileStorage/utils/filePermissionHelper.js:30-35 | the loop, with both its conditions, ends if and only if there is no cycle among the roles it can get to, for all hierarchies and entries |
| TeamRoleWalk.WalkEndsIffAcyclic | src/services/fileStorage/utils/filePermissionHelper.js:30-35 | it always ends on acyclic hierarchies, and where nothing stops it only on these |
| TeamRoleWalk.CycleBehindEntryIsHarmless | src/services/fileStorage/utils/filePermissionHelper.js:31-34 | a cyclic hierarchy on which it ends at an entry |
| TeamRoleWalk.EntryBehindCycleIsNotFound | src/services/fileStorage/utils/filePermissionHelper.js:31-34 | the same roles inherited in the other order: it never ends, although there is an entry |
| TeamRoleWalk.ReportIsFirstInDepthFirstOrder | src/services/fileStorage/utils/filePermissionHelper.js:30-35 | on acyclic hierarchies the report is the first stop in the depth-first order of everything inherited |
| TeamRoleWalk.FirstStopIsFirst | src/services/fileStorage/utils/filePermissionHelper.js:31-34 | the reported role is the first one that stops the walk, and its entry the first one with its id |
| TeamRoleWalk.CheckTeamPermission | src/services/fileStorage/utils/filePermissionHelper.js:37-51 | access is granted exactly if the creator is known, no unknown role was met, and the user ranks above the creator or the entry found grants the action |
| SubmissionAccess.GetIsFindOrGap | src/services/homework/hooks/submissions.js:386-440 | `get` allows a reader exactly if the query of `find` matches or one of three stated gaps applies, and it never fails on resolvable submissions |
| SubmissionAccess.FindAgreesWithGet | src/services/homework/hooks/submissions.js:10-115 | for homework that is not private, with groups of its own course, the two decisions are identical |
| SubmissionAccess.FoundCanBeOpenedIff | src/services/homework/hooks/submissions.js:10-115 | what the query matches can be opened by its creator, its team and the homework's teacher, and by others exactly if the homework's course, where it has one, is stored |
| SubmissionAccess.TeamOfPrivateHomework | src/services/homework/hooks/submissions.js:16-34 | a team member who can open a submission that is not listed |
| SubmissionAccess.PublicPrivateHomework | src/services/homework/hooks/submissions.js:64-82 | a public reader of private homework in the same position |
| SubmissionAccess.GroupOfAnotherCourse | src/services/homework/hooks/submissions.js:36-61 | a course group member in the same position |
| SubmissionAccess.QueryMeans | src/services/homework/hooks/submissions.js:13-97 | the nested query built from eight lookups means: creator; team member, course group or enrolled reader of public submissions, unless the homework is private; the homework's teacher, its course's teachers and substitutes |
| SubmissionAccess.ViewOutcome | src/services/homework/hooks/submissions.js:386-428 | what `get` answers about any submission, in the order of its checks, also where the homework, its course or the group is missing |
| SubmissionInvariants.TeamsFitThroughoutIff | src/services/homework/hooks/submissions.js:311-336 | in a run of any requests, by teachers and students, all teams of all states have at most one member if the homework forbids teams and at most its limit if it has one, if and only if no accepted patch without a team moves a stored team to a homework it does not fit |
| SubmissionInvariants.PatchedTeamFitsIff | src/services/homework/hooks/submissions.js:311-336 | exactly when an accepted patch leaves a team that fits |
| SubmissionInvariants.MovedTeamIsUnchecked | src/services/homework/hooks/submissions.js:311-336 | a patch of the homework id alone can leave a team that does not fit |
| SubmissionInvariants.OnePerUserThroughoutIff | src/services/homework/hooks/submissions.js:240-295 | in a run of any requests, however ids are compared, creators are in their team and teams of a homework disjoint in all states if and only if every accepted write has no course group, its creator in its team, and nobody in it who is in another stored submission of its homework |
| SubmissionInvariants.AtMostOneSubmission | src/services/homework/hooks/submissions.js:240-295 | with ids compared by value, in every run of requests in one's own name that keep creator and homework and have no course group, a user takes part in at most one submission of a homework, teacher requests included |
| SubmissionInvariants.WriteKeepsOnePerUserIff | src/services/homework/hooks/submissions.js:259-295 | exactly when a write keeps creators in their team and teams disjoint |
| SubmissionInvariants.CreateKeepsOnePerUserIff | src/services/homework/hooks/submissions.js:462-472 | under both comparisons, an accepted create in one's own name, by students and teachers, keeps memberships unique exactly if nobody in its team is in another stored team that they did not create |
| SubmissionInvariants.EditKeepsOnePerUserIff | src/services/homework/hooks/submissions.js:473-499 | the same for accepted updates and patches that keep creator and homework: only the members they add matter |
| SubmissionInvariants.CreatorsDifferThroughoutIff | src/services/homework/hooks/submissions.js:240-257 | in a run of any requests, however ids are compared, the submissions of a homework have different creators in all states if and only if no accepted write sends the creator of another stored one |
| SubmissionInvariants.OneCreationPerUser | src/services/homework/hooks/submissions.js:240-257 | however ids are compared nobody gets two submissions for one homework, in runs of requests that create in the caller's own name and keep creator and homework, which no hook enforces |
| SubmissionInvariants.CreatorIsNotChecked | src/services/homework/hooks/submissions.js:462-472 | under either comparison an accepted create in another user's name gives that user a second submission |
| SubmissionInvariants.AnothersNameTwice | src/services/homework/hooks/submissions.js:240-257 | as ids are stored the same user can do so twice |
| SubmissionInvariants.MembershipNeedsComparisonByValue | src/services/homework/hooks/submissions.js:246-247 | the guards protect memberships if and only if ids are compared by value |
| SubmissionInvariants.TeamWithoutHomeworkIsUnchecked | src/services/homework/hooks/submissions.js:194-210 | a patch with a team but without homework id can give a user a second submission |
| SubmissionInvariants.ChangesInRunsAreAuthorised | src/services/homework/hooks/submissions.js:360-384 | in every run, a stored submission that ends up changed or gone met a request whose caller may see it and takes part or teaches, graded it only as a teacher of the homework, and removed it only as part of it |
| SubmissionInvariants.SoloCreateAcceptedIff | src/services/homework/hooks/submissions.js:462-472 | a first submission on one's own is accepted under all team rules; the exact reasons for refusal |
| SubmissionOutcomes.TeachersAre | src/services/homework/hooks/submissions.js:178-186 | who counts as a teacher: the homework's own, its course's teachers and its substitutes; unknown without a stored course, except for the first |
| SubmissionOutcomes.GradeAcceptedIff | src/services/homework/hooks/submissions.js:360-369 | a patch with only a grade is accepted exactly from these teachers, if the role permits it and submission and homework are stored |
| SubmissionOutcomes.CreateOutcome | src/services/homework/hooks/submissions.js:462-472 | every create for a stored homework, from its fields and the stored data: the first objection and its error, or the submission it stores |
| SubmissionOutcomes.CreateWithoutHomework | src/services/homework/hooks/submissions.js:164-192 | the errors of all other creates |
| SubmissionOutcomes.EditOutcome | src/services/homework/hooks/submissions.js:473-499 | every update and patch of a visible submission: the first objection and its error, or none |
| SubmissionOutcomes.UpdateStores | src/services/homework/hooks/submissions.js:473-485 | an update without objection replaces every field, if it names creator and homework |
| SubmissionOutcomes.PatchStores | src/services/homework/hooks/submissions.js:486-499 | a patch without objection replaces exactly the sent fields |
| SubmissionOutcomes.RemoveOutcome | src/services/homework/hooks/submissions.js:500-507 | every removal of a visible submission: accepted from creator, team and course group, while the homework and its course can be found |
| SubmissionOutcomes.ClosedToCaller | src/services/homework/hooks/submissions.js:124-162 | requests without the permission, or for submissions that are missing or not visible, change nothing, and their errors |
| SubmissionOutcomes.SharedGuardsDecide | src/services/homework/hooks/submissions.js:259-369 | what the hooks shared by create, update and patch object to, in their order |
| SubmissionPipeline.SubmissionService.Serve | src/services/homework/hooks/submissions.js:453-508 | running the hooks of a request changes the store exactly as the protocol of the invariants says, and not at all if a hook rejects |
| SubmissionPipeline.HookContext.BeforeCreate | src/services/homework/hooks/submissions.js:462-472 | the create hooks in their order accept the same requests, with the same first error and the same team, as the decision function |
| SubmissionPipeline.HookContext.BeforeEdit | src/services/homework/hooks/submissions.js:473-499 | the update and patch hooks in their order give the decision function's first error, and leave the sent team alone |
| SubmissionPipeline.HookContext.BeforeRemove | src/services/homework/hooks/submissions.js:500-507 | the same for remove |
| SubmissionPipeline.HookContext.InsertSubmissionData | src/services/homework/hooks/submissions.js:124-162 | loads what the caller may see, and adds the caller to the team of the copy when a course group is involved |
| SubmissionPipeline.HookContext.NoDuplicateSubmissionForTeamMembers | src/services/homework/hooks/submissions.js:259-295 | students' new team members, and only these, must not have submitted yet |
| SubmissionPipeline.HookContext.MaxTeamMembers | src/services/homework/hooks/submissions.js:311-336 | the branching on teacher, team homework, limit and course group amounts to one size rule |
| Whitelist.AcceptedIffInSession | src/services/authentication/logic/whitelist.js:84-118 | at any moment a token is accepted if and only if it was added, not removed since, and every gap between uses is shorter than the timeout of the earlier use |
| Whitelist.UseLasts | src/services/authentication/logic/whitelist.js:8-17 | after an accepted use, and with none since, a token is accepted on a public device for exactly the plain timeout, on a private one for the extended one if and only if the feature is on and configured, and the timer reports the remaining time rounded to seconds |
| Whitelist.RejectedUntilLogin | src/services/authentication/logic/whitelist.js:105-118 | once rejected a token stays rejected until it is added again |
| Whitelist.TokensAreIndependent | src/services/authentication/logic/whitelist.js:43 | leaving out all events of other tokens changes no answer |
| Whitelist.KeysDiffer | src/services/authentication/logic/whitelist.js:43 | different tokens have different keys |
| Whitelist.SessionStore.AddToken | src/services/authentication/logic/whitelist.js:84-92 | a login sets the key for the timeout of the device, if Redis is connected |
| Whitelist.SessionStore.EnsureTokenIsWhitelisted | src/services/authentication/logic/whitelist.js:105-118 | refreshes a living key, logs out otherwise, accepts everything without Redis |
| Whitelist.SessionStore.CreateTimer | src/services/account/services/jwtTimerService.js:39-52 | refreshes under the same condition, decided by the remaining time |
| Whitelist.RemainingTimeTellsSession | src/services/account/services/jwtTimerService.js:24-32 | in every timed run the reported remaining time is negative if and only if the token is in no session |
| Whitelist.SessionStore.RemoveToken | src/services/authentication/hooks/index.js:171-179 | removes the token's key |
| Messenger.EachMessageIsSettledOnce | src/services/messengerSync/consumer.js:184-199 | at most two attempts, the second only after an exception; the external queue holds exactly one message with its priority per acknowledged message that is not about a school, and none for others |
| Messenger.AttemptSucceedsIff | src/services/messengerSync/consumer.js:22-182 | for every kind of message, what an attempt needs to succeed; it sends exactly if it succeeds and is not about a school |
| Messenger.AttemptRefusedIff | src/services/messengerSync/consumer.js:22-129 | for every kind of message, exactly when it is refused without a retry |
| Messenger.AcknowledgedIff | src/services/messengerSync/consumer.js:184-199 | in every run a message is acknowledged exactly if its first attempt succeeded, or threw and the second one succeeded, and finally rejected exactly if the first was refused, or threw and the second did not succeed |
| Messenger.DeliverUsesAnAttempt | src/services/messengerSync/consumer.js:184-199 | every delivery lowers a lexicographic measure although school messages spawn others |
| Messenger.Consumer.ConsumeQueue | src/services/messengerSync/consumer.js:201-208 | with arbitrary failures and delivery orders the queue comes to rest with every message acknowledged or rejected |
| Messenger.Consumer.ExecuteMessage | src/services/messengerSync/consumer.js:118-182 | the branches and sending loops of one attempt send and spawn what the protocol says, also when they throw half-way |
| Messenger.Consumer.HandleMessage | src/services/messengerSync/consumer.js:184-199 | one delivery: acknowledged exactly on success, put back exactly after the first exception |
| Messenger.SpawnsAreLeaves | src/services/messengerSync/producer.js:24-32 | spawned messages are valid if the ids are, carry the lowest priority and never spawn again |
| Messenger.SpawnedMessagesAre | src/services/messengerSync/producer.js:24-32 | the messages of a successful school sync, field by field |
| Messenger.SchoolSyncCoversTheSchool | src/services/messengerSync/producer.js:148-151 | an acknowledged school sync has queued the users of the first page, so every user if and only if the school has no more than a page of 1000 (src/services/user/services/UsersModelService.js), and removals for archived courses only |
| Messenger.ArchivedCoursesAreRemovedIff | src/services/messengerSync/producer.js:133-137 | it has queued a removal for every archived course if and only if none stands behind the first page of courses |
| Messenger.CopiesAreFromAttempts | src/services/messengerSync/consumer.js:135-139 | in every run a message has spawned as many syncs of a user as its attempts have found that user |
| Messenger.FailsAfterQueuingIff | src/services/messengerSync/consumer.js:135-139 | an attempt throws after queuing something exactly if it found users and the course lookup failed |
| Messenger.UserIsQueuedTwiceIff | src/services/messengerSync/consumer.js:135-139 | in every run some user is queued twice through a message exactly if it had two attempts, the first failed in its course lookup, and both found a common user |
| Messenger.RetriedSchoolSyncRepeatsUsers | src/services/messengerSync/consumer.js:135-139 | a course lookup that fails once makes every user of the page be queued twice |
| RssNews.FeedNewsAreTheConfirmedItems | src/jobs/rss-news.js:41-62 | afterwards the school's feed news are one document per guid of the successful feeds, with the text written last; everything else is untouched |
| RssNews.FeedNewsIffSuccessful | src/jobs/rss-news.js:41-62 | the school has feed news with a guid exactly if a feed that did not fail has an item with it |
| RssNews.TextIsFromSuccessfulFeedsIff | src/jobs/rss-news.js:41-62 | a confirmed guid has the text the successful feeds alone would give it exactly if the failing feeds behind the last successful one with it do not contain it or end with the same text |
| RssNews.LateFailureLeavesItsText | src/jobs/rss-news.js:46-57 | a failing second feed leaves its text in the document the first one confirms |
| RssNews.OneDocumentPerGuid | src/jobs/rss-news.js:21-34 | no two feed news of the school share a guid, even if they did before |
| RssNews.SecondRunChangesNothing | src/jobs/rss-news.js:41-62 | a second run with the same feeds, failing ones included, changes no document |
| RssNews.WritesAreByGuid | src/jobs/rss-news.js:16-39 | writing a feed keeps found documents, stores the last text of every guid and touches nothing else |
| RssNews.NewsJob.HandleFeed | src/jobs/rss-news.js:16-39 | the loop writes all items and returns the documents they are in, or loses them on failure |
| RssNews.NewsJob.ProcessSchool | src/jobs/rss-news.js:41-62 | the loop over feeds, with its statuses and the final prune |
| StorageProviders.GreedyKeepsTheHighestMinimum | src/services/fileStorage/strategies/awsS3.js:58-66 | every level that some placement of k buckets leaves on all shared providers is left by k greedy choices |
| StorageProviders.SpreadNeverGrows | src/services/fileStorage/strategies/awsS3.js:58-66 | shared providers never drift further apart than at the start, or than one bucket |
| StorageProviders.FullestThenFirst | src/services/fileStorage/strategies/awsS3.js:58-66 | the chosen provider is shared, has most free buckets, and is the first by id among equals; there is none exactly if no provider is shared |
| StorageProviders.BucketsAreConserved | src/services/fileStorage/strategies/awsS3.js:68-79 | in every interleaving each provider has given away exactly the buckets it was chosen for |
| StorageProviders.NoBucketIsLostIff | src/services/fileStorage/strategies/awsS3.js:122-135 | where there is a shared provider, no school takes a second bucket in any interleaving, at once or later, if and only if its requests never overlap; once all requests have been served or have failed the buckets given away match the schools served exactly in that case, or if there is no provider |
| StorageProviders.OverlappingRequestsLoseABucket | src/services/fileStorage/strategies/awsS3.js:132-135 | two overlapping first requests of one school take two buckets |
| StorageProviders.SerialRequestsLoseNothing | src/services/fileStorage/strategies/awsS3.js:122-135 | if requests of one school do not overlap every school has at most one bucket at any moment |
| StorageProviders.S3Strategy.CreateAWSObject | src/services/fileStorage/strategies/awsS3.js:122-140 | a school keeps the provider it has; otherwise it gets the best one whenever there is a shared one; providers and schools change as in the protocol, and errors change nothing |
| StorageProviders.S3Strategy.ChooseProvider | src/services/fileStorage/strategies/awsS3.js:49-84 | takes a bucket from the shared provider with most free buckets, the first by id among equals |
| SupportJwt.Base64UrlRoundTrip | src/services/account/services/SupportJWTService.js:29-41 | decoding by Appendix C of RFC 7515 gives the bytes back |
| SupportJwt.Base64UrlAlphabet | src/services/account/services/SupportJWTService.js:29-41 | only letters, digits, minus and underscore occur |
| SupportJwt.UnusedBitsAreZero | src/services/account/services/SupportJWTService.js:29-41 | the bits of the last letter that no byte fills are zero |
| SupportJwt.TokenReads | src/services/account/services/SupportJWTService.js:76-88 | a token has three parts, which decode to header, payload, and the authentication code of the first two as they stand |
| SupportJwt.CompactIsInjective | src/services/account/services/SupportJWTService.js:76-88 | a compact token determines header, payload and signature |
| DataTransfer.DeepTransform | src/hooks/transformToDataTransferObject.js:5-43 | the recursion with its double visit throws exactly if a container lies at depth 12 or deeper and otherwise returns the plain form |
| DataTransfer.HookCleansIff | src/hooks/transformToDataTransferObject.js:45-48 | the hook leaves no date or id if and only if none stands directly in an outer array of the result |
| DataTransfer.DateInListStays | src/hooks/transformToDataTransferObject.js:45-48 | a list result keeps its date |
| DataTransfer.TransformToDataTransferObject | src/hooks/transformToDataTransferObject.js:45-48 | throws on too deep results and otherwise leaves the in-place form, not the returned one |
| DataTransfer.PlainIsPlain | src/hooks/transformToDataTransferObject.js:11-33 | no date and no object id is left anywhere |
| DataTransfer.PlainAt | src/hooks/transformToDataTransferObject.js:11-33 | at every place of the tree dates and ids become their text, other leaves stay, and containers keep kind, size and keys |
| DataTransfer.TooDeepIff | src/hooks/transformToDataTransferObject.js:5-8 | a result is refused exactly if a container lies twelve steps inside it |
| DataTransfer.PlainStays | src/hooks/transformToDataTransferObject.js:34-39 | plain trees are not changed, so the second visit is invisible |
| SecretFilter.UnmaskedPositionsStay | src/middleware/errorHandler.js:137-153 | positions that meet no secret entry down to level 12 keep their place and value |
| SecretFilter.SecretsAreMasked | src/middleware/errorHandler.js:130-153 | along every way that meets a secret entry down to level 12 the entry is replaced by the mask |
| SecretFilter.SecretIffListed | src/middleware/errorHandler.js:98-135 | which keys are secret, in whatever case |
| SecretFilter.DeepSecretsStay | src/middleware/errorHandler.js:137-141 | a secret inside n lists is masked if and only if n is at most 12 |
| SecretFilter.FilterDeep | src/middleware/errorHandler.js:137-153 | the loop leaves its argument masked; the marker for too deep levels is returned and never stored |
| SecretFilter.MaskIsIdempotent | src/middleware/errorHandler.js:137-153 | masking twice is masking once |
| ArrayUtils.ComparatorIsConsistent | src/utils/array.js:96-111 | the multi-attribute comparator is antisymmetric and transitive where each attribute is a date everywhere or nowhere |
| ArrayUtils.FirstDifferenceDecides | src/utils/array.js:96-111 | the comparator answers the difference in the first attribute that does not tie, turned round for descending order, and 0 if all tie |
| ArrayUtils.MinusReverses | src/utils/array.js:46-63 | a leading minus turns the order by an attribute round |
| ArrayUtils.SortedOutputIsDetermined | src/utils/array.js:96-111 | two ordered arrangements of the same items compare equal at every position, whatever algorithm sorts |
| ArrayUtils.TripleBreaksOrderIff | src/utils/array.js:88-94 | for every collation, the exact three ways in which three values break transitivity |
| ArrayUtils.MixedKeysBreakOrderIff | src/utils/array.js:88-111 | for every collation and sign, comparing the values of a list by an attribute is antisymmetric, and transitive if and only if no text among them stands, in print, between a later and an earlier date, ties included |
| ArrayUtils.TieBreaksOrder | src/utils/array.js:88-94 | two dates and the text the later one prints break transitivity without any circle |
| ArrayUtils.OrderedArrangementExists | src/utils/array.js:96-111 | every comparable list has an arrangement that is ordered by the comparator |
| ArrayUtils.PagesCoverTheList | src/utils/array.js:21-40 | consecutive pages of any positive limit put together are the list |
| ArrayUtils.PageHolds | src/utils/array.js:21-40 | a page holds the items from `skip` on, as many as the limit allows, or all of them without a limit |
| RandomNumbers.AlmostUniform | src/utils/randomNumberGenerator.js:5-12 | each number of the range is given by floor or ceiling of 2^48 / size draws, and nothing else is given |
| RandomNumbers.RefusedIffTooBig | src/utils/randomNumberGenerator.js:5-12 | a range is refused exactly if it has more numbers than there are draws |

## Left out

- LDAP connections, authentication and the queue-level `releaseLock` that no caller uses: without a handle it would break mutual exclusion.
- Resolved LDAP results are the array the entry handler keeps filling; the model reads it at the end of a trace.
- The cached permission set is a value; the code hands out the set object itself, so a caller could change it.
- Role writes during a running resolution: a resolution is one step with respect to writes.
- RoleModel.RoleService.LookUpAll: requires acyclic roles when ids are compared by identity, because the loop would not end otherwise.
- TeamRoleWalk.WalkRoles: requires the condition under which the loop ends, and so does the decision after it; the ranking of roles and the owner and course checks before the walk are inputs or omitted.
- Request bodies of submissions carry schema fields only, so a client-sent `submission` or flag is not modelled, stored teams are always lists, and pagination does not cut the list of submissions.
- SubmissionInvariants.AtMostOneSubmission: is about ids compared by value and requests without course groups that are made in the caller's own name and keep creator and homework; `OnePerUserThroughoutIff` is about all others.
- SubmissionInvariants.OneCreationPerUser: takes requests to create in the caller's own name and to keep creator and homework; `CreatorsDifferThroughoutIff` is about all others.
- SubmissionInvariants.CreateKeepsOnePerUserIff: is about creates in the caller's own name without course groups.
- SubmissionInvariants.EditKeepsOnePerUserIff: is about edits that keep creator and homework and send the homework with a team.
- The school restriction and role permission of `find`, and changes to homework, courses and groups during a run.
- Routes exempt from automatic logout, JWT decoding, and interleavings inside one check-and-refresh.
- Payloads of messenger messages and the loss of broker connections; one attempt is one step.
- Messenger.UserIsQueuedTwiceIff: takes the users of one lookup to be different documents, as does the page count of a school sync; the conservation beside it does not.
- Feed items without a guid, and database errors outside the writing of items.
- Storage providers: aborted transactions, decryption and the S3 client.
- DataTransfer.DeepTransform: works on values and returns the argument's new state beside the result; shared subtrees and what is left behind when it throws half-way are not captured. The same holds for secret masking.
- The engine's array sort itself, sorting without attributes, nested attribute paths, and `flatten`.
- SecretFilter.LowerChar: lowers the letters A to Z only; `toLocaleLowerCase` also maps letters such as the Kelvin sign and depends on the locale.
- HMAC, JSON printing and UTF-8 encoding of tokens: the three parts are arbitrary bytes.
- Mongoose schemas, service registration, logging, mail, migrations and the HTTP layer.
