# Verified model of the SaaS kit's services

A Dafny 4.11 model of the stateful core of a Django SaaS template, and proofs of what that core promises. Tables are
maps from primary keys to records, the cache is a map from keys to values with an expiry, time is a number passed in,
and random values (tokens, session keys, UUIDs, primary keys) are parameters.

Code that changes state is a class whose methods are proved against a step function; claims about whole runs and about
interleavings are lemmas about sequences of those steps. What one step does on any input, outcome by outcome and with
the literal constants, is said by the lemmas whose names end in `Exactly` (in `Billing`, by one lemma for each event
name). `dafny verify dfyconfig.toml` checks everything.

| file | what it models |
|---|---|
| `Prelude.dfy` | options and the Python string methods the services use |
| `Billing.dfy` | Stripe event handlers, and the Subscription row as a fold over the events that hit it |
| `BillingHistory.dfy` | that fold in closed form: columns, grace period, access |
| `BillingSchedules.dfy` | retries absorbed, schedules that agree |
| `WebhookPipeline.dfy` | webhook deduplication, the queue, attempts and retries, as a distributed protocol |
| `TenantCache.dfy` | tenant resolution through the cache, over all interleavings, and the middleware |
| `Tenants.dfy` | slugs and tenant creation |
| `Invitations.dfy` | the invitation lifecycle and the role table |
| `Idempotency.dfy` | at-most-once task execution and its keys |
| `TwoFactor.dfy` | TOTP set-up and the two-step login |
| `CamelCase.dfy` | CamelCase to snake_case by two regular-expression passes |
| `Usernames.dfy` | derived usernames and the search for a free one |
| `Features.dfy` | feature flags: single, bulk, and plan synchronisation |
| `TraceContext.dfy` | request ids following chains of tasks |
| `Identity.dfy` | registration, social login and erasure |

Where the code differs from its description, or from what one would expect of it, the model follows the code:

- "Active implies no grace period" does not hold: an `updated` event leaves the old grace period in place
  (`BillingHistory.UpdatedKeepsOldGrace`). It fails exactly for a row activated behind its last failed payment, or one
  that had its grace period from the start (`BillingHistory.ActiveWithGraceExactly`).
- The webhook log is described as an idempotency guard. An accepted event can be lost: exactly when its process dies
  between insert and publish, or when its last retry raises or a retry is refused by the broker, and no attempt has
  committed (`WebhookPipeline.LostExactly`). From then on every delivery of it is taken for a duplicate
  (`WebhookPipeline.LostForever`).
- `invalidate_cache` is meant to bust the cache. It does exactly when no resolve of the host holds an answer that the
  table has already taken back (`TenantCache.InvalidationBustsExactly`); otherwise that answer can be stored after it
  (`TenantCache.InvalidationCanBeOutrun`). With atomic resolves the first answer after it is always right
  (`TenantCache.FreshAfterInvalidation`).
- `list_pending` and `is_expired` disagree at the very instant of expiry
  (`Invitations.ListedIsAcceptableExceptAtTheDeadline`).
- The second factor guards the password login alone: a social login gives tokens to any user without a code, and it is
  the only way around (`TwoFactor.TokensOfEnabledUsers`).
- Calling the 2FA set-up again replaces a pending secret and keeps the backup codes of the existing row.
- Only the username is unique in the user table, so anonymisation keeps emails unique exactly when its random address
  is unused (`Identity.AnonymizeNeedsAFreshAddress`), and nothing reserves it (`Identity.MadeUpAddressCanBeTaken`).

## Model

| member | source | states |
|---|---|---|
| `CamelCase.TwoPassesSplit` | apps/common/exceptions.py:43-45 | For every name, the two non-overlapping passes together insert an underscore exactly where a local three-character rule says so. |
| `CamelCase.SecondPassStep` | apps/common/exceptions.py:45 | Matches of the second pass never compete for a character, so it can be read one character at a time. |
| `CamelCase.RunSplits` | apps/common/exceptions.py:44-45 | The boundary behind a word that the first pass has consumed is found by the second pass. |
| `CamelCase.PassesScan` | apps/common/exceptions.py:43-45 | The two passes together equal one scan that decides about each underscore from three neighbouring characters. |
| `CamelCase.CamelToSnakeOnlyPads` | apps/common/exceptions.py:43-45 | For every name, only underscores are inserted and only case is changed. |
| `CamelCase.CamelToSnakeJoinsWords` | apps/common/exceptions.py:43-45 | A name made of words [A-Z][a-z]+ becomes its lower-cased words joined by underscores. |
| `CamelCase.CamelToSnakeIsInvertible` | apps/common/exceptions.py:43-45 | Such a name can be read back from its snake-case form. |
| `Usernames.UniqueUsername` | services/auth/social_auth_service.py:174-181 | The search terminates for every finite set of users and returns the first free name of base, base_1, base_2, ..., with a counter no larger than the number of users. |
| `Usernames.TakenCandidatesAreFew` | services/auth/social_auth_service.py:176-180 | Pigeonhole: n taken candidates need n different users. |
| `Usernames.CandidateIsInjective` | services/auth/social_auth_service.py:179 | Different counters give different names, because decimal printing can be parsed back. |
| `Usernames.FirstFreeIsUnique` | services/auth/social_auth_service.py:178-181 | There is only one first free name. |
| `Usernames.MakeUsernameIsClean` | services/auth/social_auth_service.py:166-171 | A derived base has 1 to 30 word characters and no leading underscore; an input without word characters gives the provider fallback. |
| `Usernames.MakeUsernameExactly` | services/auth/social_auth_service.py:170-171 | The base is the first 30 characters of what lies between the outer underscores of the substituted name, or the fallback if nothing does. |
| `Usernames.MakeUsernameKeepsCleanNames` | services/auth/social_auth_service.py:166-171 | A name that is already clean is kept. |
| `Usernames.FoundNameIsShort` | services/auth/social_auth_service.py:166-181 | The found name has at most 31 characters plus the digits of the number of users. |
| `Features.FeatureService.ForTenant` | services/features/feature_service.py:111-138 | The bulk answer has exactly the keys defaults and overrides, and each value is what the single-flag resolver answers for the same request and tenant. |
| `Features.UnlistedFlagIsWafflesOnly` | services/features/feature_service.py:72-108 | A flag outside the bulk answer is on exactly when waffle says so. |
| `Features.FeatureService.SetForTenant` | services/features/feature_service.py:141-155 | Creates or updates one override row and no other. |
| `Features.FeatureService.SyncPlanFlags` | services/features/feature_service.py:158-190 | Writes the flags of the plan over the rows of the tenant, or nothing without settings or subscription. |
| `Features.OverrideDecides` | services/features/feature_service.py:84-97 | The override of the tenant passed in decides, or else that of the tenant of the request. |
| `Features.WaffleThenDefault` | services/features/feature_service.py:39-66 | Without an override the flag of the request decides before the switch, the switch before the default, and the default is off. |
| `Features.SyncWritesThePlan` | services/features/feature_service.py:167-190 | A sync writes exactly the flags of the subscribed plan, each marked with the plan, and no other row; without a subscription it writes nothing. |
| `Features.SyncImposesThePlan` | services/features/feature_service.py:182-190 | After a sync every plan flag resolves to the value the plan gives it, and no other override of any tenant changed. |
| `Features.PlanChange` | services/features/feature_service.py:158-190 | Syncing p then q equals syncing q alone exactly when every flag of p missing from q was already the row p writes. |
| `Features.CleanPlanChange` | services/features/feature_service.py:158-190 | Sync is idempotent, and a change from p to q is clean for every table if and only if the flags of p are among those of q. |
| `Tenants.ValidSlugsAreHyphenated` | services/tenants/tenant_service.py:12-37 | The validator accepts exactly the inputs whose normal form is non-empty [a-z0-9] parts joined by hyphens, and returns that form. |
| `Tenants.ValidateSlugIsIdempotent` | services/tenants/tenant_service.py:31-37 | A validated slug validates to itself. |
| `Tenants.TenantService.CreateTenant` | services/tenants/tenant_service.py:40-89 | Both rows or neither, with the outcome each check calls for; the unique columns stay unique. |
| `Tenants.PatternMatchesExactly` | services/tenants/tenant_service.py:12 | The pattern matches exactly hyphen-joined non-empty [a-z0-9] parts, with or without a newline behind them. |
| `Tenants.CreateSucceedsExactly` | services/tenants/tenant_service.py:66-87 | Exactly when a creation succeeds, why it fails, and the two rows it makes. |
| `Tenants.CreateKeepsInvariant` | services/tenants/tenant_service.py:66-87 | One creation keeps slug = schema_name and at least one domain per tenant, so the schema_name check alone protects the slug: the database never has to refuse. |
| `Tenants.CreationsKeepInvariant` | services/tenants/tenant_service.py:40-89 | Every sequence of creations keeps slug = schema_name, unique slugs, schema names and domains, hyphenated slugs and at least one domain per tenant. |
| `Tenants.CreationRegistersOneHost` | services/tenants/tenant_service.py:77-87 | A successful creation registers one unknown host for a new active tenant and changes the answer for no other host. |
| `TenantCache.BoundedStaleness` | apps/tenants/middleware.py:108-131 | In every interleaving an answer is what the table said at the read of one resolve, its store is within the time to live, and no invalidation lies between store and answer. |
| `TenantCache.AgeOfAnswer` | apps/tenants/middleware.py:45-131 | In every interleaving the age of an answer is less than 300 s (60 s for not found) plus the time between the read behind it and the store of that same resolve. |
| `TenantCache.InvalidationSparesOnlyOpenResolves` | apps/tenants/middleware.py:108-136 | In every run, an answer after an invalidation is what the table said at some moment since then, or the answer that a resolve held at that moment, read and not yet stored. |
| `TenantCache.InvalidationBustsExactly` | apps/tenants/middleware.py:134-136 | An invalidation makes every later answer in every continuation at least as new as itself if and only if no resolve of the host holds an outdated answer when it comes. |
| `TenantCache.AtomicBounds` | apps/tenants/middleware.py:108-131 | With atomic resolves the bounds are 300 and 60, and no answer predates an invalidation of its host. |
| `TenantCache.FreshAfterInvalidation` | apps/tenants/middleware.py:134-136 | With atomic resolves, the first answer for a host after its invalidation agrees with the table as it is when the answer is given, whatever was written in between. |
| `TenantCache.FreshUntilWritten` | apps/tenants/middleware.py:134-136 | With atomic resolves, every later answer agrees with the table as long as it has not changed since the invalidation. |
| `TenantCache.NewDomainAppearsInTime` | apps/tenants/middleware.py:46-131 | A host never registered before resolves to its tenant no later than 60 s after it is registered, given atomic resolves. |
| `TenantCache.ChangeAppearsInTime` | apps/tenants/middleware.py:45-131 | Any other change of what the table says of a host is answered no later than 300 s after it, given atomic resolves. |
| `TenantCache.NewTenantAppearsInTime` | services/tenants/tenant_service.py:66-89 | The same for a tenant made by create_tenant, which does not touch the cache. |
| `TenantCache.BoundsAreAttained` | apps/tenants/middleware.py:45-46 | Every staleness below 300 s (60 s) occurs, and none at the bound. |
| `TenantCache.InvalidationCanBeOutrun` | apps/tenants/middleware.py:108-136 | A run in which an open resolve stores a stale answer after the invalidation. |
| `TenantCache.WithoutPortStripsThePort` | apps/tenants/middleware.py:89 | The port suffix is removed and a host without one is kept. |
| `TenantCache.ResolveAloneIsARun` | apps/tenants/middleware.py:108-131 | A resolve that nothing interrupts is a run of the protocol, and its answer is the answer of that run. |
| `TenantCache.ResolveExactly` | apps/tenants/middleware.py:108-131 | A live entry is the answer; otherwise the table is, and is remembered for 300 seconds, or 60 if it knows no tenant. |
| `TenantCache.DroppedEntryIsMissed` | apps/tenants/middleware.py:134-136 | The look-up after a deletion of its entry misses, and look-ups of other hosts are as before. |
| `TenantCache.ExemptExactly` | apps/tenants/middleware.py:35-43 | The seven prefixes of paths that need no tenant. |
| `TenantCache.TenantMiddleware.ResolveTenant` | apps/tenants/middleware.py:108-131 | One undisturbed resolve is the composition of its three protocol steps. |
| `TenantCache.TenantMiddleware.InvalidateCache` | apps/tenants/middleware.py:134-136 | Deletes the entry of the host and nothing else. |
| `TenantCache.TenantMiddleware.Call` | apps/tenants/middleware.py:82-105 | A view runs with the resolved active tenant in request and context, or on an exempt path with none; the context is empty after it; refusals are exactly unknown and inactive tenants. |
| `Billing.BillingService.ProcessEvent` | services/billing/billing_service.py:24-38 | Dispatch: the one row the event names takes the assignments of its handler, every other row is untouched, and a clash of unique ids raises and changes nothing. |
| `Billing.BillingService.OnSubscriptionCreated` | services/billing/billing_service.py:45-81 | Finds the row by customer id, rebinds it, and raises on a subscription id that another row holds. |
| `Billing.BillingService.OnSubscriptionUpdated` | services/billing/billing_service.py:84-104 | Sets status, cancel flag and period of the named row and leaves the grace period alone. |
| `Billing.BillingService.OnSubscriptionCanceled` | services/billing/billing_service.py:107-134 | Cancels the named row and clears its grace period. |
| `Billing.BillingService.OnPaymentSucceeded` | services/billing/billing_service.py:137-156 | Activates the named row and clears its grace period; an invoice without subscription does nothing. |
| `Billing.BillingService.OnPaymentFailed` | services/billing/billing_service.py:159-183 | Sets past_due and a grace period of 7 days from now. |
| `Billing.BillingService.ApplyPeriod` | services/billing/billing_service.py:196-208 | Overwrites exactly the period fields whose timestamp is present and not 0. |
| `Billing.CreatedEvent` | services/billing/billing_service.py:45-69 | customer.subscription.created sets id, price, status and period of the customer row and nothing else of the table; if another row holds the id, it raises and changes nothing. |
| `Billing.UpdatedEvent` | services/billing/billing_service.py:84-103 | customer.subscription.updated sets status, cancel flag and period of the row of the subscription and nothing else. |
| `Billing.DeletedEvent` | services/billing/billing_service.py:107-124 | customer.subscription.deleted cancels the row of the subscription and clears its grace period. |
| `Billing.PaymentSucceededEvent` | services/billing/billing_service.py:137-156 | invoice.payment_succeeded activates the row of the subscription and clears its grace period. |
| `Billing.PaymentFailedEvent` | services/billing/billing_service.py:159-178 | invoice.payment_failed makes the row past_due with 604800 seconds of grace. |
| `Billing.EventForNobody` | services/billing/billing_service.py:26-38 | Events whose row does not exist, invoices without a subscription, the end of a trial and unknown names change nothing and do not raise. |
| `Billing.ExecuteKeepsUniqueIds` | apps/billing/models.py:67-70 | Every event keeps customer and subscription ids unique. |
| `Billing.HitsOneRow` | services/billing/billing_service.py:53-178 | An event hits at most one row. |
| `Billing.RowIsFoldOfItsHits` | services/billing/billing_service.py:24-183 | After any run a row is a fold over the executions that hit it. |
| `BillingHistory.RowIsItsColumns` | services/billing/billing_service.py:45-208 | The fold column by column: each of the nine columns holds what its own writers wrote, the customer id is never written. |
| `BillingHistory.LastWriteWins` | services/billing/billing_service.py:45-208 | A column holds the value of its last writer, or its first value if there is none. |
| `BillingHistory.GracePeriodFromHistory` | services/billing/billing_service.py:121-177 | The grace period ends at t + 7 days exactly when the last of failed, succeeded and deleted to hit the row was a payment_failed at t, or it did so from the start and none of them hit it. |
| `BillingHistory.AccessFromHistory` | apps/billing/models.py:90-96 | Access of a row after any run as a closed function of its history: the status set last decides, and past_due counts as long as the grace period set last. |
| `BillingHistory.AccessAfterFailure` | apps/billing/models.py:90-96 | After a payment_failed at t that no status-setting event followed, access lasts until exactly t + 7 days. |
| `BillingHistory.AccessDecays` | apps/billing/models.py:90-96 | Without further events, access once lost stays lost. |
| `BillingHistory.ActiveWithGraceExactly` | services/billing/billing_service.py:53-178 | After any run a row is active with a grace period exactly when a created or updated event activated it behind the last payment_failed, or it had that grace period from the start and no grace-setting event hit it. |
| `BillingHistory.UpdatedKeepsOldGrace` | services/billing/billing_service.py:100-103 | An active row can carry a grace period, and a later past_due brings it back. |
| `BillingSchedules.ExecuteAbsorbs` | apps/billing/tasks.py:26-30 | Executing an event again gives what the later execution alone gives, for the whole table and every handler. |
| `BillingSchedules.AttemptsAreOneExecution` | apps/billing/tasks.py:14-32 | Any series of committed and rolled back attempts at one event is one execution at the time of the last committed attempt. |
| `BillingSchedules.SchedulesAgree` | services/billing/billing_service.py:84-183 | With the id bindings fixed, two schedules that agree per subscription, up to immediate repetitions, end in the same table. |
| `BillingSchedules.AccountsAgree` | services/billing/billing_service.py:45-183 | With rebinding: when every subscription has one owner, two schedules that agree per customer, up to immediate repetitions, end in the same table. |
| `BillingSchedules.RowFollowsItsAccount` | services/billing/billing_service.py:53-178 | Whatever a run rebinds, each row follows the executions of its own customer alone. |
| `BillingSchedules.SameHitsSameTable` | services/billing/billing_service.py:45-183 | In any runs, rebinding included, rows hit by the same executions end equal. |
| `BillingSchedules.RebindingBreaksIndependence` | services/billing/billing_service.py:53-69 | With a rebinding event the order across subscriptions matters. |
| `BillingSchedules.RebindingIsNotAddressed` | services/billing/billing_service.py:53-69 | Yet the two orders look alike to every subscription id. |
| `WebhookPipeline.RunKeepsInvariant` | apps/billing/views.py:68-86 | Every interleaving keeps deduplication, attempt accounting and the explanation of the table by the committed executions. |
| `WebhookPipeline.EventsAreEnqueuedOnce` | apps/billing/views.py:71-84 | No event id is enqueued twice, every executed id is logged with that content, and a message is attempted at most 6 times plus once per lost worker. |
| `WebhookPipeline.StepKeepsAccounted` | apps/billing/tasks.py:14-32 | Each attempt is paid for by a retry, of which there are at most 5, or by a lost worker. |
| `WebhookPipeline.UnhandledBranchIsUnreachable` | apps/billing/views.py:20-29 | The events of the view are in the dispatch table, so the unhandled branch is never reached from the queue. |
| `WebhookPipeline.DeliveryIsLoggedExactly` | apps/billing/views.py:20-80 | A delivery is logged, with its name and payload, exactly if the dispatcher knows its name and its id is new; otherwise nothing happens. |
| `WebhookPipeline.DeliveredEventIsExecuted` | apps/billing/views.py:71-84 | A new event that is delivered, published and attempted without a fault changes the table as its name and payload say, and leaves nothing behind in the queue. |
| `WebhookPipeline.ExecutionsAreInOrder` | apps/billing/tasks.py:14-32 | The history of every run lists its committed executions in the order of their times. |
| `WebhookPipeline.CommittedHandlersDidNotRaise` | apps/billing/tasks.py:26-30 | In every run each committed execution met a table on which its handler does not raise. |
| `WebhookPipeline.PipelinesAgree` | apps/billing/tasks.py:14-32 | Two runs of the whole system that commit, per customer, the same executions up to immediate retries end in the same table. |
| `WebhookPipeline.OrphansAreNeverEnqueued` | apps/billing/views.py:76-84 | An event whose process died between insert and publish is never enqueued, however often it is delivered. |
| `WebhookPipeline.OnlyACrashOrphans` | apps/billing/views.py:76-84 | In every run, a logged event was never published, and never will be, exactly if its process crashed between insert and publish. |
| `WebhookPipeline.ACrashOrphans` | apps/billing/views.py:76-84 | Such a run exists for every handled event. |
| `WebhookPipeline.LostExactly` | apps/billing/tasks.py:14-32 | In every run, a logged event is lost (not executed, and in no process and no message) exactly if its process crashed before the publish, or its message was dropped, because its last retry raised or the broker refused a retry, and no attempt had committed. |
| `WebhookPipeline.LostForever` | apps/billing/views.py:76-82 | A lost event stays lost, however often it is delivered. |
| `WebhookPipeline.RefusedRetryLosesAnEvent` | apps/billing/tasks.py:26-30 | Every handled event can be lost by any of its first five attempts, if that attempt and those before it raise and its retry is refused. |
| `WebhookPipeline.SixFailuresLoseAnEvent` | apps/billing/tasks.py:14-32 | Every handled event can be lost without a crash, by six attempts that raise. |
| `WebhookPipeline.ExecutedExactly` | apps/billing/tasks.py:26-30 | An event counts as executed exactly if one of its attempts committed. |
| `WebhookPipeline.WebhookApp.Post` | apps/billing/views.py:68-86 | The view after signature validation is a delivery followed by a publish or a crash, with the reply each case calls for. |
| `WebhookPipeline.WebhookApp.HandleStripeEvent` | apps/billing/tasks.py:14-32 | One attempt of the task: execute, then acknowledge, retry, or drop the message when the retries are used up or the broker refuses one. |
| `WebhookPipeline.RaisingChangesNothing` | services/billing/billing_service.py:53-69 | A handler that raises leaves the table as it was. |
| `Invitations.ReachableStatesAreSound` | services/invitations/invitation_service.py:37-66 | Every reachable state has unique tokens and at most one PENDING invitation per tenant and normalised email. |
| `Invitations.FinalStatusesAbsorb` | services/invitations/invitation_service.py:92-152 | Invitations keep their identity, and ACCEPTED, REVOKED and EXPIRED are never left. |
| `Invitations.AcceptSucceedsExactly` | services/invitations/invitation_service.py:87-109 | An accept succeeds exactly for a usable invitation and a non-member, adds exactly one membership with the invited role, and marks an expired invitation while failing. |
| `Invitations.TokensAreSingleUse` | services/invitations/invitation_service.py:87-109 | Each token succeeds at most once in a run. |
| `Invitations.RejoiningNeedsRemoval` | services/invitations/invitation_service.py:100-109 | Between two successful accepts by one user in one tenant a revocation or an erasure took away a role the user had there: held before it, gone after it. |
| `Invitations.TenantsAreIsolated` | services/rbac/rbac_service.py:97-119 | Operations on other tenants change no has_role answer and no invitation of this one. |
| `Invitations.SentInvitationIsGoodFor72Hours` | apps/invitations/models.py:15-25 | A sent invitation can be accepted, with its role, for exactly 72 hours. |
| `Invitations.RevokedInvitationIsDead` | services/invitations/invitation_service.py:131-152 | A sent invitation can be revoked, and then nobody can accept it. |
| `Invitations.ListedIsAcceptableExceptAtTheDeadline` | services/invitations/invitation_service.py:171-180 | The listing shows what a non-member could accept, except at the one instant of expiry. |
| `Invitations.LapsedInvitationStillBlocks` | services/invitations/invitation_service.py:52-57 | An invitation that ran out unpresented is not listed but still blocks a new one. |
| `Invitations.SendSucceedsExactly` | services/invitations/invitation_service.py:37-66 | Exactly when an invitation is sent and why it is refused (role, member, pending invitation, quota), and the row it makes. |
| `Invitations.MembersAreNotInvited` | services/invitations/invitation_service.py:44-50 | The one user of an address can be invited exactly if not a member already. |
| `Invitations.RevokeSucceedsExactly` | services/invitations/invitation_service.py:140-152 | Exactly a pending invitation of the tenant is revoked; otherwise nothing changes. |
| `Invitations.RefusalsOfAccept` | services/invitations/invitation_service.py:87-104 | What a failing accept answers: not found when not pending, invalid when expired, conflict for a member. |
| `Invitations.RolesGrantExactly` | services/rbac/rbac_service.py:97-119 | Nobody has a role without authentication, a superuser has every role, and everybody else the one of the row. |
| `Invitations.AssignedRoleIsHeld` | services/rbac/rbac_service.py:43-69 | After an assignment exactly the assigned role is held, after a revocation none; other memberships stand. |
| `Invitations.ErasureTakesAllRoles` | services/users/gdpr_service.py:106-168 | Either erasure takes away all roles of the user and no others; a hard delete also nulls what refers to the user. |
| `Invitations.InvitationService.SendInvitation` | services/invitations/invitation_service.py:21-70 | All checks in order, then one PENDING row for the normalised address, expiring in 72 hours. |
| `Invitations.InvitationService.AcceptInvitation` | services/invitations/invitation_service.py:73-128 | The accept step on both tables. |
| `Invitations.InvitationService.RevokeInvitation` | services/invitations/invitation_service.py:131-168 | Revokes a pending invitation of this tenant and nothing else. |
| `Invitations.RBACService.AssignRole` | services/rbac/rbac_service.py:24-60 | Creates or updates one membership; an unknown role changes nothing. |
| `Invitations.RBACService.RevokeRole` | services/rbac/rbac_service.py:63-82 | Removes one membership and says whether there was one. |
| `Invitations.RBACService.GetRole` | services/rbac/rbac_service.py:89-94 | Agrees with has_role. |
| `Idempotency.IdempotencyService.Run` | services/common/idempotency.py:33-52 | One call: answered from a live non-None entry, else run, and cached only on return; a failure leaves the cache unchanged. |
| `Idempotency.AtMostOncePerTtl` | services/common/idempotency.py:33-52 | The operation of a key does not start again before ttl seconds have passed since its result was cached. |
| `Idempotency.CallsInBetweenAreAnswered` | services/common/idempotency.py:46-48 | Calls in between run nothing and return the earlier result. |
| `Idempotency.SkippedExactlyWhenAlive` | services/common/idempotency.py:46-52 | An operation is skipped exactly when an earlier call of the key cached a result that is still alive. |
| `Idempotency.CallsGetResults` | services/common/idempotency.py:46-52 | A call that runs the operation gets its result; a call that does not gets what an earlier call of the key got from running it. |
| `Idempotency.CallExactly` | services/common/idempotency.py:29-52 | One call with the literal key: when it is answered from the cache, and otherwise what is cached and until when. |
| `Idempotency.FailureLeavesNoTrace` | services/common/idempotency.py:46-52 | Leave a failed call out of a run: every other call gets the same response, the run stays sequential and the cache ends up the same. |
| `Idempotency.SharedKeys` | services/common/idempotency.py:25-26 | Two (task, id) pairs share a key exactly when they are equal or one task name swallows part of the other id. |
| `Idempotency.KeysNeverCollide` | services/common/idempotency.py:25-30 | Task names without a colon keep all pairs apart. |
| `TwoFactor.CompletionFollowsItsLogin` | apps/authentication/two_factor_views.py:269-306 | Tokens go only to the user who logged in, within 300 s, and once for each issue of the session key. |
| `TwoFactor.SessionsAreSingleUse` | apps/authentication/two_factor_views.py:297-306 | With fresh session keys each pre-auth session yields at most one token pair in a run. |
| `TwoFactor.HonestLoginSucceeds` | apps/authentication/views.py:236-243 | Set-up, enabling, login and completion end with tokens exactly within 300 s and with a good TOTP or backup code. |
| `TwoFactor.TokensOfEnabledUsers` | apps/authentication/social_views.py:111-130 | In every run a user whose second factor is enabled gets tokens only by completing a login of the last 300 s with a good code or by a social login; a social login always gives them. |
| `TwoFactor.EnabledMeansVerified` | apps/authentication/two_factor_views.py:136-153 | is_enabled implies that a code was verified against the current secret after it was set. |
| `TwoFactor.BackupCodesShrink` | apps/authentication/models.py:51-58 | While a row lives its backup codes only shrink. |
| `TwoFactor.BackupCodesAreSingleUse` | apps/authentication/models.py:51-58 | While a row lives each backup code is accepted at most once. |
| `TwoFactor.SwitchingOffNeedsACode` | apps/authentication/two_factor_views.py:195-215 | In every run a second factor goes off only by the post of a good code by its user, or with the user. |
| `TwoFactor.SetupExactly` | apps/authentication/two_factor_views.py:75-101 | An enabled row is refused; otherwise the new secret is set and not enabled, with new backup codes only for a new row. |
| `TwoFactor.EnableExactly` | apps/authentication/two_factor_views.py:131-160 | Exactly a verified code enables a pending row, and the answer shows its backup codes. |
| `TwoFactor.DisableExactly` | apps/authentication/two_factor_views.py:195-215 | Exactly a TOTP code or a backup code deletes an enabled row; anything else changes nothing. |
| `TwoFactor.LoginExactly` | apps/authentication/views.py:217-245 | A session of 300 seconds for an enabled row, tokens for any other user. |
| `TwoFactor.CompleteExactly` | apps/authentication/two_factor_views.py:255-306 | When a completion gives tokens, which session it deletes and which backup codes remain, and that it changes nothing else. |
| `TwoFactor.TwoFactorViews.SetupGet` | apps/authentication/two_factor_views.py:75-101 | Refuses an enabled row, otherwise sets a fresh secret and keeps the backup codes of an existing row. |
| `TwoFactor.TwoFactorViews.EnablePost` | apps/authentication/two_factor_views.py:131-160 | Enables a pending row on a verified code and returns its backup codes. |
| `TwoFactor.TwoFactorViews.UseBackupCode` | apps/authentication/models.py:51-58 | Accepts a listed code after normalisation and removes every copy of it. |
| `TwoFactor.TwoFactorViews.DisablePost` | apps/authentication/two_factor_views.py:195-215 | Deletes an enabled row on a good TOTP or backup code. |
| `TwoFactor.TwoFactorViews.TokenPost` | apps/authentication/views.py:217-245 | Issues a session instead of tokens when 2FA is enabled. |
| `TwoFactor.TwoFactorViews.SocialPost` | apps/authentication/social_views.py:111-130 | Tokens for the user the provider vouches for, who may be new; two-factor rows and sessions are not looked at. |
| `TwoFactor.TwoFactorViews.CompletePost` | apps/authentication/two_factor_views.py:255-306 | The completion step, with each refusal and what it deletes. |
| `TraceContext.TraceFollowsChain` | apps/common/celery_logging.py:21-39 | Every task reached from a request by a chain of publishes of any length runs with trace_id equal to the request id, in every interleaving. |
| `TraceContext.HopKeepsStamp` | apps/common/celery_logging.py:21-39 | One hop: the task starts with the stamp of the activity that published it and stamps its own messages so. |
| `TraceContext.VariablesStand` | apps/common/middleware/request_context.py:28-37 | While an activity runs its tracing variables do not change, whatever other contexts do. |
| `TraceContext.RequestIdExactly` | apps/common/middleware/request_context.py:29 | The id of a request is what its client sent, or a new one. |
| `TraceContext.InjectExactly` | apps/common/celery_logging.py:21-28 | A message gets the request_id of its publisher, or else its trace_id, and otherwise stays as it is. |
| `TraceContext.TaskVarsExactly` | apps/common/celery_logging.py:32-39 | A task has the trace_id of its message, or a new one, and nothing else from before. |
| `TraceContext.LogContext.InjectTraceId` | apps/common/celery_logging.py:21-28 | Copies request_id, else trace_id, into the headers, if there are headers and an id. |
| `TraceContext.LogContext.BindTaskTraceId` | apps/common/celery_logging.py:32-39 | Replaces the whole context by the trace id of the message, or a new one. |
| `TraceContext.LogContext.ClearTaskTraceId` | apps/common/celery_logging.py:43-44 | Clears the context. |
| `TraceContext.LogContext.HandleRequest` | apps/common/middleware/request_context.py:28-40 | The view sees exactly the request id, the response echoes it, and the context is clean afterwards even if the view raises. |
| `Identity.RunsKeepInvariant` | services/users/user_service.py:52-86 | Registration, social login and both erasures, in any order, keep usernames and emails unique and references valid or null. |
| `Identity.AnonymizeNeedsAFreshAddress` | services/users/gdpr_service.py:72-88 | Anonymising keeps emails unique if and only if nobody else uses the address it makes up. |
| `Identity.MadeUpAddressCanBeTaken` | services/users/gdpr_service.py:72-88 | From an empty database, a registration under the made-up address and an anonymisation give two users one address. |
| `Identity.SocialLoginIsStable` | services/auth/social_auth_service.py:142-163 | Repeated social logins with one email give the same user until that user is erased. |
| `Identity.ErasureIsCompleteAndContained` | services/users/gdpr_service.py:116-168 | After an erasure no role, notification or token of the user remains; rows of others survive, changed at most by a nulled reference; an anonymisation deletes nothing else; the counts are those of the deleted rows. |
| `Identity.SecondAnonymizeDeletesNothing` | services/users/gdpr_service.py:67-88 | A second anonymisation deletes nothing. |
| `Identity.AnonymizeForgets` | services/users/gdpr_service.py:72-88 | Two worlds that differ only in the user row are equal after the anonymisation. |
| `Identity.RegisterSucceedsExactly` | services/users/user_service.py:52-86 | Exactly when a registration succeeds, why it fails, and the normalised row it makes. |
| `Identity.SocialLoginExactly` | services/auth/social_auth_service.py:142-163 | The user of the address, or a new one without password under the first free name. |
| `Identity.AnonymizedUserIsInert` | services/users/gdpr_service.py:67-80 | An anonymised user is inactive, has no usable password and no name; the anonymisation fails exactly if the made-up username is in use. |
| `Identity.Accounts.CreateUser` | services/users/user_service.py:44-92 | Validation and conflict checks in order, then one normalised row. |
| `Identity.Accounts.SocialLogIn` | services/auth/social_auth_service.py:142-163 | The user with the email, or a new one under the first free username. |
| `Identity.Accounts.DeleteOwned` | services/users/gdpr_service.py:143-168 | Deletes the rows of one kind that the user owns and counts them. |
| `Identity.Accounts.AnonymizeUser` | services/users/gdpr_service.py:57-103 | All of it or, if the made-up username is taken, nothing. |
| `Identity.Accounts.HardDeleteUser` | services/users/gdpr_service.py:106-136 | Explicit deletions with counts, then the row with its cascades and nulled references. |

## Left out

- Non-ASCII text: upper and lower case, digits and white space are those of ASCII (`\w` is a parameter); Python's Unicode rules are not modelled.
- JSON nulls and malformed shapes in Stripe payloads: an absent key takes the default of the code, a present one has its type.
- WebhookPipeline.LostExactly: holds for a broker that keeps exactly one copy of each message it has taken. A worker lost between publishing a retry and acknowledging the attempt, or a redelivery while the first copy is still at work, leaves two; neither is modelled.
- Column widths and other database errors: they appear only as attempts that roll back, not as outcomes of their own.
- Concurrent races in code that takes no lock (invitations, backup codes, idempotent runs, registration): these services are modelled sequentially.
- Idempotency.AtMostOncePerTtl: assumes that the cache backend evicts no live entry; the tenant cache is modelled with evictions.
- TwoFactor.SessionsAreSingleUse: assumes that random session keys do not repeat; without that, TwoFactor.CompletionFollowsItsLogin still counts one token pair per issue.
- Identity.RunsKeepInvariant: assumes that the random tag of an anonymisation gives an unused address, which Identity.AnonymizeNeedsAFreshAddress shows to be necessary.
- Identity.ErasureIsCompleteAndContained: gives counts for notifications and roles only; the token count of the source includes cascades inside a library.
- Features.FeatureService.ForTenant: a database failure while an override is looked up, which the single-flag resolver swallows, is not modelled.
- Token refresh: a pair issued for an older refresh token is not counted as a login.
- HTTP, serializers, routing, permissions, throttling, templates, email sending and audit records: input and output around the modelled steps.
- Stripe signatures, password hashing, JWT signing, Google and GitHub calls, and TOTP arithmetic: parameters or uninterpreted predicates.
- The member quota as a bound on members: it is checked only when an invitation is sent, so accepted invitations can exceed it.
- `_flatten_detail`, `_serialise_detail` and the exception handlers: their properties are easy.
- Erasing a tenant, and the removal of its rows by cascade: only users are erased here.
