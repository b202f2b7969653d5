# A model of the backend's state machines, in Dafny

This project models the parts of a Django social, ticketing and advertising backend where state is
shared, repeated or rounded, and proves what they keep over every run. `dafny verify dfyconfig.toml`
checks all of it.

| module | models |
|---|---|
| `TicketLedger`, `TicketSystem`, `TicketSales`, `TicketOrphans`, `SweepTask` | ticket reservations, their expiry by any number of racing sweeps, the payment callbacks that move the same rows, and account deletions that remove them |
| `LogScrub`, `LogRedact`, `LogFidelity`, `LogKeys` | scrubbing of log text by three patterns, and the depth-bounded redaction of log values: what it hides, and what it keeps |
| `ListCache`, `TimedCache` | the versioned user-list cache, and caches that are only invalidated and timed |
| `Quota`, `LoginLockout`, `LoginRace` | the fixed-window quota script with its rate strings, and the login lockout, attempt by attempt and with attempts that overlap |
| `CommentForest`, `CommentOverlap`, `CounterSignals` | stored counters against the rows they count, with cascades, soft deletes and deletions that overlap |
| `ProfileImage` | the profile-picture pipeline under retries, redeliveries and competing uploads |
| `SettingCast`, `ConfigRuntime`, `ConfigInterleaving` | typed settings, their priority chain, its cached form with back-off, and lookups that overlap with edits |
| `Attachments`, `CellKey` | at-least-once media attachment, and the text keys of rounded coordinates |
| `Text`, `Options` | decimal printing, ASCII case and whitespace; an option type |

Concurrent code is a machine whose steps are single reads, lock acquisitions, cache operations or
committed transactions; a step that is not enabled changes nothing, so every sequence of steps is a run
and the theorems quantify over all of them. Code that updates fields in place is a class whose methods
are proved against the functions the theorems speak about; where both forms exist, a lemma says that the
one is a run of the other.

## What the code does not keep

Where the code falls short of what its documentation, tests or counters promise, the model keeps the
code as it is, proves exactly when the promise holds, and gives a failing run.

- **Reservations.** A payment callback reads its purchase without a lock and settles it whatever its
  status has become (`tickets/services/ticket_service.py:131-218`,
  `tickets/services/payment_service.py:109-123`). `quantity_reserved` equals the pending reservations
  throughout a run if and only if no callback commits on a row that has stopped pending and no pending
  purchase is deleted (`TicketSystem.ConservationExactly`). A failed-payment callback after the sweep loses
  it (`TicketSystem.LateFailureBreaksConservation`), and so does a buyer who deletes the account
  (`accounts/views.py:430-431`): the purchase goes, its reservation stays
  (`TicketSystem.DeletedBuyerStrandsSeats`). Likewise `quantity_sold` equals the paid purchases if and only
  if no callback commits on a paid row and no paid purchase is deleted (`TicketSales.SalesExactly`); two
  confirmations that read before either commits sell the seats twice
  (`TicketSales.DoubleConfirmationResells`). An expiry cancels the tickets if and only if the tier was not deleted while the purchase waited
  (`TicketOrphans.TicketsCancelledExactly`); order, delete the tier, sweep, and all tickets stay reserved
  (`TicketOrphans.OrphanKeepsTickets`).
- **User list.** The version key is created by a get and a set (`accounts/cache.py:16-21,38-42`). From a
  consistent state every later response is fresh if and only if the key exists and nobody who once found it
  missing has yet to set it (`ListCache.FreshExactly`); two cold requests and one save already reach a
  state where it fails (`ListCache.RaceIsReachable`).
- **Quota.** A limit of zero still admits one call per window, so the bound is `2 * max(limit, 1)`. A
  denied call finds exactly the limit allowed in the last `window` seconds if and only if whatever earlier
  windows allowed is at least `window` seconds old (`Quota.DenialCountExactly`); with limit 2 in 10 seconds
  and calls at 0, 9, 10 and 10, the denial at 11 finds three (`Quota.DenialAfterThree`).
- **Login lockout.** The cooldown test, the password check and the count are separate steps. With k
  attempts in flight the counter reaches max_failed + k and no more, and k - 1 passwords are checked after
  the lock and no more (`LoginRace.OverlappingAttempts`, `LoginRace.BoundReached`,
  `LoginRace.LateBoundReached`); "never above max_failed + 1" holds if and only if k is at most 1
  (`LoginRace.SequentialBoundExactly`).
- **Profile pictures.** Removal reads the slot before its transaction (`accounts/views.py:521-533`). As long
  as no task forgets the cleanup it owes, the cleanup queue stays free of duplicates if and only if every
  removal still finds in the slot what it read (`ProfileImage.QueueCleanExactly`). In every run that test is
  enough (`ProfileImage.GuardSuffices`), and a task that crashed after its swap makes a run where it is not
  needed (`ProfileImage.GuardNotNeeded`, `ProfileImage.LateRemovalCanBeHarmless`);
  `ProfileImage.CleanExactly` is the exact condition for all runs.
- **Overlapping deletes.** A request fetches a row and deletes it without a lock
  (`social/services/like.py:39-46`, `social/services/reshare.py:87-92`), and the `post_delete` handler runs
  whether or not a row was still there. Two overlapping unlikes take a counter of two or more down twice
  (`CounterSignals.OverlappingDeletes`); only `unfollow` notices and rolls back
  (`social/services/follow.py:58-60`). All counters equal their rows if and only if no fetched instance is
  deleted that is no longer what is stored, no follow changes acceptance unseen, and no display like goes
  through the service (`CounterSignals.MatchedExactly`). Overlapping hard deletes of comments do the same to
  posts and parents (`CommentOverlap.RightExactly`, `CommentOverlap.OverlappingHardDeletes`).
- **Display likes** are counted by the service and by the signal; `likes_count` is twice the number of
  likes if and only if likes come and go through the service only and no two requests take back the same
  one (`CounterSignals.DoubledExactly`).
- **Follows.** A change of acceptance after creation is not counted. A delete is refused if and only if the
  caller minds that the row is gone or a stored counter of the instance stands at zero
  (`CounterSignals.DeleteRefusedExactly`), so the later unfollow can be
  (`CounterSignals.UnseenAcceptanceBlocksUnfollow`).
- **Settings.** `save` does not call `clean` (`config/models.py:83-85`), although
  `config/test_config.py:140-143` and `:172-195` expect it to; lookups upper-case the key, so a row whose key
  is not in normal form is never read (`ConfigRuntime.RowReachable`). An edit should be live "on the next
  request" (`config/signals.py:14`). After its invalidation it is live for every later lookup if and only
  if no load still holds other rows, and, unless no override is left, the table is up and no other process
  is backing off (`ConfigInterleaving.EditIsLiveExactly`). A lookup that has queried before the edit and
  stores its map after the invalidation hides the edit even from the process that made it, for up to 300
  seconds (`ConfigInterleaving.OvertakenEditNotSeen`). `sync_config` can change a setting by seeding its row
  (`ConfigRuntime.SeedingNeutralExactly`). A found value that is no boolean word is false to `get_bool` when
  its key has no type, and the default when its key is declared boolean
  (`ConfigRuntime.BoolTypeMattersExactly`).
- **Redaction.** The key parts `accessToken` and `expiresIn` can never match, because keys are lowered
  first (`LogKeys.CapitalPartsChangeNothing`).
- **Attachments.** Reordering the media of a post changes nothing (`Attachments.EditOrdersExactly`), and a
  late redelivery of an older task brings removed media back (`Attachments.OutdatedDeliveryRestores`). The
  rows end as the edited list if and only if no delivery brings another media and those that overtake the
  new task bring each media first at its new place (`Attachments.EditSurvivesExactly`).
- **Cell keys.** Coordinates just south and north of zero print `-0.0000` and `0.0000`
  (`CellKey.SameCellSameTextExactly`).

## Model

| member | source | states |
|---|---|---|
| TicketSystem.RunKeepsValid | tickets/tasks.py:34-61 | in every interleaving of sweeps, crashes, redeliveries, buyers, payment callbacks and account deletions, locked rows are pending and locked once, sold plus reserved fits the tier, and tickets follow their purchase's status |
| TicketSystem.DriftLaw | tickets/tasks.py:51-60 | over any run, reserved minus pending of a tier falls by exactly what callbacks took for rows that were no longer pending and rises by what deleted purchases had reserved |
| TicketSystem.StepConservedIff | tickets/services/ticket_service.py:157-218 | one step breaks conservation exactly when it is a stale settlement or deletes a pending purchase of a surviving tier |
| TicketSystem.ConservationExactly | tickets/tasks.py:34-61 | `quantity_reserved` equals the pending total of every tier throughout a run if and only if no payment callback commits on a row that is no longer pending and no pending purchase of a surviving tier is deleted |
| TicketSystem.ExpiryNeverUnderflows | tickets/tasks.py:54-56 | with conservation an expiry never meets the non-negativity check, so no sweep dies of one |
| TicketSystem.SettledOnce | tickets/tasks.py:38-49 | however many sweeps race, a settled row keeps its status unless a callback overwrites that row or its buyer is deleted |
| TicketSystem.ReleasedAccounting | tickets/tasks.py:34-65 | the workers' `released_count`s sum to the rows turned expired plus those a callback overwrote or a deletion took later |
| TicketSystem.NoOversell | tickets/services/ticket_service.py:60-82 | sold tickets plus waiting purchases never exceed the tier's quantity when no settlement is stale |
| TicketSystem.OrderTakenExactly | tickets/services/ticket_service.py:50-93 | an order is taken if and only if the gateway answers and the tier is on sale with that many seats neither sold nor reserved; it is then a pending purchase with that deadline and that many reserved tickets of the tier, and otherwise nothing changes |
| TicketSystem.ExpiredOnlyOnTime | tickets/tasks.py:38-46 | in every interleaving a purchase that ends expired was pending when a worker expired it, with a deadline not after that worker's start |
| TicketSystem.ConfirmedStays | tickets/services/ticket_service.py:131-143 | a paid purchase with no callback under way stays paid through any run without a failed-payment callback for it or its deletion, however often confirmations and sweeps come |
| TicketSystem.LateFailureBreaksConservation | tickets/services/payment_service.py:109-123 | a failed-payment callback after the sweep gives the same reservation back twice, from every contended state |
| TicketSystem.ContendedIsReachable | tickets/services/ticket_service.py:50-93 | any two equal orders in a fresh tier reach such a contended state |
| TicketSystem.DeletedBuyerStrandsSeats | accounts/views.py:430-431 | an order followed by the deletion of the buyer's account leaves the seats reserved with no pending purchase |
| TicketLedger.RemoveDrift | tickets/models.py:378-381 | the cascade that deletes a purchase leaves its tier's counters ahead by what it had reserved or bought |
| TicketLedger.TakeBackDrift | tickets/services/ticket_service.py:183-188 | any transaction that takes a purchase's quantity back drifts its tier's reserved and sold counters by what the row did not hold or had already sold, and no other tier |
| TicketSales.SoldLaw | tickets/services/ticket_service.py:157-188 | over any run the sold counter runs ahead of the paid purchases by exactly what was settled again or whose purchase was deleted |
| TicketSales.SalesExactly | tickets/services/ticket_service.py:131-188 | `quantity_sold` equals the paid purchases of every tier throughout a run if and only if no payment transaction commits on a paid row and no paid purchase of a surviving tier is deleted |
| TicketSales.DoubleConfirmationResells | tickets/services/ticket_service.py:131-188 | two confirmations that both read a pending purchase sell its seats twice while others hold as many |
| TicketOrphans.ExpireCancelsExactly | tickets/tasks.py:51-57 | an expiry cancels the tickets of a pending purchase if and only if its tier is still known, and leaves them reserved otherwise |
| TicketOrphans.TicketsCancelledExactly | tickets/tasks.py:51-60 | over any run, an expired purchase ends with its tickets cancelled if and only if its tier was not deleted while it waited |
| TicketOrphans.OrderedTicketsCancelledExactly | tickets/services/ticket_service.py:70-93 | from a successful order on, whatever else runs: if the purchase is expired in the end, its tickets are cancelled exactly when its tier was not deleted before, and reserved exactly when it was |
| TicketOrphans.OrphanKeepsTickets | tickets/models.py:328-334 | order, delete the tier, sweep: the purchase is expired and all its tickets are reserved |
| SweepTask.ListFromShape | tickets/tasks.py:27-32 | the listing is ascending, holds only releasable rows, min(batch, backlog) of them, and all of them when it is short |
| SweepTask.SweepRowsExact | tickets/tasks.py:34-61 | one pass expires exactly the listed rows, leaves all others as they were, and keeps conservation |
| SweepTask.SweepByDeadline | tickets/tasks.py:27-49 | an uncontended sweep leaves alone every purchase that is not pending, has no deadline or one still ahead, and if it released fewer than a batch, expires every pending one whose deadline has come |
| SweepTask.SweepExact | tickets/tasks.py:21-65 | an uncontended sweep releases min(batch, backlog) rows and that many leave the backlog |
| SweepTask.SweepsClearBacklog | tickets/tasks.py:25-32 | ceil(n / batch_size) sweeps clear a backlog of n, and fewer do not |
| SweepTask.SweepIsRun | tickets/tasks.py:21-65 | the sequential task is a run of the concurrent machine with the same ledger and count |
| SweepTask.TicketStore.ExpireLocked | tickets/tasks.py:51-60 | the in-place transaction of one locked row, including its rejection |
| SweepTask.TicketStore.ListCandidates | tickets/tasks.py:27-32 | the listing loop returns the specified candidates |
| SweepTask.TicketStore.ReleaseExpired | tickets/tasks.py:21-65 | the in-place loop leaves the specified rows and returns the specified count, or stops at a rejected row |
| LogScrub.EndIsLongestHit | utils/logging.py:179-181 | the scan of each pattern finds a match exactly where the pattern's language has one, and the longest |
| LogScrub.ClassesSpelledOut | utils/logging.py:179-181 | the character classes of the patterns, character by character |
| LogScrub.EmailNotCreated | utils/logging.py:198-200 | no pass creates an email that was not there |
| LogScrub.SubClean | utils/logging.py:198-200 | a pass leaves no match of its own pattern, the marker notwithstanding |
| LogScrub.PhoneHasDigitWord | utils/logging.py:180-181 | every phone match contains a digit word the last pass cuts |
| LogScrub.ScrubClean | utils/logging.py:195-201 | scrubbed text holds no email, no phone number and no word of 10 to 19 digits |
| LogScrub.ScrubIdempotent | utils/logging.py:195-201 | scrubbing twice is scrubbing once, and clean text is untouched |
| LogScrub.ScrubReplaces | utils/logging.py:198-200 | each of the three passes replaces only words of its own language in what the pass before it left; all other text survives in order |
| LogRedact.Noninterference | utils/logging.py:188-234 | values that differ only under sensitive keys, past the item limit or below the depth limit redact to the same output, at every depth |
| LogRedact.RedactBounded | utils/logging.py:204-234 | output nests at most 7 - depth containers of at most 51 entries, has at most S(depth) nodes, holds the marker under every sensitive key, and only markers or bounded prefixes of scrubbed text as strings |
| LogRedact.SizeBoundReached | utils/logging.py:204-223 | some value reaches S(depth) nodes at every depth |
| LogRedact.RedactValue | utils/logging.py:204-234 | the loops over dict entries and list items compute the recursive redaction |
| LogFidelity.PlainUnchanged | utils/logging.py:204-234 | a value within seven levels and 50 entries per container, without sensitive keys, objects of other types or anything to scrub or cut in its texts, redacts to itself |
| LogFidelity.TextsAreScrubbed | utils/logging.py:225-229 | a text comes out as its own scrubbed text up to 512 characters; a longer one as the first 512 of them and a note of its scrubbed length |
| LogFidelity.ListsAreCut | utils/logging.py:219-223 | a list keeps its first 50 items in place, each redacted one level deeper, and the notice at the end names exactly how many are left out |
| LogFidelity.DictsAreCut | utils/logging.py:208-217 | a dict keeps its first 50 keys in order, the marker under the sensitive ones and the redacted value under the others, and the notice names exactly how many are left out |
| LogFidelity.DeeperIsCut | utils/logging.py:205-206 | one fixed note comes out for everything exactly below seven levels |
| LogFidelity.OthersAreScrubbed | utils/logging.py:234 | an object of another type comes out as the first 512 characters of its scrubbed text |
| LogKeys.RedactIsBounded | utils/logging.py:183-234 | the bounds for the repository's own key tables |
| LogKeys.NoticeKeyIsSafe | utils/logging.py:210-213 | the "..." key of a truncated dict is itself not sensitive |
| LogKeys.CapitalPartsChangeNothing | utils/logging.py:137-138 | two listed key parts never match any key |
| ListCache.RunKeepsValid | accounts/cache.py:16-42 | entries under a version reflect every save bumped to that version or earlier |
| ListCache.FreshExactly | accounts/cache.py:16-42 | from a consistent state, all future responses reflect every save bumped before their version was read, if and only if the version key exists and nobody is between finding it missing and setting it |
| ListCache.LateSetServesStale | accounts/cache.py:17-20 | whoever sets the key late, a request to 1 or a save to 2, can make an outdated page be served, whatever the version has become |
| ListCache.MissingKeyServesStale | accounts/cache.py:16-21 | from any state without the version key two requests and a save can serve an outdated page |
| ListCache.AlwaysFresh | accounts/views.py:752-796 | whoever reads the version after a save's bump is answered with rows that reflect the save, in every interleaving from a settled state |
| ListCache.ColdStartFresh | accounts/cache.py:16-42 | the same from an empty cache when a missing version key is set atomically |
| ListCache.InitialisationRaceServesStale | accounts/cache.py:17-20 | with an outdated entry under version 1, a request caught between get and set turns the version back and three steps later that entry is served |
| ListCache.RaceIsReachable | accounts/cache.py:17-20 | two requests and one save reach that situation from a cold cache |
| ListCache.UserListCache.GetListVersion | accounts/cache.py:16-21 | the version returned and stored |
| ListCache.UserListCache.BumpListVersion | accounts/cache.py:38-42 | a missing key becomes 2, a present one goes up by one |
| ListCache.UserListCache.GetUserList | accounts/views.py:752-796 | the read-through get leaves and returns what one undisturbed request does |
| ListCache.ServeIsRun | accounts/views.py:752-796 | an undisturbed request is a run of the concurrent machine |
| TimedCache.RunKeepsValid | accounts/views.py:802-824 | every cached, loading or served value was the saved one at some instant of its loading request, for any kind of value |
| TimedCache.BoundedStaleness | accounts/views.py:802-824 | a served value was true at most TTL plus the loading request's duration ago, however loads and invalidations race |
| TimedCache.ExpiredIsNotServed | config/runtime.py:31-36 | in every run a value is served only to the request that stored it or strictly within its TTL |
| TimedCache.StalenessReached | accounts/signals.py:11-15 | a load that an invalidation overtakes is still served one second before that bound |
| Quota.AtMostTwiceTheLimit | accounts/throttles.py:28-46 | any closed interval of length window sees at most 2 * max(limit, 1) allowed calls in any timed run, for every limit and window |
| Quota.ZeroWindowAllowsNothing | accounts/throttles.py:43-44 | with a window of zero every call ends in an error and nothing is stored |
| Quota.TwiceTheLimitReached | accounts/throttles.py:28-46 | two bursts one window apart reach that bound |
| Quota.ReplyMeaning | accounts/throttles.py:34-45 | the count returned is the number allowed since the window opened, the TTL is what is left of it, a denial means the limit was reached in it, and the first call after expiry is allowed |
| Quota.DenialCountExactly | accounts/throttles.py:36-38 | a denied call finds at least the limit allowed in the last window seconds, and exactly the limit if and only if everything allowed in earlier windows is at least window seconds old |
| Quota.DenialAfterThree | accounts/throttles.py:36-38 | limit 2 and any window above 2 seconds: a call at once, one at the window's end and two right after it leave three allowed in the last window seconds of a denial |
| Quota.DeniedUntilTtl | accounts/throttles.py:34-38 | however often a denied caller retries, calls are denied until exactly the returned TTL has passed |
| Quota.CallsKeepValid | accounts/throttles.py:34-45 | in any run the key is the rank and expiry of the last allowed call, and windows do not overlap |
| Quota.QuotaKey.CheckQuota | accounts/throttles.py:28-46 | the script's update of the stored key and its reply |
| Quota.ParseRateExactly | accounts/throttles.py:62-70 | a rate is accepted exactly when it begins with count/window-unit, and is read as that |
| Quota.ParseInvertsPrint | accounts/throttles.py:62-70 | parsing inverts decimal printing for every count and window in seconds, minutes, hours and days, whatever follows |
| LoginLockout.CounterMeaning | accounts/services/authentication.py:73-104 | the counter is the wrong passwords since the last right one of an active account that is not deleted, told from the attempts alone; it is never above max_failed + 1, and the lock is on exactly at that value |
| LoginLockout.AnsweredExactly | accounts/services/authentication.py:66-104 | after any attempts, the next one is logged in, and its counter reset, if and only if identifier and password are given, the identifier has not been locked, and the password is right for an active account that is not deleted; every other attempt gets its own error, and only a wrong password counts |
| LoginLockout.SpellingsShareCounter | accounts/services/authentication.py:65-68 | case and padding of an email do not change its counter |
| LoginLockout.FirstGivenIdentifies | accounts/services/authentication.py:65-68 | the first of email, user name and phone number that is given is the identifier, and the others do not matter |
| LoginLockout.NoCheckOnceLocked | accounts/services/authentication.py:73-75 | once locked, no attempt reaches the password check or changes the limiter |
| LoginLockout.LocksExactlyAfter | accounts/services/authentication.py:85-97 | the attempt that locks is failure number max_failed + 1 since the last success |
| LoginLockout.OthersUnaffected | conftest.py:110-128 | an identifier's state after any run is its state after its own attempts alone |
| LoginLockout.AuthenticationService.Attempted | accounts/services/authentication.py:55-104 | the login steps in order: result, whether the password was checked, and the limiter left behind |
| LoginLockout.AuthenticationService.Hit | conftest.py:116-119 | the count after a hit and whether it is within the limit |
| LoginRace.OverlappingAttempts | accounts/services/authentication.py:74-96 | with at most k attempts in flight, in every interleaving, the counter stays within max_failed + k and fewer than k passwords are checked after the lock |
| LoginRace.BoundReached | accounts/services/authentication.py:74-96 | k attempts that look at the same time take the counter to max_failed + k |
| LoginRace.LateBoundReached | accounts/services/authentication.py:74-96 | k attempts that look at the same time can have k - 1 passwords checked after the lock |
| LoginRace.SequentialBoundExactly | accounts/services/authentication.py:74-96 | the counter stays within max_failed + 1 in every run if and only if at most one attempt is in flight |
| LoginRace.UndisturbedIsLogin | accounts/services/authentication.py:66-104 | an attempt with no other in flight leaves the counter and the cooldown as the login call on the limiter does |
| CommentForest.HardDeleteOne | social/signals.py:92-99 | the rows removed are the comment and whatever hangs below a removed one; each post loses its comments among them and then counts those that remain, the surviving parent loses one reply, and no other comment any |
| CommentForest.HardDeleteKeeps | social/models.py:225-259 | a hard delete of any set with its cascade leaves every counter equal to the remaining rows |
| CommentForest.SoftDeleteKeeps | utils/models.py:34-37 | a soft delete changes no counter and keeps the row counted |
| CommentForest.CreateStores | social/signals.py:80-89 | a comment is stored under its parent, neither flagged nor answered; its post counts one comment more, its parent one reply more, and nothing else changes |
| CommentForest.SoftDeleteFlags | utils/models.py:34-37 | a soft delete flags its comment and changes nothing else |
| CommentOverlap.RightExactly | social/signals.py:80-99 | however writes, soft deletes and deletions of comments, posts and accounts overlap, both counters equal their rows throughout a run if and only if no deletion commits for a row that another one has taken while its post or parent stays |
| CommentOverlap.PurgeDrift | social/signals.py:92-99 | a committed deletion leaves each counter short of its rows by exactly the rows it held that were already gone |
| CommentOverlap.NeverNegative | social/signals.py:92-99 | no run stores a negative counter, whatever overlaps |
| CommentOverlap.AloneIsHardDelete | social/models.py:238-246 | with nobody in between, collecting and deleting is the hard delete above and is never refused |
| CommentOverlap.AloneNeverRefused | social/models.py:226-237 | the same for whole posts and accounts, and the counters stay right |
| CommentOverlap.OverlappingHardDeletes | social/signals.py:92-99 | two deletions of one comment, both collected before either deletes, take its post down by two |
| CommentForest.SocialTables.Collect | social/models.py:238-246 | the cascade's batches terminate and gather exactly the comments below the roots |
| CommentForest.SocialTables.HardDeleteRows | social/signals.py:92-99 | rows first, handlers afterwards in any order, leave the specified tables |
| CommentForest.SocialTables.CommentDeleted | social/signals.py:92-99 | one handler's updates, which miss rows already gone |
| CounterSignals.StepDrift | social/signals.py:21-118 | each operation moves counter minus rows by its own drift only, a delete by the fetched instance even when its row is gone |
| CounterSignals.DriftLaw | social/signals.py:21-118 | over any run a counter's distance from its rows is the sum of the drifts |
| CounterSignals.MatchedExactly | social/signals.py:21-118 | however fetches and deletes of concurrent requests interleave, throughout a run all counters equal the number of their rows (accepted follows by either side, likes of posts, likes of comments, reshares, comments of a display with the soft-deleted ones, likes of a display) if and only if no follow changes acceptance unseen, no display like is given or taken back through the service, and no instance is deleted that a stored counter counts otherwise than what is stored |
| CounterSignals.InsertCounts | social/signals.py:21-112 | a new row is stored as it is and raises exactly the columns that count it, by one |
| CounterSignals.SoftDeleteFlags | utils/models.py:34-37 | a soft delete flags a display comment and moves no counter |
| CounterSignals.NeverNegative | social/signals.py:35-45 | no run stores a negative counter, whatever overlaps |
| CounterSignals.OverlappingDeletes | social/services/like.py:39-46 | two requests that fetch a row before either deletes it take its counter down twice exactly when it stands at two or more and the caller does not mind that nothing was deleted |
| CounterSignals.DeleteRefusedExactly | social/services/follow.py:58-60 | a delete is refused if and only if its caller finds the row gone and minds, or a stored counter of the instance stands at zero |
| CounterSignals.RunKeepsOneEach | social/models.py:208 | in every run at most one follow, like or reshare exists per user and object, kind by kind |
| CounterSignals.DeleteNotRefused | social/signals.py:35-45 | while counters match, deleting a row as it is stored is never refused |
| CounterSignals.UnseenAcceptanceBlocksUnfollow | social/signals.py:35-45 | after an uncounted acceptance the unfollow is rolled back |
| CounterSignals.DoubledExactly | displays/services/display.py:94-114 | a display's `likes_count` is twice its likes throughout a run if and only if likes come and go through the service only and no like is taken back whose row is gone |
| CounterSignals.CounterColumns.RowChanged | displays/signals.py:6-43 | the receivers shift exactly the counters the row is counted in |
| ProfileImage.SwappedAtMostOnce | accounts/tasks.py:340-398 | in every interleaving each upload is swapped in at most once, and the committed media are the current one plus those swapped out |
| ProfileImage.QueueCleanExactly | accounts/views.py:521-541 | from the empty system, in every run where no task is retried between its swap and the cleanup it owes: no media is queued for cleanup twice and only media that left the slot are, if and only if every removal finds the slot as it read it |
| ProfileImage.CleanExactly | accounts/views.py:521-541 | in every run: the same, if and only if each removal that comes too late finds a media whose cleanup a crash or another late removal lost |
| ProfileImage.GuardSuffices | accounts/views.py:521-541 | in every run in which each removal finds the slot as it read it, the queue stays clean |
| ProfileImage.GuardNotNeeded | accounts/tasks.py:397-405 | a task that dies between swap and cleanup makes a run where a removal comes too late and the queue stays clean |
| ProfileImage.LateRemovalCanBeHarmless | accounts/tasks.py:397-405 | such a run starts from the empty system |
| ProfileImage.StepCleanExactly | accounts/views.py:531-541 | one step spoils the queue exactly when it is a removal whose slot changed and whose media is not lost |
| ProfileImage.CurrentNeverQueued | accounts/tasks.py:400-405 | with a clean queue the current picture is neither queued nor owed for cleanup |
| ProfileImage.DoubleRemoval | accounts/views.py:521-541 | two removals that read the same picture before either saves queue it twice |
| ProfileImage.Pipeline.Process | accounts/tasks.py:319-415 | one attempt is its steps in order, succeeds exactly when the bytes are staged, decode, store and find a profile, queues what it replaced, and leaves its task finished, failed or queued for a retry with its blob, and every other task as it was |
| SettingCast.CastNormalForm | config/models.py:88-115 | a cast value stored as text casts back to itself, for every type but json, except exactly when a list item holds a comma |
| SettingCast.TextCastNormalForm | config/models.py:101-115 | for text, which is all a row can hold, casting is a normal form for every type but json, without exception |
| SettingCast.TextAndListAgree | config/models.py:98-114 | a list and its comma-joined text cast alike exactly when no item holds a comma |
| SettingCast.PaddingIgnored | config/models.py:101 | whitespace around a text changes no cast |
| SettingCast.BooleanIgnoresCase | config/models.py:104-110 | letter case changes no boolean cast |
| SettingCast.BooleanWords | config/models.py:104-110 | the four words of true and the five of false, the empty one among them; every other text is refused |
| SettingCast.TypedValuesPass | config/models.py:92-96 | integers and booleans of the type asked for come back as they are, and a boolean is no integer |
| SettingCast.TypedListsPass | config/models.py:97-100 | lists and tables pass as JSON; a tuple does so, and a table as a list, by its text only |
| SettingCast.ParseIntInvertsPrint | config/models.py:102-103 | reading inverts printing for every integer |
| SettingCast.IntegerSpellings | config/models.py:102-103 | a plus sign and an underscore between digits change nothing |
| SettingCast.SplitJoin | config/models.py:113-114 | splitting at commas inverts joining comma-free items |
| ConfigInterleaving.SettingsAreRecent | config/runtime.py:22-67 | with cache read, query, cache write, commit and invalidation as separate steps of any number of processes, every lookup is resolved against rows that were active within 300 seconds plus its load's duration, or against none within 30 seconds of a failed query; a secret never depends on the table |
| ConfigInterleaving.RepliesReadTheRows | config/runtime.py:22-60 | in every interleaving each lookup that is not cut off gives, for every setting, the value of the setting's own row in one table stored within 300 seconds plus its load's duration, cast as its type demands, or what it gives without a table where that row is missing, inactive, blank or a secret's; a lookup that is cut off gives what it gives without a table |
| ConfigInterleaving.RunKeepsValid | config/runtime.py:22-89 | what the cache serves and what each process returned goes back to the rows of that time, and a running back-off to a failed query |
| ConfigInterleaving.StaysLiveExactly | config/runtime.py:22-60 | as long as nobody edits and no outage begins, every later lookup of every process works with the rows as they are, if and only if no outdated entry is in reach of a process before it expires, no load holds other rows, and nobody is or can be cut off |
| ConfigInterleaving.EditIsLiveExactly | config/signals.py:11-15 | after its invalidation an edit is live for every later lookup if and only if no load in flight holds other rows and, unless no override is left, the table is up and no other process is backing off |
| ConfigInterleaving.OvertakenEditNotSeen | config/runtime.py:55-60 | a lookup that queried before the edit and stores after the invalidation hides it from the process that made it, until its entry expires |
| ConfigInterleaving.RecoversWithinBackoff | config/runtime.py:63-66 | 30 seconds after the table is back for good no lookup is cut off; each works with rows active within 300 seconds plus its load's duration |
| ConfigRuntime.CachedRefinesPlain | config/runtime.py:22-139 | when lookups and edits do not overlap: after any run of edits, bulk actions, outages, expiries and lookups by any process, a lookup answers as the uncached chain on the current active non-blank rows, or on an empty table while that process is cut off |
| ConfigRuntime.LookupsReadTheRows | config/runtime.py:41-47 | after any such run, a lookup that is not cut off gives the value of the setting's own row if that is active, not blank and no secret's; every other lookup is one without the table |
| ConfigRuntime.EditTakesEffect | config/admin.py:64-88 | a saved row is stored as given, a deleted one is gone, bulk actions activate, deactivate or blank the selected rows, all other rows stay, and the editing process reads the new rows at once |
| ConfigRuntime.ResetFallsThrough | config/admin.py:85-88 | blanked settings are looked up as if there were no table |
| ConfigRuntime.SpellingsShareSetting | config/runtime.py:93 | case and padding of the name do not matter to a lookup |
| ConfigRuntime.ChainInOrder | config/runtime.py:92-139 | the value found is the override unless the key is a secret, else the Django setting, else the environment's, a blank Django setting ending the search; it is cast if the key is known, and only a failed cast gives way to the default |
| ConfigRuntime.BoolTypeMattersExactly | config/runtime.py:150-154 | declaring a key boolean changes what `get_bool` makes of a found value exactly when the value is no boolean word and the default is true |
| ConfigRuntime.SameLookupsExactly | config/runtime.py:96-137 | two override maps answer all lookups of a key alike, for every default and with or without cast, exactly when they make it find the same value |
| ConfigRuntime.RowReachable | config/runtime.py:93 | a row can be found by some lookup exactly when its key is stripped and holds no lower-case letter |
| ConfigRuntime.UnreachableRowIgnored | config/models.py:83-85 | a row stored under any other key changes no lookup |
| ConfigRuntime.SeedingNeutralExactly | config/management/commands/sync_config.py:31-45 | seeding a row from the environment keeps every lookup of the setting exactly when the value is blank or no Django setting says otherwise |
| ConfigRuntime.Runtime.GetConfig | config/runtime.py:92-139 | the layer-by-layer lookup equals the priority chain on the loaded map, and touches cache and back-off only for keys that are not env-only |
| ConfigRuntime.Runtime.DbValues | config/runtime.py:22-60 | back-off, cache, query and failure in order: the map returned and the state left |
| ConfigRuntime.Runtime.InvalidateCache | config/runtime.py:80-89 | clears the map and the process's back-off |
| Attachments.SplitMergesBack | social/tasks.py:84-90 | attached rows and skipped ids merge back to the input by position |
| Attachments.PositionsRise | social/tasks.py:84-90 | attached rows keep the order of the list |
| Attachments.RowAfterDeliveries | social/tasks.py:130-155 | after any history of deliveries a row that existed is unmoved, a new one has the first position of the first delivery that brings it, and nothing unowned is attached |
| Attachments.AttachesOwnMediaExactly | social/tasks.py:75-90 | a delivery adds a row for exactly the listed media that belong to the author and are not deleted, at their first place, and skips exactly the others |
| Attachments.RedeliveryChangesNothing | advertisements/tasks.py:36-61 | any number of deliveries leaves the rows of one |
| Attachments.AttachedCountExactly | social/tasks.py:101-105 | `attached` equals the rows added exactly when every attached id is new and listed once, and never undercounts |
| Attachments.EditOrdersExactly | social/services/post.py:109-117 | an edit puts media at the listed positions exactly when it changes the set or nothing had to move |
| Attachments.EditSurvivesExactly | social/services/post.py:109-117 | whatever is delivered before and after the new task, rows end as the edited list if and only if no delivery brings another media and those before it bring each media first at its new place |
| Attachments.OutdatedDeliveryRestores | social/services/post.py:109-117 | redelivering the list from before an edit restores removed media |
| Attachments.ParentAttachments.Process | social/tasks.py:60-105 | the loop and insert of one delivery, with the empty list, the missing parent and the nothing-owned case |
| CellKey.KeyReadsBack | social/models.py:50-53 | a key reads back as both rounded coordinates |
| CellKey.RoundsToNearest | social/models.py:50-53 | each coordinate becomes the one multiple of 0.0001 nearest to it, ties to even |
| CellKey.EqualKeysExactly | social/models.py:50-53 | keys are equal exactly when the rounded coordinates are, sign included, and then the places differ by at most 0.0001 degrees in each coordinate |

## Left out

- Event totals (`total_tickets_sold`, revenue) in the confirming transaction: counters of the same shape as the tier's.
- Hand edits of tiers, purchases and tickets in the admin, API edits of a tier's `quantity`, and tiers created during a run: the runs start with all tiers present; deleting a tier, and a purchase with its buyer, are steps.
- The Redis purchase lock of `initialize_purchase`: the row lock alone carries the proofs.
- The Redis rate limiter of accounts/services/rate_limiter.py: lockout follows the limiter interface and the in-memory implementation, whose counters and cooldowns do not expire.
- LoginLockout.CounterMeaning: no expiry of counters or cooldowns, because the in-memory limiter has none; LoginRace has none either.
- The fallback throttle and the rate lookup around the quota script, and eviction of quota keys by Redis.
- Quota.ReplyMeaning: times are whole seconds and a key is gone at its expiry instant.
- Unicode: `\w`, `\d`, case and whitespace are ASCII; Python's limit on the length of integer texts is not modelled.
- LogRedact.RedactBounded: claims no freedom from digit runs after a cut at 512 characters, because a cut can make a new word boundary.
- `bind` and `unbind` of the log context, formatters and handlers.
- ListCache.AlwaysFresh: saves inside a longer open transaction are not modelled; a row is visible before its bump runs. Updates through a queryset send no signal and bump nothing.
- MD5 of query strings: taken as injective.
- TimedCache.BoundedStaleness: one key, one value per save; cache failures are not modelled.
- ConfigRuntime.CachedRefinesPlain: a lookup, and an edit with its invalidation, are one step each; ConfigInterleaving takes them apart. Cache operations succeed in both.
- `json.loads`: a parameter that says which texts it accepts. `get_int`, `get_str` and the `all_effective` report only convert.
- Validation in `Setting.clean`: no save path runs it.
- Media `processing_status`, image decoding, storage and pushes; attempts of one profile-image task do not overlap; the cleanup task's own deletion of a media row.
- CommentOverlap.RightExactly: numbers of comments grow, as replies are written after what they reply to; an id is never used again.
- CounterSignals.MatchedExactly: a transaction that deletes several rows is modelled as their deletes one after the other, and hand edits of counters in the admin are not modelled.
- Notification, chat, poll, search, payout and advertisement-delivery services, sockets, email and SMS, geocoding, tokens, serializers and routing.
