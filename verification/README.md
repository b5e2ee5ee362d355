# Taiga back end: verified models of its stateful core

Dafny models of the parts of the Taiga back end whose correctness spans many calls, with proofs over
all inputs and whole runs. `dafny verify dfyconfig.toml` checks everything.

- **Throttling** – the multi-rate request limiter. It keeps newest-first time lists in a cache that forgets
  them; on every run it is proved to answer like a limiter with an unbounded log and no cache, to never
  overfill a window, and to tell denied clients a wait that is exact.
- **Tokens**, **TokenRotation** – token claims and expiry arithmetic, and refresh-token rotation over the
  outstanding and denylist tables with their garbage collection. On every run the tables give the outcomes of
  an ideal server that just remembers which tokens are spent; single use, one live token per login and the
  harmlessness of flushing follow. The claims are those of RFC 7519, section 4.1.4 ("exp") and section 4.1.7 ("jti").
- **CommitScanner**, **PushEvents** – the two regular-expression scans over commit messages, proved against the
  language of the patterns and the leftmost non-overlapping semantics of `finditer`, and the accounting of what
  a push event does to items and history.
- **Permissions**, **ListFilters**, **Timeline** – the permission check on one object, and the two queries that
  select what a viewer may see, with the exact conditions under which query and check agree.
- **Swimlanes**, **KanbanOrder**, **RolePoints**, **MembershipOrder**, **ProjectTemplates** – the handlers that keep
  a project's tables in shape: the swimlane-by-status grid, the default swimlane and where stories go when swimlanes
  and statuses are deleted, the new kanban order of moved stories, role points, the order of a user's projects, and
  the template round trip.
- **Decimals** – the digit counting of decimal fields as a power-of-ten bound.

Where the source updates objects in place, a class has its fields, loops and assignments, and each method is
proved to compute a specification function; lemmas about these functions, most of them over runs, state what the
source promises. Each call is one atomic step. Clocks, fresh identifiers, the conversion of strings to integers,
Unicode character classes, whitelisting, name collation and slug generation are parameters.

Findings, each with its exact condition:

- List queries and the object check disagree on a project exactly when it grants a permission to anonymous users but
  not to registered ones (`ListingIsExactIff`), timeline and object check exactly in the mirror case
  (`TimelineIsExactIff`), and both agree once the base permissions of the project have been set.
- A rate limit below 1 makes every promised wait a false one (`WaitIsExact`) and denies its clients for good
  (`NeverOpenIff`); "0/m" is an example (`ZeroPerMinutePromisesFalsely`).
- A field's limits bound what it accepts by 10^(M-D) exactly when it allows no decimal places or
  accepts nothing (`FieldKeepsBoundIff`). With decimal places a positive exponent is counted as if it were decimals,
  so that 1E+2 passes a field meant for values below 100, and 1E+3 is refused by one meant for values below 10000
  (`PositiveExponentEscapesBound`); `AcceptedIffBelowPowerOfTen` says of every value which way it goes.
- A request gives stories or the default of the project a foreign status exactly when it deletes, in favour of another
  project's status, one that something has, or makes another project's status the default (`StatusesStayOwnIff`,
  `ForeignTargetIsAccepted`).
- A template made from a project can be applied exactly when, in every non-empty list that needs a default, the
  project's default is a row of that list (`TemplateRoundTrip`); with a foreign default it crashes
  (`ForeignDefaultCrashes`).
- An edit of the project breaks the rule of the default swimlane exactly when it takes the default away while there are
  swimlanes, or makes a foreign one the default (`DefaultStaysOwnIff`), and an edit of a limit breaks the mirror between
  statuses and their rows in a sole swimlane exactly when it makes the two differ (`StepMirrorsIff`).
- Within a namespace, the query that takes away timeline rows about related user stories agrees with the object check
  exactly when something grants viewing the stories, or the viewer is an administrator exactly when a permission column
  is null (`ExclusionIsExactIff`). Otherwise an administrator loses a row (`AdministratorLosesRow`) or a stranger keeps
  one (`NullColumnsKeepRow`).
- A commit ends in an error that is not caught exactly when its first failing status command names an item and a status
  that are found, but the item has no status (`CommitCrashesIff`, with `NullStatusStopsCommit` as an example).
- A project with neither an owner's membership nor a role cannot be made into a template (`TemplateHoldsProject`).

The docstring of `parse_rate` promises a pair; the code returns a triple whose first part is the rate's own text, and
the model follows the code.

## Model

| member | source | states |
|---|---|---|
| Throttling.RateIsRead | taiga/base/throttling.py:142-152 | A rate text with one slash is read iff the part before it is a number and the period after it starts with s, m, h or d; the limit is that number and the duration 1, 60, 3600 or 86400 seconds |
| Throttling.OnlyOneSlashIsRead | taiga/base/throttling.py:149 | No text without exactly one slash is read as a rate |
| Throttling.GetRates | taiga/base/throttling.py:125-140 | A scope has rates iff it is configured, its setting is of a supported kind, and every text in it is read; they are the readings of the texts in order, and otherwise the error names the first thing wrong |
| Throttling.CommonThrottle.ReadHistories | taiga/base/throttling.py:89-110 | The loop over rates with its popping loop collects exactly the waits of the blocking rates and the histories to write back, and changes nothing |
| Throttling.CommonThrottle.WriteHistories | taiga/base/throttling.py:116-122 | The second loop stores every history with the current time in front and the rate's duration as timeout |
| Throttling.CommonThrottle.AllowRequest | taiga/base/throttling.py:76-123 | A request is allowed iff the setting it is measured against can be read and its caller is exempt or, for every rate, fewer than the limit of that caller's earlier requests were allowed within the duration; the new cache and wait are those of one step |
| Throttling.PopIsFilter | taiga/base/throttling.py:100-101 | On a newest-first list, popping expired entries off the tail equals filtering the whole list by age |
| Throttling.CacheAlwaysTracksLog | taiga/base/throttling.py:97-123 | At every point of every run each cache entry holds exactly the part of the allowed-request log its rate can still need, and expires when its newest entry does |
| Throttling.AnswersAgreeWithLog | taiga/base/throttling.py:76-123 | On every run with a nondecreasing clock the cached limiter gives the answers of a limiter with an unbounded log and no cache |
| Throttling.AnswersAgreeWithReference | taiga/base/throttling.py:76-167 | On every such run a request is allowed iff the one of the four settings for registered or other callers and writing or reading methods is read, and the caller is whitelisted or, for each of its rates, has had fewer than the limit of requests allowed within the duration; callers are told apart by user id if registered, by address if not, and by reading or writing |
| Throttling.ShareHistoryIff | taiga/base/throttling.py:154-167 | Two requests share the history of a rate iff both or neither are authenticated, both or neither write, and their user id, or address if anonymous, is the same |
| Throttling.MisconfiguredIff | taiga/base/throttling.py:76-79 | An error is raised iff reading the setting of the request raises it |
| Throttling.UnlimitedLeavesNoTrace | taiga/base/throttling.py:81-85 | Requests of whitelisted callers, and under a setting without rates, are allowed and leave the cache as it is |
| Throttling.DeniedLeavesNoTrace | taiga/base/throttling.py:112-114 | Removing a denied request from a run changes no later answer and not the final cache |
| Throttling.WindowNeverOverfull | taiga/base/throttling.py:97-123 | In every run any half-open window of a rate's duration holds at most its limit of allowed requests per client, and none for a negative limit |
| Throttling.RateUnblocksWhenWaitIsOver | taiga/base/throttling.py:169-182 | A blocking rate with no more entries than its limit has a positive wait and, nothing being added, is open later iff that wait is over and its limit is at least 1 |
| Throttling.WaitIsExact | taiga/base/throttling.py:92-114 | A denied client's wait is positive, and a later request is allowed, unless an earlier one was at or after the end of the wait, iff the wait is over and every limit of the scope is at least 1 |
| Throttling.NothingAllowedWithinWait | taiga/base/throttling.py:92-114 | On every run nothing is allowed to a denied client before its wait is over |
| Throttling.NeverOpenIff | taiga/base/throttling.py:105-114 | A limited client is denied on every run iff some limit of its scope is below 1 |
| Throttling.ZeroPerMinutePromisesFalsely | taiga/base/throttling.py:169-182 | With the rate "0/m" the first request is told to wait 60 seconds and is denied again after them |
| Tokens.Token.constructor | taiga/auth/tokens.py:79-87 | A new token has its type, an exp one lifetime from now and its jti, and nothing else |
| Tokens.Token.AccessToken | taiga/auth/tokens.py:282-303 | The copying loop yields the refresh claims without the excluded ones, and the new token's own type, jti, and exp counted from the refresh token's time |
| Tokens.AccessClaimsAre | taiga/auth/tokens.py:270-303 | An access token has exactly the copied claims, unchanged, and its own token_type, exp and jti |
| Tokens.UsableForAlmostItsLifetime | taiga/auth/tokens.py:154-182 | A token is usable as long as at least a second of its lifetime is left, and never once its lifetime is over |
| Tokens.PairExpiryDifference | taiga/auth/utils.py:51-56 | Although both exps are truncated, they differ by exactly the difference of the lifetimes iff that is a whole number of seconds |
| TokenRotation.AuthServer.MakeAuthResponseData | taiga/auth/services.py:53-65 | A login mints a refresh token for the user, records its outstanding row with the token's own expiry, and mints an access token from it |
| TokenRotation.AuthServer.RefreshToken | taiga/auth/services.py:81-104 | A refresh verifies, mints an access token, denylists the presented token before changing it, and re-mints it with a new jti and exp; a rejected token changes nothing |
| TokenRotation.AuthServer.FlushExpiredTokens | taiga/auth/token_denylist/management/commands/flushexpiredtokens.py:42-43 | After a flush exactly the outstanding rows whose expiry is still to come are left, unchanged, and exactly the denylist rows that point to one of them |
| TokenRotation.LoginIssues | taiga/auth/services.py:53-65 | A login issues a refresh and an access token with exactly token_type, exp, jti and user_id, each with its own type, jti and lifetime, and both with the id of the user |
| TokenRotation.LoginAddsRow | taiga/auth/tokens.py:246-262 | A login adds one outstanding row with its user, token, time and expiry, and leaves all other rows and the denylist as they are |
| TokenRotation.RefreshOutcomeIff | taiga/auth/tokens.py:212-225 | A refresh succeeds iff the token is signed, has a jti that is not denylisted, a numeric exp still to come and the type of a refresh token; it crashes iff a signed token has no jti or, being undenied, an exp that is no number |
| TokenRotation.RefreshIssues | taiga/auth/services.py:81-104 | The refresh token issued keeps all claims but exp and jti, the access token all but token_type, exp and jti; both count their lifetimes from the refresh |
| TokenRotation.RefreshKeepsRows | taiga/auth/tokens.py:227-243 | A refresh that fails changes no table; one that succeeds denylists the token's jti, keeps every outstanding row as it is, and adds one, without user and creation time, iff the jti had none |
| TokenRotation.VerifyIffSpendable | taiga/auth/tokens.py:212-225 | With tables coupled to the ideal state, an authentic token verifies iff it is an unspent, unexpired refresh token, and verification never crashes |
| TokenRotation.StepKeepsCoupling | taiga/auth/tokens.py:227-262 | Every call keeps: spent tokens are denylisted or out of time, unspent ones are not denylisted, each row expires with its token, and jtis are distinct |
| TokenRotation.OutcomesMatchIdeal | taiga/auth/services.py:81-104 | On every feasible run the tables give the outcomes of an ideal server that has none and only remembers what is spent |
| TokenRotation.AcceptedAtMostOnce | taiga/auth/services.py:81-104 | A refresh token string once accepted is rejected as invalid ever after, whatever logins, refreshes and flushes happen in between |
| TokenRotation.RunsStayChained | taiga/auth/services.py:81-104 | In every reachable state the tokens of a login form one chain whose tokens are all spent but the newest |
| TokenRotation.OnlyChainHeadsPass | taiga/auth/tokens.py:212-225 | In every reachable state a minted refresh token passes iff it is the newest of its login and has not expired |
| TokenRotation.OneLiveTokenPerLogin | taiga/auth/services.py:89-102 | At any moment at most one refresh token of a login would be accepted |
| TokenRotation.ChainCarriesLoginUser | taiga/auth/tokens.py:184-197 | Every refresh and access token that descends from a login carries the user id claim set at that login |
| TokenRotation.FlushIsNeutral | taiga/auth/token_denylist/management/commands/flushexpiredtokens.py:42-43 | Leaving a flush out of a run changes no outcome of any later call |
| TokenRotation.IssuedPairsExpireInStep | taiga/auth/tokens.py:282-303 | Both at login and after rotation the tokens issued together expire the exact difference of their lifetimes apart iff that difference is whole seconds |
| CommitScanner.MatchSpells | taiga/hooks/event_hooks.py:382-385 | What the matcher returns at a position is a word of the pattern with these groups |
| CommitScanner.SpelledIsMatched | taiga/hooks/event_hooks.py:382-385 | Every word of the pattern at a position is found there, greedily: no word is longer, and a status match has the whole digit run as its reference |
| CommitScanner.FindAllIsLeftmost | taiga/hooks/event_hooks.py:383 | The scan returns ordered, non-overlapping matches such that every position where a word starts lies in one of them |
| CommitScanner.LeftmostMatchesUnique | taiga/hooks/event_hooks.py:383 | Only one list of matches has these properties |
| CommitScanner.EveryMentionIsFound | taiga/hooks/event_hooks.py:396-398 | The plain pass returns a match at a position iff a reference starts there, each with its maximal digit run |
| CommitScanner.StatusRefsAreMentioned | taiga/hooks/event_hooks.py:382-398 | Every reference the status pass returns is returned by the plain pass, at the same position |
| PushEvents.Lookup | taiga/hooks/event_hooks.py:334-350 | The item found is stored and has the reference's number; there is none iff no item has that number |
| PushEvents.LookupTakesFirstKind | taiga/hooks/event_hooks.py:334-350 | The item found is the one of that number whose kind comes first among epic, issue, task and user story |
| PushEvents.PushEventHook.SetItemStatus | taiga/hooks/event_hooks.py:357-371 | The item named gets the status of its kind with that slug, and the old and new status names are returned; an unknown item, an unknown status, and an item without a status are errors that change nothing, found in this order |
| PushEvents.PushEventHook.ProcessCommit | taiga/hooks/event_hooks.py:379-408 | The two loops with their list of consumed references leave items, history and error as the commit's function says |
| PushEvents.PushEventHook.ProcessEvent | taiga/hooks/event_hooks.py:373-408 | Commits are processed in order up to the first error, and nothing happens to an ignored event |
| PushEvents.CommitAccounting | taiga/hooks/event_hooks.py:379-408 | A reference with k status matches gets exactly k status snapshots, and one mention iff k is 0 and it is mentioned; snapshots are of the item named; items end with the status of their last match and are otherwise unchanged |
| PushEvents.SnapshotsFollowMessage | taiga/hooks/event_hooks.py:379-408 | The snapshots of a commit are first those of its status matches, in the order of the message, then one for each reference mentioned without, in the order of first mentions |
| PushEvents.EventAccounting | taiga/hooks/event_hooks.py:373-408 | A whole event without error adds, for every reference, as many status snapshots as it has status matches in all messages and as many mentions as messages that mention it without one; every snapshot is of the item named, and items end with the status of the last match of all messages that names them, or as they were |
| PushEvents.EventFailsIff | taiga/hooks/event_hooks.py:373-408 | An event fails iff some message does after all those before it have gone through |
| PushEvents.EventFailsAtFirst | taiga/hooks/event_hooks.py:373-408 | An event that fails leaves the items, history and error that the first failing message leaves; later messages add nothing |
| PushEvents.CommitSucceedsIff | taiga/hooks/event_hooks.py:357-408 | A commit goes through iff every reference found in it names an item, and every status match names a status of that item's kind and an item that has a status |
| PushEvents.EventSucceedsIff | taiga/hooks/event_hooks.py:373-408 | An event goes through iff each of its messages could go through on the items as they were before the event |
| PushEvents.CommitCrashesIff | taiga/hooks/event_hooks.py:357-367 | A commit ends in the error of reading a null status iff some status match names a found item without a status and a found status, and all matches before it go through |
| PushEvents.NullStatusStopsCommit | taiga/hooks/event_hooks.py:366 | "tg-1 #closed" fails on an item without a status although item and status are found |
| PushEvents.HistoryReplays | taiga/hooks/event_hooks.py:366-393 | The snapshots of an event, even of one that fails halfway, lead step by step from the status names the items had, if any, to those they have |
| Permissions.HasPermIff | taiga/permissions/services.py:63-128 | The object check grants a permission on a project iff it is anonymous, or public and the viewer is registered, or the viewer's membership grants it, or the viewer is a superuser and it is on one of the three lists; without a project it grants nothing |
| Permissions.SuperuserHasPermIff | taiga/permissions/choices.py:10-81 | A superuser is granted exactly the permissions to view, to work and to administer, each spelled out |
| Permissions.AdministratorHasPermIff | taiga/permissions/services.py:89-98 | An administrator is granted these and whatever the project's columns and their own role grant |
| Permissions.ProjectRecord.SetBasePermissions | taiga/permissions/services.py:132-141 | Neither list is null afterwards; a private project's are empty, a public one's hold what they held and the anonymous permissions, and nothing else |
| Permissions.BasePermissionsDecide | taiga/permissions/services.py:63-141 | For every viewer and permission: a public project then grants what it granted before and all anonymous permissions, a private one grants to others than superusers what their own membership grants |
| ListFilters.ShownIff | taiga/base/filters.py:154-170 | For each of the permissions to view, spelled out, the query shows a row iff the object check grants the permission, except to users who have it from anonymous permissions alone |
| ListFilters.ListingIsSound | taiga/base/filters.py:136-172 | A non-integer project parameter is refused; otherwise everything listed is a given row, passes the other filters, is of the requested project, and passes the object check |
| ListFilters.ListedIff | taiga/base/filters.py:136-172 | A given row is listed iff it passes the other filters, is of the requested project, and the object check grants the permission other than by anonymous permissions alone to a registered user |
| ListFilters.NarrowingIsHarmless | taiga/base/filters.py:158-163 | Narrowing the memberships to the requested project never changes the final result |
| ListFilters.ListingIsExactIff | taiga/base/filters.py:154-170 | Query and object check agree for all viewers and memberships iff the project's anonymous grant of the permission implies its public one |
| ListFilters.BasePermissionsMakeListingExact | taiga/permissions/services.py:132-141 | When base permissions have been set in every project, the query returns exactly the rows the object check grants |
| Timeline.AddMembershipClauses | taiga/timeline/service.py:179-188 | The loop over memberships adds one clause each, everything for administrators, mapped contents and new memberships for others; a null permission list of a non-administrator's role crashes it |
| Timeline.FilterTimelineForUser | taiga/timeline/service.py:147-195 | Superusers see everything; for others the rows selected are those that match some clause of the accumulated disjunction and, within a namespace, are not taken away by the related-story query |
| Timeline.TimelineIsSound | taiga/timeline/service.py:155-188 | In private projects a row of one of the eight kinds of content is shown iff the object check grants the permission to view that kind, spelled out by a match, except to users who have it from public permissions alone |
| Timeline.TimelineIsExactIff | taiga/timeline/service.py:155-188 | Timeline and object check agree for all viewers and readable memberships iff the private project's public grant of the permission implies its anonymous one |
| Timeline.TableIsViewPermission | taiga/timeline/service.py:161-170 | The table pairs a permission with a kind of content iff it is the permission to view that kind |
| Timeline.BasePermissionsMakeTimelineExact | taiga/permissions/services.py:132-141 | In a private project whose base permissions have been set, the timeline shows a row of mapped content iff the object check grants it |
| Timeline.OtherRowsShownIff | taiga/timeline/service.py:152-188 | Rows of public projects or of none are shown to all; in private projects new memberships are for members and anonymous project viewers, unmapped content for administrators, and both for superusers |
| Timeline.ExcludedIff | taiga/timeline/service.py:198-225 | A related-story row of the namespace is taken away iff its project's permission columns are not null and nothing grants viewing stories there; the object check grants it iff something does or the viewer is an administrator |
| Timeline.KeptIff | taiga/timeline/service.py:192-225 | The exclusion keeps every row but those, within a non-empty namespace, about related stories of a project whose columns are not null and where nothing grants viewing stories |
| Timeline.ExclusionIsExactIff | taiga/timeline/service.py:198-225 | The query takes away just what the object check refuses iff something grants viewing stories, or the viewer is an administrator exactly when a column is null |
| Timeline.AdministratorLosesRow | taiga/timeline/service.py:212-219 | An administrator whose role cannot view stories loses a row that the object check grants |
| Timeline.NullColumnsKeepRow | taiga/timeline/service.py:206-220 | With null columns a stranger keeps a row that the object check refuses |
| Swimlanes.ProjectBoard.CreateSwimlaneStatuses | taiga/projects/signals.py:79-99 | The handler adds one row per status, with the status's limit iff this is the only swimlane |
| Swimlanes.ProjectBoard.CreateStatusSwimlanes | taiga/projects/signals.py:117-134 | The handler adds one row per swimlane, with the status's limit iff there is one swimlane |
| Swimlanes.ProjectBoard.SaveNewSwimlane | taiga/projects/signals.py:79-114 | A new swimlane gets its grid rows and, if it is the only one, becomes the default and takes all stories |
| Swimlanes.ProjectBoard.SaveNewStatus | taiga/projects/signals.py:117-134 | A new status gets its grid rows |
| Swimlanes.NewSwimlaneLeaves | taiga/projects/signals.py:79-114 | A project's first swimlane gets a row with each status's limit, becomes the default and takes all stories; a further one gets a row without limit for each status, and neither stories nor default change; nothing else does in either case |
| Swimlanes.NewStatusLeaves | taiga/projects/signals.py:117-134 | A new status gets one row per swimlane, with its limit iff there is exactly one, and nothing else changes |
| Swimlanes.SwimlaneDeletionSucceedsIff | taiga/projects/mixins/on_destroy.py:75-97 | Deleting a swimlane succeeds iff it exists, its target, if one is given, is a swimlane of the project, none is given only for the last one, and it is not the default of several; each error is raised iff its own condition holds |
| Swimlanes.DeletedSwimlaneLeaves | taiga/projects/mixins/on_destroy.py:75-97 | After a deletion the swimlane and its rows are gone and the others unchanged; statuses of stories and the rest of the board stay, and without a target stories keep their orders and those of the swimlane have none |
| Swimlanes.DeletedSwimlaneOrder | taiga/projects/services/bulk_update_order.py:252-297 | After a deletion in favour of another swimlane all stories have different orders below their number: by position of the new swimlane, then those that were there before those moved there, then by old order and id |
| Swimlanes.StatusDeletionSucceedsIff | taiga/projects/mixins/on_destroy.py:27-68 | Deleting a status succeeds iff it exists, a target is given and found, and it is not the default while the target is already another project's; each error is raised iff its own condition holds |
| Swimlanes.DeletedStatusLeaves | taiga/projects/mixins/on_destroy.py:27-68 | After a deletion the status and its rows are gone and the others unchanged; the default goes to the target, or is none if that is the status itself; swimlanes stay |
| Swimlanes.ProjectBoard.DestroySwimlane | taiga/projects/mixins/on_destroy.py:73-97 | Deleting a swimlane fails and changes nothing when it is missing, needs a target, has a foreign one, or is the default of several; otherwise its rows go and its stories move and are ordered anew |
| Swimlanes.ProjectBoard.DestroyStatus | taiga/projects/mixins/on_destroy.py:27-68 | Deleting a status needs a target; its stories are ordered anew, they and the project's default go to the target, or are left without if that is the status itself, and its grid rows go; a target that is the default of another project makes it fail if the default has to move |
| Swimlanes.StatusStoriesGoLast | taiga/projects/api.py:625-629 | However the database breaks ties, the stories of a deleted status get different orders from the time of the request on, by swimlane, the unclassified last, and old order; their swimlanes and all other stories stay as they are |
| Swimlanes.GridStaysComplete | taiga/projects/signals.py:79-134 | Over every run the grid has exactly one row per swimlane and status, and no story is in a swimlane that is gone |
| Swimlanes.DefaultStaysOwn | taiga/projects/signals.py:102-114 | Over every run without an edit of the project that misplaces it, the default swimlane exists iff a swimlane does and is one of the project's own |
| Swimlanes.DefaultStaysOwnIff | taiga/projects/api.py:685-687 | A step keeps the default swimlane so iff it is no edit that takes it away while there are swimlanes or makes a foreign one the default |
| Swimlanes.DefaultGoesLast | taiga/projects/api.py:685-687 | The default swimlane can be deleted iff it is the only one, and then the grid is empty and no story has a swimlane |
| Swimlanes.StoriesFollowSwimlanes | taiga/projects/api.py:672-683 | On every run a story is in the swimlane where the last of these put it: its own saving, the creation of the project's first swimlane, the deletion of the swimlane it was in |
| Swimlanes.StoriesFollowStatuses | taiga/projects/mixins/on_destroy.py:42-52 | On every run a story has the status that its last saving or the last deletion of its status gave it |
| Swimlanes.StatusesStayOwnIff | taiga/projects/mixins/on_destroy.py:35-52 | A step keeps the statuses of stories and the default status among the project's own iff it neither deletes a status that something has in favour of a foreign one nor makes a foreign one the default |
| Swimlanes.ForeignTargetIsAccepted | taiga/projects/mixins/on_destroy.py:31-48 | A default status can be deleted in favour of a foreign one, which its story and the project's default then have although a status of its own is left |
| KanbanOrder.UpdateOrderAndSwimlane | taiga/projects/services/bulk_update_order.py:252-297 | The loops over swimlanes with their two parallel lists give every story the swimlane and the place that the arrangement of queues says |
| KanbanOrder.MovedOrder | taiga/projects/services/bulk_update_order.py:252-297 | All stories get different orders below their number: by position of the new swimlane, then those that were there before those moved there, then by old order and id; a swimlane that is its own target has its stories left alone |
| KanbanOrder.ResetKanbanOrder | taiga/projects/userstories/services.py:121-142 | The enumeration gives each listed story the base plus its place in the list and leaves the others alone |
| Swimlanes.SoleSwimlaneMirrorsStatuses | taiga/projects/signals.py:90-97 | As long as a project has had no second swimlane and no edit that makes them differ, every grid row has the limit of its status |
| Swimlanes.StepMirrorsIff | taiga/projects/validators.py:68-87 | With at most one swimlane, a step keeps every row at its status's limit iff it is no edit of a status with a row, or of its row, to a limit the other does not have |
| RolePoints.ProjectStore.UpdateRolePoints | taiga/projects/models.py:428-465 | The loops leave the tables as the reconciliation function says, for all stories or the given ones, and unchanged if there is no computable role |
| RolePoints.ReconcileMatchesRoles | taiga/projects/models.py:433-465 | With a computable role a story of the project has rows for computable roles only, one for each if it is among the chosen, and those it had otherwise; surviving rows keep their points, new ones have the project's first null value, which is created iff there was none; other projects' stories lose nothing and gain rows only if they are chosen |
| RolePoints.NothingToReconcile | taiga/projects/models.py:433-435 | Without a computable role nothing changes |
| RolePoints.ReconcileTwice | taiga/projects/models.py:428-465 | A second call changes nothing, and a full call after a partial one gives what the full call alone gives |
| MembershipOrder.MembershipTable.SaveMembership | taiga/projects/signals.py:26-37 | The two updates push the user's memberships down by one and put the saved one at zero; without a user nothing happens |
| MembershipOrder.OrdersRefineMoveToFront | taiga/projects/signals.py:31-37 | Over every run of saves by any users, a user's stored orders stay distinct, nonnegative and in the order of a move-to-front list |
| MembershipOrder.AdmissibleIffListed | taiga/projects/signals.py:31-37 | A user's orders stand for a list iff none is negative and no two are equal |
| MembershipOrder.OrdersStayAdmissible | taiga/projects/signals.py:31-37 | From every such table and over every run, orders stay nonnegative and distinct, and the only list they stand for is the first one with the saved projects moved to its front in turn |
| MembershipOrder.SavedComesFirstIff | taiga/projects/signals.py:33-37 | The saved project comes strictly first iff no other order of the user was negative |
| MembershipOrder.OthersKeepTheirOrder | taiga/projects/signals.py:33-37 | The relative order of other projects is unchanged, ties included |
| ProjectTemplates.ProjectTemplate.LoadDataFromProject | taiga/projects/models.py:1070-1251 | The template gets the project's modules, each list in its display order, the names of the defaults, the owner's role or else the first role, and the profile; without either role it crashes before the profile is read |
| ProjectTemplates.ProjectTemplate.ApplyToProject | taiga/projects/models.py:1253-1451 | Choice lists are created, then defaults are looked up one by one, then attributes are created; a default that is not found crashes and leaves exactly what came before it |
| ProjectTemplates.RowsAreCreated | taiga/projects/models.py:1270-1447 | Rows are created one by one behind those there are, and agree with the template's field by field: name, order, closed, colour, archived, limit, points, days, permissions, computable, description and kind; the slugs of statuses, and of roles without one, are computed from the name and the slugs before |
| ProjectTemplates.ApplyLeaves | taiga/projects/models.py:1253-1451 | Applying a template sets the modules and adds its choice lists to those there are; attributes and profile follow iff all defaults are found |
| ProjectTemplates.DefaultsAreLookedUp | taiga/projects/models.py:1386-1425 | It crashes iff some default of a non-empty list is not found, and then on the first of the eight in their order; the defaults before it are those of the template and the others unchanged |
| ProjectTemplates.ProjectRecord.PostSave | taiga/projects/signals.py:41-74 | A new project's own tags replace the template's, the template is applied, and the owner gets the template's owner role or else the first role |
| ProjectTemplates.SortingIsCanonical | taiga/projects/models.py:587-588 | With keys unique as the schema demands, the order in which a list is read is the only strictly sorted arrangement of its rows |
| ProjectTemplates.TemplateHoldsProject | taiga/projects/models.py:1070-1251 | A project can be loaded iff it has an owner's membership or a role; the template then has its settings, exactly its rows, each list strictly sorted by the fields the source orders it by, its default names, and the owner's role or else the first |
| ProjectTemplates.TemplateRoundTrip | taiga/projects/models.py:1253-1451 | Creating a project from a project's template goes through iff every non-empty list that needs a default has one of its own rows as default, and the result can be loaded iff there are roles; then modules and lists are the same, field by field but for the slugs of statuses, default names but for empty lists, the owner role if it is one of the project's or else the first; a project that brings along tags or tag colours keeps them and one without gets the template's, and the rest of the profile is the template's |
| ProjectTemplates.ForeignDefaultCrashes | taiga/projects/models.py:1387-1389 | A template of a project whose default story status is a foreign one cannot be applied |
| Decimals.DecimalField.Validate | taiga/base/api/fields.py:956-983 | Counting digits accepts a finite decimal iff its coefficient is below the powers of ten that the limits stand for and its exponent, sign ignored, is within both limits, whichever limits are set; too many digits are reported before too many decimals, and these before too many whole digits; a signaling NaN raises an error of its own |
| Decimals.ErrorsByCounting | taiga/base/api/fields.py:956-983 | Each of the errors is raised iff its own count of digits, decimals or whole digits is the first to exceed its limit; infinities and quiet NaNs are no numbers, and a signaling NaN is an invalid operation |
| Decimals.AcceptedIff | taiga/base/api/fields.py:965-983 | With both limits set a finite decimal is accepted iff its exponent, sign ignored, fits the decimal places, these fit the digits, and its coefficient is below the matching power of ten; zero without decimals needs room for a whole digit |
| Decimals.AcceptedIffBelowPowerOfTen | taiga/base/api/fields.py:965-983 | An accepted value is whole when scaled by 10^D, and is below 10^(M-D) in magnitude iff its exponent is not positive, it is zero, or its digits and trailing zeros fit M-D; a value below the bound is accepted iff its exponent, sign ignored, is at most D, but for a zero without room for a whole digit |
| Decimals.FieldKeepsBoundIff | taiga/base/api/fields.py:965-983 | Everything a field accepts is below 10^(M-D) iff it allows no decimal places or accepts nothing |
| Decimals.PositiveExponentEscapesBound | taiga/base/api/fields.py:966 | 1E+2 is accepted with four digits and two decimal places although it is not below 100; 1E+3 is refused with six digits and two decimal places although it is below 10000 |

## Left out

- AllowRequest: cache keys are triples rather than the formatted string, the cache and the limiter share one clock, times are reals rather than floats, early eviction by the cache is not modelled, and neither is a null among the rates of a list.
- SimpleRateThrottle and the throttles built on it, CIDR matching and the lookup of the client's address.
- Concurrent duplicate requests and refreshes: every call is one atomic step; advisory locks and transactions are not modelled.
- RefreshToken: signing is an invertible encoding that others cannot produce, so the library's own check of exp, which the code's check subsumes, is not repeated; settings other than rotating and denylisting are not modelled.
- Hard deletion of users, whose tokens' rows would go with them, and the reset of settings at run time.
- ProcessEvent: comment texts, authors, notifications and the rollback of the request's transaction after an error are not modelled; messages are given in lower case.
- FilterQueryset: filters other than by permission and project are one predicate, ordering is not modelled, and the permission property is stated for rows that lie in a project directly.
- ExcludedIff: user ids are positive, as those of a database sequence are.
- DestroySwimlane: reordering swimlanes is not modelled.
- DestroyStatus: stories of other projects that have the status, and what requests of other projects do to a project that points to their rows, are not modelled; every failure is an error that changes nothing; a missing status, on which the source crashes, is reported as not found, and permission checks are not modelled.
- Importing runs, in which the swimlane handlers do nothing.
- UpdateRolePoints: the name of a newly created null value is not modelled.
- LoadDataFromProject: an owner's membership is its role's slug; memberships without a user, which a project without an owner would match, are not modelled.
- ApplyToProject: custom attributes' extra data, which the source does not copy, is not modelled; neither are violations of unique names when a template is applied to a project that already has rows; the sixteen unrolled loops are one loop over lists.
- `from_native` of decimal fields, and the minimum and maximum validators: library parsing and plain comparisons.
- Search, statistics, telemetry and serializers: their logic is in SQL or in wrappers and would only add easy members.
