# Branches, cashboxes, reports: a verified model

A Dafny model of the parts of the Elchi backend where several functions must agree on shared state,
with proofs of what they keep.

**Branch hierarchy.** Branches form a tree under one HQ. Requests create, move, retype and delete them,
assign and remove users, and a restart repairs the HQ. `BranchTable` says what a tree is, `BranchWalks`
treats the climb that looks for cycles and the breadth-first walk that runs without a visited set,
`BranchRules` gives each operation as a function of the state, `BranchInvariants`, `BranchCycles` and
`BranchRuns` prove what single calls and whole runs keep, `BranchRequests` says the same operations again
in the fields of the requests alone, and `BranchService` is the service itself, updating its tables row by
row. `BranchQueries`, `BranchTree` and `BranchAccess` are the readers. `PostDispatch` moves orders out of a
post.

**Time.** `EcmaTime` defines time values and civil dates as section 21.4.1 of ECMA-262 does;
`TashkentCalendar` compares the two services' day, week and month boundaries with each other and with
plain rounding.

**Audit feed.** `AuditFeed` shows when merging bounded windows of many logs gives the true page.

**Money.** `CashboxLedger` is the balance update under at-least-once delivery, `CashboxMigration` the
statements that turn manager cashboxes into branch cashboxes, `CashboxConservation` what they keep and
lose, `DriftGate` the deployment check, `ManagerSettlement` the manager's debt. Amounts are integers in
hundredths.

**Reports.** `ReportCache` is the courier report's short-lived cache under interleaved requests.

Reading the results, ten things differ from what the code or its comments suggest. Each has its exact
condition and an input that shows it:

- A restart promotes whichever live branch carries the configured HQ code, without looking for an
  existing HQ (`RunKeepsHierarchy`; `UnsafeRestartIsReachable`, `ReconfiguredRestartIsReachable`).
- The unique index on branch codes covers deleted rows, while the code only checks live ones. After the
  HQ has been deleted, a restart cannot store its replacement (`StartupGoesThrough`;
  `RefusedRestartIsReachable`).
- The rule that couriers do not sit in pickup points is checked at assignment only
  (`RunKeepsCouriersPlaced`; `MisplacedCourierIsReachable`).
- A post is deleted when everything listed has moved, but the listing leaves out soft-deleted orders and
  any live ones past the first 5000, which then point at a post that is gone
  (`OnlyUnlistedOrdersDangle`, `OnlyDeletedOrdersDangle`; `DeletedOrderDangles`).
- The legs of the audit feed order rows by microseconds and then id, the merge by milliseconds and then
  id, so a window can cut off a row that belongs on the page (`FeedIsExactIff`, `OneLegIsExactIff`;
  `MicrosecondsAgainstIds`).
- The manager settlement asks for 5000 sold orders and gets 100 (`ShownDebtIffNothingCut`;
  `OneOrderTooMany`).
- `Date.UTC` takes the years 0 to 99 for the 1900s, so day, week and month boundaries and date-only
  strings are off there (`BoundaryStart`, `WeekStartsAgree`, `DateOnlyIsItsDay`; `EarlyYearWitness`).
- The main cashbox refuses to go below zero, so redeliveries in another order can end elsewhere
  (`MainBoxOrder`; `MainBoxOrderMatters`).
- Retiring manager cashboxes also retires those that were not converted, with their balances
  (`TotalFallsByDropped`; `EightAreDropped`).
- The deployment gate fails after that migration whenever a converted cashbox had drifted before, because
  the drift is new on the branch cashbox (`MigrationGate`; `GateFailsOnOldDrift`).

A call is one atomic step: an exception or a refused unique index leaves the state as it was. What a
database query without an order returns, and what other services answer, are inputs. `createdAt` and
other clock readings are inputs too.

## Model

| member | source | states |
|---|---|---|
| BranchTable.TreeIsHierarchy | apps/branch-service/src/branch-service.service.ts:442-490 | The locally checkable tree invariant holds exactly when there is at most one live HQ, exactly the HQ is parentless, every parent is live, no branch is its own ancestor, and every level is the distance to the HQ |
| BranchTable.TreeReachesHq | apps/branch-service/src/branch-service.service.ts:2377-2378 | On a tree, climbing from a live branch exactly as many steps as its level says ends at the live HQ |
| BranchWalks.AcceptedMeaning | apps/branch-service/src/branch-service.service.ts:371-398 | The cycle check accepts exactly when the parent's chain is live up to a parentless branch and never passes the branch being moved; this holds on any table, cyclic ones included |
| BranchService.Service.EnsureNotCyclicParent | apps/branch-service/src/branch-service.service.ts:371-398 | The climb with a visited set ends on every table and returns the verdict of the unbounded walk: accepted, cyclic, or missing parent |
| BranchWalks.FrontierStep | apps/branch-service/src/branch-service.service.ts:407-429 | One round of the breadth-first walk meets only rows not met before, so no visited set is needed when the root is off every cycle |
| BranchWalks.FrontierIsUnder | apps/branch-service/src/branch-service.service.ts:407-429 | When the queue is empty the rows met are exactly the root's live descendants, each with its one true depth |
| BranchService.Service.RebalanceDescendantLevels | apps/branch-service/src/branch-service.service.ts:407-429 | The queue-driven rebalance ends and leaves exactly the relevelled table, whatever the stored levels were before |
| BranchInvariants.RelevelledLevels | apps/branch-service/src/branch-service.service.ts:407-429 | After relevelling, every live descendant is one level below its parent and nothing else in its row has changed; no assumption on the levels before |
| BranchInvariants.MoveKeepsTree | apps/branch-service/src/branch-service.service.ts:3340-3376 | Hanging a branch elsewhere and relevelling its subtree keeps the tree, though the levels in between are wrong |
| BranchInvariants.MoveFrame | apps/branch-service/src/branch-service.service.ts:3366-3376 | A move leaves every row outside the subtree as it was, changes only levels inside it, and does not change who is in it |
| BranchInvariants.UpdateKeepsHq | apps/branch-service/src/branch-service.service.ts:3340-3366 | On a tree no accepted update demotes the HQ or promotes another branch |
| BranchInvariants.UpdateKeepsTree | apps/branch-service/src/branch-service.service.ts:3264-3396 | An accepted update keeps the tree |
| BranchInvariants.CreateKeepsTree | apps/branch-service/src/branch-service.service.ts:2359-2394 | An accepted creation keeps the tree |
| BranchInvariants.DeleteKeepsTree | apps/branch-service/src/branch-service.service.ts:3398-3461 | An accepted deletion keeps the tree |
| BranchInvariants.StartupKeepsTree | apps/branch-service/src/branch-service.service.ts:442-490 | Startup repair keeps the tree if and only if no live branch other than the HQ carries the configured code |
| BranchInvariants.StartupGoesThrough | apps/branch-service/src/branch-service.service.ts:442-490 | On a tree, startup is refused exactly when a deleted row still holds the configured code and no live HQ has a code; otherwise a live HQ exists afterwards |
| BranchService.Service.EnsureHqBranch | apps/branch-service/src/branch-service.service.ts:442-490 | The three-way repair stores the specified table, or nothing when the unique index refuses |
| BranchService.Service.CreateBranch | apps/branch-service/src/branch-service.service.ts:2333-2412 | Each check in order with its error; on success one new row, at level 0 or the parent's level plus one |
| BranchService.Service.Describe | apps/branch-service/src/branch-service.service.ts:3294-3338 | The first checks of an update in order with their errors, and the row with its new name, details and code |
| BranchService.Service.Place | apps/branch-service/src/branch-service.service.ts:3340-3364 | Where an updated row may hang and at which level, or the error; an accepted parent has passed the cycle check |
| BranchService.Service.UpdateBranch | apps/branch-service/src/branch-service.service.ts:3264-3396 | Each check in order with its error; on success the changed row and its relevelled subtree, on failure nothing |
| BranchService.Service.DeleteBranch | apps/branch-service/src/branch-service.service.ts:3398-3461 | Children, active users and the order service's answer each block the deletion; otherwise the row is marked deleted and inactive |
| BranchService.Service.AssignUser | apps/branch-service/src/branch-service.service.ts:3463-3590 | Each check in order with its error; a removed row of the same pair is revived instead of a second one being added |
| BranchService.Service.RemoveUser | apps/branch-service/src/branch-service.service.ts:3592-3634 | Exactly the active row of the pair is marked deleted, or the call is refused |
| BranchRequests.WriterMayWrite | apps/branch-service/src/branch-service.service.ts:251-262 | Writing a branch is open exactly to privileged callers and to users with an active manager row on it |
| BranchRequests.CreateDoesAsAsked | apps/branch-service/src/branch-service.service.ts:2333-2412 | In the fields of the request: when a creation is accepted, and that it stores the row asked for, active, one level below its parent |
| BranchRequests.UpdateAcceptedWhen | apps/branch-service/src/branch-service.service.ts:3264-3396 | In the fields of the request: an update is accepted exactly when the caller may write the live branch and every field asked for can be had |
| BranchRequests.UpdateDoesAsAsked | apps/branch-service/src/branch-service.service.ts:3324-3376 | On any table an accepted update hangs the branch under the parent asked for, one level below it, and every other field is the requested one where given and the old one where not |
| BranchRequests.DeleteDoesAsAsked | apps/branch-service/src/branch-service.service.ts:3398-3461 | When a deletion is accepted, pending orders and batches included, and that it marks the one row |
| BranchRequests.AssignDoesAsAsked | apps/branch-service/src/branch-service.service.ts:3463-3590 | When an assignment is accepted, and that it leaves one active row with the user's role, a removed row being revived with that role |
| BranchRequests.AssignRefusedAsTaken | apps/branch-service/src/branch-service.service.ts:3535-3551 | Which refusal a user who is already active somewhere gets |
| BranchRequests.RemoveDoesAsAsked | apps/branch-service/src/branch-service.service.ts:3592-3634 | When a removal is accepted, and that it marks exactly the active row of the pair |
| BranchRequests.StartupDoesAsConfigured | apps/branch-service/src/branch-service.service.ts:442-490 | Which one row the repair touches, and what it is afterwards, in terms of the configuration |
| BranchInvariants.AssignKeepsSound | apps/branch-service/src/branch-service.service.ts:3535-3576 | Assigning keeps one active row per user, one row per pair and active rows on live branches, leaves the pair active, and adds no row when one can be revived |
| BranchInvariants.RemoveKeepsSound | apps/branch-service/src/branch-service.service.ts:3608-3616 | Removing keeps the same, adds no row, and leaves the user without an active row |
| BranchInvariants.DeleteKeepsSound | apps/branch-service/src/branch-service.service.ts:3406-3413 | A deletion never leaves an active row pointing at a deleted branch |
| BranchInvariants.AssignKeepsCouriersPlaced | apps/branch-service/src/branch-service.service.ts:3490-3505 | Assigning keeps couriers out of pickup points |
| BranchInvariants.UpdateAndCouriers | apps/branch-service/src/branch-service.service.ts:3340-3367 | One accepted update keeps couriers out of pickup points exactly when it does not make a pickup point of a branch that has a courier |
| BranchRuns.StepKeepsIndexes | migrations/1713300000000-CreateBranchBaselineTables.ts:117-121 | No call writes past the unique indexes on codes, live names and active users |
| BranchRuns.ChangesNeedTheManager | apps/branch-service/src/branch-service.service.ts:251-262 | A call other than startup and creation changes something only for a privileged caller or an active manager of that very branch |
| BranchRuns.RunKeepsAssignments | apps/branch-service/src/branch-service.service.ts:3406-3413 | On every run from empty tables, at every point: one active row per user, one row per pair, active rows on live branches, unique codes and live names |
| BranchRuns.RunKeepsHierarchy | apps/branch-service/src/branch-service.service.ts:442-490 | A run from empty tables, in which every restart reads its configuration anew, is a hierarchy at every point if and only if, at each restart, no live branch but the HQ carried the code then configured |
| BranchRuns.RunNeverCycles | apps/branch-service/src/branch-service.service.ts:371-398 | On every run from empty tables, unsafe restarts included, no live branch is ever its own ancestor, and a live branch's parent is always a stored row |
| BranchRuns.RunKeepsReadersSound | apps/branch-service/src/branch-service.service.ts:155-191 | So at every point of every run the subtree queries may start from any branches and end, and the nested view lists every live branch exactly once |
| BranchRuns.UnsafeRestartIsReachable | apps/branch-service/src/branch-service.service.ts:443-457 | A four-call run that ends with two HQs: start, give the HQ another code, open a pickup point under the freed code, restart |
| BranchRuns.ReconfiguredRestartIsReachable | apps/branch-service/src/branch-service.service.ts:443-457 | A three-call run that ends with two HQs: start, open a branch, restart with that branch's code configured for the HQ |
| BranchRuns.RefusedRestartIsReachable | apps/branch-service/src/branch-service.service.ts:475-490 | A three-call run that ends with no live branch: start, delete the HQ, restart; the unique index refuses the new HQ |
| BranchRuns.RunKeepsCouriersPlaced | apps/branch-service/src/branch-service.service.ts:3340-3367 | A run from empty tables keeps couriers off pickup points at every point if and only if no accepted update in it made a pickup point of a branch that had a courier |
| BranchRuns.MisplacedCourierIsReachable | apps/branch-service/src/branch-service.service.ts:3340-3367 | A four-call run that ends with a courier in a pickup point: start, open a regional branch, assign a courier, retype the branch |
| BranchQueries.CollectDescendantIds | apps/branch-service/src/branch-service.service.ts:155-191 | The recursive query ends when no root is on a cycle and returns the live roots and everything below them |
| BranchQueries.SubtreesAreLeastFixedPoint | apps/branch-service/src/branch-service.service.ts:171-182 | That answer is the least set that holds the live roots and, with a branch, its live children |
| BranchQueries.FindBranchDescendants | apps/branch-service/src/branch-service.service.ts:2899-2929 | The breadth-first listing ends without a visited set, lists every descendant once and, on a tree, no level after a deeper one; an absent branch is not found |
| BranchQueries.ListingIsQuery | apps/branch-service/src/branch-service.service.ts:2916-2926 | The breadth-first list plus its root is the answer of the recursive query |
| BranchQueries.FindLiveOrdered | apps/branch-service/src/branch-service.service.ts:2901-2904 | The ordered read returns every live row once, by level and then creation time |
| BranchQueries.GroupByParent | apps/branch-service/src/branch-service.service.ts:2906-2914 | Grouping gives, for each parent, the live rows under it in reading order |
| BranchTree.FindBranchTree | apps/branch-service/src/branch-service.service.ts:2864-2897 | On any table each live branch sits in exactly one list: the roots if it has no live parent, otherwise its stored parent's children |
| BranchTree.TreeRoots | apps/branch-service/src/branch-service.service.ts:2878-2894 | On a tree the root list is the HQ alone and the missing-parent fallback is never taken |
| BranchTree.FlatteningIsPermutation | apps/branch-service/src/branch-service.service.ts:2864-2897 | On any table the nested view lists no row twice, and it lists every live branch if and only if no live branch is its own ancestor; missing parents and several HQs included |
| BranchAccess.ResolveAccessScope | apps/branch-service/src/branch-service.service.ts:193-239 | Writable are the managed branches; readable are the user's own and everything at or below a managed live branch; anonymous callers are refused |
| BranchAccess.OwnAndManaged | apps/branch-service/src/branch-service.service.ts:206-229 | A user's own branches are those with an active row, the managed ones those where that row is a manager's |
| BranchAccess.WritableIsReadable | apps/branch-service/src/branch-service.service.ts:212-238 | Every writable branch is readable |
| BranchAccess.AccessibleBranches | apps/branch-service/src/branch-service.service.ts:3758-3777 | The climb with a visited set ends on any table and gathers exactly the live branches at or above the start |
| BranchAccess.UpAndDownAgree | apps/branch-service/src/branch-service.service.ts:171-182 | A branch is gathered by the climb from x exactly when x is in the recursive query's subtree of that branch |
| BranchAccess.ResolveCashboxBranch | apps/branch-service/src/branch-service.service.ts:3712-3802 | Returns the manager's own branch, a live ancestor of it or nothing; resolves every accessible id to itself unless it is the requester's own user id |
| PostDispatch.OrderDesk.Dispatch | apps/branch-service/src/branch-service.service.ts:2055-2256 | For any listing of known orders, succeeds exactly when the access checks pass, something listed can move and nothing selected is booked elsewhere; then moves exactly the selected listed orders that are not deleted, cancelled or closed, leaves all others, and deletes the post iff everything listed moved; a refusal changes nothing |
| PostDispatch.AccessGrantedWhen | apps/branch-service/src/branch-service.service.ts:2068-2075 | A dispatch is open exactly from a live HQ the caller may write to a live branch with an active manager |
| PostDispatch.DispatchDoesAsAsked | apps/branch-service/src/branch-service.service.ts:2120-2251 | Order by order: which orders move, and that each is then booked on and held by the destination, in no batch, on the road, in the post the reply names or in none; all others are unchanged |
| PostDispatch.SecondDispatchIsRefused | apps/branch-service/src/branch-service.service.ts:2127-2129 | Dispatching a moved order again from the same source is refused as booked elsewhere, unless it was dispatched to the source itself |
| PostDispatch.OrderDesk.Sift | apps/branch-service/src/branch-service.service.ts:2120-2161 | One pass separates the movable orders from those booked on another branch |
| PostDispatch.OrderDesk.MoveAll | apps/branch-service/src/branch-service.service.ts:2232-2251 | The update loop rewrites exactly the eligible orders |
| PostDispatch.SameCountSameSet | apps/branch-service/src/branch-service.service.ts:2253-2256 | Comparing the two counts decides correctly whether everything listed has moved |
| PostDispatch.NoDanglingPost | apps/branch-service/src/branch-service.service.ts:2232-2256 | Every order's post exists afterwards, except exactly when everything listed has moved and some order still ends in the deleted post: one that was in it unmoved, or one that was put back |
| PostDispatch.OnlyUnlistedOrdersDangle | apps/logistics-service/src/logistics-service.service.ts:1602-1639 | For any listing, when no reply names the post again, an order is left dangling exactly when everything listed moved and the post held an order the listing left out |
| PostDispatch.OnlyDeletedOrdersDangle | apps/order-service/src/order-service.service.ts:494 | When every live order of the post is listed, whatever else is, and no reply names the post again, an order is left dangling exactly when everything listed moved and the post still held a soft-deleted order |
| PostDispatch.DeletedOrderDangles | apps/order-service/src/lifecycle/order-lifecycle.service.ts:4902-4906 | A witness: one live and one soft-deleted order in a post; after the dispatch the deleted one points at a post that is gone |
| EcmaTime.YearStartIsFormula | apps/analytics-service/src/analytics-service.service.ts:170-185 | Counting days year by year, with the leap rule, gives the closed formula of section 21.4.1 of ECMA-262 for every year |
| EcmaTime.MonthStartIsTable | apps/branch-service/src/branch-service.service.ts:677-683 | The months begin on the days that section 21.4.1 of ECMA-262 lists, in common and in leap years |
| EcmaTime.CivilDateByTable | apps/analytics-service/src/analytics-service.service.ts:170-185 | The civil date of a day is the one date whose year, by the closed formula, and month, by the table, make that day |
| EcmaTime.WeekDayByCount | apps/analytics-service/src/analytics-service.service.ts:115-126 | Weekdays follow each other from Thursday, 1 January 1970 |
| EcmaTime.MakesAgain | apps/analytics-service/src/analytics-service.service.ts:170-185 | Reading a day's civil date and making a day of it gives the day back (section 21.4.1 of ECMA-262) |
| EcmaTime.OneDate | apps/analytics-service/src/analytics-service.service.ts:170-185 | A date that exists makes a given day exactly when it is the date read off that day |
| EcmaTime.MakeDayCarries | apps/analytics-service/src/analytics-service.service.ts:158 | Months beyond the year and dates beyond the month carry over as section 21.4.1 of ECMA-262 describes |
| TashkentCalendar.BoundaryStart | apps/analytics-service/src/analytics-service.service.ts:166-190 | For every time value, the day start computed through the civil date is plain rounding down exactly when the shifted instant and the result are time values and the year is not one Date.UTC remaps |
| TashkentCalendar.BoundaryEnd | apps/analytics-service/src/analytics-service.service.ts:166-190 | The same for the day end, one millisecond before the next midnight |
| TashkentCalendar.DayInNumbers | apps/analytics-service/src/analytics-service.service.ts:166-190 | From the year 100 on, in milliseconds: the day starts where the instant plus 18000000 last passed a multiple of 86400000 and ends 86399999 later |
| TashkentCalendar.LastBoundaries | apps/analytics-service/src/analytics-service.service.ts:166-190 | In the last five hours of time values there is no boundary, and until then there is |
| TashkentCalendar.DaysTile | apps/analytics-service/src/analytics-service.service.ts:158-164 | Day intervals tile the millisecond line: an instant lies in its own interval exactly outside the remapped years, an interval holds exactly the instants outside those years that have its start, and the next one begins one millisecond after its end unless a remapped year begins there |
| TashkentCalendar.DayStartsAgree | apps/branch-service/src/branch-service.service.ts:659-666 | Both services compute the same day start |
| TashkentCalendar.WeekStartsAgree | apps/branch-service/src/branch-service.service.ts:668-675 | Both services compute the same week start exactly at the instants outside the remapped years: inside them the weekdays never agree |
| TashkentCalendar.WeekStartIsMonday | apps/branch-service/src/branch-service.service.ts:668-675 | The branch service's week start is always a Tashkent Monday midnight, and it is the latest one at or before the instant exactly outside the remapped years |
| TashkentCalendar.WeekInNumbers | apps/branch-service/src/branch-service.service.ts:668-675 | From the year 100 on both services' week start is the last Monday, counted in days from Thursday, 1 January 1970 |
| TashkentCalendar.MonthStartsAgree | apps/branch-service/src/branch-service.service.ts:677-683 | Both services compute the same month start at every time value |
| TashkentCalendar.MonthStartIsFirst | apps/analytics-service/src/analytics-service.service.ts:127-134 | The month start is always a Tashkent midnight on a first of the month, and it is the instant's own month exactly outside the remapped years |
| TashkentCalendar.MonthInNumbers | apps/branch-service/src/branch-service.service.ts:677-683 | From the year 100 on both services' month start is the day the table of months gives for the first of the instant's month |
| TashkentCalendar.EarlyYearWitness | apps/analytics-service/src/analytics-service.service.ts:175-187 | A New Year of the year 50 whose day start is wrong and on which the two week starts differ |
| TashkentCalendar.DateOnlyIsItsDay | apps/analytics-service/src/analytics-service.service.ts:142-156 | Every date-only string selects one whole Tashkent day, and its instants are those of the written date exactly when that date exists and its year is not remapped |
| TashkentCalendar.WrittenByDigits | apps/analytics-service/src/analytics-service.service.ts:142-156 | Which strings are date-only, and the year, month and date their digits write |
| TashkentCalendar.DateOnlyInNumbers | apps/analytics-service/src/analytics-service.service.ts:142-164 | A written date from the year 100 on that the table of months allows selects the 24 hours of that day in Tashkent |
| AuditFeed.StableSortSorts | apps/api-gateway/src/audit-gateway.controller.ts:101-103 | The sort orders by newest and keeps the order of rows that compare equal |
| AuditFeed.StableSortIsUnique | apps/api-gateway/src/audit-gateway.controller.ts:101-103 | There is only one stable sort, so any conforming implementation gives the same feed |
| AuditFeed.HistoryIsNewestFirst | apps/api-gateway/src/audit-gateway.controller.ts:178-182 | The history runs from the newest millisecond down, larger ids first within one |
| AuditFeed.HistoryHoldsEveryRow | apps/api-gateway/src/audit-gateway.controller.ts:101-103 | The history has each row as often as the logs together |
| AuditFeed.PageByNumber | apps/api-gateway/src/audit-gateway.controller.ts:71-112 | Within 500 rows, row i of page p with l rows a page is row (p - 1) * l + i of the history |
| AuditFeed.PagesTile | apps/api-gateway/src/audit-gateway.controller.ts:71-112 | Pages 1 to n together are the first n * l rows of the history |
| AuditFeed.DefaultsByNumber | apps/api-gateway/src/audit-gateway.controller.ts:71-72 | An absent or non-positive page is the first, an absent or non-positive limit is 20, and a limit above 100 is 100 |
| AuditFeed.LatePageIsShort | apps/api-gateway/src/audit-gateway.controller.ts:78-80 | For every page that ends past 500 there are cleanly cut logs whose rows at its end are missing |
| AuditFeed.WindowsSuffice | apps/api-gateway/src/audit-gateway.controller.ts:80-103 | For logs in the comparator's order, the newest n rows over all logs are the newest n of the logs' own newest n, ties across services included |
| AuditFeed.CleanCutsSuffice | apps/api-gateway/src/audit-gateway.controller.ts:80-103 | For logs in any order, the same holds if in every log no row beyond the window sorts before one within it |
| AuditFeed.FeedIsExact | apps/api-gateway/src/audit-gateway.controller.ts:68-118 | Within the cap, a page of the merged windows is the same page of the whole history, if every leg's window is cut cleanly |
| AuditFeed.FeedIsExactIff | apps/api-gateway/src/audit-gateway.controller.ts:68-118 | For legs in their own order, any number of them and any page, within the cap or past it: the page is right if and only if the fetched rows fill it and no row left out precedes its last one, or nothing was left out, or it lies beyond the whole history |
| AuditFeed.OneLegIsExactIff | apps/api-gateway/src/audit-gateway.controller.ts:81-83 | With one service selected and within the cap, the page is right if and only if no row beyond the window sorts before one within it |
| AuditFeed.AlwaysCleanIff | libs/common/src/activity-log/activity-log.service.ts:165-168 | A leg is cut cleanly wherever its window ends if and only if, within a millisecond, ids follow the microseconds |
| AuditFeed.FeedTimesAreExact | libs/common/src/activity-log/activity-log.service.ts:165-168 | Within the cap, for legs in their own order by creation time in microseconds and then id: the page has a row of the right millisecond in every place, whether or not the cut is clean |
| AuditFeed.MicrosecondsAgainstIds | libs/common/src/activity-log/activity-log.service.ts:165-168 | A witness: a leg with two rows of one millisecond whose microseconds run against their ids shows the wrong first page |
| AuditFeed.AnyStableSortWillDo | apps/api-gateway/src/audit-gateway.controller.ts:101-105 | The same for any stable sorting of the windows and of the whole history |
| AuditFeed.ExactIffWithinCap | apps/api-gateway/src/audit-gateway.controller.ts:78-80 | The page is right for every content of the legs that the windows cut cleanly if and only if it ends within the cap of 500 rows |
| AuditFeed.PastTheCap | apps/api-gateway/src/audit-gateway.controller.ts:78-80 | Past the cap there are cleanly cut logs for which the page comes out short |
| CashboxLedger.FinanceService.UpdateBalance | apps/finance-service/src/finance-service.service.ts:775-905 | One delivery: refuse, recognise a replay by the five columns, or credit the cashbox and append the history row |
| CashboxLedger.VerdictByColumns | apps/finance-service/src/finance-service.service.ts:814-850 | A delivery is a replay exactly when it has a source id or an epoch and a history row agrees in box, source, source id, operation and epoch; otherwise it is applied, unless the main cashbox is short |
| CashboxLedger.DeliveryDoesAsAsked | apps/finance-service/src/finance-service.service.ts:839-880 | An applied delivery moves cash or card money as asked, sets the balance to their sum and adds its row; anything else changes nothing |
| CashboxLedger.DifferentEventsBothCount | migrations/1716000000001-AddCashboxDedupEpoch.ts:6-21 | Two new events that differ in any of the five columns both count, with the money they end at; two that agree in all count once |
| CashboxLedger.IndexByColumns | migrations/1716000000001-AddCashboxDedupEpoch.ts:33-37 | The unique index holds exactly when no two live rows with a source id agree in all five columns |
| CashboxLedger.DeliveryMovesDrift | apps/finance-service/src/finance-service.service.ts:838-880 | An applied update absorbs its cashbox's split drift and moves the history drift by exactly that much; no other cashbox is touched |
| CashboxLedger.RunsReconcile | apps/finance-service/src/finance-service.service.ts:775-905 | Every run of deliveries keeps balance equal to signed history, the cash and card split exact, and the key unique |
| CashboxLedger.RecordedCountOnce | migrations/1714600000000-EnforceCashboxHistoryIdempotency.ts:4-16 | After any deliveries a cashbox of any kind holds its money before plus exactly the new events that got on record, each once |
| CashboxLedger.EveryOrderCounts | apps/finance-service/src/finance-service.service.ts:580-598 | For every cashbox and any opening: all orders and repetitions of the same events put every new event on record if and only if the cashbox may go negative or the pocket of every new event stays at zero or above when all that pocket's expenses, and the event itself, come first |
| CashboxLedger.MainBoxOrder | apps/finance-service/src/finance-service.service.ts:580-598 | For the main cashbox: every order of the same deliveries ends at the opening plus the sum of the new events if and only if its cash covers the new cash expenses and its card money the new card expenses |
| CashboxLedger.EachEventOnce | migrations/1714600000000-EnforceCashboxHistoryIdempotency.ts:4-16 | Whatever the duplicates and the order, a cashbox that covers the new events, or may go negative, ends at its money plus their sum |
| CashboxLedger.OrderDoesNotMatter | migrations/1714600000000-EnforceCashboxHistoryIdempotency.ts:4-16 | Two delivery sequences of the same events leave such a cashbox with the same money |
| CashboxLedger.MainBoxOrderMatters | apps/finance-service/src/finance-service.service.ts:580-598 | A witness: on an empty main cashbox the same two events end differently in the two orders |
| CashboxLedger.Resale | migrations/1716000000001-AddCashboxDedupEpoch.ts:6-18 | Sell, roll back, sell again, at any amounts and however delivered: with an epoch of its own the second sale counts beside the first |
| CashboxLedger.ResaleUnderOneEpoch | migrations/1716000000001-AddCashboxDedupEpoch.ts:6-18 | Under one shared epoch the sale that arrives first counts and the other is lost, whatever its amount |
| CashboxLedger.EmptyEpochsAsBefore | migrations/1716000000001-AddCashboxDedupEpoch.ts:20-21 | With empty epochs the five-column key treats every run exactly as the four-column key |
| CashboxLedger.IndexSwap | migrations/1716000000001-AddCashboxDedupEpoch.ts:26-55 | Replacing the index upward always succeeds; downward exactly when no two live rows differ only in the epoch |
| CashboxMigration.FinanceTables.Provision | migrations/1716000000008-MigrateManagerCashboxesToBranch.ts:7-36 | One empty branch cashbox for each managed branch that has none, and no other change |
| CashboxMigration.FinanceTables.BuildConversion | migrations/1716000000008-MigrateManagerCashboxesToBranch.ts:38-69 | The conversion holds the lone join row of each branch that has one, and no cashbox is claimed twice |
| CashboxMigration.FinanceTables.Up | migrations/1716000000008-MigrateManagerCashboxesToBranch.ts:6-100 | What the five statements do together to cashboxes and history |
| CashboxConservation.ConvertedWhen | migrations/1716000000008-MigrateManagerCashboxesToBranch.ts:38-69 | A manager's cashbox is converted into a branch cashbox exactly when its claim on the branch is the only one |
| CashboxConservation.EachBoxAfterwards | migrations/1716000000008-MigrateManagerCashboxesToBranch.ts:6-100 | What every cashbox is afterwards, field by field: retired, taken over, new or unchanged |
| CashboxConservation.EachRowAfterwards | migrations/1716000000008-MigrateManagerCashboxesToBranch.ts:82-89 | Every history row keeps everything but its cashbox, which is the one that took its own over, if one did |
| CashboxConservation.DriftFollows | migrations/1716000000008-MigrateManagerCashboxesToBranch.ts:71-99 | A target cashbox takes over both drifts of the cashbox it replaces; other live cashboxes keep theirs; new ones have none |
| CashboxConservation.MigrationReconciles | migrations/1716000000008-MigrateManagerCashboxesToBranch.ts:71-99 | If every live cashbox reconciles before, every live cashbox reconciles after |
| CashboxConservation.MigrationKeepsIndex | migrations/1716000000008-MigrateManagerCashboxesToBranch.ts:82-89 | Moving history keeps the five-column key unique |
| CashboxConservation.ConvertedMovesWhole | migrations/1716000000008-MigrateManagerCashboxesToBranch.ts:71-99 | A converted cashbox's balances and all its history rows, deleted ones too, end in exactly one live branch cashbox, and the old one is retired |
| CashboxConservation.TotalFallsByDropped | migrations/1716000000008-MigrateManagerCashboxesToBranch.ts:90-99 | The live total falls by exactly the balances of the manager cashboxes that were not converted |
| CashboxConservation.EightAreDropped | migrations/1716000000008-MigrateManagerCashboxesToBranch.ts:67-99 | A witness: two managers of one branch with reconciled cashboxes of 5.00 and 3.00; the live total falls by 8.00 |
| CashboxConservation.TwoManagersBlockEachOther | migrations/1716000000008-MigrateManagerCashboxesToBranch.ts:67-68 | Two managers of one branch, each with a cashbox, leave both cashboxes unconverted and retired |
| DriftGate.Compare | scripts/check-cashbox-invariant.ts:305-348 | The loop lists exactly the drifted cashboxes that are new or have grown past the tolerance, and passes when there are none |
| DriftGate.FailsInNumbers | scripts/check-cashbox-invariant.ts:137-139 | A cashbox fails the gate exactly when a drift is more than 0.01 from zero and was not in the snapshot, or grew by more than 0.01 since |
| DriftGate.PassBoundsGrowth | scripts/check-cashbox-invariant.ts:323-341 | A pass bounds both drifts of every cashbox by their earlier value plus the tolerance |
| DriftGate.ChainBoundsGrowth | scripts/check-cashbox-invariant.ts:21-32 | Over n passing deployments drift grows by at most n tolerances |
| DriftGate.CreepPasses | scripts/check-cashbox-invariant.ts:325-329 | The bound is reached: a drift may grow by one tolerance per deployment and pass every time |
| DriftGate.MigrationGate | scripts/check-cashbox-invariant.ts:21-32 | Snapshot, migrate, compare passes exactly when no converted cashbox had drifted before |
| DriftGate.GateFailsOnOldDrift | scripts/check-cashbox-invariant.ts:21-32 | A witness: one manager's cashbox with a drift of 5.00 passes before the migration and fails after it |
| ReportCache.AnalyticsService.Ask | apps/analytics-service/src/analytics-service.service.ts:1030-1049 | A request is answered from the cache exactly when an entry for its range has not expired |
| ReportCache.AnalyticsService.Arrive | apps/analytics-service/src/analytics-service.service.ts:1097-1108 | A finished miss drops every entry expired when its request began, keeps the others, and stores its own |
| ReportCache.ServedReportIsRecent | apps/analytics-service/src/analytics-service.service.ts:1039-1045 | On every interleaving a served report came from a fetch for the same range begun less than 30000 ms before |
| ReportCache.StoredReportIsServed | apps/analytics-service/src/analytics-service.service.ts:1039-1045 | And a stored report is served for that long, until another for its range arrives or an arrival drops it as expired |
| ReportCache.CourierSeesOwnRows | apps/analytics-service/src/analytics-service.service.ts:1110-1125 | The courier view holds each of the courier's own rows as often as the shared report, no other row, and the same ranking |
| ReportCache.CourierSeesReportOrder | apps/analytics-service/src/analytics-service.service.ts:1110-1125 | The courier view keeps the report's order |
| ManagerSettlement.DebtCountsEachOrderOnce | apps/api-gateway/src/finance-gateway.controller.ts:605-659 | The debt is the sum over the distinct order ids of both fetches of what the winning row of each owes, whether or not the fetches agree |
| ManagerSettlement.OverlapDoesNotMatter | apps/api-gateway/src/finance-gateway.controller.ts:605-612 | When the fetches agree, how they overlap, repeat or order their rows does not change the debt |
| ManagerSettlement.CouriersAnswerWins | apps/api-gateway/src/finance-gateway.controller.ts:605-612 | When the fetches disagree about an order, the couriers' row is the one counted |
| ManagerSettlement.CourierShareBySource | apps/api-gateway/src/finance-gateway.controller.ts:622-637 | What the courier keeps: the stored share, else the stored tariff, else the courier's own tariff for the place of delivery, else nothing |
| ManagerSettlement.PriceIsSharedOut | apps/api-gateway/src/finance-gateway.controller.ts:638-647 | The HQ gets the stored amount, or else what the courier's and the branch's parts leave of the price |
| ManagerSettlement.NegativesCountAsNothing | apps/api-gateway/src/finance-gateway.controller.ts:614-647 | Negative prices and branch shares count as nothing |
| ManagerSettlement.ShownDebtIffNothingCut | apps/order-service/src/order-service.service.ts:326-337 | Each fetch shows the newest 100 matching orders, whatever limit it asks for: the shown debt is the full debt less what the cut-off orders owe, so the two are the same if and only if no order shown by neither fetch owes anything |
| ManagerSettlement.OneOrderTooMany | apps/api-gateway/src/finance-gateway.controller.ts:569-600 | A witness: with 101 sold orders of 1.00 in the branch the shown debt is 1.00 too low |
| ManagerSettlement.SplitDoesNotMatter | apps/api-gateway/src/finance-gateway.controller.ts:681-691 | Non-negative remittances totalling P leave exactly max(round(total) - P, 0), like one remittance of P |
| ManagerSettlement.PayDownIsRemaining | apps/api-gateway/src/finance-gateway.controller.ts:681-691 | Paying down step by step ends at the same figure |
| ManagerSettlement.RemainingInNumbers | apps/api-gateway/src/finance-gateway.controller.ts:681-691 | The shown debt is the total to the nearest whole unit, halves up, less every positive remittance, and never below zero |

## Left out

- Names are modelled as their trimmed lower-case form; the display spelling, and any difference between JavaScript and PostgreSQL case folding, are not modelled.
- Blank and untrimmed request fields that only lead to an immediate 400 are not modelled; identifiers are numbers, already parsed.
- Address, phone, region, district and manager columns of a branch are one `details` value, and ownership and share columns are not modelled, because no checked property reads them.
- The level, type and parent saves of one update are separate statements in the code; a crash between them is not modelled.
- BranchService.Service.Place: the parent checks of an update are a method of their own here, as are its first checks (`Describe`); in the code they are inline.
- PostDispatch.OrderDesk.Dispatch: the logistics service's listing is any duplicate-free list of known orders, read as the order table has them at that moment; an order update failing in the middle is not modelled.
- BranchAccess.ResolveCashboxBranch: when a user has several active rows the code takes the newest; the unique index leaves at most one, and the model takes any.
- AuditFeed.FeedIsExact: a log that does not answer counts as an empty log; invalid timestamps, ids too large for a JavaScript number, totals, page counts and the enrichment of rows are left out.
- ManagerSettlement.ShownDebtIffNothingCut: is about two fetches that report the same order alike; for fetches that disagree `DebtCountsEachOrderOnce` and `CouriersAnswerWins` say what is counted. A fetch that fails counts as an empty one.
- TashkentCalendar.DateOnlyIsItsDay: strings that are not date-only go to the engine's own date parser and are left out, as is the final formatting.
- CashboxLedger.FinanceService.UpdateBalance: looking a cashbox up by owner and type, comments, proof files and the activity log are left out; amounts below one hundredth are not modelled.
- CashboxMigration.FinanceTables.Up: assumes the unique index on active assignments (migrations/1714000000000-StrengthenBranchUserUnique.ts:43-47), without which one cashbox could be claimed twice.
- ReportCache.AnalyticsService.Arrive: the remote calls behind one report are one fetch; rows carry a few of their fields.
- ManagerSettlement.DebtCountsEachOrderOnce: choosing the couriers, their cashboxes and the identity fallbacks are left out; orders without an id share one blank id, as in the code.
- The settlement reconciliation section and the strict modes of the invariant script add reporting only.
- The branch list's separate "owed to HQ" figure uses other inputs and is not equal to the settlement figure in general.
- Transfer batches, branch configuration, statistics, statements, printing, messaging, authentication guards and logging are left out.
