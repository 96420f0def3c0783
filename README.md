# Shift bidding — a verified model of the business rules

The application lets employees pin the shifts they would like to work and
lets administrators open shift windows, create shifts, weigh them and invite
new staff. This project models the rules of that application in Dafny:

- **Backend controllers.** The five tables (users, invite tokens, shift
  windows, shifts, pins) are the fields of one `Store.Db` object. Its
  `Valid()` predicate holds the integrity rules the controllers keep:
  - unique e-mail addresses and unique invite tokens;
  - at most one unused invite per address;
  - start before end for every window;
  - unique (date, type, window) for shifts;
  - unique (user, shift) for pins;
  - no dangling references.
- **Write controllers.** Every controller that writes is a method with
  `modifies db`. It is proved against a pure decision function, which
  returns the first failing check in the source's order (with its HTTP status)
  or the row to write. The decision functions carry iff contracts for each error.
  Lemmas state what the writes keep:
  - the integrity rules;
  - single use of an invite token;
  - idempotence of a repeated request;
  - the delete cascade.
- **Read-only controllers** (`getUserPins`, `getUserStats`, `getShiftStats`,
  `getAdminDashboard`). These take the rows their query returns. They run the
  grouping folds of the source, and the conservation laws are proved: every
  row lands in exactly one group and the group sizes add up to the total.
- **Authentication middleware, seed script and frontend.** The authentication
  middleware and the seed script are modelled too. So are the frontend's
  pure decisions:
  - the route redirect policy;
  - the API path normalisation;
  - the shift-table sort;
  - the invite filters and badges;
  - the window form's checks;
  - the calendar lookup;
  - the statistics card;
  - the sidebar;
  - the page guard.
- **React component state.** Where a component keeps state, it is a class
  whose methods update it.

Shared vocabulary lives in `Common` (options, ids, times, the two enums, the
error reasons with their status codes, string helpers, `filter`). The e-mail
pattern lives in `Email`. `Grouping` holds the group-by machinery that
`reduce`/`forEach` into an object keyed by window id implement.

## Model

| member | source | states |
|---|---|---|
| Common.ParseRole | backend/src/controllers/inviteController.js:32-36 | a role string is accepted only if it is the name of USER or ADMIN; `RoleRoundTrip` gives the converse |
| Common.ParseShiftType | backend/src/controllers/shiftController.js:139-144 | a type string is accepted only if it is the name of EARLY or LATE; `ShiftTypeRoundTrip` gives the converse |
| Email.PatternIffValid | backend/src/controllers/inviteController.js:17-22 | a string matches `^[^\s@]+@[^\s@]+\.[^\s@]+$` iff it has no whitespace, exactly one '@' with a non-empty local part, and a domain with a '.' that has a character on each side |
| Email.ValidHasOneAt | backend/src/controllers/userController.js:17-22 | an accepted address holds exactly one '@', not at position 0 |
| Store.Db.InsertWindow | backend/src/controllers/shiftWindowController.js:30-37 | the store keeps its integrity rules when a window with start before end is added under a fresh key |
| Store.Db.InsertShift | backend/src/controllers/shiftController.js:187-204 | the store keeps its integrity rules when a shift of an existing window with a free (date, type, window) slot is added under a fresh key |
| Grouping.GroupBy | backend/src/controllers/pinController.js:156-171 | the reduce that pushes each row onto its key's array returns one group per key, in first-appearance order, each holding exactly that key's rows in input order |
| Grouping.GroupsPartitionRows | backend/src/controllers/pinController.js:156-177 | the groups partition the rows: every row is in its key's group, no group holds a foreign row, keys are listed once, sizes add up to the row count |
| Grouping.RowInExactlyOneGroup | backend/src/controllers/shiftController.js:95-112 | a row is in the group of its key and in no other group |
| Grouping.GroupSizesSum | backend/src/controllers/shiftController.js:114-118 | the group sizes over the distinct keys add up to the number of rows |
| Grouping.MembersKeepOrder | backend/src/controllers/pinController.js:149-152 | a group of a sorted input is sorted: grouping keeps the query order |
| Grouping.FoldByKey | backend/src/controllers/statsController.js:182-216 | the forEach that creates an entry on a key's first row and updates it in place yields, per key, the fold over that key's rows |
| Grouping.KeyFoldIsGroupFold | backend/src/controllers/statsController.js:68-89 | a key's accumulator entry is the fold of the step over that key's rows, started from the entry its first row creates; a key without rows has none |
| PinController.PinRefusal | backend/src/controllers/pinController.js:8-65 | the first failing check in order — missing ids 400, unknown user 404, unknown shift 404, a shift without a window 500, out of window 400 (both bounds inclusive), duplicate 409 — each as an iff on the inputs; None iff an existing user, an existing shift inside its window, and an unpinned pair |
| PinController.WindowBoundsInclusive | backend/src/controllers/pinController.js:40-49 | for a known, unpinned pair, admission holds iff start ≤ shift date ≤ end, both bounds inclusive |
| PinController.RepinRefused | backend/src/controllers/pinController.js:52-65 | after admitting (u, s), the same request is refused with 409 |
| PinController.AdmittedPinKeepsTableValid | backend/src/controllers/pinController.js:68-100 | adding an admitted pin keeps references valid and (user, shift) pairs unique |
| PinController.CreatePin | backend/src/controllers/pinController.js:3-107 | a refusal answers its error and leaves the pins unchanged; otherwise 201 and exactly one pin (userId, shiftId) appended, no other table touched |
| PinController.QueryOrderIsRankOrder | backend/src/controllers/pinController.js:149-152 | rows are ordered by date then type iff they are ordered by the single date-type rank |
| PinController.GetUserPins | backend/src/controllers/pinController.js:109-178 | 404 iff the user is unknown and 200 iff known; one group per window in first-appearance order, each holding exactly that window's pins in query order, so no empty group; totalPins the row count and the sum of the group sizes |
| PinController.GroupsKeepQueryOrder | backend/src/controllers/pinController.js:149-171 | within each window group the pins keep the date-then-type order of the query |
| StatsController.AverageShiftWeight | backend/src/controllers/statsController.js:48-51 | null iff no pin has a weight; else the sum of the non-null weights divided by their count |
| StatsController.WeightedFilter | backend/src/controllers/statsController.js:48-50 | the filtered weighted pins number WeightedCount and carry the whole weight sum |
| StatsController.NoWeightedRows | backend/src/controllers/statsController.js:48-51 | the weighted count is 0 iff every pin's weight is null |
| StatsController.AverageWithinBounds | backend/src/controllers/statsController.js:48-51 | when every weight lies in [lo, hi], the average does too |
| StatsController.ExpectedShiftsIntegral | backend/src/controllers/statsController.js:55-57 | Math.round(cp/100 × 40) equals (4·cp + 5) div 10, and lies in [0, 40] for cp in [0, 100] |
| StatsController.ExpectedShiftsMonotone | backend/src/controllers/statsController.js:56-57 | a larger contract percent never expects fewer shifts |
| StatsController.Quota | backend/src/controllers/statsController.js:58-65 | status is met iff totalPins ≥ expected iff remainingNeeded is 0; remainingNeeded and overQuota are never both positive and differ by expected − total |
| StatsController.TallyOfGroup | backend/src/controllers/statsController.js:68-89 | a window's entry counts all its pins and sums their non-null weights; its averageWeight is the average over the pins up to the last weighted one |
| StatsController.AverageDependsOnOrder | backend/src/controllers/statsController.js:82-86 | the same two pins in the other order give a different averageWeight (1.0 against 0.5): the entry is not refreshed after an unweighted pin |
| StatsController.TallyPinsIsTotalSize | backend/src/controllers/statsController.js:68-103 | the pins of the window entries add up to the group sizes of their keys |
| StatsController.GetUserStats | backend/src/controllers/statsController.js:3-105 | 404 iff the user is unknown and 200 iff known; totalPins, the average, the quota of the user's percent, and one entry per window in first-appearance order whose pin counts sum to totalPins |
| StatsController.PopularityOf | backend/src/controllers/statsController.js:148-150 | none iff 0 pins, low iff 1–2, medium iff 3–5, high iff 6 or more |
| StatsController.PopularityMonotone | backend/src/controllers/statsController.js:148-150 | more pins never give a lower class |
| StatsController.Heatmap | backend/src/controllers/statsController.js:141-151 | one entry per shift, in order, each with the class of its pin count |
| StatsController.ZeroPinsAreUnpopular | backend/src/controllers/statsController.js:154 | the zero-pin list holds exactly the heatmap entries of class none; with the pinned ones it accounts for every shift |
| StatsController.AveragePinsPerUser | backend/src/controllers/statsController.js:157-159 | 0 without users; otherwise the non-negative quotient whose product with the user count is the pin count |
| StatsController.StatCounts | backend/src/controllers/statsController.js:197-215 | a window's rollup counts its shifts, sums their pins, counts the unpinned ones, and averages pins per shift |
| StatsController.StatMaximum | backend/src/controllers/statsController.js:205-213 | maxPins bounds every count; mostPopularShift is null iff every count is 0, else the first shift with the maximum count |
| StatsController.FoldIsRollup | backend/src/controllers/statsController.js:181-215 | the forEach over a window's shifts yields its rollup: the counts, the average, a maximum bounding every count, and the first strict maximum as most popular shift |
| StatsController.TopUsers | backend/src/controllers/statsController.js:230 | at most 10 users, a prefix of the ordered list, all of it when it has 10 or fewer |
| StatsController.AdminDashboard | backend/src/controllers/statsController.js:114-237 | heatmap, zero-pin list, summary and top users as specified; one rollup per window in first-appearance order, each `IsRollup` of its shifts: counts, average, a maximum bounding every count, and the first shift with the strictly highest count as most popular |
| ShiftController.ShiftDecision | backend/src/controllers/shiftController.js:128-209 | missing fields 400, bad type 400, bad date 400, unknown window 404, a date outside the window 400 and a taken slot 409, each as an iff in order; 201 iff the date is inside the window (inclusive) and the slot free, with the shift at the default weight |
| ShiftController.InsertKeepsShiftsValid | backend/src/controllers/shiftController.js:173-195 | inserting an accepted shift keeps (date, type, window) unique and windows referenced |
| ShiftController.RepeatedShiftRefused | backend/src/controllers/shiftController.js:173-184 | repeating an accepted request is refused with 409 |
| ShiftController.CreateShift | backend/src/controllers/shiftController.js:128-216 | a refusal leaves the shifts unchanged; acceptance adds exactly the decided shift under a fresh id |
| ShiftController.ItemRefusal | backend/src/controllers/shiftController.js:231-249 | an item is refused iff it is not well formed, with the error naming its index |
| ShiftController.FirstRefusalIsFirst | backend/src/controllers/shiftController.js:232-250 | the scan reports nothing iff every item is well formed, else the error of the first ill-formed item |
| ShiftController.ValidateBatch | backend/src/controllers/shiftController.js:232-250 | the validation loop returns the first item's error |
| ShiftController.BulkRunFacts | backend/src/controllers/shiftController.js:253-304 | the batch fails iff some item names a missing window; otherwise the created shifts are new, pairwise distinct in slot, and every item's slot is taken afterwards |
| ShiftController.RerunCreatesNothing | backend/src/controllers/shiftController.js:268-297 | a batch whose slots are all taken creates nothing |
| ShiftController.CommitKeepsShiftsValid | backend/src/controllers/shiftController.js:256-297 | committing the created rows keeps the shift table valid |
| ShiftController.RunBatch | backend/src/controllers/shiftController.js:256-297 | the transaction loop computes exactly the specified run, numbering the created rows with fresh ids |
| ShiftController.CreateBulkShifts | backend/src/controllers/shiftController.js:218-312 | no or empty batch 400; an invalid item 400; a missing window 500; in each of these cases no shift persists; otherwise the created rows are added and skipped = length − created |
| ShiftController.BulkIsIdempotent | backend/src/controllers/shiftController.js:268-304 | running the same batch again after a success creates nothing |
| ShiftController.WeightRefusal | backend/src/controllers/shiftController.js:319-330 | accepted iff the weight is a non-negative number; missing or null is "required" (400) iff so; a non-number or a negative number is "must be non-negative" (400) iff so |
| ShiftController.Reweighed | backend/src/controllers/shiftController.js:356-359 | only the weight of the one shift changes |
| ShiftController.ReweighKeepsShiftsValid | backend/src/controllers/shiftController.js:356-359 | a weight change keeps the shift table valid |
| ShiftController.ReweighIdempotent | backend/src/controllers/shiftController.js:356-359 | setting the same weight twice equals setting it once |
| ShiftController.UpdateShiftWeight | backend/src/controllers/shiftController.js:314-389 | weight errors 400, unknown id 404, both leaving the table unchanged; otherwise only the weight changes and previousWeight is the old value |
| ShiftController.GetShiftStats | backend/src/controllers/shiftController.js:68-119 | one group per window in first-appearance order, each holding exactly its window's shifts in query order, so every shift is in exactly one group and no group is empty; totalShifts the row count and the group-size sum; totalPins the pin-count sum |
| InviteController.FindInvite | backend/src/controllers/inviteController.js:106-120 | the lookup by unique token finds the invite with that token, or reports that none has it |
| InviteController.InviteDecision | backend/src/controllers/inviteController.js:5-61 | missing fields, bad e-mail, percent out of [0,100], bad role as iffs in order; 409 iff the address is registered, then 409 iff it has an unused invite; 500 iff the generated token collides; 201 iff all checks pass, with the unused invite |
| InviteController.AcceptedInviteKeepsValid | backend/src/controllers/inviteController.js:39-64 | storing an accepted invite keeps at most one unused invite per address |
| InviteController.SecondInviteRefused | backend/src/controllers/inviteController.js:50-61 | a second invite for a just-invited address gets 409 |
| InviteController.InviteUrlRoundTrip | backend/src/controllers/inviteController.js:80-81 | the token is recovered from the invite link |
| InviteController.CreateInvite | backend/src/controllers/inviteController.js:5-94 | a refusal leaves the invites unchanged; acceptance stores exactly the decided invite under a fresh id and returns its link |
| InviteController.InviteLookup | backend/src/controllers/inviteController.js:96-141 | 400 without a token, 404 iff no invite has it, 410 iff its invite is used, 200 iff an unused invite has it, returning that invite |
| InviteController.SignupDecision | backend/src/controllers/inviteController.js:144-188 | missing fields, short password and unknown token as iffs in order; 410 iff the token's invite is used (before the address check); 409 iff it is unused and its address is registered; 201 iff it is unused and its address free |
| InviteController.InvitedUser | backend/src/controllers/inviteController.js:195-203 | the new account takes the invite's e-mail, percent and role |
| InviteController.Redeemed | backend/src/controllers/inviteController.js:214-221 | only the redeemed invite changes: used becomes true with usedAt set |
| InviteController.RedeemKeepsInvitesValid | backend/src/controllers/inviteController.js:194-224 | redeeming keeps the invite table valid |
| InviteController.InvitedUserKeepsUsersValid | backend/src/controllers/inviteController.js:179-203 | adding the invited account keeps addresses unique |
| InviteController.SecondSignupGone | backend/src/controllers/inviteController.js:167-224 | once redeemed, signing up or looking up with the same token gets 410 |
| InviteController.SignupViaInvite | backend/src/controllers/inviteController.js:144-240 | a refusal changes neither users nor invites; acceptance adds exactly one user and flips that invite from unused to used |
| Common.PercentOrFull | backend/src/controllers/userController.js:65 | a missing or 0 percent becomes 100, any other stays as given; the calendar card applies the same rule |
| UserController.RoleOrDefault | backend/src/controllers/userController.js:66 | a missing role is USER, a given one is that role |
| UserController.RegisterDecision | backend/src/controllers/userController.js:5-66 | missing fields, bad e-mail, short password, percent out of range, unknown role and a registered address, each as an iff in order; 201 iff all pass, storing a user with the given name, address and hashed password |
| UserController.RegistrationDefaults | backend/src/controllers/userController.js:65-66 | an accepted registration stores 100 for a missing or 0 percent and USER for a missing role |
| UserController.RegisteredUserKeepsValid | backend/src/controllers/userController.js:46-60 | adding a registered user keeps addresses unique and percents in range |
| UserController.SecondRegistrationRefused | backend/src/controllers/userController.js:46-54 | registering the same address again gets 409 |
| UserController.RegisterUser | backend/src/controllers/userController.js:5-92 | a refusal leaves the users unchanged; acceptance adds exactly the decided user under a fresh id |
| UserController.UpdateDecision | backend/src/controllers/userController.js:122-170 | nothing to update 400, percent out of range 400, bad role 400, unknown id 404 and an empty role 500, each as an iff in order; 200 iff all pass, changing only the supplied fields |
| UserController.UnknownUserNotFound | backend/src/controllers/userController.js:148-157 | an update that passes the field checks (an empty role included) gets 404 for an unknown id |
| UserController.UpdateIdempotent | backend/src/controllers/userController.js:160-170 | repeating an accepted update changes nothing further |
| UserController.UpdateKeepsUsersValid | backend/src/controllers/userController.js:160-170 | an accepted update keeps the user table valid |
| UserController.UpdateUser | backend/src/controllers/userController.js:122-189 | the reply is the decision; a refusal leaves the users unchanged, acceptance rewrites one row |
| ShiftWindowController.CreateWindowDecision | backend/src/controllers/shiftWindowController.js:3-37 | missing fields, unparsable date, start ≥ end as iffs in order; accepted iff the name is given and start < end |
| ShiftWindowController.CreateShiftWindow | backend/src/controllers/shiftWindowController.js:3-49 | a refusal leaves the windows unchanged; acceptance adds exactly the decided window |
| ShiftWindowController.Merged | backend/src/controllers/shiftWindowController.js:94-114 | a supplied date replaces the stored one, an omitted one keeps it |
| ShiftWindowController.UpdateWindowDecision | backend/src/controllers/shiftWindowController.js:77-124 | 404 iff unknown id; 400 iff a supplied date does not parse; 400 iff the merged start ≥ merged end; 200 iff none of these, keeping omitted fields with start < end |
| ShiftWindowController.EmptyUpdateChangesNothing | backend/src/controllers/shiftWindowController.js:94-114 | an update supplying nothing returns the window unchanged |
| ShiftWindowController.StartCheckedAgainstStoredEnd | backend/src/controllers/shiftWindowController.js:117-124 | a new start alone is accepted iff it lies before the stored end |
| ShiftWindowController.UpdateKeepsWindowsValid | backend/src/controllers/shiftWindowController.js:117-127 | an accepted update keeps every window's start before its end |
| ShiftWindowController.UpdateShiftWindow | backend/src/controllers/shiftWindowController.js:77-142 | the reply is the decision; a refusal leaves the windows unchanged, acceptance rewrites one row |
| ShiftWindowController.DeletedCountConserved | backend/src/controllers/shiftWindowController.js:149-173 | the deleted shifts and the kept ones together are all the shifts |
| ShiftWindowController.CascadeKeepsValid | backend/src/controllers/shiftWindowController.js:166-167 | removing the window, its shifts and their pins leaves no dangling reference and keeps pairs unique |
| ShiftWindowController.DeleteShiftWindow | backend/src/controllers/shiftWindowController.js:144-181 | 404 iff unknown, changing nothing; 200 iff known, and then the window, its shifts and their pins go, and deletedShifts is the number of shifts lost |
| ShiftWindowController.DeletedWindowNotFound | backend/src/controllers/shiftWindowController.js:87-91 | a deleted window can no longer be updated: 404 |
| AuthMiddleware.BearerToken | backend/src/middleware/auth.js:8-14 | a token exists iff the header starts with "Bearer " (case-sensitive), and the header is "Bearer " followed by it |
| AuthMiddleware.BearerRoundTrip | backend/src/middleware/auth.js:14 | the header "Bearer " + t yields t |
| AuthMiddleware.SchemeIsCaseSensitive | backend/src/middleware/auth.js:8 | "bearer " is refused |
| AuthMiddleware.AuthDecision | backend/src/middleware/auth.js:4-43 | 401 iff no bearer token, iff the token fails verification, or iff its user is gone; the request passes iff the token verifies to a stored user, carrying that user |
| AuthMiddleware.Authenticate | backend/src/middleware/auth.js:4-50 | attaches the decided user to the request exactly when the decision passes |
| AuthMiddleware.RequireAdmin | backend/src/middleware/auth.js:52-66 | 401 iff no user, 403 iff the role is not ADMIN, passes iff it is |
| AuthMiddleware.AdminRouteAdmits | backend/src/middleware/auth.js:37-65 | both guards pass exactly for a verified token of an existing ADMIN |
| Seed.OldestUser | backend/prisma/seed.js:14-16 | the scan returns a user created no later than any other |
| Seed.PromoteFirstAdmin | backend/prisma/seed.js:8-31 | nothing changes when an ADMIN exists or there are no users; otherwise exactly the oldest user becomes ADMIN |
| Seed.SeedWeight | backend/prisma/seed.js:84 | EARLY weighs 1.2, LATE 1.0 |
| Seed.WeekStartIsMonday | backend/prisma/seed.js:41-42 | the first window starts on a Monday, tomorrow when run on a Sunday |
| Seed.WeekShifts | backend/prisma/seed.js:75-89 | a week has exactly 10 samples, all of its window |
| Seed.SampleShiftsOnWeekdays | backend/prisma/seed.js:75-77 | every sample falls on Monday to Friday |
| Seed.SampleShiftsInWindow | backend/prisma/seed.js:40-50 | every sample lies within its window's six-day span |
| Seed.WeekShiftsDistinct | backend/prisma/seed.js:75-106 | a week's samples have pairwise distinct (date, type, window) |
| Seed.NextWeek | backend/prisma/seed.js:46-50 | the second window starts 7 days after the first and after its end |
| Seed.CreateSamples | backend/prisma/seed.js:52-106 | two windows and exactly their 20 samples are stored, keeping the store valid |
| Seed.SeedWindows | backend/prisma/seed.js:33-111 | samples are created iff no window exists; otherwise windows and shifts stay as they were |
| Seed.Seed | backend/prisma/seed.js:5-117 | afterwards an ADMIN exists (if any user does) and a window exists; a seeded store is left unchanged |
| RouteMiddleware.Decide | frontend/src/middleware.ts:5-30 | a signed-in /auth visit goes to /admin or /dashboard by role; signed-out outside /auth goes to sign-in; /admin without the admin role goes to /dashboard; everything else passes |
| RouteMiddleware.Middleware | frontend/src/middleware.ts:41-46 | paths outside /dashboard, /admin and /auth are never redirected |
| RouteMiddleware.RedirectSettles | frontend/src/middleware.ts:11-29 | a redirect target is itself let through: no chains, no loops |
| RouteMiddleware.SignedOutReachesSignIn | frontend/src/middleware.ts:20-22 | a signed-out visitor reaches the sign-in page in one redirect and stays there |
| ApiClient.ApiUrl | frontend/src/lib/api.ts:2 | an unset or empty variable gives http://localhost:3001 |
| ApiClient.FullPath | frontend/src/lib/api.ts:5 | the result starts with "/api"; a path already starting with it is unchanged |
| ApiClient.FullPathIdempotent | frontend/src/lib/api.ts:5 | normalising twice is normalising once |
| ApiClient.FullPathEndsWithPath | frontend/src/lib/api.ts:5 | the caller's path is the tail of the result |
| ApiClient.FetchInit | frontend/src/lib/api.ts:7-14 | credentials are "include"; a JSON Content-Type is added unless the caller supplies one, whose headers win |
| ApiClient.AuthInit | frontend/src/lib/api.ts:25-32 | a bearer Authorization header is added unless the caller supplies one |
| ApiClient.AuthenticatedHeaders | frontend/src/lib/api.ts:10-31 | both default headers appear, each overridden by the caller's own |
| ApiClient.BearerHeaderReadBack | frontend/src/lib/api.ts:29 | the backend's header check reads back exactly the token sent |
| ApiClient.RequestUrl | frontend/src/lib/api.ts:7 | the URL is the base followed by the normalised path |
| ApiClient.Finish | frontend/src/lib/api.ts:16-21 | an OK response returns its body; any other throws a message starting "API error: " followed by the status |
| Common.NatToStringReadsBack | frontend/src/lib/api.ts:16-21 | the decimal text of the status reads back as the status, so distinct statuses give distinct messages |
| ApiClient.ErrorNamesStatus | frontend/src/lib/api.ts:18 | a thrown message contains the status digits |
| ApiClient.PrefixOptional | frontend/src/lib/api.ts:5-32 | a path with or without "/api" reaches the same request |
| ShiftStatsView.NextSort | frontend/src/components/admin/shift-stats.tsx:56-63 | the same field flips the direction; another field is selected ascending |
| ShiftStatsView.SecondClickRestores | frontend/src/components/admin/shift-stats.tsx:56-63 | two clicks on the sorted column restore the state |
| ShiftStatsView.NewColumnTwice | frontend/src/components/admin/shift-stats.tsx:56-63 | two clicks on a new column sort it descending |
| ShiftStatsView.SortedShifts | frontend/src/components/admin/shift-stats.tsx:65-77 | a permutation of the shifts (same multiset and length) in which no row strictly precedes an earlier one |
| ShiftStatsView.SortedMeansMonotone | frontend/src/components/admin/shift-stats.tsx:65-77 | ascending lists never fall in the chosen key, descending ones never rise |
| ShiftStatsView.SortSortedIsIdentity | frontend/src/components/admin/shift-stats.tsx:65-77 | sorting a sorted list changes nothing |
| ShiftStatsView.PinCountColour | frontend/src/components/admin/shift-stats.tsx:122-127 | red iff ≥ 8, orange iff 5–7, green iff 2–4, gray iff below 2 |
| ShiftStatsView.ColourMonotone | frontend/src/components/admin/shift-stats.tsx:122-127 | more pins never give a cooler colour |
| ShiftStatsView.ShiftStatsState.HandleSort | frontend/src/components/admin/shift-stats.tsx:56-63 | only the sort state changes, to NextSort of the old one |
| ShiftStatsView.ShiftStatsState.StartEditing | frontend/src/components/admin/shift-stats.tsx:79-82 | the row's id and its weight text become the draft; the sort stays |
| ShiftStatsView.ShiftStatsState.CancelEditing | frontend/src/components/admin/shift-stats.tsx:84-87 | no row is edited and the draft is empty; the sort stays |
| InviteManagementView.FilterInvites | frontend/src/components/admin/invite-management.tsx:68-87 | an invite is kept iff it matches the query (case-insensitively, e-mail or role) and the status; the result is an order-preserving subsequence; empty query with "all" returns the list |
| InviteManagementView.SearchIgnoresCase | frontend/src/components/admin/invite-management.tsx:72-77 | an upper-cased query matches the same invites |
| InviteManagementView.ButtonCounts | frontend/src/components/admin/invite-management.tsx:182-196 | all is the list length, pending and used the sizes of the two status filters, which add up to all; used is 0 iff no invite is used |
| InviteManagementView.UsedCountZeroIffNoneUsed | frontend/src/components/admin/invite-management.tsx:182-196 | the used filter keeps nothing exactly when no invite is used |
| InviteManagementView.StatusBadge | frontend/src/components/admin/invite-management.tsx:95-124 | Used iff used; Expired iff unused and at least 8 whole days old; else Pending |
| InviteManagementView.ExpiredStillPending | frontend/src/components/admin/invite-management.tsx:80-124 | the "pending" filter keeps an invite badged Expired |
| InviteManagementView.ExpiryIsPermanent | frontend/src/components/admin/invite-management.tsx:105-109 | an invite Expired now is Expired at every later instant |
| ShiftWindowCreatorView.CeilDays | frontend/src/components/admin/shift-window-creator.tsx:67-68 | the whole days rounded up: (d − 1) days < span ≤ d days |
| ShiftWindowCreatorView.Validate | frontend/src/components/admin/shift-window-creator.tsx:45-76 | missing dates, start before today, end not after start, span over 90 days, each as an iff in that order |
| ShiftWindowCreatorView.AcceptedWindowIsSane | frontend/src/components/admin/shift-window-creator.tsx:45-76 | an accepted form starts no earlier than today, ends after it starts, spans at most 90 days |
| ShiftWindowCreatorView.StartTodayAllowed | frontend/src/components/admin/shift-window-creator.tsx:53-59 | a start at today's midnight passes the past check |
| ShiftWindowCreatorView.NinetyDaysAllowed | frontend/src/components/admin/shift-window-creator.tsx:67-73 | exactly 90 days passes; one millisecond more fails |
| ShiftWindowCreatorView.GeneratedName | frontend/src/components/admin/shift-window-creator.tsx:29-30 | empty when either date is empty, else the month text |
| ShiftWindowCreatorView.SubmittedName | frontend/src/components/admin/shift-window-creator.tsx:88 | a typed name wins, else the generated one |
| ShiftWindowCreatorView.WindowForm.HandleInputChange | frontend/src/components/admin/shift-window-creator.tsx:22-27 | only the edited field changes, and both messages are cleared |
| ShiftWindowCreatorView.WindowForm.ValidateForm | frontend/src/components/admin/shift-window-creator.tsx:45-76 | true iff Validate passes; a failure sets the first failing check's message; the fields are untouched |
| ShiftCalendarView.EstimatedQuota | frontend/src/components/dashboard/shift-calendar.tsx:36 | round(cp/100 × 5) is (cp + 10) div 20, at most 5 for cp in [0,100], and 5 for a missing or 0 percent |
| ShiftCalendarView.GridDayBijective | frontend/src/components/dashboard/shift-calendar.tsx:86-88 | the day mapping is injective on 0..6 and sends Monday to Friday onto columns 0 to 4 |
| ShiftCalendarView.GridDayInverse | frontend/src/components/dashboard/shift-calendar.tsx:86-88 | every column is the image of (column + 1) mod 7 |
| ShiftCalendarView.ShiftForDayAndType | frontend/src/components/dashboard/shift-calendar.tsx:79-91 | null iff no shift has that column and type, else the first one that does |
| ShiftCalendarView.CalendarState.OnFetchSuccess | frontend/src/components/dashboard/shift-calendar.tsx:44-51 | stores the response's shifts (or none) and counts exactly the pinned ones |
| ShiftCalendarView.CalendarState.OnFetchError | frontend/src/components/dashboard/shift-calendar.tsx:52-62 | resets to no shifts and a pinned count of 0 |
| ShiftCalendarView.PinnedAtMostShown | frontend/src/components/dashboard/shift-calendar.tsx:49 | the pinned count never exceeds the shift count, and equals it when all are pinned |
| UserStatsView.WeekdayCounts | frontend/src/components/stats/user-stats.tsx:99-103 | five counts, each the value under the weekday's lower-case key, 0 when absent |
| UserStatsView.WeekdayKey | frontend/src/components/stats/user-stats.tsx:102 | each display name lower-cases to its key |
| UserStatsView.MaxCount | frontend/src/components/stats/user-stats.tsx:105 | at least 1, at least every count, and 1 or one of the counts |
| UserStatsView.BarFractionInUnit | frontend/src/components/stats/user-stats.tsx:253 | each bar fraction lies in [0, 1] for non-negative counts |
| UserStatsView.NoPinsScale | frontend/src/components/stats/user-stats.tsx:105-264 | when the no-pins note shows, the scale is 1 |
| UserStatsView.QuotaMessage | frontend/src/components/stats/user-stats.tsx:185-189 | "Quota met" iff pins ≥ quota; otherwise the positive shortfall that closes the gap |
| UserStatsView.CompareWeight | frontend/src/components/stats/user-stats.tsx:211-227 | above, below or at the team average, each as an iff |
| UserStatsView.TrendArrow | frontend/src/components/stats/user-stats.tsx:285-295 | no arrow for the first week; else rising, falling or level iff more, fewer or equal pins than the week before |
| UserStatsView.NoFallSinceFirst | frontend/src/components/stats/user-stats.tsx:285-295 | without a falling arrow up to week n, no week up to n has fewer pins than the first |
| SidebarView.Split | frontend/src/components/layout/sidebar-layout.tsx:56 | at least one piece, none holding a space |
| SidebarView.SplitJoin | frontend/src/components/layout/sidebar-layout.tsx:56 | joining the pieces with spaces gives the name back |
| SidebarView.InitialsAppend | frontend/src/components/layout/sidebar-layout.tsx:54-60 | the initials of "a b" are those of a followed by those of b |
| SidebarView.SingleWordInitial | frontend/src/components/layout/sidebar-layout.tsx:54-60 | a single word gives its first letter upper-cased; an empty name none |
| SidebarView.InitialsAtMostPieces | frontend/src/components/layout/sidebar-layout.tsx:54-60 | no more initials than pieces: empty pieces give none |
| SidebarView.Navigation | frontend/src/components/layout/sidebar-layout.tsx:29-48 | three entries, the first two always shown, Admin Panel shown iff the role is "admin" |
| SidebarView.Shown | frontend/src/components/layout/sidebar-layout.tsx:90-91 | an entry is rendered iff it is listed and shown |
| SidebarView.AdminPanelShownIffAdmin | frontend/src/components/layout/sidebar-layout.tsx:46-91 | the /admin link renders iff the role is exactly "admin" |
| SidebarView.Render | frontend/src/components/layout/sidebar-layout.tsx:25-91 | nothing iff no session; otherwise the initials of the user's name and the shown entries of the role's navigation, 3 for "admin" and 2 for any other role |
| SidebarView.ActiveOnSubpathsOnly | frontend/src/components/layout/sidebar-layout.tsx:93 | a route is active below itself but not on a path that merely shares its prefix |
| SidebarView.StatsPageHighlightsBoth | frontend/src/components/layout/sidebar-layout.tsx:93 | "/dashboard/stats" highlights Dashboard and My Stats; "/dashboardx" does not highlight Dashboard |
| AuthGuardView.FallbackUrl | frontend/src/components/auth/auth-guard.tsx:16 | the default "/auth/signin" applies only when no URL is given |
| AuthGuardView.RedirectTarget | frontend/src/components/auth/auth-guard.tsx:21-38 | none while loading; the fallback when signed out; for a session, "/dashboard" iff admin is required and the role is not "admin" |
| AuthGuardView.Render | frontend/src/components/auth/auth-guard.tsx:41-59 | a spinner iff loading; the page iff signed in and no role is required or the role equals it |
| AuthGuardView.NothingMeansRedirectOrStuck | frontend/src/components/auth/auth-guard.tsx:31-57 | a blank page without a redirect happens iff "user" is required and the role is something else |
| AuthGuardView.RenderExcludesRedirect | frontend/src/components/auth/auth-guard.tsx:21-59 | the page renders only when no redirect is issued |
| AuthGuardView.AdminPassesAdminPages | frontend/src/components/auth/auth-guard.tsx:55-59 | an admin sees admin pages; a page without a required role admits every session |

## Left out

- Database and HTTP plumbing. `prisma.*`, `req`/`res`, logging and the generic
  500 handlers are not modelled. The store is an in-memory object, and each
  transaction is one atomic update. The only 500s modelled are:
  - a bulk batch naming a missing window;
  - an invite-token collision;
  - an update with an empty role.
- Read queries. Their filters, joins and ORDER BY clauses are the store's work,
  so the read-only controllers take the query rows as input.
- Schema. It is not part of this model, so its defaults and cascade rules are
  stated explicitly:
  - a new shift's weight is a constant of the store;
  - deleting a window deletes its shifts and their pins.
- Date handling. Dates are milliseconds since the epoch, and a date field is
  missing, empty, unparsable or parsed. JavaScript's `Date` parsing, local
  time, `getDay`, `setDate` and `toLocaleDateString` are left out. Weekdays
  are inputs, and the month text of the generated window name is a parameter.
- Floating point. Weights and averages are exact reals, with no IEEE claims.
  The two-decimal rounding of averagePinsPerUser, the quota progress-bar width
  and `toFixed` display are left out.
- Password hashing and JWT. Hashing is a function parameter, and token
  verification is a partial function given as a parameter. The sign-in and
  token-issuing routes are not part of this model.
- Random invite tokens. The token is an input.
- Express route files. They only wire controllers to paths and guards.
- React rendering. Hooks, toasts, clipboard, `fetch` and the pages are left
  out. `saveWeight`'s request is left out too: its backend effect is
  `UpdateShiftWeight`.
- Concurrency. Races on pin or shift uniqueness are settled by the
  database's constraints, which are not shown.
- Unpinning. The frontend calls a delete route that the backend does not
  define, so no semantics is invented for it.
- Case mapping. `toUpperCase` and `toLowerCase` are modelled on ASCII letters
  only.
- String encoding. Strings are sequences of Unicode code points, whereas
  JavaScript counts UTF-16 code units. Outside the Basic Multilingual Plane the
  two differ: the password-length checks of `registerUser` and
  `signupViaInvite` count an emoji as one character where JavaScript counts
  two, and the sidebar's initials take a whole code point where `n[0]` takes
  half a surrogate pair.
- Shift type in the frontend. Its type is the lower-case "early"/"late" while
  the backend's enum is EARLY/LATE. Both are modelled as one enum; how the
  API maps one to the other is not shown.
- Group order. The groups of `getUserPins`, `getUserStats`, `getShiftStats`
  and `getAdminDashboard` come out in first-appearance order of the window
  id. That is the order `Object.values` gives for non-numeric keys. The ids
  reach the store unconverted from route parameters, so they are taken to be
  strings. For integer ids JavaScript would list the groups by ascending id.
- Quota multipliers. The three files use different ones: 40 in the backend
  statistics, 5 on the calendar card, "× 8" in a label on the statistics card.
  Each is modelled as written, and they are not reconciled.
- ShiftStatsView.SortedShifts: the result is the stable order (ties keep
  their input order), but the contract states only permutation and
  sortedness.
- StatsController.GetUserStats: states the count and total weight of each
  window entry; its averageWeight is stated separately by `TallyOfGroup`.
