# Engineering resource management: capacity accounting and store rules

This project models the core of an Express/Mongoose backend that assigns
engineers to projects and reports how much of each engineer's time is
allocated. It covers four areas:

- **Capacity accounting.** Allocation percentages are summed over an
  engineer's active assignments. When both range dates are given, only
  records that meet the range (inclusive at both ends) count. The result
  feeds three endpoints. The dashboard floors the available capacity at 0.
  The engineer-capacity endpoint and the available-engineers search do not.
  The fleet summary, project progress, timeline progress and role tallies
  are built from the same sums.
- **The stores.** A `Database` class holds users and projects (maps keyed
  by id) and the assignment records (a sequence in insertion order). Its
  invariant is the unique (engineerId, projectId) index, unique ids, the
  schema bound on allocation, no engineer id listed twice in a project's
  embedded `assignedEngineers` list, and every listed entry within the
  sub-schema's bound. Ids are taken in their canonical spelling, which is
  what keeps the list free of repeats (see "## Left out"). Each write handler is a module-level
  method that takes the store as a parameter. Each states its answer and
  the whole new state.
- **Access gates.** Token extraction, the mapping of verification outcomes,
  the role gates, and the self-or-admin and owner-or-admin checks. Each is
  a decision: proceed, or answer with 401/403/404/500.
- **Request-body rules.** The range and enum rules in front of the write
  handlers. Lemmas show that a body passing them cannot trip the schema's
  own bounds on save.

Modules: `Wrappers` (Option), `Seqs` (filter), `Domain` (enums, user and
project documents, replies), `AssignmentModel` (the assignment document),
`Capacity` (queries, sums, capacity formulas), `Persistence` (the store
class), `DashboardController`, `AssignmentController`, `UserController`,
`ProjectController`, `AuthMiddleware`, `ValidationMiddleware` and
`Consistency` (cross-endpoint lemmas).

Numbers: percentages, hours, rates and budgets are `real`. Dates and the
current time are `int` timestamps, and the current time is a parameter.
Ids are `nat` from one id space. The store's `nextId` counter stands for
ObjectId generation.

Behaviour of the code worth knowing:

- A duplicate (engineer, project) pair is answered with 400 "Assignment
  already exists".
- An assignment's status cannot leave `active` through any modelled route.
  Creation sets it. The update rule admits no `status` key. Neither update
  handler touches it (`Consistency.StatusStaysActive`). So `deleteUser`
  stays refused for as long as the user has any assignment record.
- The token is the second space-separated piece of the header, whatever
  the first piece says.
- The project rule checks the length of the name before the schema trims
  it. A name of three spaces passes the rule and is stored empty, so the
  save refuses it with 500 rather than 400
  (`ValidationMiddleware.BlankNamePassesValidation`).

## Model

| member | source | states |
|---|---|---|
| Domain.ParseAssignmentRole | backend/Models/Assignment.js:15-19 | a role string is accepted exactly when it is one of lead, developer, tester, analyst, and the accepted value names that string |
| Domain.AssignmentRoleRoundTrip | backend/Models/Assignment.js:15-19 | every role reads back from its own name |
| Domain.ParseProjectStatus | backend/Models/Project.js:14-18 | a status string is accepted exactly when it is one of planning, active, on-hold, completed, cancelled |
| Domain.ProjectStatusRoundTrip | backend/Models/Project.js:14-18 | every project status reads back from its own name |
| Domain.ParsePriority | backend/Models/Project.js:27-31 | a priority string is accepted exactly when it is one of low, medium, high, critical |
| Domain.PriorityRoundTrip | backend/Models/Project.js:27-31 | every priority reads back from its own name |
| AssignmentModel.NewAssignment | backend/Models/Assignment.js:4-67 | a new record carries every supplied field, including hours allocated and hourly rate; absent keys take the schema defaults (role developer, allocation 100, hours and rate 0); status active, hoursWorked 0, both timestamps the creation time |
| AssignmentModel.PreSave | backend/Models/Assignment.js:70-73 | saving sets updatedAt to the save time and changes no other field |
| AssignmentModel.IndexOf | backend/Models/Assignment.js:4-67 | finding by id yields a position holding that id, and nothing exactly when no record has the id |
| AssignmentModel.RemoveAt | backend/Controllers/AssignmentController.js:125 | removal drops one position and keeps every other record in order |
| AssignmentModel.AppendKeepsUniquePairs | backend/Models/Assignment.js:76 | inserting a record whose pair is absent keeps the pair index unique |
| AssignmentModel.RemoveAtKeepsUniqueness | backend/Models/Assignment.js:76 | removing a record keeps pairs and ids unique |
| AssignmentModel.RemoveAtMembers | backend/Controllers/AssignmentController.js:125 | with unique ids, deleting the record at a position leaves exactly the records with other ids |
| AssignmentModel.ReplaceKeepsUniqueness | backend/Models/Assignment.js:76 | replacing a record by one with the same id and a pair no other record holds keeps both unique |
| Capacity.SingleCriterion | backend/Controllers/AssignmentController.js:194 | a one-condition query matches exactly the records meeting that condition |
| Capacity.Find | backend/Controllers/AssignmentController.js:172 | a query returns exactly the stored records matching every condition, never more than the collection holds |
| Capacity.TotalConcat | backend/Controllers/AssignmentController.js:175 | the sum over two lists is the sum of their sums |
| Capacity.FindConcat | backend/Controllers/AssignmentController.js:172 | querying two lists is querying each and concatenating |
| Capacity.FindFind | backend/Controllers/DashboardController.js:143-150 | filtering the query result again is one query with both condition lists |
| Capacity.NonMatchingRecordIsIrrelevant | backend/Controllers/DashboardController.js:212-218 | removing a record the query does not match never changes a filtered sum |
| Capacity.TotalNonNegative | backend/Controllers/DashboardController.js:95-97 | a sum over records whose summed field is non-negative is non-negative |
| Capacity.AllocationBounds | backend/Models/Assignment.js:20-25 | records within the schema bound sum to between 0 and 100 per record |
| Capacity.DateFilter | backend/Controllers/DashboardController.js:197-203 | the date condition applies only when both dates are given, and then keeps exactly the records whose interval meets the range, ends included |
| Capacity.CapacityQuery | backend/Controllers/DashboardController.js:212-216 | the capacity query matches exactly the engineer's active records meeting the date condition |
| Capacity.AllocationOf | backend/Controllers/DashboardController.js:218 | with all records in bounds, an engineer's total lies between 0 and 100 times the number of records counted |
| Capacity.ClampedCapacity | backend/Controllers/DashboardController.js:219 | the dashboard capacity is max(100 - total, 0): never negative, 100 - total up to 100%, 0 beyond |
| Capacity.EngineerFilters | backend/Controllers/DashboardController.js:143-150 | the engineer's active records are the capacity records without a range, and the recent ones are exactly those starting on or after the cut-off |
| DashboardController.Tally | backend/Controllers/DashboardController.js:107-111 | the tally's keys are the values present, and each count is that value's multiplicity |
| DashboardController.FourRolesCover | backend/Controllers/DashboardController.js:107-111 | the four role counts of a list add up to its length |
| DashboardController.RoleDistributionSums | backend/Controllers/DashboardController.js:94-111 | the role distribution sums to the number of the project's assignments |
| DashboardController.EngineersOf | backend/Controllers/DashboardController.js:206-208 | the engineer list is the users with role engineer or team_lead, in collection order: it equals `Seqs.Filter` by that role test, so order and repeats follow the input |
| DashboardController.StatsAverageUtilization | backend/Controllers/DashboardController.js:53-55 | the average times max(engineer count, 1) is the sum over all active records, and it is non-negative for records in bounds |
| DashboardController.ProgressPercentage | backend/Controllers/DashboardController.js:98 | progress is worked/allocated·100 when hours are allocated and exactly 0 otherwise; it lies in [0, 100] while worked ≤ allocated |
| DashboardController.TimelineProgress | backend/Controllers/DashboardController.js:101-104 | timeline progress lies in [0, 100]: 0 before the start, 100 after the end, the elapsed share in between; a zero-length project gives 0 before its date, 100 after it, and NaN (`None`) exactly at it |
| DashboardController.AnalyticsOver | backend/Controllers/DashboardController.js:94-111 | the project's counts and sums, progress as above, timeline progress equal to `TimelineProgress` of the project's dates, the role tally `Tally(RolesOf(found))`, whose counts add up to the engineer count |
| DashboardController.ProjectAnalyticsOf | backend/Controllers/DashboardController.js:81-111 | 404 exactly for an unknown project, else the analytics over the project's records as the query returns them, in collection order |
| DashboardController.EngineerAnalyticsOf | backend/Controllers/DashboardController.js:137-178 | 404 for an unknown user, 500 when a record's project is gone, else: totalProjects counts the engineer's records, activeProjects ≤ totalProjects, currentAllocation sums the active ones only, totalHoursWorked sums hours over all their records, the two distributions tally their records' project statuses and roles, and recent is the engineer's records in collection order cut to those starting on or after the cut-off |
| DashboardController.DetailsOf | backend/Controllers/DashboardController.js:232-237 | one detail per record, read from the record's project; none when a project is gone |
| DashboardController.CapacityRowOf | backend/Controllers/DashboardController.js:211-238 | a row's total is the engineer's allocation over the range, and its capacity is that total clamped, never negative; its assignment list is `DetailsOf` the engineer's capacity records, one detail per record with the project's name and status, the allocation and the role |
| DashboardController.CapacityRowsOf | backend/Controllers/DashboardController.js:211 | one row per engineer, in order; it fails exactly when some engineer's capacity records point at a deleted project |
| DashboardController.CountUnderutilized | backend/Controllers/DashboardController.js:245 | the count is the number of rows with more than 50% available, hence at most the number of rows |
| DashboardController.CountOverutilized | backend/Controllers/DashboardController.js:246 | the count is the number of rows allocated beyond 100%, hence at most the number of rows |
| DashboardController.Summarize | backend/Controllers/DashboardController.js:242-246 | totalEngineers is the row count; the average is 0 for no rows and total/count otherwise; the two counts are the numbers of rows with more than 50% free and with more than 100% allocated |
| DashboardController.UnderAndOverAreDisjoint | backend/Controllers/DashboardController.js:245-246 | with clamped rows no engineer is both under- and over-utilised, so the two counts together stay within the fleet |
| DashboardController.ResourceCapacity | backend/Controllers/DashboardController.js:193-246 | succeeds exactly when every engineer's capacity records point at existing projects, else 500; then one row per engineer user, in order, each total equal to that engineer's allocation over the range and each capacity max(100 - total, 0), each assignment list the details of that engineer's capacity records; the summary counts the rows above, and under- plus over-utilised never exceed the fleet |
| Persistence.RemoveKeepsRecordsValid | backend/Models/Assignment.js:76 | deleting one record keeps ids below the counter, the schema bound and both uniqueness rules |
| Persistence.AddProjectKeepsFiled | backend/Models/Project.js:4-71 | filing a project with its required strings and no repeated engineer under a handed-out id keeps the project invariant |
| Persistence.Database.constructor | backend/Models/Assignment.js:76 | an empty store satisfies the store invariant |
| Persistence.Database.NewId | backend/Controllers/AssignmentController.js:29 | a fresh id is handed out and the invariant kept |
| AssignmentController.CreateAssignment | backend/Controllers/AssignmentController.js:6-53 | 404 for a missing engineer, then for a missing project; 400 for an existing pair, whatever the dates; 500 when the schema refuses the allocation; otherwise exactly one record with the supplied fields and assignedBy = requester is appended. The store is unchanged on every failure, and the invariant is kept |
| AssignmentController.ApplyUpdate | backend/Controllers/AssignmentController.js:103-106 | an update replaces the supplied fields, keeps absent ones and never touches status, hoursWorked, assignedBy or the timestamps |
| AssignmentController.UpdateAssignment | backend/Controllers/AssignmentController.js:98-119 | 500 for an out-of-range allocation (even for a missing id), 404 for an unknown id, 500 when the new pair belongs to another record, with the store unchanged in each case; otherwise exactly the target record is updated |
| AssignmentController.DeleteAssignment | backend/Controllers/AssignmentController.js:122-135 | 404 exactly for an unknown id; otherwise exactly that record goes and all others remain in order |
| AssignmentController.UpdateHoursWorked | backend/Controllers/AssignmentController.js:138-158 | 404 exactly for an unknown id; otherwise only hoursWorked of the target record changes |
| AssignmentController.EngineerCapacity | backend/Controllers/AssignmentController.js:161-187 | the engineer's active records in collection order (the capacity query's result), range-filtered only when both dates are given; their allocation sum; capacity 100 - total unclamped, so negative when over-allocated |
| AssignmentController.ProjectResourceAllocation | backend/Controllers/AssignmentController.js:190-213 | the project's records as the query returns them, in collection order; totalEngineers is their count and the three totals are plain sums, with allocation at most 100 per record |
| AssignmentController.AppendAllocation | backend/Controllers/AssignmentController.js:29-42 | inserting a record changes an engineer's allocation by that record's contribution only |
| AssignmentController.RemoveAllocation | backend/Controllers/AssignmentController.js:125 | deleting a record takes off its contribution only |
| AssignmentController.ReplaceKeepsAllocation | backend/Controllers/AssignmentController.js:143-146 | replacing a record by one the capacity query treats alike leaves every allocation unchanged |
| AssignmentController.HoursUpdateKeepsAllocation | backend/Controllers/AssignmentController.js:143-146 | recording hours never changes any engineer's allocation |
| AssignmentController.CreationRaisesAllocation | backend/Controllers/AssignmentController.js:29-42 | a created record raises its engineer's allocation by its own percentage over any range it meets |
| UserController.DeleteUser | backend/Controllers/UserController.js:67-94 | refused with 400, and nothing removed, while the user has an active assignment; this check comes before the existence check; 404 for an unknown user; otherwise only that user goes and the assignments stay |
| UserController.StripPassword | backend/Controllers/UserController.js:47-48 | the body loses its password key and keeps every other key |
| UserController.ApplyUserUpdate | backend/Controllers/UserController.js:50-54 | every key the body carries replaces the stored field; the others stay |
| UserController.UpdateUser | backend/Controllers/UserController.js:42-64 | 404 exactly for an unknown user; otherwise the user is updated and the stored password is unchanged whatever the body says |
| UserController.GetUserDashboard | backend/Controllers/UserController.js:131-175 | 404 for an unknown user. For engineers and team leads: exactly their assignment records in stored order, their count, the hours-worked sum over them and the active allocation sum. For admins and project managers: the set and count of the projects naming them as manager. Zero defaults for other roles |
| UserController.CandidateFor | backend/Controllers/UserController.js:196-212 | a candidate's allocation is the active overlapping sum and its capacity is 100 minus it, unclamped |
| UserController.WithCapacity | backend/Controllers/UserController.js:196-215 | one candidate per engineer, in order |
| UserController.WithCapacityMembers | backend/Controllers/UserController.js:196-215 | the mapped list holds exactly the engineers' candidates |
| UserController.Plain | backend/Controllers/UserController.js:194 | without a range every engineer appears, without figures, in order |
| UserController.PlainMembers | backend/Controllers/UserController.js:194 | the plain list holds exactly the engineers |
| UserController.RangedCandidates | backend/Controllers/UserController.js:195-220 | with a range, every engineer's candidate in order, cut by `filter` to those at or above the minimum when one is given |
| UserController.AvailableEngineers | backend/Controllers/UserController.js:178-227 | the answer is built from `Filter` of the users by the query, in collection order: only engineers and team leads who are not unavailable, and who match a skill when skills are given; with both dates, capacities are unclamped and the minimum keeps exactly those at or above it; without them, every eligible user, no figures |
| Seqs.Filter | backend/Controllers/UserController.js:219 | the filter keeps exactly the elements passing the test |
| Seqs.FilterConcat | backend/Controllers/UserController.js:219 | filtering keeps the input's order |
| Seqs.FilterAll | backend/Controllers/ProjectController.js:169-171 | when every element passes, the filter changes nothing |
| Seqs.FilterIdempotent | backend/Controllers/ProjectController.js:169-171 | filtering twice by the same test is filtering once |
| Text.JsLength | backend/Middlewares/ValidationMiddleware.js:6-7 | the length Joi bounds: one unit per BMP character, two per character above it; between the character count and twice it, zero exactly for the empty text, equal to the count for BMP-only text |
| Text.JsLengthConcat | backend/Middlewares/ValidationMiddleware.js:6-7 | the length of a concatenation is the sum of the lengths |
| Text.TrimEnd | backend/Models/Project.js:8 | the trailing white space goes: what remains is a prefix not ending with white space, and all that was dropped is white space |
| Text.Trim | backend/Models/Project.js:8 | the trimmed text has white space at neither end, is never longer, and is empty exactly when the text is all white space |
| Text.TrimPadding | backend/Models/Project.js:8 | trimming white space around a core with no white space at its ends gives back exactly the core |
| Text.TrimIdempotent | backend/Models/Project.js:8 | trimming twice is trimming once |
| ProjectController.NewProject | backend/Models/Project.js:4-71 | a new project carries the supplied fields with the name trimmed, and status planning, priority medium, budget 0 and no engineers by default |
| ProjectController.CreateProject | backend/Controllers/ProjectController.js:5-35 | 404 when the manager does not exist, 403 when they are neither admin nor project manager, 500 when the trimmed name or the description is empty, and nothing is saved in those cases; otherwise exactly one new project is stored |
| ProjectController.DeleteProject | backend/Controllers/ProjectController.js:92-105 | 404 exactly for an unknown project; otherwise only that project goes and assignment records stay |
| ProjectController.NewEntry | backend/Controllers/ProjectController.js:139-145 | the pushed entry carries the supplied fields, with role developer and allocation 100 by default |
| ProjectController.AppendKeepsDistinctEngineers | backend/Controllers/ProjectController.js:130-145 | pushing an engineer the list lacks keeps each engineer listed at most once |
| ProjectController.AssignEngineer | backend/Controllers/ProjectController.js:108-157 | 404 for a missing project or user, 403 for a non-engineer role, 400 when the engineer is already listed, 500 exactly when the save refuses the new entry's allocation (the store invariant keeps every earlier entry within bound, so the save checks only the new one in effect); each failure leaves the list unchanged. Otherwise exactly one entry is added at the end |
| ProjectController.WithoutEngineer | backend/Controllers/ProjectController.js:169-171 | removal keeps exactly the entries of other engineers and leaves none for this one |
| ProjectController.WithoutEngineerKeepsOrder | backend/Controllers/ProjectController.js:169-171 | removal keeps the other entries in their original order |
| ProjectController.WithoutAbsentEngineer | backend/Controllers/ProjectController.js:169-171 | removing an engineer who is not listed leaves the list as it was |
| ProjectController.WithoutEngineerIdempotent | backend/Controllers/ProjectController.js:169-171 | removing twice is removing once |
| ProjectController.RemoveUndoesAssign | backend/Controllers/ProjectController.js:139-171 | removing an engineer right after assigning them restores the list |
| ProjectController.WithoutEngineerKeepsDistinct | backend/Controllers/ProjectController.js:169-171 | removal keeps each engineer listed at most once |
| ProjectController.RemoveEngineer | backend/Controllers/ProjectController.js:160-183 | 404 exactly for an unknown project; otherwise every entry for the engineer goes and the others keep their order; an unlisted engineer is no error |
| AuthMiddleware.Split | backend/Middlewares/AuthMiddleware.js:8 | splitting yields at least one piece and no piece contains a space |
| AuthMiddleware.JoinSplit | backend/Middlewares/AuthMiddleware.js:8 | joining the pieces with spaces gives back the header |
| AuthMiddleware.SplitJoin | backend/Middlewares/AuthMiddleware.js:8 | splitting space-free pieces joined by spaces gives back the pieces |
| AuthMiddleware.SplitWord | backend/Middlewares/AuthMiddleware.js:8 | a space-free word in front of a text joins onto the text's first piece |
| AuthMiddleware.BearerToken | backend/Middlewares/AuthMiddleware.js:7-12 | the token is the second space-separated piece when it exists and is non-empty; otherwise there is none |
| AuthMiddleware.BearerTokenRoundTrip | backend/Middlewares/AuthMiddleware.js:8 | a header "scheme token" yields exactly the token |
| AuthMiddleware.Authenticate | backend/Middlewares/AuthMiddleware.js:5-32 | 401 "Access token required" without a token; 401 "Invalid token" for a malformed token or an unknown user; 401 "Token expired"; 500 otherwise; success exactly when verification names an existing user |
| AuthMiddleware.AuthorizeRoles | backend/Middlewares/AuthMiddleware.js:35-50 | 401 without a user, through exactly when the role is listed, 403 otherwise |
| AuthMiddleware.AuthorizeRolesMonotone | backend/Middlewares/AuthMiddleware.js:35-50 | a larger role list lets through everyone a smaller one does |
| AuthMiddleware.IsAdmin | backend/Middlewares/AuthMiddleware.js:53-55 | through exactly for an admin |
| AuthMiddleware.IsProjectManager | backend/Middlewares/AuthMiddleware.js:58-60 | through exactly for an admin or project manager |
| AuthMiddleware.IsTeamLead | backend/Middlewares/AuthMiddleware.js:63-65 | through exactly for an admin, project manager or team lead |
| AuthMiddleware.RoleGatesNested | backend/Middlewares/AuthMiddleware.js:53-65 | passing isAdmin implies passing isProjectManager, which implies passing isTeamLead |
| AuthMiddleware.CanManageUser | backend/Middlewares/AuthMiddleware.js:68-83 | 401 without a user; through exactly for an admin or for the user's own id; 403 otherwise |
| AuthMiddleware.CanManageProject | backend/Middlewares/AuthMiddleware.js:86-115 | 401 without a user; an admin passes without a lookup; 404 for a missing project; its manager passes whatever their role; 403 for everyone else |
| ValidationMiddleware.Gate | backend/Middlewares/ValidationMiddleware.js:39-45 | a failing body is answered with 400 and never reaches the handler |
| ValidationMiddleware.AssignmentValidation | backend/Middlewares/ValidationMiddleware.js:26-46 | a passing body has both ids, a listed role, allocation in [0, 100], end strictly after start, non-negative hours and rate, and notes of 1 to 500 UTF-16 code units (JavaScript's length) |
| ValidationMiddleware.ToAssignmentFields | backend/Controllers/AssignmentController.js:8 | the handler reads the body's fields unchanged (ids, dates, allocation, hours, rate, notes), the role cast to its enum and absent exactly when the body has none |
| ValidationMiddleware.ValidatedAssignmentIsSchemaValid | backend/Middlewares/ValidationMiddleware.js:31-35 | a record built from a passing body is within the schema bound and has a proper interval, so the save cannot fail on it |
| ValidationMiddleware.HoursWorkedValidation | backend/Middlewares/ValidationMiddleware.js:73-85 | through exactly when hoursWorked is present and not negative |
| ValidationMiddleware.EngineerAssignmentValidation | backend/Middlewares/ValidationMiddleware.js:88-104 | a passing body has an engineer, a listed role, allocation in [0, 100] and end strictly after start |
| ValidationMiddleware.ToEngineerFields | backend/Controllers/ProjectController.js:111 | the handler reads the body's fields unchanged, the role cast to its enum and absent exactly when the body has none |
| ValidationMiddleware.ValidatedEntryIsValid | backend/Middlewares/ValidationMiddleware.js:92-94 | an entry built from a passing body is within the sub-schema bound, so the 500 branch of assignEngineer is unreachable for it |
| ValidationMiddleware.ProjectValidation | backend/Middlewares/ValidationMiddleware.js:4-23 | a passing body has a name of 3 to 100 and a description of 10 to 1000 UTF-16 code units (JavaScript's length), starts after now, ends after the start, and has a listed priority, a non-negative budget and a manager |
| ValidationMiddleware.ToProjectFields | backend/Controllers/ProjectController.js:7 | the handler reads the body's fields unchanged, technologies included, the priority cast to its enum and absent exactly when the body has none |
| ValidationMiddleware.ValidatedProjectIsWellFormed | backend/Middlewares/ValidationMiddleware.js:8-9 | a project created from a passing body has a future, proper timeline and no engineers |
| ValidationMiddleware.BlankNamePassesValidation | backend/Middlewares/ValidationMiddleware.js:6 | a body whose name is three spaces passes the project rule, yet its trimmed name is empty, so the schema's required check refuses it on save |
| ValidationMiddleware.AstralCharactersCountTwice | backend/Middlewares/ValidationMiddleware.js:6 | a name of two characters above the BMP has length 4 and passes `min(3)`; a single one has length 2 and is refused with 400 |
| ValidationMiddleware.ProjectUpdateValidation | backend/Middlewares/ValidationMiddleware.js:107-127 | a passing update has, when given, a name of 3 to 100 and a description of 10 to 1000 UTF-16 code units, a listed status, a listed priority and a non-negative budget when given |
| ValidationMiddleware.UpdateMayInvertTimeline | backend/Middlewares/ValidationMiddleware.js:112-113 | a project update may put the end before the start: the update rule does not compare the dates |
| Consistency.CapacityFiguresAgree | backend/Controllers/DashboardController.js:218-219 | the three endpoints report the same allocation; the dashboard's capacity is the others' floored at 0, and they differ exactly above 100% |
| Consistency.OverAllocationCase | backend/Controllers/AssignmentController.js:175-176 | 40% and 70% records that both meet the range give 110% allocation, dashboard capacity 0 and capacity-endpoint capacity -10 |
| Consistency.RangeOnlyNarrows | backend/Controllers/DashboardController.js:197-203 | the example's allocation is 110% with no range or only one date, and 0 over a range both records miss |
| Consistency.ManagersPassForManagedProjects | backend/Middlewares/AuthMiddleware.js:104-106 | a non-admin passes the project gate exactly for the projects their dashboard lists as managed |
| Consistency.StatusStaysActive | backend/Models/Assignment.js:34-38 | creation yields an active record, and neither the update nor the hours update changes the status |

## Left out

- Database I/O is not modelled. Queries run over the in-memory store.
  `populate` is a lookup in the project map. A populated project that was
  deleted surfaces as the 500 it causes, in the engineer analytics and the
  capacity overview. Elsewhere its null value is never read.
- `Promise.all` in the capacity overview and the available-engineers search
  is taken as an in-order map. Nothing concurrent is modelled. Neither is
  the check-then-insert race that the unique index closes.
- JWT signing and verification are left out, and so is password hashing.
  Verification is a function parameter that returns the outcome.
- Rounding of the reported averages and percentages to two decimals
  (`Math.round(x*100)/100`) is left out.
- Date arithmetic (`new Date()`, `setMonth`, `setDate`) is left out.
  `now` and the six-months-ago cut-off are parameters.
- DashboardController.TimelineProgress: for a project whose end comes
  before its start (a project update allows it, see
  `UpdateMayInvertTimeline`) only the [0, 100] bound is stated. The
  infinities of a zero-length project are not represented; only their
  clamped values 0 and 100 are.
- The rule library's own parsing is left out: type coercion, date strings,
  and refusing unknown keys. The user-update rule is left out too. Bodies
  are records with a fixed set of optional keys.
- UserController.AvailableEngineers: `minCapacity` is taken as an
  already-parsed integer. The source's `parseInt` can yield NaN, which
  would empty the list. That case is not modelled.
- UserController.AvailableEngineers: `skills` is taken as an already-split
  list. The comma split of the query string is not modelled.
- UserController.UpdateUser: the body covers name, role, skills,
  experience, rate, availability, department and password. Phone,
  location and bio are not modelled. Neither is an email change, which
  could hit the unique email index.
- Responses drop the password (`select('-password')`). This projection is
  not modelled. The model returns stored users as they are.
- User records, and the `updatedAt` stamp of user saves, are left out
  (backend/Models/User.js has no other logic). The project's own pre-save
  stamp appears as `updatedAt := now` in AssignEngineer and RemoveEngineer.
- Ids are taken in their canonical lower-case hexadecimal spelling, as
  `ObjectId.toString()` prints them. `findById` also accepts other
  spellings (upper-case hex), but three places compare the request's id
  string with `toString()`, so such a spelling counts as a different user
  there. The three lines below say what each then does.
- ProjectController.AssignEngineer: with another spelling of a listed
  engineer's id, the duplicate test misses and a second entry for the same
  engineer is pushed. The model's "no engineer listed twice" holds only for
  canonical ids.
- ProjectController.RemoveEngineer: with another spelling, nothing is
  removed and the answer is still 200.
- AuthMiddleware.CanManageUser: with another spelling of the user's own id,
  a non-admin is refused with 403.
- Ids are valid by construction. The 500 that a malformed id string causes
  (a cast error in `findById`) is not modelled. Neither is the generic
  catch-all 500 of each handler beyond the cases listed in the table.
- The read-only list endpoints are not modelled: all assignments, by
  engineer, by project, all users, engineers, project managers, projects
  by status. The project update and the aggregate statistics in
  getDashboardStats are not modelled either. Only the utilisation line of
  getDashboardStats is.
- The React frontend, route wiring and server start-up are not part of
  this model.
