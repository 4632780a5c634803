# VMS back end — a Dafny model of the visit workflow

VMS is a visitor management service for a plant. A manager logs a visit for a
visitor. A planned visit starts out approved by the manager. Security
approves or rejects the visitor at the gate, which also stamps the check-in
time, and later checks the visitor out. Staff accounts (manager, security,
admin) register, log in, are updated by an administrator and change their
passwords. Administrators list users and departments and read visit
analytics.

This project models the request handlers of the four controllers on an
in-memory copy of the `VMS` schema:

- `common.dfy`: `Option`/`Result`, SQL's three-valued logic (`SqlBool`), and
  the fresh-key oracle that stands in for `uuidv4()` and column defaults.
- `seqs.dfy`: the table operations the queries are built from. These are
  `WHERE` filters, `COUNT(*)`, the first matching row, `ORDER BY` sorts and
  projections.
- `grouping.dfy`: `SELECT key, COUNT(*) ... GROUP BY key`.
- `store.dfy`: rows of `vms_visitors`, `vms_visit_logs`, `vms_users` and
  `vms_departments`. The class `Db` holds the four tables, and `Db.Valid()`
  states their primary keys and the gate invariant of visit logs.
- `workflow.dfy`: the `status`, `visit_status` and `currentStatus` columns.
  Each is the SQL `CASE` evaluated under NULL semantics.
- `security.dfy`: security approval/rejection, checkout, the pending-request
  list, the processed-log report and the security dashboard.
- `manager.dfy`: find-or-create of a visitor, logging a visit, and the
  visit-log listing.
- `auth.dfy`: register, login, `updateUser` with its dynamically built
  `SET` clause, and change-password.
- `admin.dfy`: the user listing, the department listing and the visit
  analytics.

The handlers that change tables are methods on `Db` with `modifies` frames.
Each states its reply and the new table in terms of a function on the old
table. The queries are functions. bcrypt is the pair of function parameters
`hash` and `matches`. The current time is a parameter `now`. Token signing is
replaced by returning the payload that would be signed.

Notes on the handlers' behaviour:

- `findOrCreateVisitor` never fills in missing fields of a visitor it finds.
- No manager approval step and no exit-approval step exist in the handlers.
  `manager_exit_approval` is only ever NULL.
- `updateUser` does not check that a new email is unused, so two users can
  share an email. Login then reads whichever row the database returns
  first; the model takes the first by table position.
- `changePassword` never reads `confirmPassword`.
- The checkout reply says "not found or already checked out", but the
  update has no condition on `check_out_time`. A second checkout succeeds
  and overwrites the time (`Security.CheckoutTwiceOverwrites`). Checking out
  a visit that was never checked in gives the 'Unknown' visit status
  (`Security.CheckoutBeforeCheckIn`).
- On the security dashboard the in-plant count reads the visit logs alone,
  while the checked-in list joins the visitor and the host user. A visit
  logged without a host, then checked in, is counted but not listed
  (`Security.SecurityVisitAnalytics`).

## Model

| member | source | states |
|---|---|---|
| Common.FreshId | controllers/manager.js:23 | the new key differs from every key already in the table |
| Workflow.StatusOf | controllers/security.js:167-171 | 'Approved' iff both gates are TRUE, 'Rejected' iff either is FALSE, 'Pending' otherwise (a NULL gate with no FALSE); only the two gates are read |
| Workflow.VisitStatusOf | controllers/security.js:260-266 | 'Rejected' exactly when the status is Rejected; otherwise the nullness of check-in/check-out decides: neither means 'Not Visited Yet', check-in only means 'Checked In Only', both mean 'Checked Out', and 'Unknown' only for a check-out without a check-in |
| Workflow.CurrentStatusOf | controllers/security.js:101-105 | 'Checked In' iff checked in and not out, 'Checked Out' iff both, 'Pending' iff never checked in |
| Workflow.DecidedVisitWasCheckedIn | controllers/security.js:33-39 | a visit that security has decided, with consistent gates, is never 'Not Visited Yet' or 'Unknown' |
| Store.LaterVisitDateOrders | controllers/security.js:178 | `visit_date DESC` is a total, transitive order |
| Security.FindVisit | controllers/security.js:15-21 | the lookup finds a row with that id, or reports that none exists |
| Security.ApplyApproval | controllers/security.js:33-47 | the approval update keeps the number of rows and every visit id |
| Security.ApplyCheckout | controllers/security.js:201-206 | the checkout update keeps the number of rows and every visit id; its effect on the matched row is `CheckoutChangesOneRow` |
| Security.CheckoutChangesOneRow | controllers/security.js:201-206 | with unique ids, only the found row changes, and in it only the check-out time, which becomes the current time |
| Security.ApprovalChangesOneRow | controllers/security.js:33-47 | with unique ids, only the found row changes: gate, data and check-in time, stamped even on a rejection |
| Security.DecisionOutcome | controllers/security.js:33-47 | a rejection makes status and visit_status 'Rejected'; an approval of a manager-approved visit makes it 'Approved' and, if not checked out, 'Checked In Only' |
| Security.ApprovalKeepsGates | controllers/security.js:25-47 | the update keeps the gate invariant when TRUE is applied only to manager-approved rows |
| Security.CheckoutUnknownIsNoOp | controllers/security.js:201-213 | checking out an unknown id leaves the table unchanged |
| Security.CheckoutTwiceOverwrites | controllers/security.js:201-209 | a second checkout is not refused; the later time replaces the earlier one |
| Security.CheckoutKeepsGates | controllers/security.js:201-209 | checkout keeps the gate invariant and every row's status |
| Security.CheckoutBeforeCheckIn | controllers/security.js:201-206 | checking out, through the update, a found visit that was never checked in and is not rejected stamps its check-out time and makes its visit_status 'Unknown' |
| Security.ApproveVisitBySecurity | controllers/security.js:3-59 | guard order: 400 for a non-boolean approval, then 404 for an unknown visit, then 403 for approving without manager approval; a failure changes nothing; once every guard passes the reply is a success, which replaces exactly the found row by the decided row and returns the approve or reject message with that row; the table invariant is kept |
| Security.CheckoutVisitor | controllers/security.js:193-224 | 400 for an empty id, 404 when no row matches (table unchanged), success for any existing id; on success only the found row's check-out time changes, to now, and the reply is (id, now) |
| Security.SecurityRequestLogs | controllers/security.js:173-178 | exactly the rows with manager approval TRUE and security approval NULL, each as often as in the table, latest visit date first |
| Security.RequestIsPending | controllers/security.js:167-177 | a row the request filter admits is manager-approved, undecided by security, and so 'Pending' |
| Security.SecurityRequests | controllers/security.js:145-191 | every listed row is manager-approved, undecided by security and 'Pending'; rows are by visit date descending; the rows are exactly the security requests of the table |
| Security.LaterVisitThenCheckoutOrders | controllers/security.js:275 | `visit_date DESC, check_out_time DESC` is a total, transitive order |
| Security.ProcessedSelection | controllers/security.js:268-275 | exactly the rows the `WHERE` admits, each as often as in the table: both approvals TRUE, a check-out time, visit date in the inclusive range; ordered by visit date, then check-out time, descending |
| Security.ProcessedIsApproved | controllers/security.js:254-258 | a processed row has both gates TRUE and so reads 'Approved' |
| Security.ProcessedVisitLogs | controllers/security.js:226-288 | 400 exactly when a date is missing; otherwise every row lies in the inclusive date range, has both approvals TRUE and a check-out time, is 'Approved'; rows are ordered by visit date then check-out time, descending; and the rows are exactly those the `WHERE` admits |
| Security.ProcessedRowsCheckedOut | controllers/security.js:254-275 | with consistent gates, every processed row's visit_status is 'Checked Out' |
| Security.CheckedInVisitorsList | controllers/security.js:89-110 | one row per log of `InPlantJoined`, with that log's id, check-in time, purpose and accompanying persons, each reading 'Checked In' |
| Security.InPlantJoined | controllers/security.js:106-109 | exactly the logs checked in and not out whose visitor and host user both exist, each as often as in the table; never more than the in-plant count, and as many when every in-plant visit has both rows |
| Security.CheckedInListComplete | controllers/security.js:106-109 | every visit in the plant whose visitor and host user exist is on the list |
| Security.CheckedInListSound | controllers/security.js:106-109 | every listed visit is a log in the plant whose visitor and host user exist |
| Security.VisitsOn | controllers/security.js:64-68 | exactly the logs of that visit date, each as often as in the table; empty exactly when no log has that date |
| Security.PendingAndApprovedApart | controllers/security.js:71-81 | the pending (NULL) and approved (TRUE) counts add up to at most the number of visit logs |
| Security.CountsZero | controllers/security.js:70-87 | the pending, approved and in-plant counts are zero exactly when no log has security approval NULL, TRUE, or a check-in without a check-out |
| Security.SecurityVisitAnalytics | controllers/security.js:61-143 | each count is the number of logs its `WHERE` admits and is zero exactly when none does; pending plus approved is at most the total; the list is `CheckedInVisitorsList`, never longer than the in-plant count, and as long as it when every in-plant visit has its visitor and host user |
| Manager.FindVisitor | controllers/manager.js:6-15 | a found visitor matches the email or the contact number; none is found exactly when no visitor matches, a NULL never matching |
| Manager.ResolveVisitor | controllers/manager.js:5-32 | a match is reused unchanged and its id returned; otherwise exactly one visitor is appended under a fresh id with the given names and contacts; the returned id names a visitor with that email or contact; existing rows never change; ids stay unique |
| Manager.ResolveAgainReuses | controllers/manager.js:6-15 | with an email or contact given, resolving the same contacts again adds nothing and returns the same id |
| Manager.NoContactAlwaysAppends | controllers/manager.js:8 | with neither email nor contact, every call appends a visitor |
| Manager.FindOrCreateVisitor | controllers/manager.js:5-32 | the new visitor table and the returned id are the ones `ResolveVisitor` describes |
| Manager.NewVisitLog | controllers/manager.js:52-74 | manager approval is TRUE iff the visit type is 'planned', otherwise NULL; accompanying persons default to the empty list; every other gate, the security data and both timestamps are NULL; the row is 'Pending' and 'Not Visited Yet' and satisfies the gate invariant |
| Manager.LogVisit | controllers/manager.js:35-81 | the visit id is fresh; visitors change as `ResolveVisitor` says; exactly one log row `NewVisitLog(...)` is appended; the visitor table grows by at most one |
| Store.AppendVisitLog | controllers/manager.js:54-74 | inserting a row under a fresh id keeps the visit ids unique and the gate invariant of every row |
| Manager.AllVisitLogs | controllers/manager.js:95-112 | all visit logs, as a permutation of the table, by visit date descending |
| Auth.FindUserById | controllers/auth.js:164-169 | the lookup finds a user with that id, or reports that none exists |
| Auth.FindUserByEmail | controllers/auth.js:76-87 | the first user with that email, or none when no user has it |
| Auth.Register | controllers/auth.js:6-70 | guard order: 400 invalid role, then 400 email taken, then 400 unknown department, each without change; when all three pass the reply is a success, which appends one user under a fresh id storing `hash(password)` |
| Auth.Login | controllers/auth.js:72-112 | every failure is the same 401; success iff a user has the email and the password matches its hash; the payload is that user's id, email, role, designation and department |
| Auth.RegisterThenLogin | controllers/auth.js:39-99 | a user just registered logs in with the registered password and gets the registered identity |
| Auth.Given | controllers/auth.js:187-201 | every kept candidate is given, and there are none exactly when no field is truthy |
| Auth.GivenMultiset | controllers/auth.js:187-201 | each given candidate is kept as often as it occurs, and no other |
| Auth.GivenAppend | controllers/auth.js:187-201 | a further candidate is appended exactly when it is given, so the kept candidates follow the order of the tests |
| Auth.BuildSetClause | controllers/auth.js:182-212 | the k-th given field becomes `column = $k` with its value at position k; placeholders run 1, 2, … and the counter ends at n+1, the `WHERE` placeholder; nothing is set exactly when no field is given |
| Auth.SetClauseStoresGiven | controllers/auth.js:207-214 | the built clause, run with its parameters, stores exactly the given values in their columns |
| Auth.UpdateStatementMeansUpdate | controllers/auth.js:207-214 | the statement built from the nine tests, with the user id as its last parameter, updates the table exactly as the reference update `UpdateRows` |
| Auth.CandidatesMeanUpdate | controllers/auth.js:187-201 | applying the nine tests in order is the reference update: given fields replace their column, the password by its hash, and the rest is kept |
| Auth.UpdateRows | controllers/auth.js:207-214 | the update keeps the number of users and every user id |
| Auth.UpdateUser | controllers/auth.js:143-221 | guard order: 400 invalid role given, then 404 unknown user, then 400 unknown department given, then 400 `NoFieldsGiven` when no field is given, each without change; once the guards pass with a field given the reply is a success, and the table becomes `UpdateRows`, the reference update of that user |
| Auth.SetPasswordHash | controllers/auth.js:249-250 | only that user's hash changes, to the new one; every other row and column is kept |
| Auth.ChangePassword | controllers/auth.js:225-257 | 404 unknown user, then 401 wrong old password, each without change; otherwise a success in which only that user's hash is replaced by the hash of the new password |
| Auth.ChangedPasswordLogsIn | controllers/auth.js:247-250 | after the change, the new password logs in for that user's email |
| Admin.DepartmentUsers | controllers/admin.js:15-18 | exactly the users of that department, each as often as in the table |
| Admin.GetUsers | controllers/admin.js:3-30 | without a filter (absent, empty or '0') the view of every user, in table order; with one, the views of exactly the users of that department, as a multiset, so as many as there are and no others |
| Admin.HashesNotListed | controllers/admin.js:8-9 | tables that differ only in password hashes give the same listing |
| Admin.PasswordChangeNotListed | controllers/admin.js:8-9 | a password change leaves the listing as it was |
| Admin.NameLeTotal | controllers/admin.js:34 | any two names are ordered one way or the other |
| Admin.NameLeTransitive | controllers/admin.js:34 | the name order is transitive |
| Admin.NameLeAntisymmetric | controllers/admin.js:34 | names ordered both ways are equal |
| Admin.ByNameOrders | controllers/admin.js:34 | `department_name ASC` is a total, transitive order |
| Admin.GetAllDepartments | controllers/admin.js:32-44 | all departments, as a permutation of the table, by name ascending |
| Admin.DepartmentNameOf | controllers/admin.js:56-60 | the left join gives a name exactly when the log's department exists, and that department's name |
| Grouping.GroupCount | controllers/admin.js:49-51 | one group per distinct key, each with the number of occurrences, all positive, adding up to the row count |
| Grouping.CountOfAt | controllers/admin.js:49-51 | in a grouping with distinct keys, the count shown in a group is the count for its key |
| Admin.VisitTypeCounts | controllers/admin.js:48-52 | each visit type, NULL included, once, with the number of logs of that type; the counts add up to the number of logs |
| Admin.DepartmentCounts | controllers/admin.js:54-61 | each department name, NULL for none, once, with the number of logs in it, never zero; the counts add up to the number of logs |
| Admin.ApprovalStatusCounts | controllers/admin.js:63-73 | each status once, with the number of logs in it under the same classification as the security views; the counts add up to the number of logs |
| Admin.GetVisitAnalytics | controllers/admin.js:46-95 | each of the three counts adds up to the number of visit logs |

## Left out

- HTTP, Express routing, the middleware and the server start-up in `ceat.js` are not part of this model. This includes the XSS sanitiser, rate limits and token verification.
- The PostgreSQL pool in `config/db.js` is not part of this model. The tables are in-memory sequences, and every 500 "Internal server error" path is left out.
- Joins: the visitor, host-user and department columns that the listings join in are not modelled. The security requests and the processed logs inner-join the visitor (security.js:174, 269) and so drop a log whose visitor is missing; the model keeps such logs. Their host-user join is a left join and drops nothing. The checked-in list inner-joins both the visitor and the host user (security.js:107-108), and that join is modelled (`Security.InPlantJoined`); it is why the list can be shorter than `currentlyInPlant`. Joins are modelled as matching at most one row, which the primary keys guarantee.
- Ordering ties and collation: `ORDER BY` leaves the order of equal keys to the database, and the model fixes one order. Department names are compared by character code, not by the database collation.
- `getAllVisitors` is not modelled: it orders by `created_at`, a column the model does not hold.
- `getUser` and `getUserDetails` are not modelled: they only echo a stored row or the token's claims.
- Field types and absence: strings are not checked against the column types (a malformed uuid or date is an error of the database). `register` and `login` fields are taken as present. `security_data` and `accompanying_persons` are JSON text that the model does not parse.
- bcrypt, uuid generation, token signing and the clock are parameters or oracles. Their own behaviour (salting, cost factor, expiry) is not modelled.
- The textual rendering of the `SET` clause (`fields.join(', ')`) is not modelled. The clause is a list of column/placeholder pairs.
- Concurrency is not modelled: handlers run one at a time, and each is atomic.
- Row order without `ORDER BY`: `findOrCreateVisitor`'s `LIMIT 1`, `login`'s first row, the `getUsers` listing, the checked-in visitors list and the `GROUP BY` counts have no `ORDER BY`, so the database may return any matching row, in any order. The model fixes the first row, or table order, by position. This matters only when several rows match, as with two users sharing an email.
- Manager.FindVisitor: promises the first matching visitor by position; the database promises only some matching visitor.
- Auth.FindUserByEmail: promises the first user with that email by position; the database promises only some such user.
- Auth.Login: reads the user `FindUserByEmail` picks; with a shared email the database may pick another.
- Admin.GetUsers: lists rows in table order; the database promises no order.
- Security.CheckedInVisitorsList: lists the visits in the plant in table order (through `Security.InPlantJoined`); the query has no `ORDER BY`, so the database promises no order. Only the set of listed visits, stated by `CheckedInListComplete` and `CheckedInListSound`, is what the handler guarantees.
- Grouping.GroupCount: lists the groups in order of first appearance; `GROUP BY` promises no order, and the contracts of `GroupCount`, `VisitTypeCounts`, `DepartmentCounts` and `ApprovalStatusCounts` fix none.
- Admin.GetVisitAnalytics: states only the totals. The per-key counts are stated by `VisitTypeCounts`, `DepartmentCounts` and `ApprovalStatusCounts`.
