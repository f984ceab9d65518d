# Annual-leave entitlement and balance engine — a Dafny model

This project models the annual-leave core of a small HR web application (Next.js + Supabase):

- **Seniority.** How many years an employee has completed since their hire date, where their current seniority cycle started, and how many days remain until the next one (`calculateSeniority`).
- **Entitlement.** The tiered entitlement table of Article 38 of Taiwan's Labor Standards Act, as the code encodes it (`calculateAnnualLeave`).
- **Batch grant.** The admin-only run that adds each new cycle's entitlement to every employee's balance.
- **Employee creation.** Seeds a new employee's balance and last grant date.
- **Approval handler.** Approves or rejects a request and deducts approved annual leave from the balance. The approval list also has a status/employee filter and a sort toggle, both modelled.
- **Leave-request form.** Its validation schema, the encoding of free-text "other" leave types, the record it saves, and the employee it files for.
- **Change-password flow.** Checks run in order, then a compare-then-write of the stored hash.

The clock, the database and bcrypt are not modelled directly:

- **Clock.** "Today" is an explicit `Date` argument.
- **Database.** Every database call is replaced by the table it reads or writes, plus a flag or error string saying whether the call fails.
- **bcrypt.** It is an oracle: the comparison is a function parameter, and the salted hash of the new password is an input.

Modules and files:

| file | module | models |
|---|---|---|
| `wrappers.dfy` | `Wrappers` | `Option`, `Result` |
| `calendar.dfy` | `Calendar` | the proleptic Gregorian calendar and the date-fns functions used: `isBefore`, `differenceInDays`, `differenceInYears`, `addYears` |
| `text.dfy` | `Text` | decimal rendering, JavaScript `trim`, `startsWith`, and the `YYYY-MM-DD` dates and the clock times (`HH`, `HH:MM`, `HH:MM:SS` and the colon-less forms) of `parseISO` |
| `seniority.dfy` | `Seniority` | `calculateSeniority` |
| `entitlement.dfy` | `Entitlement` | `calculateAnnualLeave` |
| `records.dfy` | `Records` | the `Employee` and `LeaveRequest` rows and the session user |
| `grant.dfy` | `Grant` | `POST /api/grant-annual-leave` |
| `new_employee.dfy` | `NewEmployee` | employee creation |
| `approvals.dfy` | `Approvals` | `handleUpdateRequestStatus`, the list filter, `requestSort` |
| `leave_form.dfy` | `LeaveForm` | `leaveRequestSchema`, the leave-type encoding, `leaveDataToSave`, `targetEmployeeId`, `onSubmit` |
| `change_password.dfy` | `ChangePassword` | the change-password `handleSubmit` |

The grant route carries its own copies of `calculateSeniority` and `calculateAnnualLeave`. The copies are identical to the functions in `app/lib/utils.ts`, apart from comments and the missing `export`. So one definition of each models both copies, and the grant's properties hold for the route's copies.

Notes on the code as written:

- **Years 10–24.** From 10 completed years the table gives 15 + (years − 10) days, capped at 30. So it gives 15 days at 10 years and reaches 30 at 25 years. The statute adds one day per year *after* ten years, which some read as 16 days at 10 years. The model follows the code (`Entitlement.YearSchedule`).
- **Correction days.** The correction moves only the corrected day count. During the first year, a correction that pushes that count to 365 or more makes the entitlement 0, not 3. The year count, and with it every later tier, ignores the correction.
- **Feb 29 hires.** For a hire date of Feb 29, `differenceInYears` on Feb 28 of a common year still counts the previous year. Meanwhile `addYears` has already clamped the anniversary to Feb 28. So on that day the wait to the next cycle is 0 days (`Seniority.LeapDayHireOnFebruary28`). So the lemmas that bracket today between anniversaries exclude Feb 29 hire dates: `Calendar.CompletedYearsBracket`, `Calendar.CompletedYearsIsLargest`, `Seniority.CycleStartIsLatestAnniversary` and `NewEmployee.BackdatedHireGrantedAgain`. The other lemmas hold for every hire date.
- **Non-atomic approval.** The balance write and the status write are separate calls. A failure of the second leaves the deduction in place.
- **No pending check in the handler.** The page offers the approve and reject buttons only on pending rows (app/leave/approvals/page.tsx:414), and it fetches the list again after each decision. But the handler itself does not re-check the status. So a second approval that reaches it, from a stale list, a second click while the first call is running, or a direct call, deducts the amount again (`Approvals.ApprovingTwiceDeductsTwice`).
- **Back-dated hires.** A new employee's balance is the entitlement of the current cycle, but the last grant date is the hire date. When the hire date lies a completed year or more in the past, that date precedes the current cycle. So the batch grant run on the day of creation adds the same entitlement again (`NewEmployee.BackdatedHireGrantedAgain`). For example, a 2021-03-01 hire created on 2024-06-01 starts at 14 days and is raised to 28. The model keeps this behaviour.

## Model

| member | source | states |
|---|---|---|
| Calendar.AddYears | app/lib/utils.ts:40-51 | adding years keeps month and day, and clamps Feb 29 to Feb 28 in a common target year; the result is always a valid date |
| Calendar.BeforeMatchesDayNumber | app/api/grant-annual-leave/route.ts:126-128 | the calendar order on (year, month, day) used for `isBefore` is exactly the order of day numbers, so of the compared timestamps |
| Calendar.CompletedYearsBracket | app/lib/utils.ts:32 | for a hire on or before today, `differenceInYears` is n ≥ 0 with addYears(hire, n) ≤ today < addYears(hire, n + 1) |
| Calendar.CompletedYearsIsLargest | app/lib/utils.ts:32 | every anniversary already reached has index at most the completed-year count |
| Text.TrimAfterLeadingWhitespace | app/leave/new/page.tsx:178 | trimming whitespace followed by a trimmed string gives that string back |
| Text.ParseClockTime | app/leave/new/page.tsx:92-101 | `HH:MM` from the time inputs and `HH:MM:SS` as a stored time pre-fills the edit form (lines 182-183) both parse to the clock time they write, in seconds after midnight |
| Text.ParseFormattedDate | app/api/grant-annual-leave/route.ts:121-142 | a date written as `YYYY-MM-DD` (the stamped grant date) parses back to the same date |
| Seniority.CycleLabel | app/lib/utils.ts:38-48 | the cycle label is "未滿1年" exactly when fewer than one year is completed |
| Seniority.CycleLabelRoundTrip | app/lib/utils.ts:38-48 | the whole label "n年-(n+1)年" parses back to the pair (n, n + 1) for every n ≥ 1, and the first-year label parses to no count |
| Seniority.CurrentCycleStart | app/lib/utils.ts:51 | the current cycle start is a valid date in the hire month |
| Seniority.CalculateSeniority | app/lib/utils.ts:21-62 | the uncorrected day count is the number of days from hire to today (day numbers); corrected days are uncorrected days plus the correction; the days until the next cycle are the days from today to the next anniversary, addYears(hire, 1) in the first year (or before hire) and addYears(hire, years + 1) afterwards; the uncorrected count is positive iff hire is before today and zero iff hire is today; the cycle start is addYears(hire, years), the current cycle start; the label is "未滿1年" iff fewer than one year is completed, and otherwise parses back to (years, years + 1) |
| Seniority.CycleStartIsLatestAnniversary | app/lib/utils.ts:32-51 | the cycle start is the latest anniversary reached: today lies in [start, next anniversary), no later anniversary is reached, and the wait to the next cycle is positive and is exactly the number of days from today to addYears(hire, years + 1) |
| Seniority.FutureHireNextCyclePositive | app/lib/utils.ts:38-41 | for a hire date in the future the year count is at most 0 and the wait is positive and is exactly the number of days from today to the first anniversary |
| Seniority.CorrectionOnlyShiftsDays | app/lib/utils.ts:26-32 | two corrections give the same years, cycle start, label and wait; the corrected counts differ by exactly the difference of the corrections |
| Seniority.LeapDayHireOnFebruary28 | app/lib/utils.ts:32-51 | a Feb 29, 2024 hire on Feb 28, 2025 has 0 completed years, cycle start at the hire date and 0 days to the next cycle |
| Entitlement.CalculateAnnualLeave | app/lib/utils.ts:70-91 | the entitlement is always between 0 and 30 days |
| Entitlement.AnnualLeaveFollowsSchedule | app/lib/utils.ts:74-86 | from one completed year on, the table equals the year-by-year schedule 7, 10, 14, 14, 15×6, 16 … 30, and 30 afterwards |
| Entitlement.AnnualLeaveTierValues | app/lib/utils.ts:70-91 | the boundary values: 179 days → 0, 180 and 364 days → 3, 1 year → 7, 2 → 10, 3 and 4 → 14, 5 and 10 → 15, 15 → 20, 40 → 30 |
| Entitlement.AnnualLeaveCap | app/lib/utils.ts:74-78 | the entitlement is 30 exactly from 25 completed years |
| Entitlement.AnnualLeaveMonotone | app/lib/utils.ts:74-86 | from one completed year on, more years never give fewer days |
| Entitlement.AnnualLeaveIgnoresDaysFromFirstYear | app/lib/utils.ts:74-86 | from one completed year on, the corrected day count plays no part |
| Entitlement.FractionalCorrectionActsAsFloor | app/lib/utils.ts:87-90 | a fractional corrected day count crosses the 180- and 365-day thresholds exactly when its floor does, so the first-year tier is the same |
| Entitlement.FirstYearTier | app/lib/utils.ts:87-90 | in the first year the entitlement is 3 iff the corrected day count is in [180, 365), else 0, including at 365 or more |
| Grant.CollectGrants | app/api/grant-annual-leave/route.ts:114-145 | the collected updates are keyed by exactly the eligible employees, one per employee, each carrying the old balance (null as 0) plus the new entitlement and today's date |
| Grant.ApplyGrants | app/api/grant-annual-leave/route.ts:147-156 | the upsert keeps the set of employees, changes only the two grant columns of updated rows, and leaves the other rows as they were |
| Grant.GrantAnnualLeave | app/api/grant-annual-leave/route.ts:83-161 | a non-admin gets 401; only a processed run changes the table; a processed run reports every employee, updates exactly the eligible ones with their entitlement and leaves the rest unchanged; with admin, a good fetch, a non-empty table and a good upsert (or nothing to write) the run is processed, and its updates are exactly the collected grants; a failed fetch gives 500 with its message; an empty table gives 200 "No employees found."; a failed upsert of a non-empty update list gives 500 with its message |
| Grant.CorrectionDoesNotAffectEligibility | app/api/grant-annual-leave/route.ts:115-129 | whether a grant is due does not depend on the correction days |
| Grant.EligibleAfterHire | app/api/grant-annual-leave/route.ts:120-129 | for an employee hired on or before today, a grant is due iff no grant is recorded on or after the latest anniversary |
| Grant.GrantedNotEligibleSameDay | app/api/grant-annual-leave/route.ts:126-143 | an employee just granted today is not eligible again today |
| Grant.NoneEligibleAfterGrant | app/api/grant-annual-leave/route.ts:114-156 | after the upsert nobody in the table is eligible on the same day |
| Grant.GrantPreservesWellFormed | app/api/grant-annual-leave/route.ts:147-156 | the upsert keeps every row keyed by its own id and with a valid hire date |
| Grant.NothingToGrant | app/api/grant-annual-leave/route.ts:126-156 | with nobody eligible the loop collects no update and the upsert leaves the table as it is |
| Grant.GrantTwiceSameDay | app/api/grant-annual-leave/route.ts:83-161 | a second run on the same day after a successful one updates nobody and leaves the table unchanged (idempotence) |
| NewEmployee.FormWithDefaults | app/employees/new/page.tsx:34-35 | an untouched form submits correction 0 and role "employee" |
| NewEmployee.NewEmployeeRecord | app/employees/new/page.tsx:47-67 | the new row's balance is the entitlement of its seniority on the day of creation, and its last grant date is the hire date |
| NewEmployee.CreateEmployee | app/employees/new/page.tsx:56-71 | the insert fails iff the database refuses it; on success it adds exactly the new row and leaves the others unchanged |
| NewEmployee.NotGrantedInFirstYear | app/employees/new/page.tsx:47-67 | during the first year the cycle start is the hire date, so the batch grant finds nothing to add for a new row |
| NewEmployee.BackdatedHireGrantedAgain | app/employees/new/page.tsx:47-67 | a row created a completed year or more after its hire date is eligible for the batch grant that same day, which doubles its initial balance |
| NewEmployee.InitialBalanceSixMonthsIn | e2e/leave.spec.ts:108-119 | a 2023-01-01 hire created 180 to 364 days later starts with 3 days |
| Approvals.UpdateRequestStatus | app/leave/approvals/page.tsx:200-306 | the balance moves only for an annual approval inside the current cycle, by the duration (hours / 8); read or balance-write failures abort with nothing written; the status write records the decision and sets the deduction mark iff a deduction was due; success iff none of the calls on the path failed |
| Approvals.EmployeeCycleStart | app/leave/approvals/page.tsx:220-224 | the cycle start the approval compares against is the valid date `calculateSeniority` reports for the employee |
| Approvals.HourlyDeductionInDays | app/leave/approvals/page.tsx:238-243 | 8d hours deduct what d days do; 4 hours deduct 0.5 days |
| Approvals.RejectOrOtherTypeWritesStatusOnly | app/leave/approvals/page.tsx:207-283 | a rejection, or an approval of another leave type, writes only the status and never the balance or the deduction mark |
| Approvals.PredatingLeaveApprovedWithoutDeduction | app/leave/approvals/page.tsx:225-236 | an annual leave starting before the current cycle is approved with the balance and the deduction mark untouched |
| Approvals.DeductionHasNoFloor | app/leave/approvals/page.tsx:253-263 | a due deduction lowers the balance (null as 0) by the amount with no floor, so it can go negative, and sets the deduction mark |
| Approvals.StatusWriteFailureAfterDeduction | app/leave/approvals/page.tsx:257-283 | a failing status write after a deduction keeps the deduction and leaves the request unchanged |
| Approvals.ApprovingTwiceDeductsTwice | app/leave/approvals/page.tsx:200-268 | approving the same annual request twice deducts its amount twice |
| Approvals.ApprovalScenario | e2e/leave.spec.ts:121-182 | from a balance of 3, a one-day approval leaves 2 and a four-hour one leaves 2.5 |
| Approvals.Filter | app/leave/approvals/page.tsx:175 | the filtered list holds each request that passes as often as the input does, and nothing else |
| Approvals.FilterRequests | app/leave/approvals/page.tsx:171-180 | the shown list is exactly the requests matching both filters, with multiplicities, and "all"/"all" shows the input unchanged |
| Approvals.FilterAppend | app/leave/approvals/page.tsx:175 | filtering a concatenation is the concatenation of the filtered parts, so the order of the input is kept |
| Approvals.FilterSingleton | app/leave/approvals/page.tsx:175 | a single request is kept exactly when it passes |
| Approvals.FilterRequestsKeepsOrder | app/leave/approvals/page.tsx:171-180 | the filtered list, before any sort, keeps the fetched order: both filters distribute over concatenation, and one request is shown iff it matches both filters |
| Approvals.RequestSort | app/leave/approvals/page.tsx:308-318 | the new sort key is the clicked key, and the direction is descending iff that key was ascending |
| Approvals.RequestSortToggles | app/leave/approvals/page.tsx:308-318 | clicking the same key twice flips the direction; clicking another key starts ascending |
| LeaveForm.ValidFormIff | app/leave/new/page.tsx:30-119 | the schema accepts a form iff: the type is one of the five; both dates are `\d{4}-\d{2}-\d{2}`; duration ≥ 0.1; reason has 1..100 characters and remarks at most 200; "其他" has a label; the end date is not before the start; hourly leave has both times and, on one day, does not end before it starts |
| LeaveForm.TimesWithSecondsCompared | app/leave/new/page.tsx:92-101 | a one-day hourly leave whose `HH:MM:SS` end is earlier than its `HH:MM:SS` start is rejected |
| LeaveForm.SameDayPassesDateOrder | app/leave/new/page.tsx:61-72 | a leave ending on its start date passes the date-order check |
| LeaveForm.EqualTimesPassTimeOrder | app/leave/new/page.tsx:91-102 | hourly leave ending at its start time passes the time-order check |
| LeaveForm.DurationBound | app/leave/new/page.tsx:45 | the duration issue is reported iff the duration is below 0.1 |
| LeaveForm.ReasonEmptyBound | app/leave/new/page.tsx:46-48 | the empty-reason issue is reported iff the reason is empty |
| LeaveForm.ReasonLengthBound | app/leave/new/page.tsx:46-49 | the reason-length issue is reported iff the reason is longer than 100 characters |
| LeaveForm.RemarksBound | app/leave/new/page.tsx:50 | the remarks issue is reported iff remarks are present and longer than 200 |
| LeaveForm.OtherWithoutLabelRejected | app/leave/new/page.tsx:53-59 | "其他" with a missing or empty label is rejected |
| LeaveForm.LeaveTypeRoundTrip | app/leave/new/page.tsx:177-178 | decoding the stored type written at line 235 gives back the selection: the four fixed types with an empty label, and "其他" with its label when it has no surrounding whitespace |
| LeaveForm.TargetEmployeeChoice | app/leave/new/page.tsx:216-227 | editing files for the edited request's employee, else an admin's query parameter, else the signed-in user, whenever neither the edited request's employee nor an admin's parameter is present; a non-admin creating a request always files for themselves; the target is never empty |
| LeaveForm.SavedRecordShape | app/leave/new/page.tsx:230-246 | the saved record uses hours iff the leave is hourly, keeps times only for hourly leave, is pending, and its leave type decodes back to the form's selection and label |
| LeaveForm.SubmitLeaveRequest | app/leave/new/page.tsx:200-259 | an invalid form is refused with its issues; a missing user id is refused; a database error gives SaveFailed; otherwise the submit succeeds and saves exactly `leaveDataToSave` for the target employee, submitted by the signed-in user, as an update iff a request id is being edited |
| LeaveForm.SubmittedRecord | app/leave/new/page.tsx:216-250 | what a successful submit saves: hours iff hourly, times only for hourly leave, pending, a leave type that decodes back to the selection, a non-empty target, and for a non-admin's new request the signed-in user |
| ChangePassword.ChangeOwnPassword | app/change-password/page.tsx:42-135 | a failed input check makes no database call; otherwise the stored hash is read first; a read failure or wrong current password makes no write; success iff all checks pass, the current password matches and the write succeeds, and then only the user's hash becomes the new hash |
| ChangePassword.PreCheck | app/change-password/page.tsx:46-80 | the input checks pass iff there is a signed-in user id, the confirmation equals the new password and the new password has at least 6 characters; a failure is one of the three input errors |
| ChangePassword.PreChecksInOrder | app/change-password/page.tsx:46-80 | a missing session wins over a confirmation mismatch, which wins over a short new password; with a session and a matching confirmation, the password is refused as too short iff it has fewer than 6 characters, and at 6 or more all checks pass |
| ChangePassword.LengthBoundary | app/change-password/page.tsx:70-80 | with a session and a matching confirmation, a 6-character new password passes the checks and a 5-character one is refused as too short |
| ChangePassword.ChangeTouchesOnlyOwnHash | app/change-password/page.tsx:108-115 | a change keeps the table well formed and alters only the signed-in user's password hash |
| ChangePassword.NewPasswordBecomesCurrent | app/change-password/page.tsx:95-115 | after a change, the new password is accepted as the current one, and a password that does not match the new hash is refused |

## Left out

- The network, React state, toasts, redirects and `console` output are not modelled. Each database call is reduced to its effect on the table and a failure flag.
- Concurrency is not modelled: each handler runs against one snapshot. In particular, the approval handler reads and then writes the balance, and that lost-update race is not modelled.
- bcrypt is not modelled: `bcrypt.compare` is a function parameter and `bcrypt.hash` an input string.
- `startOfDay(new Date())` becomes the `today` argument. Time zones are not modelled. The grant stamps `toISOString()`, which is the UTC date, and the model takes it to be `today`. So the model assumes the server runs in UTC.
- `seniorityInYearsDecimal` is a display-only floating-point field that no decision uses, so it is left out.
- Balances and durations are exact reals. JavaScript floating-point rounding (for example of `duration / 8`) is not modelled.
- Deleting an approved request with its balance credit-back, the manual balance adjustment on the employee pages, and the used-days total shown on the detail page are not modelled. They lie outside the grant/approval core.
- The approval list's sort (app/leave/approvals/page.tsx:182-195) is not modelled. That covers its comparator (`getNestedValue` with `<`/`>` on mixed values) and its in-place sorting, which also reorders the fetched list when both filters are "all". Only the direction toggle `requestSort` is modelled. The order property `Approvals.FilterRequestsKeepsOrder` is about the filtered list before that sort.
- `parseISO` dates are modelled only in the `YYYY-MM-DD` form. The schema demands that form, so no valid form has another.
- The correction-days field is read with `Number(...)`, so it can hold a fraction such as 0.5, while the model keeps it an integer. The year count and the cycle dates ignore the correction. The first-year tier with a fractional correction is the tier with its floor (`Entitlement.FractionalCorrectionActsAsFloor`). The displayed corrected day count and the stored correction keep the fraction in the source but not in the model.
- String lengths count characters, both in the schema's reason and remarks limits and in the change-password check `newPassword.length < 6` (app/change-password/page.tsx:70). JavaScript counts UTF-16 code units, which differ only outside the Basic Multilingual Plane. There a character counts twice, so for example a 5-character password with one emoji passes the source's check but fails the model's.
- The new-employee form's hire date is taken to be a valid date. An empty or malformed hire date (an Invalid Date in the source) is not modelled.
- The leave form's `duration === undefined` branch is not modelled, because the schema already requires a number.
- The schema is modelled with zod 3 semantics: an unknown leave type aborts the object parse, so `superRefine` does not run, while the other field failures leave it running.
- Calendar.CompletedYearsIsLargest: stated for hire dates that are not Feb 29. For a Feb 29, 2020 hire, addYears(hire, 1) is 2021-02-28 and is reached on that day, yet the year count is still 0.
- Calendar.CompletedYearsBracket: stated for hire dates that are not Feb 29, because the clamped anniversary breaks the bracket for such hires (see `Seniority.LeapDayHireOnFebruary28`).
- Seniority.CycleStartIsLatestAnniversary: stated for hire dates on or before today and not on Feb 29, for the same reason. Future hire dates are covered separately by `Seniority.FutureHireNextCyclePositive`.
- LeaveForm.ValidFormIff: a time with a decimal fraction (`10:30.5`, `10,5`) or a zone designator (`Z`, `+08:00`) counts as unparseable in the model, so the time-order check passes. date-fns `parseISO` reads such times, and the source compares them. Neither form comes from the form's time inputs.
- NewEmployee.BackdatedHireGrantedAgain: stated for hire dates that are not Feb 29. For such a hire the clamped Feb 28 anniversary can be reached before the year count moves on, so the record need not be eligible.
- LeaveForm.SubmittedRecord: the decoded label equals the entered one only for labels without surrounding whitespace, because the decoder trims it.
- LeaveForm.LeaveTypeRoundTrip: stated for labels without surrounding whitespace, because the decoder trims the label.
- ChangePassword.ChangeOwnPassword: the `.update().eq()` of a row that vanished after the read is not modelled. The read and the write see the same table.
