/**
  The batch grant of app/api/grant-annual-leave/route.ts (`POST`): an admin-only
  run over every employee that adds the new cycle's entitlement to each employee
  whose current cycle has started and has not been granted yet, and stamps the
  grant date. Database calls are replaced by their possible failures, passed in.
*/
module Grant {
  import opened Wrappers
  import opened Calendar
  import opened Seniority
  import opened Entitlement
  import opened Records

  /** One row of `updates`: the columns the upsert writes for one employee. */
  datatype GrantUpdate = GrantUpdate(
    id: EmployeeId,
    remainingAnnualLeaveDays: real,
    lastAnnualLeaveGrantDate: Date)

  datatype GrantResponse =
    | Unauthorized                                           // 401
    | ServerError(message: string)                           // 500
    | NoEmployees                                            // 200, nothing processed
    | Processed(processed: nat, updatedEmployees: map<EmployeeId, GrantUpdate>)  // 200

  datatype GrantRun = GrantRun(response: GrantResponse, employees: Employees)

  function SeniorityOf(e: Employee, today: Date): SeniorityDetails
    requires ValidEmployee(e) && ValidDate(today)
  {
    CalculateSeniority(e.hireDate, e.seniorityCorrectionDays, today)
  }

  /**
    The route's test: the current cycle (whose start is the `currentCycleStartDate`
    of `calculateSeniority`) has started, that is its start is today or earlier,
    and no grant is recorded on or after its start.
  */
  predicate EligibleForGrant(e: Employee, today: Date)
    requires ValidEmployee(e) && ValidDate(today)
  {
    var start := CurrentCycleStart(e.hireDate, today);
    !Before(today, start)
    && (e.lastAnnualLeaveGrantDate.None? || Before(e.lastAnnualLeaveGrantDate.value, start))
  }

  /** The days a grant adds: the table applied to the employee's current seniority. */
  function NewEntitlement(e: Employee, today: Date): int
    requires ValidEmployee(e) && ValidDate(today)
  {
    var s := SeniorityOf(e, today);
    CalculateAnnualLeave(s.seniorityInYears, s.seniorityInDaysAfterCorrection)
  }

  function GrantFor(e: Employee, today: Date): GrantUpdate
    requires ValidEmployee(e) && ValidDate(today)
  {
    GrantUpdate(e.id, RemainingOrZero(e) + NewEntitlement(e, today) as real, today)
  }

  ghost function EligibleIds(employees: Employees, today: Date): set<EmployeeId>
    requires WellFormedEmployees(employees) && ValidDate(today)
  {
    set id | id in employees && EligibleForGrant(employees[id], today)
  }

  /** The loop of lines 114-145: one update per eligible employee. */
  function CollectGrants(employees: Employees, today: Date): (updates: map<EmployeeId, GrantUpdate>)
    requires WellFormedEmployees(employees) && ValidDate(today)
    ensures updates.Keys == EligibleIds(employees, today)
    ensures |updates| == |EligibleIds(employees, today)|
    ensures forall id :: id in updates ==> updates[id] == GrantFor(employees[id], today)
  {
    map id | id in employees && EligibleForGrant(employees[id], today) :: GrantFor(employees[id], today)
  }

  /** The upsert keyed on id: updated rows get the two new columns, others stay as they are. */
  function ApplyGrants(employees: Employees, updates: map<EmployeeId, GrantUpdate>): (result: Employees)
    ensures result.Keys == employees.Keys
    ensures forall id :: id in employees && id !in updates ==> result[id] == employees[id]
    ensures forall id :: id in employees && id in updates ==>
      result[id] == employees[id].(remainingAnnualLeaveDays := Some(updates[id].remainingAnnualLeaveDays),
                                   lastAnnualLeaveGrantDate := Some(updates[id].lastAnnualLeaveGrantDate))
  {
    map id | id in employees ::
      if id in updates then
        employees[id].(remainingAnnualLeaveDays := Some(updates[id].remainingAnnualLeaveDays),
                       lastAnnualLeaveGrantDate := Some(updates[id].lastAnnualLeaveGrantDate))
      else employees[id]
  }

  /** What a grant does to one employee record. */
  function Granted(e: Employee, today: Date): Employee
    requires ValidEmployee(e) && ValidDate(today)
  {
    e.(remainingAnnualLeaveDays := Some(RemainingOrZero(e) + NewEntitlement(e, today) as real),
       lastAnnualLeaveGrantDate := Some(today))
  }

  /**
    `POST /api/grant-annual-leave` on the day `today`. `fetchError` and
    `upsertError` say whether the two database calls fail.
  */
  function GrantAnnualLeave(
    session: Option<SessionUser>, employees: Employees,
    fetchError: Option<string>, upsertError: Option<string>, today: Date): (run: GrantRun)
    requires WellFormedEmployees(employees) && ValidDate(today)
    ensures !IsAdmin(session) ==> run.response == Unauthorized
    ensures !run.response.Processed? ==> run.employees == employees
    ensures run.response.Processed? ==>
      && IsAdmin(session) && fetchError.None? && |employees| > 0
      && run.response.processed == |employees|
      && run.response.updatedEmployees.Keys == EligibleIds(employees, today)
      && run.employees.Keys == employees.Keys
      && (forall id :: id in employees && EligibleForGrant(employees[id], today) ==>
            run.employees[id] == Granted(employees[id], today))
      && (forall id :: id in employees && !EligibleForGrant(employees[id], today) ==>
            run.employees[id] == employees[id])
    ensures IsAdmin(session) && fetchError.None? && |employees| > 0
            && (upsertError.None? || EligibleIds(employees, today) == {})
            ==> run.response.Processed?
    ensures run.response.Processed? ==> run.response.updatedEmployees == CollectGrants(employees, today)
    ensures IsAdmin(session) && fetchError.Some? ==> run.response == ServerError(fetchError.value)
    ensures IsAdmin(session) && fetchError.None? && |employees| == 0 ==> run.response == NoEmployees
    ensures (IsAdmin(session) && fetchError.None? && |employees| > 0
             && EligibleIds(employees, today) != {} && upsertError.Some?)
            ==> run.response == ServerError(upsertError.value)
  {
    if !IsAdmin(session) then GrantRun(Unauthorized, employees)
    else if fetchError.Some? then GrantRun(ServerError(fetchError.value), employees)
    else if |employees| == 0 then GrantRun(NoEmployees, employees)
    else
      var updates := CollectGrants(employees, today);
      if updates != map[] && upsertError.Some? then GrantRun(ServerError(upsertError.value), employees)
      else
        GrantsApplied(employees, today);
        GrantRun(Processed(|employees|, updates), ApplyGrants(employees, updates))
  }

  /** The upsert of the collected updates grants the eligible employees and no one else. */
  lemma GrantsApplied(employees: Employees, today: Date)
    requires WellFormedEmployees(employees) && ValidDate(today)
    ensures forall id :: id in employees && EligibleForGrant(employees[id], today) ==>
      ApplyGrants(employees, CollectGrants(employees, today))[id] == Granted(employees[id], today)
    ensures forall id :: id in employees && !EligibleForGrant(employees[id], today) ==>
      ApplyGrants(employees, CollectGrants(employees, today))[id] == employees[id]
  {
    forall id | id in employees && EligibleForGrant(employees[id], today)
      ensures ApplyGrants(employees, CollectGrants(employees, today))[id] == Granted(employees[id], today)
    {
      GrantAppliedTo(employees, today, id);
    }
  }

  lemma GrantAppliedTo(employees: Employees, today: Date, id: EmployeeId)
    requires WellFormedEmployees(employees) && ValidDate(today)
    requires id in employees && EligibleForGrant(employees[id], today)
    ensures ApplyGrants(employees, CollectGrants(employees, today))[id] == Granted(employees[id], today)
  {
    var updates := CollectGrants(employees, today);
    assert id in updates;
    GrantForApplied(employees, updates, today, id);
  }

  lemma GrantForApplied(employees: Employees, updates: map<EmployeeId, GrantUpdate>, today: Date, id: EmployeeId)
    requires WellFormedEmployees(employees) && ValidDate(today)
    requires id in employees && id in updates && updates[id] == GrantFor(employees[id], today)
    ensures ApplyGrants(employees, updates)[id] == Granted(employees[id], today)
  {
  }

  // ---------------------------------------------------------------------------
  // Properties of the grant.
  // ---------------------------------------------------------------------------

  /** A grant keeps the table well formed. */
  lemma GrantPreservesWellFormed(employees: Employees, today: Date)
    requires WellFormedEmployees(employees) && ValidDate(today)
    ensures WellFormedEmployees(ApplyGrants(employees, CollectGrants(employees, today)))
  {
  }

  /** The correction changes only the granted amount, never whether a grant is due. */
  lemma CorrectionDoesNotAffectEligibility(e: Employee, correction: int, today: Date)
    requires ValidEmployee(e) && ValidDate(today)
    ensures EligibleForGrant(e.(seniorityCorrectionDays := correction), today)
            == EligibleForGrant(e, today)
  {
  }

  /**
    For an employee hired on or before today, a grant is due exactly
    when no grant is recorded on or after the latest anniversary.
  */
  lemma EligibleAfterHire(e: Employee, today: Date)
    requires ValidEmployee(e) && ValidDate(today)
    requires !Before(today, e.hireDate)
    ensures var years := SeniorityOf(e, today).seniorityInYears;
      EligibleForGrant(e, today)
      <==> (e.lastAnnualLeaveGrantDate.None?
            || Before(e.lastAnnualLeaveGrantDate.value, AddYears(e.hireDate, years)))
  {
  }

  /** An employee granted today is not eligible again today. */
  lemma GrantedNotEligibleSameDay(e: Employee, today: Date)
    requires ValidEmployee(e) && ValidDate(today)
    requires EligibleForGrant(e, today)
    ensures ValidEmployee(Granted(e, today))
    ensures !EligibleForGrant(Granted(e, today), today)
  {
  }

  /** After a run, nobody is eligible again on the same day. */
  lemma NoneEligibleAfterGrant(employees: Employees, today: Date)
    requires WellFormedEmployees(employees) && ValidDate(today)
    ensures WellFormedEmployees(ApplyGrants(employees, CollectGrants(employees, today)))
    ensures var after := ApplyGrants(employees, CollectGrants(employees, today));
      forall id :: id in after ==> !EligibleForGrant(after[id], today)
  {
  }

  /** With nobody eligible, a run collects no update and leaves the table as it is. */
  lemma NothingToGrant(employees: Employees, today: Date)
    requires WellFormedEmployees(employees) && ValidDate(today)
    requires forall id :: id in employees ==> !EligibleForGrant(employees[id], today)
    ensures CollectGrants(employees, today) == map[]
    ensures ApplyGrants(employees, map[]) == employees
  {
  }

  /**
    An admin run over a non-empty table with no database failure is processed, and
    leaves the table as the upsert of the collected updates makes it.
  */
  lemma SuccessfulRunWrites(session: Option<SessionUser>, employees: Employees, today: Date)
    returns (after: Employees)
    requires WellFormedEmployees(employees) && ValidDate(today)
    requires IsAdmin(session) && |employees| > 0
    ensures after == ApplyGrants(employees, CollectGrants(employees, today))
    ensures GrantAnnualLeave(session, employees, None, None, today).response.Processed?
    ensures GrantAnnualLeave(session, employees, None, None, today).employees == after
    ensures |after| == |employees|
  {
    after := ApplyGrants(employees, CollectGrants(employees, today));
    assert |after.Keys| == |employees.Keys|;
  }

  /** A run in which nobody is eligible reports no update and writes nothing. */
  lemma RunWithNobodyEligible(session: Option<SessionUser>, employees: Employees, today: Date)
    requires WellFormedEmployees(employees) && ValidDate(today)
    requires IsAdmin(session) && |employees| > 0
    requires forall id :: id in employees ==> !EligibleForGrant(employees[id], today)
    ensures GrantAnnualLeave(session, employees, None, None, today)
            == GrantRun(Processed(|employees|, map[]), employees)
  {
  }

  /**
    Idempotence: a second run on the same day, after a first run that met no
    database failure, grants nobody and writes nothing new.
  */
  lemma GrantTwiceSameDay(session: Option<SessionUser>, employees: Employees, today: Date)
    requires WellFormedEmployees(employees) && ValidDate(today)
    requires IsAdmin(session) && |employees| > 0
    ensures var first := GrantAnnualLeave(session, employees, None, None, today);
      && first.response.Processed?
      && WellFormedEmployees(first.employees)
      && var second := GrantAnnualLeave(session, first.employees, None, None, today);
      && second.response == Processed(|employees|, map[])
      && second.employees == first.employees
  {
    var after := SuccessfulRunWrites(session, employees, today);
    NoneEligibleAfterGrant(employees, today);
    RunWithNobodyEligible(session, after, today);
  }
}
