/**
  The approval page (app/leave/approvals/page.tsx): `handleUpdateRequestStatus`,
  which approves or rejects a request and, for an annual-leave approval inside the
  current cycle, deducts it from the employee's balance; the status/employee list
  filter; and the sort-direction toggle `requestSort`.

  Each database call either succeeds or fails; which ones fail is passed in as
  `Faults`. A failure aborts the remaining calls, and whatever was written before
  it stays written.
*/
module Approvals {
  import opened Wrappers
  import opened Calendar
  import opened Text
  import opened Seniority
  import opened Records

  const HoursPerDay: real := 8.0

  const ApprovedStatus: string := "approved"
  const RejectedStatus: string := "rejected"

  datatype Decision = Approve | Reject

  function StatusOf(decision: Decision): string {
    match decision
    case Approve => ApprovedStatus
    case Reject => RejectedStatus
  }

  /** Which of the four database calls fail. */
  datatype Faults = Faults(employeeRead: bool, balanceRead: bool, balanceWrite: bool, statusWrite: bool)

  const NoFaults: Faults := Faults(false, false, false, false)

  datatype ApprovalError =
    | EmployeeReadFailed
    | EmployeeNotFound
    | BalanceReadFailed
    | BalanceWriteFailed
    | StatusWriteFailed

  /**
    The store after the step, and its outcome: on success, whether the balance was
    deducted (false also covers a leave that predates the current cycle).
  */
  datatype ApprovalStep = ApprovalStep(db: Db, outcome: Result<bool, ApprovalError>)

  predicate IsAnnualApproval(request: LeaveRequest, decision: Decision) {
    decision == Approve && request.leaveType == AnnualLeaveType
  }

  /**
    `isBefore(parseISO(request.startDate), cycleStart)`: a start date that does not
    parse is an Invalid Date, which is before nothing.
  */
  predicate StartsBeforeCycle(request: LeaveRequest, cycleStart: Date)
    requires ValidDate(cycleStart)
  {
    var start := ParseIsoDate(request.startDate);
    start.Some? && Before(start.value, cycleStart)
  }

  /** Days to deduct: the duration, divided by 8 for an hourly request. */
  function DeductionAmount(request: LeaveRequest): real {
    if request.durationUnit == HourUnit then request.duration / HoursPerDay else request.duration
  }

  /** The current cycle start of the request's employee, recomputed on the day of approval. */
  function EmployeeCycleStart(e: Employee, today: Date): (start: Date)
    requires ValidEmployee(e) && ValidDate(today)
    ensures ValidDate(start)
    ensures start == CalculateSeniority(e.hireDate, e.seniorityCorrectionDays, today).currentCycleStartDate
  {
    CurrentCycleStart(e.hireDate, today)
  }

  /** An annual approval of a known employee whose leave does not predate the current cycle. */
  predicate DeductionDue(employees: Employees, request: LeaveRequest, decision: Decision, today: Date)
    requires WellFormedEmployees(employees) && ValidDate(today)
  {
    && IsAnnualApproval(request, decision)
    && request.employeeId in employees
    && !StartsBeforeCycle(request, EmployeeCycleStart(employees[request.employeeId], today))
  }

  /** The request table after the status write: status set, and the deduction mark set when `deducted`. */
  function RecordDecision(requests: map<RequestId, LeaveRequest>, id: RequestId, decision: Decision, deducted: bool)
    : map<RequestId, LeaveRequest>
  {
    if id in requests then
      requests[id := requests[id].(status := StatusOf(decision),
                                   deductedFromAnnualLeave := deducted || requests[id].deductedFromAnnualLeave)]
    else requests
  }

  /** The employee table after a deduction: only that employee's balance moves. */
  function Deduct(employees: Employees, id: EmployeeId, amount: real): Employees
    requires id in employees
  {
    employees[id := employees[id].(remainingAnnualLeaveDays := Some(RemainingOrZero(employees[id]) - amount))]
  }

  /** The final status write, with `deductedFromAnnualLeave: true` in the payload when `deducted`. */
  function WriteStatus(db: Db, faults: Faults, request: LeaveRequest, decision: Decision, deducted: bool)
    : ApprovalStep
  {
    if faults.statusWrite then ApprovalStep(db, Failure(StatusWriteFailed))
    else ApprovalStep(db.(requests := RecordDecision(db.requests, request.id, decision, deducted)), Success(deducted))
  }

  /** `handleUpdateRequestStatus(request, newStatus)` on the day `today`. */
  function UpdateRequestStatus(db: Db, faults: Faults, request: LeaveRequest, decision: Decision, today: Date)
    : (step: ApprovalStep)
    requires WellFormedEmployees(db.employees) && ValidDate(today)
    // Only an annual approval touches the employee table, and only when a deduction is due.
    ensures !DeductionDue(db.employees, request, decision, today) ==> step.db.employees == db.employees
    ensures DeductionDue(db.employees, request, decision, today) && !faults.employeeRead
            && !faults.balanceRead && !faults.balanceWrite
            ==> step.db.employees == Deduct(db.employees, request.employeeId, DeductionAmount(request))
    // A failed read or balance write aborts before anything is written.
    ensures IsAnnualApproval(request, decision) && faults.employeeRead
            ==> step == ApprovalStep(db, Failure(EmployeeReadFailed))
    ensures IsAnnualApproval(request, decision) && !faults.employeeRead && request.employeeId !in db.employees
            ==> step == ApprovalStep(db, Failure(EmployeeNotFound))
    ensures DeductionDue(db.employees, request, decision, today) && !faults.employeeRead
            && (faults.balanceRead || faults.balanceWrite)
            ==> step.db == db && step.outcome.Failure?
    // The status write comes last; it records the decision and the deduction mark.
    ensures step.outcome.Failure? ==> step.db.requests == db.requests
    ensures step.outcome.Success? ==>
      && step.db.requests == RecordDecision(db.requests, request.id, decision, step.outcome.value)
      && (step.outcome.value <==> DeductionDue(db.employees, request, decision, today))
    ensures step.outcome.Success? <==>
      && !faults.statusWrite
      && (IsAnnualApproval(request, decision) ==>
            && !faults.employeeRead && request.employeeId in db.employees
            && (DeductionDue(db.employees, request, decision, today) ==> !faults.balanceRead && !faults.balanceWrite))
  {
    if IsAnnualApproval(request, decision) then
      if faults.employeeRead then ApprovalStep(db, Failure(EmployeeReadFailed))
      else if request.employeeId !in db.employees then ApprovalStep(db, Failure(EmployeeNotFound))
      else
        var e := db.employees[request.employeeId];
        if StartsBeforeCycle(request, EmployeeCycleStart(e, today)) then
          WriteStatus(db, faults, request, decision, false)
        else if faults.balanceRead then ApprovalStep(db, Failure(BalanceReadFailed))
        else if faults.balanceWrite then ApprovalStep(db, Failure(BalanceWriteFailed))
        else
          var deducted := db.(employees := Deduct(db.employees, request.employeeId, DeductionAmount(request)));
          WriteStatus(deducted, faults, request, decision, true)
    else
      WriteStatus(db, faults, request, decision, false)
  }

  // ---------------------------------------------------------------------------
  // Properties of the ledger step.
  // ---------------------------------------------------------------------------

  /** Hours convert to days at 8 per day: an hourly request of 8d hours deducts what a d-day request does. */
  lemma HourlyDeductionInDays(request: LeaveRequest, days: real)
    ensures DeductionAmount(request.(durationUnit := HourUnit, duration := days * HoursPerDay))
            == DeductionAmount(request.(durationUnit := DayUnit, duration := days))
    ensures DeductionAmount(request.(durationUnit := HourUnit, duration := 4.0)) == 0.5
  {
  }

  /**
    A rejection, or an approval of any other leave type, writes only the status:
    balances and deduction marks are untouched.
  */
  lemma RejectOrOtherTypeWritesStatusOnly(db: Db, request: LeaveRequest, decision: Decision, today: Date)
    requires WellFormedEmployees(db.employees) && ValidDate(today)
    requires !IsAnnualApproval(request, decision)
    ensures var step := UpdateRequestStatus(db, NoFaults, request, decision, today);
      && step.outcome == Success(false)
      && step.db.employees == db.employees
      && step.db.requests == RecordDecision(db.requests, request.id, decision, false)
      && (request.id in db.requests ==>
            step.db.requests[request.id].deductedFromAnnualLeave
            == db.requests[request.id].deductedFromAnnualLeave)
  {
  }

  /**
    An annual approval whose leave starts before the current cycle keeps the
    balance, does not set the deduction mark, and still approves.
  */
  lemma PredatingLeaveApprovedWithoutDeduction(db: Db, request: LeaveRequest, today: Date)
    requires WellFormedEmployees(db.employees) && ValidDate(today)
    requires request.leaveType == AnnualLeaveType && request.employeeId in db.employees
    requires StartsBeforeCycle(request, EmployeeCycleStart(db.employees[request.employeeId], today))
    ensures var step := UpdateRequestStatus(db, NoFaults, request, Approve, today);
      && step.outcome == Success(false)
      && step.db.employees == db.employees
      && (request.id in db.requests ==>
            && step.db.requests[request.id].status == ApprovedStatus
            && step.db.requests[request.id].deductedFromAnnualLeave
               == db.requests[request.id].deductedFromAnnualLeave)
  {
  }

  /**
    A due deduction takes the balance (a missing one read as 0) down by the amount
    with no floor, so it goes negative when the amount exceeds it.
  */
  lemma DeductionHasNoFloor(db: Db, request: LeaveRequest, today: Date)
    requires WellFormedEmployees(db.employees) && ValidDate(today)
    requires DeductionDue(db.employees, request, Approve, today)
    ensures var step := UpdateRequestStatus(db, NoFaults, request, Approve, today);
      var before := RemainingOrZero(db.employees[request.employeeId]);
      && step.outcome == Success(true)
      && step.db.employees[request.employeeId].remainingAnnualLeaveDays == Some(before - DeductionAmount(request))
      && (DeductionAmount(request) > before ==> RemainingOrZero(step.db.employees[request.employeeId]) < 0.0)
      && (request.id in db.requests ==> step.db.requests[request.id].deductedFromAnnualLeave)
  {
  }

  /**
    A failed status write after a successful deduction leaves the deduction in
    place and the request as it was: the two writes are not atomic.
  */
  lemma StatusWriteFailureAfterDeduction(db: Db, request: LeaveRequest, today: Date)
    requires WellFormedEmployees(db.employees) && ValidDate(today)
    requires DeductionDue(db.employees, request, Approve, today)
    ensures var step := UpdateRequestStatus(db, Faults(false, false, false, true), request, Approve, today);
      && step.outcome == Failure(StatusWriteFailed)
      && step.db.requests == db.requests
      && step.db.employees == Deduct(db.employees, request.employeeId, DeductionAmount(request))
  {
  }

  /**
    The handler does not re-check that the request is still pending; only the page
    guards it, by offering the buttons on pending rows alone. A second approval that
    reaches the handler anyway (from a stale list, a second click while the first
    call runs, or a direct call) deducts the amount a second time.
  */
  lemma ApprovingTwiceDeductsTwice(db: Db, request: LeaveRequest, today: Date)
    requires WellFormedEmployees(db.employees) && ValidDate(today)
    requires DeductionDue(db.employees, request, Approve, today)
    ensures var first := UpdateRequestStatus(db, NoFaults, request, Approve, today);
      && WellFormedEmployees(first.db.employees)
      && var second := UpdateRequestStatus(first.db, NoFaults, request, Approve, today);
      && second.outcome == Success(true)
      && RemainingOrZero(second.db.employees[request.employeeId])
         == RemainingOrZero(db.employees[request.employeeId]) - 2.0 * DeductionAmount(request)
  {
  }

  /**
    The end-to-end scenario: from a balance of 3, approving a one-day annual leave
    leaves 2, and approving a four-hour one leaves 2.5.
  */
  lemma ApprovalScenario(db: Db, request: LeaveRequest, today: Date)
    requires WellFormedEmployees(db.employees) && ValidDate(today)
    requires DeductionDue(db.employees, request, Approve, today)
    requires db.employees[request.employeeId].remainingAnnualLeaveDays == Some(3.0)
    ensures var daily := request.(durationUnit := DayUnit, duration := 1.0);
      UpdateRequestStatus(db, NoFaults, daily, Approve, today).db.employees[request.employeeId]
        .remainingAnnualLeaveDays == Some(2.0)
    ensures var hourly := request.(durationUnit := HourUnit, duration := 4.0, isHourly := true);
      UpdateRequestStatus(db, NoFaults, hourly, Approve, today).db.employees[request.employeeId]
        .remainingAnnualLeaveDays == Some(2.5)
  {
  }

  // ---------------------------------------------------------------------------
  // The list filter and the sort toggle.
  // ---------------------------------------------------------------------------

  /** The filter value that removes nothing. */
  const AllFilter: string := "all"

  predicate MatchesFilters(request: LeaveRequest, statusFilter: string, employeeFilter: string) {
    (statusFilter == AllFilter || request.status == statusFilter)
    && (employeeFilter == AllFilter || request.employeeId == employeeFilter)
  }

  /** `Array.prototype.filter`: the elements that pass, in order. */
  function Filter(requests: seq<LeaveRequest>, keep: LeaveRequest -> bool): (kept: seq<LeaveRequest>)
    ensures |kept| <= |requests|
    ensures forall r :: r in kept ==> r in requests && keep(r)
    ensures forall r :: multiset(kept)[r] == if keep(r) then multiset(requests)[r] else 0
  {
    if requests == [] then []
    else
      var rest := Filter(requests[1..], keep);
      assert requests == [requests[0]] + requests[1..];
      if keep(requests[0]) then [requests[0]] + rest else rest
  }

  /** The filter effect: first by status, then by employee, each skipped when set to "all". */
  function FilterRequests(requests: seq<LeaveRequest>, statusFilter: string, employeeFilter: string)
    : (shown: seq<LeaveRequest>)
    ensures forall r :: r in shown ==> r in requests && MatchesFilters(r, statusFilter, employeeFilter)
    ensures forall r :: multiset(shown)[r]
                        == if MatchesFilters(r, statusFilter, employeeFilter) then multiset(requests)[r] else 0
    ensures statusFilter == AllFilter && employeeFilter == AllFilter ==> shown == requests
  {
    var byStatus := if statusFilter != AllFilter then Filter(requests, HasStatus(statusFilter)) else requests;
    if employeeFilter != AllFilter then Filter(byStatus, ForEmployee(employeeFilter)) else byStatus
  }

  function HasStatus(status: string): LeaveRequest -> bool {
    (r: LeaveRequest) => r.status == status
  }

  function ForEmployee(employeeId: EmployeeId): LeaveRequest -> bool {
    (r: LeaveRequest) => r.employeeId == employeeId
  }

  /** Filtering keeps the order: it distributes over concatenation. */
  lemma {:induction false} FilterAppend(a: seq<LeaveRequest>, b: seq<LeaveRequest>, keep: LeaveRequest -> bool)
    ensures Filter(a + b, keep) == Filter(a, keep) + Filter(b, keep)
  {
    if a == [] {
      assert a + b == b;
    } else {
      var ab := a + b;
      assert ab[0] == a[0];
      assert ab[1..] == a[1..] + b;
      FilterAppend(a[1..], b, keep);
    }
  }

  /** A single request is kept exactly when it passes. */
  lemma FilterSingleton(x: LeaveRequest, keep: LeaveRequest -> bool)
    ensures Filter([x], keep) == if keep(x) then [x] else []
  {
  }

  /**
    The shown list keeps the fetched order: filtering a concatenation is the
    concatenation of the filtered parts, and a single request is shown exactly when
    it matches both filters.
  */
  lemma FilterRequestsKeepsOrder(a: seq<LeaveRequest>, b: seq<LeaveRequest>, x: LeaveRequest,
                                 statusFilter: string, employeeFilter: string)
    ensures FilterRequests(a + b, statusFilter, employeeFilter)
            == FilterRequests(a, statusFilter, employeeFilter) + FilterRequests(b, statusFilter, employeeFilter)
    ensures FilterRequests([x], statusFilter, employeeFilter)
            == if MatchesFilters(x, statusFilter, employeeFilter) then [x] else []
  {
    FilterAppend(a, b, HasStatus(statusFilter));
    var sa := if statusFilter != AllFilter then Filter(a, HasStatus(statusFilter)) else a;
    var sb := if statusFilter != AllFilter then Filter(b, HasStatus(statusFilter)) else b;
    FilterAppend(sa, sb, ForEmployee(employeeFilter));
    FilterSingleton(x, HasStatus(statusFilter));
    FilterSingleton(x, ForEmployee(employeeFilter));
    assert Filter([], ForEmployee(employeeFilter)) == [];
  }

  datatype Direction = Ascending | Descending
  datatype SortConfig = SortConfig(key: string, direction: Direction)

  /** `requestSort(key)`: descending only when the same key is currently ascending. */
  function RequestSort(config: Option<SortConfig>, key: string): (next: SortConfig)
    ensures next.key == key
    ensures next.direction == Descending <==> config == Some(SortConfig(key, Ascending))
  {
    var direction :=
      if config.Some? && config.value.key == key && config.value.direction == Ascending then Descending
      else Ascending;
    SortConfig(key, direction)
  }

  /** Clicking the same key again flips the direction; clicking another key starts ascending. */
  lemma RequestSortToggles(config: Option<SortConfig>, key: string, other: string)
    requires other != key
    ensures RequestSort(Some(RequestSort(config, key)), key).direction != RequestSort(config, key).direction
    ensures RequestSort(Some(RequestSort(config, key)), other) == SortConfig(other, Ascending)
  {
  }
}
