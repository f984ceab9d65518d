/**
  The persisted records the leave engine reads and writes (the `Employee` and
  `LeaveRequest` tables) and the signed-in session. Only the columns the engine
  touches are kept.
*/
module Records {
  import opened Wrappers
  import opened Calendar

  type EmployeeId = string
  type RequestId = string

  const AdminRole: string := "admin"
  const EmployeeRole: string := "employee"

  /** The leave type that draws on the annual-leave balance. */
  const AnnualLeaveType: string := "特休"

  /** The `durationUnit` of a request counted in hours, and of one counted in days. */
  const HourUnit: string := "小時"
  const DayUnit: string := "天"

  datatype Employee = Employee(
    id: EmployeeId,
    username: string,
    passwordHash: string,
    name: string,
    gender: string,
    jobTitle: string,
    role: string,
    hireDate: Date,
    seniorityCorrectionDays: int,
    remainingAnnualLeaveDays: Option<real>,
    lastAnnualLeaveGrantDate: Option<Date>)

  /** Dates stored for an employee are real calendar dates. */
  predicate ValidEmployee(e: Employee) {
    ValidDate(e.hireDate)
    && (e.lastAnnualLeaveGrantDate.Some? ==> ValidDate(e.lastAnnualLeaveGrantDate.value))
  }

  /** `employee.remainingAnnualLeaveDays || 0`: a missing balance counts as zero. */
  function RemainingOrZero(e: Employee): real {
    e.remainingAnnualLeaveDays.GetOr(0.0)
  }

  datatype LeaveRequest = LeaveRequest(
    id: RequestId,
    employeeId: EmployeeId,
    submittedBy: EmployeeId,
    leaveType: string,
    startDate: string,
    endDate: string,
    isHourly: bool,
    startTime: Option<string>,
    endTime: Option<string>,
    duration: real,
    durationUnit: string,
    reason: string,
    remarks: Option<string>,
    status: string,
    deductedFromAnnualLeave: bool)

  /** The `Employee` table, keyed by id. */
  type Employees = map<EmployeeId, Employee>

  /** Every row sits under its own id and holds valid dates. */
  predicate WellFormedEmployees(employees: Employees) {
    forall id :: id in employees ==> employees[id].id == id && ValidEmployee(employees[id])
  }

  /** The whole store the engine sees. */
  datatype Db = Db(employees: Employees, requests: map<RequestId, LeaveRequest>)

  datatype SessionUser = SessionUser(id: string, role: string)

  /** `!session || session.user?.role !== 'admin'` negated. */
  predicate IsAdmin(session: Option<SessionUser>) {
    session.Some? && session.value.role == AdminRole
  }
}
