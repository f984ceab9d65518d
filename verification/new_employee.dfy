/**
  Employee creation (app/employees/new/page.tsx, `handleSubmit`): the new record
  starts with the entitlement its seniority gives on the day of creation, and
  with the hire date as its last grant date. Password hashing is an oracle whose
  output is passed in.
*/
module NewEmployee {
  import opened Wrappers
  import opened Calendar
  import opened Seniority
  import opened Entitlement
  import opened Records
  import Grant

  /** What the form holds when it is submitted. */
  datatype EmployeeForm = EmployeeForm(
    username: string,
    password: string,
    name: string,
    gender: string,
    jobTitle: string,
    hireDate: Date,
    seniorityCorrectionDays: int,
    role: string)

  /** The initial state of the correction and role fields. */
  const DefaultSeniorityCorrectionDays: int := 0
  const DefaultRole: string := EmployeeRole

  /** The form as submitted when the correction and role fields were left untouched. */
  function FormWithDefaults(username: string, password: string, name: string, gender: string,
                            jobTitle: string, hireDate: Date): (f: EmployeeForm)
    ensures f.seniorityCorrectionDays == 0 && f.role == "employee"
    ensures f.hireDate == hireDate && f.username == username && f.password == password
  {
    EmployeeForm(username, password, name, gender, jobTitle, hireDate,
                 DefaultSeniorityCorrectionDays, DefaultRole)
  }

  /** The entitlement computed at creation. */
  function InitialAnnualLeaveDays(form: EmployeeForm, today: Date): int
    requires ValidDate(form.hireDate) && ValidDate(today)
  {
    var s := CalculateSeniority(form.hireDate, form.seniorityCorrectionDays, today);
    CalculateAnnualLeave(s.seniorityInYears, s.seniorityInDaysAfterCorrection)
  }

  /** The inserted row; `id` is the key the database assigns. */
  function NewEmployeeRecord(id: EmployeeId, form: EmployeeForm, passwordHash: string, today: Date): (e: Employee)
    requires ValidDate(form.hireDate) && ValidDate(today)
    ensures ValidEmployee(e) && e.id == id && e.passwordHash == passwordHash
    ensures e.hireDate == form.hireDate && e.seniorityCorrectionDays == form.seniorityCorrectionDays
    ensures e.role == form.role
    ensures e.remainingAnnualLeaveDays == Some(InitialAnnualLeaveDays(form, today) as real)
    ensures e.lastAnnualLeaveGrantDate == Some(form.hireDate)
  {
    Employee(id, form.username, passwordHash, form.name, form.gender, form.jobTitle, form.role,
             form.hireDate, form.seniorityCorrectionDays,
             Some(InitialAnnualLeaveDays(form, today) as real), Some(form.hireDate))
  }

  /** The insert; `insertError` says whether the database refuses it. */
  function CreateEmployee(employees: Employees, id: EmployeeId, form: EmployeeForm, passwordHash: string,
                          today: Date, insertError: Option<string>): (r: Result<Employees, string>)
    requires WellFormedEmployees(employees) && id !in employees
    requires ValidDate(form.hireDate) && ValidDate(today)
    ensures r.Failure? <==> insertError.Some?
    ensures r.Success? ==>
      && WellFormedEmployees(r.value)
      && r.value.Keys == employees.Keys + {id}
      && r.value[id] == NewEmployeeRecord(id, form, passwordHash, today)
      && (forall other :: other in employees ==> r.value[other] == employees[other])
  {
    if insertError.Some? then Failure(insertError.value)
    else Success(employees[id := NewEmployeeRecord(id, form, passwordHash, today)])
  }

  /**
    During the first year after hire the batch grant finds nothing to do for a new
    record: its cycle start is the hire date, which is also its last grant date.
  */
  lemma NotGrantedInFirstYear(id: EmployeeId, form: EmployeeForm, passwordHash: string, created: Date, today: Date)
    requires ValidDate(form.hireDate) && ValidDate(created) && ValidDate(today)
    requires !Before(today, form.hireDate) && Before(today, AddYears(form.hireDate, 1))
    ensures CalculateSeniority(form.hireDate, form.seniorityCorrectionDays, today).currentCycleStartDate
            == form.hireDate
    ensures !Grant.EligibleForGrant(NewEmployeeRecord(id, form, passwordHash, created), today)
  {
  }

  /**
    The scenario of a 2023-01-01 hire created between 180 and 364 days later: the
    initial balance is 3 days.
  */
  lemma InitialBalanceSixMonthsIn(id: EmployeeId, form: EmployeeForm, passwordHash: string, today: Date)
    requires form.hireDate == Date(2023, 1, 1) && form.seniorityCorrectionDays == 0
    requires ValidDate(today)
    requires 180 <= DifferenceInDays(today, form.hireDate) <= 364
    ensures NewEmployeeRecord(id, form, passwordHash, today).remainingAnnualLeaveDays == Some(3.0)
  {
    var hire := form.hireDate;
    var nextYear := Date(2024, 1, 1);
    assert DayNumber(nextYear) == DayNumber(hire) + 365;
    BeforeMatchesDayNumber(today, nextYear);
    BeforeMatchesDayNumber(hire, today);
    BeforeMatchesDayNumber(today, hire);
    assert today.year == 2023;
    assert DifferenceInYears(today, hire) == 0;
  }

  /**
    A back-dated hire date with a completed year or more: the new record starts
    with the current cycle's entitlement, yet its last grant date is the hire date,
    which precedes the current cycle. So the batch grant finds it eligible on the
    day of creation and adds the same entitlement again.
  */
  lemma BackdatedHireGrantedAgain(id: EmployeeId, form: EmployeeForm, passwordHash: string, created: Date)
    requires ValidDate(form.hireDate) && ValidDate(created) && !IsLeapDay(form.hireDate)
    requires !Before(created, AddYears(form.hireDate, 1))
    ensures var e := NewEmployeeRecord(id, form, passwordHash, created);
      && Grant.EligibleForGrant(e, created)
      && Grant.Granted(e, created).remainingAnnualLeaveDays
         == Some(2.0 * InitialAnnualLeaveDays(form, created) as real)
  {
  }
}
