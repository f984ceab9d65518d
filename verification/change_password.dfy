/**
  The change-password form (app/change-password/page.tsx): three checks on the
  input, in order, then a read of the stored bcrypt hash, a comparison of the
  current password against it, and a write of the new hash.

  bcrypt is an oracle here: `matches(password, hash)` stands for `bcrypt.compare`
  and `newHash` for the salted result of `bcrypt.hash(newPassword, 10)`.
*/
module ChangePassword {
  import opened Wrappers
  import opened Records

  const MinPasswordLength: int := 6

  datatype ChangeRequest = ChangeRequest(currentPassword: string, newPassword: string, confirmNewPassword: string)

  datatype ChangeError =
    | MissingUserId
    | ConfirmationMismatch
    | NewPasswordTooShort
    | PasswordReadFailed
    | WrongCurrentPassword
    | PasswordWriteFailed

  /** The database calls a run makes, in order. */
  datatype DbCall = ReadPassword(id: EmployeeId) | WritePassword(id: EmployeeId, hash: string)

  datatype ChangeRun = ChangeRun(outcome: Result<EmployeeId, ChangeError>, calls: seq<DbCall>, employees: Employees)

  /** The first input check that fails, if any; none of them touches the database. */
  function PreCheck(session: Option<SessionUser>, req: ChangeRequest): (r: Option<ChangeError>)
    ensures r.None? <==>
      session.Some? && session.value.id != "" && req.newPassword == req.confirmNewPassword
      && |req.newPassword| >= MinPasswordLength
    ensures r.Some? ==> r.value in {MissingUserId, ConfirmationMismatch, NewPasswordTooShort}
  {
    if !(session.Some? && session.value.id != "") then Some(MissingUserId)
    else if req.newPassword != req.confirmNewPassword then Some(ConfirmationMismatch)
    else if |req.newPassword| < MinPasswordLength then Some(NewPasswordTooShort)
    else None
  }

  /**
    `handleSubmit`. `readError` and `writeError` say whether the select and the
    update fail; a missing row fails the select (`single()`).
  */
  function ChangeOwnPassword(
    session: Option<SessionUser>, req: ChangeRequest, employees: Employees,
    matches: (string, string) -> bool, newHash: string,
    readError: bool, writeError: bool): (run: ChangeRun)
    ensures PreCheck(session, req).Some? ==>
      run.outcome == Failure(PreCheck(session, req).value) && run.calls == [] && run.employees == employees
    ensures PreCheck(session, req).None? ==> |run.calls| >= 1 && run.calls[0] == ReadPassword(session.value.id)
    ensures run.outcome.Failure? ==> run.employees == employees
    ensures run.outcome.Failure? && run.outcome.error in {PasswordReadFailed, WrongCurrentPassword} ==>
      |run.calls| == 1
    ensures run.outcome.Success? <==>
      && PreCheck(session, req).None?
      && !readError && session.value.id in employees
      && matches(req.currentPassword, employees[session.value.id].passwordHash)
      && !writeError
    ensures run.outcome.Success? ==>
      var id := session.value.id;
      && run.outcome.value == id
      && run.calls == [ReadPassword(id), WritePassword(id, newHash)]
      && run.employees == employees[id := employees[id].(passwordHash := newHash)]
  {
    match PreCheck(session, req)
    case Some(err) => ChangeRun(Failure(err), [], employees)
    case None =>
      var id := session.value.id;
      var read := [ReadPassword(id)];
      if readError || id !in employees then ChangeRun(Failure(PasswordReadFailed), read, employees)
      else if !matches(req.currentPassword, employees[id].passwordHash) then
        ChangeRun(Failure(WrongCurrentPassword), read, employees)
      else
        var calls := read + [WritePassword(id, newHash)];
        if writeError then ChangeRun(Failure(PasswordWriteFailed), calls, employees)
        else ChangeRun(Success(id), calls, employees[id := employees[id].(passwordHash := newHash)])
  }

  /** The checks run in source order: a missing session wins over a mismatch, which wins over a short password. */
  lemma PreChecksInOrder(session: Option<SessionUser>, req: ChangeRequest)
    ensures !(session.Some? && session.value.id != "") ==> PreCheck(session, req) == Some(MissingUserId)
    ensures session.Some? && session.value.id != "" && req.newPassword != req.confirmNewPassword
            ==> PreCheck(session, req) == Some(ConfirmationMismatch)
    ensures session.Some? && session.value.id != "" && req.newPassword == req.confirmNewPassword
            ==> (PreCheck(session, req) == Some(NewPasswordTooShort) <==> |req.newPassword| < MinPasswordLength)
    ensures (session.Some? && session.value.id != "" && req.newPassword == req.confirmNewPassword
             && |req.newPassword| >= MinPasswordLength)
            ==> PreCheck(session, req).None?
  {
  }

  /** The length boundary: a 6-character new password passes, a 5-character one does not. */
  lemma LengthBoundary(session: Option<SessionUser>, current: string, six: string, five: string)
    requires session.Some? && session.value.id != ""
    requires |six| == 6 && |five| == 5
    ensures PreCheck(session, ChangeRequest(current, six, six)).None?
    ensures PreCheck(session, ChangeRequest(current, five, five)) == Some(NewPasswordTooShort)
  {
  }

  /**
    A successful change changes only the signed-in user's hash, and keeps the
    employee table well formed.
  */
  lemma ChangeTouchesOnlyOwnHash(
    session: Option<SessionUser>, req: ChangeRequest, employees: Employees,
    matches: (string, string) -> bool, newHash: string, readError: bool, writeError: bool)
    requires WellFormedEmployees(employees)
    ensures var run := ChangeOwnPassword(session, req, employees, matches, newHash, readError, writeError);
      && run.employees.Keys == employees.Keys
      && WellFormedEmployees(run.employees)
      && (forall k :: k in employees && (run.outcome.Failure? || k != session.value.id) ==>
            run.employees[k] == employees[k])
      && (run.outcome.Success? ==>
            run.employees[session.value.id] == employees[session.value.id].(passwordHash := newHash))
  {
  }

  /**
    After a change, the new password is the current one: when the hash of the new
    password matches it, a second change that gives it as the current password
    passes the comparison, and when the old password does not match the new hash
    it is refused.
  */
  lemma NewPasswordBecomesCurrent(
    session: Option<SessionUser>, req: ChangeRequest, employees: Employees,
    matches: (string, string) -> bool, newHash: string, next: ChangeRequest, nextHash: string)
    requires matches(req.newPassword, newHash)
    requires ChangeOwnPassword(session, req, employees, matches, newHash, false, false).outcome.Success?
    requires PreCheck(session, next).None?
    ensures var after := ChangeOwnPassword(session, req, employees, matches, newHash, false, false).employees;
      && (next.currentPassword == req.newPassword ==>
            ChangeOwnPassword(session, next, after, matches, nextHash, false, false).outcome.Success?)
      && (!matches(next.currentPassword, newHash) ==>
            ChangeOwnPassword(session, next, after, matches, nextHash, false, false).outcome
              == Failure(WrongCurrentPassword))
  {
  }
}
