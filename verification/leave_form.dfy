/**
  The leave-request form (app/leave/new/page.tsx): the zod schema
  `leaveRequestSchema` with its cross-field `superRefine`, the encoding of the
  free-text "其他" (other) leave type into the stored `leaveType` and its decoding
  when a request is edited, the record built for saving, and the choice of the
  employee the request is filed for.
*/
module LeaveForm {
  import opened Wrappers
  import opened Calendar
  import opened Text
  import opened Records

  const OtherLeaveType: string := "其他"
  const LeaveTypes: seq<string> := [AnnualLeaveType, "事假", "病假", "生理假", OtherLeaveType]

  /** The stored prefix of an "other" leave type, and the separator the encoder writes after the colon. */
  const OtherPrefix: string := "其他:"
  const OtherSeparator: string := " "

  const PendingStatus: string := "pending"

  const MinDuration: real := 0.1
  const MaxReasonLength: int := 100
  const MaxRemarksLength: int := 200

  /** The submitted form; an unticked or absent `isHourly` is `false`. */
  datatype LeaveFormData = LeaveFormData(
    leaveType: string,
    otherLeaveType: Option<string>,
    isHourly: bool,
    startDate: string,
    endDate: string,
    startTime: Option<string>,
    endTime: Option<string>,
    duration: real,
    reason: string,
    remarks: Option<string>)

  datatype Issue =
    | InvalidLeaveType
    | InvalidStartDate
    | InvalidEndDate
    | DurationBelowMinimum
    | ReasonEmpty
    | ReasonTooLong
    | RemarksTooLong
    | MissingOtherLeaveType
    | EndDateBeforeStartDate
    | MissingStartTime
    | MissingEndTime
    | EndTimeBeforeStartTime
    | DurationNotPositive

  /** JavaScript truthiness of an optional string: present and non-empty. */
  predicate Truthy(s: Option<string>) {
    s.Some? && s.value != ""
  }

  /** The per-field checks of the object schema, in field order. */
  function FieldIssues(f: LeaveFormData): seq<Issue> {
    (if f.leaveType !in LeaveTypes then [InvalidLeaveType] else [])
    + (if !IsIsoDateShape(f.startDate) then [InvalidStartDate] else [])
    + (if !IsIsoDateShape(f.endDate) then [InvalidEndDate] else [])
    + (if f.duration < MinDuration then [DurationBelowMinimum] else [])
    + (if |f.reason| < 1 then [ReasonEmpty] else [])
    + (if |f.reason| > MaxReasonLength then [ReasonTooLong] else [])
    + (if f.remarks.Some? && |f.remarks.value| > MaxRemarksLength then [RemarksTooLong] else [])
  }

  /** `isBefore(parseISO(endDate), parseISO(startDate))`; an unparseable date is before nothing. */
  predicate EndDateBeforeStart(f: LeaveFormData) {
    var start := ParseIsoDate(f.startDate);
    var end := ParseIsoDate(f.endDate);
    start.Some? && end.Some? && Before(end.value, start.value)
  }

  /**
    On a single day, `isBefore` of `${endDate}T${endTime}` and `${startDate}T${startTime}`:
    both sides share the date, so only the times decide, and an unparseable date
    or time compares as false.
  */
  predicate EndTimeBeforeStart(f: LeaveFormData)
    requires f.startTime.Some? && f.endTime.Some?
  {
    var day := ParseIsoDate(f.startDate);
    var start := ParseTime(f.startTime.value);
    var end := ParseTime(f.endTime.value);
    day.Some? && start.Some? && end.Some? && end.value < start.value
  }

  /** The cross-field checks of `superRefine`. */
  function RefinementIssues(f: LeaveFormData): seq<Issue> {
    (if f.leaveType == OtherLeaveType && !Truthy(f.otherLeaveType) then [MissingOtherLeaveType] else [])
    + (if f.startDate != "" && f.endDate != "" && EndDateBeforeStart(f) then [EndDateBeforeStartDate] else [])
    + (if f.isHourly then
         (if !Truthy(f.startTime) then [MissingStartTime] else [])
         + (if !Truthy(f.endTime) then [MissingEndTime] else [])
         + (if Truthy(f.startTime) && Truthy(f.endTime) && f.startDate == f.endDate && EndTimeBeforeStart(f)
            then [EndTimeBeforeStartTime] else [])
       else
         (if f.duration <= 0.0 then [DurationNotPositive] else []))
  }

  /**
    Every issue the schema reports. An unknown leave type aborts the object parse,
    so `superRefine` does not run; the other field failures leave it running.
  */
  function Issues(f: LeaveFormData): seq<Issue> {
    FieldIssues(f) + (if f.leaveType in LeaveTypes then RefinementIssues(f) else [])
  }

  predicate ValidForm(f: LeaveFormData) {
    Issues(f) == []
  }

  /** The schema accepts a form exactly when every rule holds. */
  lemma ValidFormIff(f: LeaveFormData)
    ensures ValidForm(f) <==>
      && f.leaveType in LeaveTypes
      && IsIsoDateShape(f.startDate) && IsIsoDateShape(f.endDate)
      && f.duration >= MinDuration
      && 1 <= |f.reason| <= MaxReasonLength
      && (f.remarks.Some? ==> |f.remarks.value| <= MaxRemarksLength)
      && (f.leaveType == OtherLeaveType ==> Truthy(f.otherLeaveType))
      && !EndDateBeforeStart(f)
      && (f.isHourly ==> Truthy(f.startTime) && Truthy(f.endTime)
                         && (f.startDate == f.endDate ==> !EndTimeBeforeStart(f)))
  {
  }

  /** A leave that ends on the day it starts passes the date-order check. */
  lemma SameDayPassesDateOrder(f: LeaveFormData)
    requires f.startDate == f.endDate
    ensures !EndDateBeforeStart(f)
  {
  }

  /** Hourly leave on one day that ends when it starts passes the time-order check. */
  lemma EqualTimesPassTimeOrder(f: LeaveFormData)
    requires f.startTime.Some? && f.endTime.Some? && f.startTime == f.endTime
    ensures !EndTimeBeforeStart(f)
  {
  }

  /**
    Times pre-filled from a stored request carry seconds, and are compared all the
    same: hourly leave on one day whose `HH:MM:SS` end is earlier than its
    `HH:MM:SS` start is rejected.
  */
  lemma TimesWithSecondsCompared(f: LeaveFormData, day: Date, h1: nat, m1: nat, s1: nat,
                                 h2: nat, m2: nat, s2: nat)
    requires ValidDate(day) && 0 <= day.year <= 9999
    requires h1 < 24 && m1 < 60 && s1 < 60 && h2 < 24 && m2 < 60 && s2 < 60
    requires f.isHourly && f.startDate == FormatIsoDate(day) && f.endDate == FormatIsoDate(day)
    requires f.startTime == Some(FormatClockTime(h1, m1, s1)) && f.endTime == Some(FormatClockTime(h2, m2, s2))
    requires h2 * 3600 + m2 * 60 + s2 < h1 * 3600 + m1 * 60 + s1
    ensures EndTimeBeforeStart(f) && !ValidForm(f)
  {
    ParseFormattedDate(day);
    ParseClockTime(h1, m1, s1);
    ParseClockTime(h2, m2, s2);
    assert EndTimeBeforeStart(f);
    if f.leaveType in LeaveTypes {
      var refinement := RefinementIssues(f);
      assert refinement[|refinement| - 1] == EndTimeBeforeStartTime;
      assert Issues(f)[|Issues(f)| - 1] == EndTimeBeforeStartTime;
    } else {
      assert Issues(f)[0] == InvalidLeaveType;
    }
  }

  /** A field issue is reported exactly when its bound is broken. */
  lemma DurationBound(f: LeaveFormData)
    ensures DurationBelowMinimum in Issues(f) <==> f.duration < MinDuration
  {
  }

  lemma ReasonEmptyBound(f: LeaveFormData)
    ensures ReasonEmpty in Issues(f) <==> |f.reason| < 1
  {
  }

  lemma ReasonLengthBound(f: LeaveFormData)
    ensures ReasonTooLong in Issues(f) <==> |f.reason| > MaxReasonLength
  {
  }

  lemma RemarksBound(f: LeaveFormData)
    ensures RemarksTooLong in Issues(f) <==> f.remarks.Some? && |f.remarks.value| > MaxRemarksLength
  {
  }

  /** "其他" without a label is rejected, unless the leave type is already unknown (it cannot be both). */
  lemma OtherWithoutLabelRejected(f: LeaveFormData)
    requires f.leaveType == OtherLeaveType && !Truthy(f.otherLeaveType)
    ensures MissingOtherLeaveType in Issues(f)
  {
  }

  // ---------------------------------------------------------------------------
  // Leave-type encoding.
  // ---------------------------------------------------------------------------

  /** `data.leaveType === '其他' ? \`其他: ${data.otherLeaveType}\` : data.leaveType`. */
  function EncodeLeaveType(leaveType: string, otherLeaveType: Option<string>): string {
    if leaveType == OtherLeaveType then OtherPrefix + OtherSeparator + otherLeaveType.GetOr("undefined")
    else leaveType
  }

  /** The edit form's pre-fill: the selected type, and the "other" label with the 3-character prefix cut and trimmed. */
  function DecodeLeaveType(stored: string): (string, string) {
    if StartsWith(stored, OtherPrefix) then (OtherLeaveType, Trim(stored[|OtherPrefix|..]))
    else (stored, "")
  }

  /**
    Decoding an encoded leave type gives back the selection: the four fixed types
    with an empty label, and "其他" with its label, when the label has no
    surrounding whitespace.
  */
  lemma LeaveTypeRoundTrip(leaveType: string, name: string)
    requires leaveType in LeaveTypes
    requires leaveType == OtherLeaveType ==> IsTrimmed(name)
    ensures DecodeLeaveType(EncodeLeaveType(leaveType, Some(name)))
            == (leaveType, if leaveType == OtherLeaveType then name else "")
  {
    var encoded := EncodeLeaveType(leaveType, Some(name));
    if leaveType == OtherLeaveType {
      assert StartsWith(encoded, OtherPrefix);
      assert encoded[|OtherPrefix|..] == OtherSeparator + name;
      TrimAfterLeadingWhitespace(OtherSeparator, name);
    } else {
      assert !StartsWith(encoded, OtherPrefix) by {
        assert encoded[0] != OtherPrefix[0] || encoded[1] != OtherPrefix[1];
      }
    }
  }

  // ---------------------------------------------------------------------------
  // The saved record and its target employee.
  // ---------------------------------------------------------------------------

  datatype LeaveRecord = LeaveRecord(
    employeeId: EmployeeId,
    submittedBy: EmployeeId,
    leaveType: string,
    startDate: string,
    endDate: string,
    isHourly: bool,
    startTime: Option<string>,
    endTime: Option<string>,
    duration: real,
    durationUnit: string,
    reason: string,
    remarks: Option<string>,
    status: string)

  /**
    `targetEmployeeId`: the edited request's employee when editing, else the
    `employeeId` query parameter for an admin, else the signed-in user.
  */
  function TargetEmployee(isEditing: bool, editedEmployeeId: Option<string>, isAdmin: bool,
                          employeeIdParam: Option<string>, loggedInUserId: string): string
  {
    if isEditing && Truthy(editedEmployeeId) then editedEmployeeId.value
    else if isAdmin && Truthy(employeeIdParam) then employeeIdParam.value
    else loggedInUserId
  }

  /**
    Which employee a request is filed for. A non-admin creating a request always
    files it for themselves, whatever the query string says; the result is never
    empty when the signed-in id is not.
  */
  lemma TargetEmployeeChoice(isEditing: bool, editedEmployeeId: Option<string>, isAdmin: bool,
                             employeeIdParam: Option<string>, loggedInUserId: string)
    ensures var target := TargetEmployee(isEditing, editedEmployeeId, isAdmin, employeeIdParam, loggedInUserId);
      && (isEditing && Truthy(editedEmployeeId) ==> target == editedEmployeeId.value)
      && ((!(isEditing && Truthy(editedEmployeeId)) && isAdmin && Truthy(employeeIdParam))
            ==> target == employeeIdParam.value)
      && ((!(isEditing && Truthy(editedEmployeeId)) && !(isAdmin && Truthy(employeeIdParam)))
            ==> target == loggedInUserId)
      && (!isEditing && !isAdmin ==> target == loggedInUserId)
      && (loggedInUserId != "" ==> target != "")
  {
  }

  /** `leaveDataToSave`. */
  function LeaveDataToSave(f: LeaveFormData, target: EmployeeId, loggedInUserId: EmployeeId): (r: LeaveRecord) {
    LeaveRecord(
      target, loggedInUserId, EncodeLeaveType(f.leaveType, f.otherLeaveType),
      f.startDate, f.endDate, f.isHourly,
      if f.isHourly then f.startTime else None,
      if f.isHourly then f.endTime else None,
      f.duration, if f.isHourly then HourUnit else DayUnit,
      f.reason, f.remarks, PendingStatus)
  }

  /**
    The saved record of a valid form: hourly exactly when the unit is hours, times
    kept only for hourly leave, status pending, and a leave type that the edit form
    decodes back to the selection.
  */
  lemma SavedRecordShape(f: LeaveFormData, target: EmployeeId, loggedInUserId: EmployeeId)
    requires ValidForm(f)
    requires f.leaveType == OtherLeaveType ==> IsTrimmed(f.otherLeaveType.value)
    ensures var r := LeaveDataToSave(f, target, loggedInUserId);
      && (r.durationUnit == HourUnit <==> f.isHourly)
      && (!f.isHourly ==> r.startTime == None && r.endTime == None)
      && (f.isHourly ==> Truthy(r.startTime) && Truthy(r.endTime))
      && r.status == PendingStatus
      && r.employeeId == target && r.submittedBy == loggedInUserId
      && DecodeLeaveType(r.leaveType).0 == f.leaveType
      && (f.leaveType == OtherLeaveType ==> DecodeLeaveType(r.leaveType).1 == f.otherLeaveType.value)
  {
    ValidFormIff(f);
    var name := if f.leaveType == OtherLeaveType then f.otherLeaveType.value else "";
    LeaveTypeRoundTrip(f.leaveType, name);
    if f.leaveType != OtherLeaveType {
      assert EncodeLeaveType(f.leaveType, f.otherLeaveType) == EncodeLeaveType(f.leaveType, Some(name));
    }
  }

  datatype SaveOperation = Insert(record: LeaveRecord) | Update(requestId: RequestId, record: LeaveRecord)

  datatype SubmitError = Invalid(issues: seq<Issue>) | MissingUserId | SaveFailed(message: string)

  /**
    Submitting the form: the schema first, then the signed-in id, then the insert
    (or, when editing, the update of the edited request). `saveError` says whether
    the database refuses the write.
  */
  function SubmitLeaveRequest(
    f: LeaveFormData, session: Option<SessionUser>, leaveRequestId: Option<string>,
    editedEmployeeId: Option<string>, employeeIdParam: Option<string>, saveError: Option<string>)
    : (r: Result<SaveOperation, SubmitError>)
    ensures !ValidForm(f) ==> r == Failure(Invalid(Issues(f)))
    ensures ValidForm(f) && !(session.Some? && session.value.id != "") ==> r == Failure(MissingUserId)
    ensures ValidForm(f) && session.Some? && session.value.id != "" && saveError.Some?
            ==> r == Failure(SaveFailed(saveError.value))
    ensures ValidForm(f) && session.Some? && session.value.id != "" && saveError.None? ==>
      && r.Success?
      && r.value.record == LeaveDataToSave(
           f, TargetEmployee(Truthy(leaveRequestId), editedEmployeeId, IsAdmin(session), employeeIdParam,
                             session.value.id),
           session.value.id)
    ensures r.Success? ==>
      && ValidForm(f) && saveError.None?
      && r.value.record.status == PendingStatus
      && r.value.record.submittedBy == session.value.id
      && (r.value.Update? <==> Truthy(leaveRequestId))
      && (r.value.Update? ==> r.value.requestId == leaveRequestId.value)
  {
    if !ValidForm(f) then Failure(Invalid(Issues(f)))
    else if !(session.Some? && session.value.id != "") then Failure(MissingUserId)
    else
      var userId := session.value.id;
      var isEditing := Truthy(leaveRequestId);
      var target := TargetEmployee(isEditing, editedEmployeeId, IsAdmin(session), employeeIdParam, userId);
      var record := LeaveDataToSave(f, target, userId);
      if saveError.Some? then Failure(SaveFailed(saveError.value))
      else if isEditing then Success(Update(leaveRequestId.value, record))
      else Success(Insert(record))
  }

  /**
    What a successful submission saves: a pending record filed by the signed-in
    user, in hours exactly for hourly leave, with times only for hourly leave, with
    a leave type the edit form decodes back to the selection, and for the employee
    `TargetEmployee` chooses, which for a non-admin creating a request is the
    signed-in user.
  */
  lemma SubmittedRecord(
    f: LeaveFormData, session: Option<SessionUser>, leaveRequestId: Option<string>,
    editedEmployeeId: Option<string>, employeeIdParam: Option<string>, saveError: Option<string>)
    requires f.leaveType == OtherLeaveType && f.otherLeaveType.Some? ==> IsTrimmed(f.otherLeaveType.value)
    ensures var r := SubmitLeaveRequest(f, session, leaveRequestId, editedEmployeeId, employeeIdParam, saveError);
      r.Success? ==>
        && (r.value.record.durationUnit == HourUnit <==> f.isHourly)
        && (!f.isHourly ==> r.value.record.startTime == None && r.value.record.endTime == None)
        && (f.isHourly ==> Truthy(r.value.record.startTime) && Truthy(r.value.record.endTime))
        && r.value.record.status == PendingStatus
        && r.value.record.submittedBy == session.value.id
        && DecodeLeaveType(r.value.record.leaveType).0 == f.leaveType
        && (f.leaveType == OtherLeaveType ==> DecodeLeaveType(r.value.record.leaveType).1 == f.otherLeaveType.value)
        && (!Truthy(leaveRequestId) && !IsAdmin(session) ==> r.value.record.employeeId == session.value.id)
        && r.value.record.employeeId != ""
  {
    var r := SubmitLeaveRequest(f, session, leaveRequestId, editedEmployeeId, employeeIdParam, saveError);
    if r.Success? {
      var userId := session.value.id;
      var target := TargetEmployee(Truthy(leaveRequestId), editedEmployeeId, IsAdmin(session), employeeIdParam, userId);
      ValidFormIff(f);
      SavedRecordShape(f, target, userId);
      TargetEmployeeChoice(Truthy(leaveRequestId), editedEmployeeId, IsAdmin(session), employeeIdParam, userId);
    }
  }
}
