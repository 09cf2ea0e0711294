/** The `ScheduleAdjustmentRequest` entity: a doctor's proposal for a new
    weekly block, its status enum, its columns and its lifecycle hooks. */
module AdjustmentRequests {
  import opened Base
  import opened Calendar

  datatype RequestStatus = Pending | Approved | Rejected

  /** Length of the `reason` and `admin_response` columns. */
  const TextMaxLength: int := 500

  datatype AdjustmentRequest = AdjustmentRequest(
    id: int,
    doctorId: int,
    day: DayOfWeek,
    start: TimeOfDay,
    end: TimeOfDay,
    reason: Option<string>,
    status: RequestStatus,
    adminResponse: Option<string>,
    createdAt: int,
    updatedAt: int)

  predicate TextFits(s: Option<string>) {
    s.None? || |s.value| <= TextMaxLength
  }

  /** Inserting a new request: status defaults to PENDING, no response yet,
      both timestamps stamped with `now`; an over-long reason is refused. */
  function Insert(id: int, doctorId: int, day: DayOfWeek, start: TimeOfDay, end: TimeOfDay,
                  reason: Option<string>, now: int): (r: Result<AdjustmentRequest>)
    ensures r.Ok? <==> TextFits(reason)
    ensures r.Err? ==> r.error == ColumnConstraintViolation
    ensures r.Ok? ==> var q := r.value;
      && q.id == id && q.doctorId == doctorId && q.day == day && q.start == start
      && q.end == end && q.reason == reason && q.status == Pending
      && q.adminResponse.None? && q.createdAt == now && q.updatedAt == now
  {
    if TextFits(reason) then Ok(AdjustmentRequest(id, doctorId, day, start, end, reason, Pending, None, now, now))
    else Err(ColumnConstraintViolation)
  }

  /** Saving a changed request: `updatedAt` refreshed, `createdAt` kept. */
  function Update(q: AdjustmentRequest, now: int): (r: Result<AdjustmentRequest>)
    ensures r.Ok? <==> TextFits(q.reason) && TextFits(q.adminResponse)
    ensures r.Ok? ==> r.value.createdAt == q.createdAt && r.value.updatedAt == now
    ensures r.Ok? ==> r.value.(updatedAt := q.updatedAt) == q
  {
    if TextFits(q.reason) && TextFits(q.adminResponse) then Ok(q.(updatedAt := now))
    else Err(ColumnConstraintViolation)
  }
}
