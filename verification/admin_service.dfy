/** `AdminServiceImpl` (current generation): deciding adjustment requests,
    removing a doctor, and the per-day and per-doctor appointment counts. */
module AdminService {
  import opened Base
  import opened Calendar
  import opened Seqs
  import opened Appointments
  import opened AdjustmentRequests
  import opened Directory
  import opened ScheduleService
  import opened AdjustmentWorkflow
  import opened Store
  import opened Doctors

  // ---------------------------------------------------------------------
  // Adjustment requests
  // ---------------------------------------------------------------------

  /** `approveAdjustmentRequest` with the schedule service's own block
      creation. */
  function ApproveAdjustmentRequest(s: Store, id: int, response: Option<string>, now: int)
    : (r: Result<(Store, AdjustmentRequest)>)
    ensures r.Ok? ==> var (s', q) := r.value;
      && q.id == id && q.status == Approved && q.adminResponse == response
      && s'.appointments == s.appointments && s'.patients == s.patients
      && s'.doctors == s.doctors && s'.users == s.users
  {
    var (blocks', requests', q) :- Approve(s.blocks, s.requests, id, response, now, CreateSchedule);
    Ok((s.(blocks := blocks', requests := requests'), q))
  }

  /** An approval adds exactly the requested block, with the default
      capacity, after the existing ones; when the schedule service refuses
      that block the approval fails with the same error and the request
      stays PENDING in the unchanged store. */
  lemma ApprovalCreatesRequestedBlock(s: Store, id: int, response: Option<string>, now: int)
    requires FindRequest(s.requests, id).Some?
    ensures var q := s.requests[FindRequest(s.requests, id).value];
            var r := ApproveAdjustmentRequest(s, id, response, now);
            && (r.Ok? ==>
                  exists b: Block ::
                    && r.value.0.blocks == s.blocks + [b]
                    && b.doctorId == q.doctorId && b.day == q.day
                    && b.start == q.start && b.end == q.end
                    && b.maxPatients == DefaultMaxPatients)
            && ((q.status == RequestStatus.Pending && CreateSchedule(s.blocks, BlockRequestOf(q)).Err?) ==>
                  r == Err(CreateSchedule(s.blocks, BlockRequestOf(q)).error))
  {
    var q := s.requests[FindRequest(s.requests, id).value];
    var r := ApproveAdjustmentRequest(s, id, response, now);
    if r.Ok? {
      var b := CreateSchedule(s.blocks, BlockRequestOf(q)).value.1;
      assert r.value.0.blocks == s.blocks + [b];
    }
  }

  /** `rejectAdjustmentRequest`: no block is created. */
  function RejectAdjustmentRequest(s: Store, id: int, response: Option<string>, now: int)
    : (r: Result<(Store, AdjustmentRequest)>)
    ensures r.Ok? ==> var (s', q) := r.value;
      && q.id == id && q.status == Rejected && q.adminResponse == response
      && s'.blocks == s.blocks && s'.appointments == s.appointments
      && s'.patients == s.patients && s'.doctors == s.doctors && s'.users == s.users
  {
    var (requests', q) :- Reject(s.requests, id, response, now);
    Ok((s.(requests := requests'), q))
  }

  // ---------------------------------------------------------------------
  // Removing a doctor
  // ---------------------------------------------------------------------

  /** `deleteDoctor`: remove every block of the doctor, the doctor row and
      the doctor's user account; appointments and requests stay. Deleting a
      user id that has no row does nothing. */
  function DeleteDoctor(s: Store, doctorId: int): (r: Result<Store>)
    ensures r.Err? <==> FindDoctor(s.doctors, doctorId).None?
    ensures r.Err? ==> r.error == DoctorNotFound
    ensures r.Ok? ==> var s' := r.value;
            var userId := s.doctors[FindDoctor(s.doctors, doctorId).value].userId;
      && (forall i :: 0 <= i < |s'.blocks| ==> s'.blocks[i].doctorId != doctorId)
      && (forall i :: 0 <= i < |s.blocks| && s.blocks[i].doctorId != doctorId ==> s.blocks[i] in s'.blocks)
      && IsSubsequence(s'.blocks, s.blocks)
      && (forall i :: 0 <= i < |s'.doctors| ==> s'.doctors[i].id != doctorId)
      && (forall i :: 0 <= i < |s.doctors| && s.doctors[i].id != doctorId ==> s.doctors[i] in s'.doctors)
      && IsSubsequence(s'.doctors, s.doctors)
      && (forall i :: 0 <= i < |s'.users| ==> s'.users[i].id != userId)
      && (forall i :: 0 <= i < |s.users| && s.users[i].id != userId ==> s.users[i] in s'.users)
      && IsSubsequence(s'.users, s.users)
      && s'.appointments == s.appointments && s'.requests == s.requests && s'.patients == s.patients
  {
    match FindDoctor(s.doctors, doctorId)
    case None => Err(DoctorNotFound)
    case Some(i) =>
      var userId := s.doctors[i].userId;
      var notHis := (b: Block) => b.doctorId != doctorId;
      var notHim := (d: Doctor) => d.id != doctorId;
      var notHisAccount := (u: User) => u.id != userId;
      FilterIsSubsequence(s.blocks, notHis);
      FilterIsSubsequence(s.doctors, notHim);
      FilterIsSubsequence(s.users, notHisAccount);
      Ok(s.(blocks := Filter(s.blocks, notHis),
            doctors := Filter(s.doctors, notHim),
            users := Filter(s.users, notHisAccount)))
  }

  // ---------------------------------------------------------------------
  // Statistics
  // ---------------------------------------------------------------------

  /** `resolveDateRange`: a missing start is six days before today, a
      missing end is today; an end before the start is refused. */
  function ResolveDateRange(start: Option<int>, end: Option<int>, today: int): (r: Result<(int, int)>)
    ensures r.Ok? <==> end.GetOr(today) >= start.GetOr(today - 6)
    ensures r.Err? ==> r.error == EndDateBeforeStart
    ensures r.Ok? ==> r.value.0 == start.GetOr(today - 6) && r.value.1 == end.GetOr(today)
    ensures start.None? && end.None? ==> r == Ok((today - 6, today))
  {
    var first := if start.Some? then start.value else today - 6;
    var last := if end.Some? then end.value else today;
    if last < first then Err(EndDateBeforeStart) else Ok((first, last))
  }

  /** `endOfDay`: the last instant of the date. */
  function EndOfDay(date: int): (r: int)
    ensures StartOfDay(date) < r < StartOfDay(date + 1)
    ensures r + 1 == StartOfDay(date + 1)
  {
    StartOfDay(date + 1) - 1
  }

  /** The closed range from the start to the end of a date holds exactly the
      instants on that date. */
  lemma DayRange(date: int, t: int)
    ensures StartOfDay(date) <= t <= EndOfDay(date) <==> DateOf(t) == date
  {
    AtRoundTrip(date, 0, t);
    if StartOfDay(date) <= t <= EndOfDay(date) {
      if t < At(date, 1439) {
        WithinDay(date, 0, 1439, t);
      } else {
        AtRoundTrip(date, 1439, t);
      }
    }
  }

  /** An appointment whose time lies in the closed range `[lo, hi]`. */
  predicate InRange(a: Appointment, lo: int, hi: int) {
    lo <= a.time <= hi
  }

  function CountInWindow(appts: seq<Appointment>, lo: int, hi: int): nat {
    Count(appts, (a: Appointment) => InRange(a, lo, hi))
  }

  function CountWithStatus(appts: seq<Appointment>, lo: int, hi: int, st: AppointmentStatus): nat {
    Count(appts, (a: Appointment) => InRange(a, lo, hi) && a.status == st)
  }

  /** `AdminDailyAppointmentDTO`. */
  datatype DailyRow = DailyRow(date: int, total: nat, pending: nat, confirmed: nat, completed: nat, cancelled: nat)

  function DailyRowOf(appts: seq<Appointment>, date: int): DailyRow {
    var lo := StartOfDay(date);
    var hi := EndOfDay(date);
    DailyRow(date, CountInWindow(appts, lo, hi),
             CountWithStatus(appts, lo, hi, AppointmentStatus.Pending), CountWithStatus(appts, lo, hi, Confirmed),
             CountWithStatus(appts, lo, hi, Completed), CountWithStatus(appts, lo, hi, Cancelled))
  }

  /** One row per date from `first` to `last`, inclusive, ascending. */
  function DailyRows(appts: seq<Appointment>, first: int, last: int): (r: seq<DailyRow>)
    ensures |r| == (if first <= last then last - first + 1 else 0)
    ensures forall k :: 0 <= k < |r| ==> r[k] == DailyRowOf(appts, first + k)
    decreases last - first
  {
    if first > last then [] else [DailyRowOf(appts, first)] + DailyRows(appts, first + 1, last)
  }

  /** `getDailyAppointmentStats`. */
  function GetDailyAppointmentStats(s: Store, start: Option<int>, end: Option<int>, today: int)
    : (r: Result<seq<DailyRow>>)
    ensures r.Err? <==> ResolveDateRange(start, end, today).Err?
    ensures r.Ok? ==> var (first, last) := ResolveDateRange(start, end, today).value;
      && |r.value| == last - first + 1
      && (forall k :: 0 <= k < |r.value| ==> r.value[k].date == first + k)
      && (forall k :: 0 <= k < |r.value| ==> r.value[k] == DailyRowOf(s.appointments, first + k))
  {
    var (first, last) :- ResolveDateRange(start, end, today);
    Ok(DailyRows(s.appointments, first, last))
  }

  /** Every appointment in range has exactly one of the five statuses, so
      the per-status counts add up to the total. */
  lemma {:induction false} StatusesPartition(appts: seq<Appointment>, lo: int, hi: int)
    ensures CountInWindow(appts, lo, hi)
            == CountWithStatus(appts, lo, hi, AppointmentStatus.Pending) + CountWithStatus(appts, lo, hi, Confirmed)
             + CountWithStatus(appts, lo, hi, Completed) + CountWithStatus(appts, lo, hi, Cancelled)
             + CountWithStatus(appts, lo, hi, Expired)
    decreases |appts|
  {
    if |appts| > 0 {
      StatusesPartition(appts[1..], lo, hi);
    }
  }

  /** A daily row's four status counts never exceed its total; what is
      missing is exactly that day's EXPIRED appointments. */
  lemma DailyRowAccounts(appts: seq<Appointment>, date: int)
    ensures var row := DailyRowOf(appts, date);
            row.total == row.pending + row.confirmed + row.completed + row.cancelled
                         + CountWithStatus(appts, StartOfDay(date), EndOfDay(date), Expired)
  {
    StatusesPartition(appts, StartOfDay(date), EndOfDay(date));
  }

  /** `AdminDoctorWorkloadDTO`. */
  datatype WorkloadRow = WorkloadRow(
    doctorId: int,
    doctorName: Option<string>,
    departmentId: Option<int>,
    departmentName: Option<string>,
    total: nat,
    completed: nat,
    pending: nat)

  /** Still to be seen: PENDING or CONFIRMED. */
  predicate Outstanding(a: Appointment) {
    a.status == AppointmentStatus.Pending || a.status == Confirmed
  }

  function OfDoctorIn(appts: seq<Appointment>, doctor: int, lo: int, hi: int): seq<Appointment> {
    Filter(appts, (a: Appointment) => a.doctorId == doctor && InRange(a, lo, hi))
  }

  /** `buildDoctorWorkload`: over the doctor's appointments in the closed
      range, the total, the COMPLETED ones, and the still open (PENDING or
      CONFIRMED) ones. */
  function BuildDoctorWorkload(appts: seq<Appointment>, d: Doctor, lo: int, hi: int): (r: WorkloadRow)
    ensures r.doctorId == d.id && r.doctorName == d.name
    ensures r.departmentId.Some? <==> d.department.Some?
    ensures r.total == |OfDoctorIn(appts, d.id, lo, hi)|
    ensures r.completed == Count(OfDoctorIn(appts, d.id, lo, hi), (a: Appointment) => a.status == Completed)
    ensures r.pending == Count(OfDoctorIn(appts, d.id, lo, hi), (a: Appointment) => Outstanding(a))
    ensures r.completed + r.pending <= r.total
  {
    var mine := OfDoctorIn(appts, d.id, lo, hi);
    var completed := Count(mine, (a: Appointment) => a.status == Completed);
    var pending := Count(mine, (a: Appointment) => Outstanding(a));
    WorkloadBound(mine);
    WorkloadRow(d.id, d.name,
                if d.department.Some? then Some(d.department.value.id) else None,
                if d.department.Some? then d.department.value.name else None,
                |mine|, completed, pending)
  }

  lemma {:induction false} WorkloadBound(appts: seq<Appointment>)
    ensures Count(appts, (a: Appointment) => a.status == Completed) + Count(appts, (a: Appointment) => Outstanding(a)) <= |appts|
    decreases |appts|
  {
    if |appts| > 0 {
      WorkloadBound(appts[1..]);
    }
  }

  /** `getDoctorWorkload`: one row per doctor, in store order, over the
      resolved range, from the start of its first day to the end of its last. */
  function GetDoctorWorkload(s: Store, start: Option<int>, end: Option<int>, today: int)
    : (r: Result<seq<WorkloadRow>>)
    ensures r.Err? <==> ResolveDateRange(start, end, today).Err?
    ensures r.Ok? ==> var (first, last) := ResolveDateRange(start, end, today).value;
      && |r.value| == |s.doctors|
      && forall i :: 0 <= i < |s.doctors| ==>
           && r.value[i].doctorId == s.doctors[i].id
           && r.value[i].completed + r.value[i].pending <= r.value[i].total
           && r.value[i].total == |OfDoctorIn(s.appointments, s.doctors[i].id, StartOfDay(first), EndOfDay(last))|
  {
    var (first, last) :- ResolveDateRange(start, end, today);
    Ok(WorkloadRows(s.appointments, s.doctors, StartOfDay(first), EndOfDay(last)))
  }

  function WorkloadRows(appts: seq<Appointment>, doctors: seq<Doctor>, lo: int, hi: int): (r: seq<WorkloadRow>)
    ensures |r| == |doctors|
    ensures forall i :: 0 <= i < |doctors| ==> r[i] == BuildDoctorWorkload(appts, doctors[i], lo, hi)
  {
    if |doctors| == 0 then [] else [BuildDoctorWorkload(appts, doctors[0], lo, hi)] + WorkloadRows(appts, doctors[1..], lo, hi)
  }
}
