/** The older `DoctorDashboardServiceImpl` under `src/`: the queue is always
    the 30 minutes from the requested instant, with no schedule lookup. */
module LegacyDashboard {
  import opened Base
  import opened Calendar
  import opened Appointments
  import opened AdjustmentRequests
  import opened ScheduleService
  import opened AdjustmentWorkflow
  import opened Queue
  import opened Store
  import opened DoctorDashboard

  /** Width of the queue's window. */
  const QueueWindowMinutes: int := 30

  /** `getAppointmentQueue`: the doctor's appointments in `[t, t + 30)` that
      are neither cancelled nor expired, earliest first, each numbered with
      the count of those ahead of it. */
  function GetAppointmentQueue(s: Store, doctor: int, t: int): (r: seq<QueueEntry>)
    ensures forall k :: 0 <= k < |r| ==>
              && r[k].position == k
              && r[k].appointment in s.appointments && r[k].appointment.doctorId == doctor
              && t <= r[k].appointment.time < t + QueueWindowMinutes
              && IsActive(r[k].appointment)
    ensures forall i :: (0 <= i < |s.appointments| && s.appointments[i].doctorId == doctor
                         && Waiting(s.appointments[i], t, t + QueueWindowMinutes))
                        ==> s.appointments[i] in Members(r)
    ensures SortedByTime(Members(r))
    ensures multiset(Members(r))
              == multiset(WaitingIn(DoctorAppointments(s.appointments, doctor), t, t + QueueWindowMinutes))
  {
    var appts := DoctorAppointments(s.appointments, doctor);
    var r := BuildQueue(appts, t, t + QueueWindowMinutes);
    assert forall i :: (0 <= i < |s.appointments| && s.appointments[i].doctorId == doctor)
                       ==> s.appointments[i] in appts;
    assert forall x :: x in appts ==> x.doctorId == doctor && x in s.appointments;
    assert forall i :: 0 <= i < |appts| ==> appts[i] in appts;
    r
  }

  /** When no block covers the requested instant and an active appointment
      of the doctor lies in the 30 minutes from it, the current queue is the
      older one. */
  lemma AgreesOffSchedule(s: Store, doctor: int, t: int, now: int)
    requires !IsWithinWorkingHours(s.blocks, doctor, t)
    requires HasAppointmentsInWindow(DoctorAppointments(s.appointments, doctor),
                                     ResolveWorkingWindow(s.blocks, doctor, t))
    ensures DoctorDashboard.GetAppointmentQueue(s, doctor, Some(t), now) == GetAppointmentQueue(s, doctor, t)
  {
    AnchorOffSchedule(s, doctor, t, now);
    QueueAtOwnAnchor(s, doctor, t, now);
    assert GetAppointmentQueue(s, doctor, t)
        == BuildQueue(DoctorAppointments(s.appointments, doctor), t, t + QueueWindowMinutes);
  }

  /** Off schedule, a requested instant with appointments in its fallback
      window anchors the current queue at itself. */
  lemma AnchorOffSchedule(s: Store, doctor: int, t: int, now: int)
    requires !IsWithinWorkingHours(s.blocks, doctor, t)
    requires HasAppointmentsInWindow(DoctorAppointments(s.appointments, doctor),
                                     ResolveWorkingWindow(s.blocks, doctor, t))
    ensures DetermineSlotStart(DoctorAppointments(s.appointments, doctor), Some(t), s.blocks, doctor, now) == Some(t)
    ensures ResolveWorkingWindow(s.blocks, doctor, t).start == t
    ensures ResolveWorkingWindow(s.blocks, doctor, t).end == t + QueueWindowMinutes
  {
  }

  /** A current queue anchored at an off-schedule instant is the queue of
      the 30 minutes from it. */
  lemma QueueAtOwnAnchor(s: Store, doctor: int, t: int, now: int)
    requires DetermineSlotStart(DoctorAppointments(s.appointments, doctor), Some(t), s.blocks, doctor, now) == Some(t)
    requires ResolveWorkingWindow(s.blocks, doctor, t).start == t
    requires ResolveWorkingWindow(s.blocks, doctor, t).end == t + QueueWindowMinutes
    ensures DoctorDashboard.GetAppointmentQueue(s, doctor, Some(t), now)
         == BuildQueue(DoctorAppointments(s.appointments, doctor), t, t + QueueWindowMinutes)
  {
  }

  /** `requestScheduleAdjustment`: the same submission as the current one. */
  function RequestScheduleAdjustment(s: Store, doctorId: int, day: DayOfWeek, start: TimeOfDay, end: TimeOfDay,
                                     reason: Option<string>, now: int): (r: Result<(Store, AdjustmentRequest)>)
    ensures r.Ok? <==> TextFits(reason)
    ensures r.Ok? ==> var (s', q) := r.value;
      && s'.requests == s.requests + [q]
      && q.doctorId == doctorId && q.day == day && q.start == start && q.end == end
      && q.reason == reason && q.status == RequestStatus.Pending && q.adminResponse.None?
      && s'.blocks == s.blocks && s'.appointments == s.appointments
  {
    var (requests', q) :- Submit(s.requests, doctorId, day, start, end, reason, now);
    Ok((s.(requests := requests'), q))
  }
}
