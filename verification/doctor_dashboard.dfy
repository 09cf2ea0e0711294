/** `DoctorDashboardServiceImpl` (current generation): which window a
    doctor's queue shows, and the queue itself; plus submitting a schedule
    adjustment request. */
module DoctorDashboard {
  import opened Base
  import opened Calendar
  import opened Seqs
  import opened Appointments
  import opened AdjustmentRequests
  import opened ScheduleService
  import opened AdjustmentWorkflow
  import opened Queue
  import opened Store

  /** Width of the fallback window when no block covers the instant. */
  const FallbackWindowMinutes: int := 30

  /** `TimeWindow`: the instants `[start, end)`, the weekday and block times
      it was resolved from, and whether a block was found (`hasScheduleMeta`). */
  datatype TimeWindow = TimeWindow(
    start: int,
    end: int,
    day: DayOfWeek,
    scheduleStart: TimeOfDay,
    scheduleEnd: TimeOfDay,
    matched: bool)

  /** `resolveWorkingWindow`: the span, on the instant's date, of the first
      of the doctor's blocks that covers it; otherwise the 30 minutes from the
      instant. Either way the window contains the instant. */
  function ResolveWorkingWindow(blocks: seq<Block>, doctor: int, t: int): (w: TimeWindow)
    ensures w.start <= t < w.end
    ensures w.day == DayOfWeekOf(DateOf(t))
    ensures w.matched <==> IsWithinWorkingHours(blocks, doctor, t)
    ensures w.matched ==> exists i :: (FirstCovering(blocks, doctor, t, i)
              && w.scheduleStart == blocks[i].start && w.scheduleEnd == blocks[i].end
              && w.start == At(DateOf(t), blocks[i].start) && w.end == At(DateOf(t), blocks[i].end))
    ensures !w.matched ==> (w.start == t && w.end == t + FallbackWindowMinutes
              && w.scheduleStart == TimeOf(t) && w.scheduleEnd == TimeOf(t + FallbackWindowMinutes))
  {
    var date := DateOf(t);
    match FindScheduleForDateTime(blocks, doctor, t)
    case None =>
      TimeWindow(t, t + FallbackWindowMinutes, DayOfWeekOf(date), TimeOf(t), TimeOf(t + FallbackWindowMinutes), false)
    case Some(b) =>
      AtRoundTrip(date, b.start, t);
      SameDateOrder(date, b.start, TimeOf(t));
      SameDateOrder(date, TimeOf(t), b.end);
      TimeWindow(At(date, b.start), At(date, b.end), DayOfWeekOf(date), b.start, b.end, true)
  }

  /** `TimeWindow.withDate`: move a block-derived window to another date of
      the same block times; a fallback window is kept as it is. */
  function WithDate(w: TimeWindow, date: int): (r: TimeWindow)
    ensures !w.matched ==> r == w
    ensures w.matched ==> && r.matched
                          && DateOf(r.start) == date && TimeOf(r.start) == w.scheduleStart
                          && DateOf(r.end) == date && TimeOf(r.end) == w.scheduleEnd
                          && r.day == DayOfWeekOf(date)
                          && r.scheduleStart == w.scheduleStart && r.scheduleEnd == w.scheduleEnd
  {
    if !w.matched then w
    else
      AtRoundTrip(date, w.scheduleStart, 0);
      AtRoundTrip(date, w.scheduleEnd, 0);
      TimeWindow(At(date, w.scheduleStart), At(date, w.scheduleEnd), DayOfWeekOf(date),
                 w.scheduleStart, w.scheduleEnd, true)
  }

  /** Re-dating a resolved window onto the date it was resolved on gives
      the same window back. */
  lemma WithOwnDateIsIdentity(blocks: seq<Block>, doctor: int, t: int)
    ensures WithDate(ResolveWorkingWindow(blocks, doctor, t), DateOf(t)) == ResolveWorkingWindow(blocks, doctor, t)
  {
  }

  /** `hasAppointmentsInWindow`. */
  predicate HasAppointmentsInWindow(appts: seq<Appointment>, w: TimeWindow) {
    exists i :: 0 <= i < |appts| && Waiting(appts[i], w.start, w.end)
  }

  /** `matchesSchedule`: on the window's weekday, within its block times. */
  predicate MatchesSchedule(w: TimeWindow, a: Appointment) {
    && w.matched
    && DayOfWeekOf(DateOf(a.time)) == w.day
    && w.scheduleStart <= TimeOf(a.time) < w.scheduleEnd
  }

  function Abs(x: int): nat {
    if x < 0 then -x else x
  }

  /** `findClosestAppointmentForWindow`: among the active appointments on
      the block's weekday and times (any date), the time nearest to `ref`;
      nothing for a fallback window. */
  function FindClosestForWindow(appts: seq<Appointment>, w: TimeWindow, ref: int): (r: Option<int>)
    ensures r.None? <==> forall i :: 0 <= i < |appts| ==> !(IsActive(appts[i]) && MatchesSchedule(w, appts[i]))
    ensures r.Some? ==> exists i :: 0 <= i < |appts| && IsActive(appts[i]) && MatchesSchedule(w, appts[i])
                                    && appts[i].time == r.value
    ensures r.Some? ==> forall j :: 0 <= j < |appts| && IsActive(appts[j]) && MatchesSchedule(w, appts[j])
                                    ==> Abs(r.value - ref) <= Abs(appts[j].time - ref)
  {
    if !w.matched then None
    else
      var cands := Filter(appts, (a: Appointment) => IsActive(a) && MatchesSchedule(w, a));
      if |cands| == 0 then None
      else
        var k := ArgMinFirst(cands, (a: Appointment) => Abs(a.time - ref));
        assert cands[k] in appts;
        Some(cands[k].time)
  }

  /** `findBestMatch`: the earliest active appointment at or after `ref`;
      failing that, the latest active one; failing that, nothing. */
  function FindBestMatch(appts: seq<Appointment>, ref: int): (r: Option<int>)
    ensures r.None? <==> forall i :: 0 <= i < |appts| ==> !IsActive(appts[i])
    ensures r.Some? ==> exists i :: 0 <= i < |appts| && IsActive(appts[i]) && appts[i].time == r.value
    ensures (exists i :: 0 <= i < |appts| && IsActive(appts[i]) && appts[i].time >= ref) ==>
              && r.Some? && r.value >= ref
              && forall j :: 0 <= j < |appts| && IsActive(appts[j]) && appts[j].time >= ref ==> r.value <= appts[j].time
    ensures (forall i :: 0 <= i < |appts| && IsActive(appts[i]) ==> appts[i].time < ref) ==>
              forall j :: 0 <= j < |appts| && IsActive(appts[j]) ==> appts[j].time <= r.value
  {
    var upcoming := Filter(appts, (a: Appointment) => IsActive(a) && a.time >= ref);
    if |upcoming| > 0 then
      var k := ArgMinFirst(upcoming, (a: Appointment) => a.time);
      assert upcoming[k] in appts;
      Some(upcoming[k].time)
    else
      var active := Filter(appts, (a: Appointment) => IsActive(a));
      if |active| > 0 then
        var k := ArgMinFirst(active, (a: Appointment) => -a.time);
        assert active[k] in appts;
        Some(active[k].time)
      else None
  }

  /** `determineSlotStart`: with a requested instant, the start of its window
      when that window holds an active appointment, else the same block
      times on the date of the nearest matching appointment; otherwise, and
      without a requested instant, the best match against `now`. */
  function DetermineSlotStart(appts: seq<Appointment>, requested: Option<int>, blocks: seq<Block>,
                              doctor: int, now: int): (r: Option<int>)
    ensures r.None? <==> forall i :: 0 <= i < |appts| ==> !IsActive(appts[i])
    ensures requested.None? ==> r == FindBestMatch(appts, now)
    ensures (requested.Some? && HasAppointmentsInWindow(appts, ResolveWorkingWindow(blocks, doctor, requested.value)))
              ==> r == Some(ResolveWorkingWindow(blocks, doctor, requested.value).start)
    ensures (requested.Some? && !ResolveWorkingWindow(blocks, doctor, requested.value).matched
             && !HasAppointmentsInWindow(appts, ResolveWorkingWindow(blocks, doctor, requested.value)))
              ==> r == FindBestMatch(appts, now)
    ensures (requested.Some? && !HasAppointmentsInWindow(appts, ResolveWorkingWindow(blocks, doctor, requested.value)))
              ==> var w := ResolveWorkingWindow(blocks, doctor, requested.value);
                  var c := FindClosestForWindow(appts, w, requested.value);
                  && (c.Some? ==> r == Some(At(DateOf(c.value), w.scheduleStart)))
                  && (c.None? ==> r == FindBestMatch(appts, now))
  {
    if requested.Some? then
      var w := ResolveWorkingWindow(blocks, doctor, requested.value);
      if HasAppointmentsInWindow(appts, w) then Some(w.start)
      else
        match FindClosestForWindow(appts, w, requested.value)
        case Some(c) => Some(WithDate(w, DateOf(c)).start)
        case None => FindBestMatch(appts, now)
    else FindBestMatch(appts, now)
  }

  /** `appointmentRepository.findByDoctorId`. */
  function DoctorAppointments(appts: seq<Appointment>, doctor: int): (r: seq<Appointment>)
    ensures forall x :: x in r ==> x in appts && x.doctorId == doctor
    ensures forall i :: 0 <= i < |appts| && appts[i].doctorId == doctor ==> appts[i] in r
  {
    Filter(appts, (a: Appointment) => a.doctorId == doctor)
  }

  /** `getAppointmentQueue`: anchor the queue, re-resolve the window at the
      anchor, and queue the doctor's waiting appointments inside it. */
  function GetAppointmentQueue(s: Store, doctor: int, requested: Option<int>, now: int): (r: seq<QueueEntry>)
    ensures (forall i :: 0 <= i < |s.appointments| && s.appointments[i].doctorId == doctor
               ==> !IsActive(s.appointments[i])) ==> r == []
    ensures forall k :: 0 <= k < |r| ==>
              && r[k].position == k
              && r[k].appointment in s.appointments && r[k].appointment.doctorId == doctor
              && IsActive(r[k].appointment)
    ensures SortedByTime(Members(r))
    ensures var appts := DoctorAppointments(s.appointments, doctor);
            var anchor := DetermineSlotStart(appts, requested, s.blocks, doctor, now);
            anchor.Some? ==>
              var w := ResolveWorkingWindow(s.blocks, doctor, anchor.value);
              multiset(Members(r)) == multiset(WaitingIn(appts, w.start, w.end))
  {
    var appts := DoctorAppointments(s.appointments, doctor);
    match DetermineSlotStart(appts, requested, s.blocks, doctor, now)
    case None => []
    case Some(anchor) =>
      var w := ResolveWorkingWindow(s.blocks, doctor, anchor);
      BuildQueue(appts, w.start, w.end)
  }

  /** Without a requested instant, a doctor with any active appointment gets
      a non-empty queue, and it holds the appointment the anchor came from. */
  lemma QueueHoldsBestMatch(s: Store, doctor: int, now: int)
    requires exists i :: 0 <= i < |s.appointments| && s.appointments[i].doctorId == doctor && IsActive(s.appointments[i])
    ensures var appts := DoctorAppointments(s.appointments, doctor);
            && FindBestMatch(appts, now).Some?
            && exists k :: 0 <= k < |GetAppointmentQueue(s, doctor, None, now)|
                           && GetAppointmentQueue(s, doctor, None, now)[k].appointment.time == FindBestMatch(appts, now).value
  {
    var appts := DoctorAppointments(s.appointments, doctor);
    var i :| 0 <= i < |s.appointments| && s.appointments[i].doctorId == doctor && IsActive(s.appointments[i]);
    assert s.appointments[i] in appts;
    var anchor := FindBestMatch(appts, now).value;
    var j :| 0 <= j < |appts| && IsActive(appts[j]) && appts[j].time == anchor;
    var w := ResolveWorkingWindow(s.blocks, doctor, anchor);
    assert Waiting(appts[j], w.start, w.end);
    var q := GetAppointmentQueue(s, doctor, None, now);
    assert appts[j] in Members(q);
    var k :| 0 <= k < |Members(q)| && Members(q)[k] == appts[j];
  }

  /** `requestScheduleAdjustment`. */
  function RequestScheduleAdjustment(s: Store, doctorId: int, day: DayOfWeek, start: TimeOfDay, end: TimeOfDay,
                                     reason: Option<string>, now: int): (r: Result<(Store, AdjustmentRequest)>)
    ensures r.Ok? <==> TextFits(reason)
    ensures r.Ok? ==> var (s', q) := r.value;
      && s'.requests == s.requests + [q]
      && q.doctorId == doctorId && q.day == day && q.start == start && q.end == end
      && q.reason == reason && q.status == RequestStatus.Pending
      && s'.blocks == s.blocks && s'.appointments == s.appointments
  {
    var (requests', q) :- Submit(s.requests, doctorId, day, start, end, reason, now);
    Ok((s.(requests := requests'), q))
  }

  /** A freshly submitted request is open to a decision. */
  lemma SubmittedRequestAwaitsDecision(s: Store, doctorId: int, day: DayOfWeek, start: TimeOfDay, end: TimeOfDay,
                                       reason: Option<string>, now: int)
    requires TextFits(reason)
    ensures var (s', q) := RequestScheduleAdjustment(s, doctorId, day, start, end, reason, now).value;
            Undecided(s'.requests, q.id) == Ok(|s.requests|)
  {
    var (s', q) := RequestScheduleAdjustment(s, doctorId, day, start, end, reason, now).value;
    assert s'.requests[|s.requests|] == q;
  }
}
