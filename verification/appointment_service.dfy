/** `AppointmentServiceImpl`: booking gated on working hours and capacity,
    and the confirm / complete / cancel moves of the lifecycle. */
module AppointmentService {
  import opened Base
  import opened Calendar
  import opened Seqs
  import opened Text
  import opened Appointments
  import opened Directory
  import opened ScheduleService
  import opened Store

  /** `AppointmentRequest`. */
  datatype BookingRequest = BookingRequest(
    patientId: Option<int>,
    doctorId: int,
    time: int,
    notes: Option<string>,
    patientName: Option<string>,
    patientPhone: Option<string>)


  /** A supplied contact value replaces the stored one only when it has text
      and differs from it. */
  function Merge(supplied: Option<string>, stored: Option<string>): (r: Option<string>)
    ensures r != stored ==> supplied.Some? && HasText(supplied.value) && r == supplied
    ensures supplied.Some? && HasText(supplied.value) ==> r == supplied
  {
    if supplied.Some? && HasText(supplied.value) && supplied != stored then supplied else stored
  }

  /** `updatePatientContactInfo`: overwrite the patient's name and phone
      with the supplied ones when they have text and differ; a missing
      patient is skipped. */
  function UpdatePatientContactInfo(patients: seq<Patient>, req: BookingRequest): (r: seq<Patient>)
    ensures |r| == |patients|
    ensures forall i :: 0 <= i < |patients| ==> r[i].id == patients[i].id
    ensures forall i :: 0 <= i < |patients| && r[i] != patients[i] ==>
              req.patientId == Some(patients[i].id)
              && (r[i].name != patients[i].name || r[i].phone != patients[i].phone)
    ensures forall i :: 0 <= i < |patients| && r[i].name != patients[i].name ==>
              req.patientName.Some? && HasText(req.patientName.value) && r[i].name == req.patientName
    ensures forall i :: 0 <= i < |patients| && r[i].phone != patients[i].phone ==>
              req.patientPhone.Some? && HasText(req.patientPhone.value) && r[i].phone == req.patientPhone
    ensures forall i :: (0 <= i < |patients| && req.patientId.Some?
                         && FirstIndex(patients, (p: Patient) => p.id == req.patientId.value) == Some(i))
              ==> r[i].name == Merge(req.patientName, patients[i].name)
                  && r[i].phone == Merge(req.patientPhone, patients[i].phone)
  {
    if req.patientId.None? then patients
    else
      match FirstIndex(patients, (p: Patient) => p.id == req.patientId.value)
      case None => patients
      case Some(i) =>
        var p := patients[i];
        var p' := p.(name := Merge(req.patientName, p.name), phone := Merge(req.patientPhone, p.phone));
        if p' == p then patients else patients[i := p']
  }

  /** `createAppointment`: refuse an instant outside every working block,
      then one whose block is full; otherwise store a PENDING appointment with
      the request's patient, doctor, time and notes, and refresh the patient's
      contact details. */
  function CreateAppointment(s: Store, req: BookingRequest, now: int): (r: Result<(Store, Appointment)>)
    ensures !IsWithinWorkingHours(s.blocks, req.doctorId, req.time) ==> r == Err(OutsideWorkingHours)
    ensures forall i :: FirstCovering(s.blocks, req.doctorId, req.time, i)
              && s.blocks[i].maxPatients > 0
              && BlockOccupancy(s.appointments, req.doctorId, DateOf(req.time), s.blocks[i]) >= s.blocks[i].maxPatients
              ==> r == Err(SlotFull)
    ensures r.Ok? <==>
              && IsWithinWorkingHours(s.blocks, req.doctorId, req.time)
              && !IsTimeSlotFull(s.blocks, s.appointments, req.doctorId, req.time)
              && req.patientId.Some? && NotesFit(req.notes)
    ensures r.Ok? ==> var (s', a) := r.value;
      && a.patientId == req.patientId.value && a.doctorId == req.doctorId
      && a.time == req.time && a.notes == req.notes && a.status == Pending
      && a.createdAt == now && a.updatedAt == now
      && (forall i :: 0 <= i < |s.appointments| ==> s.appointments[i].id != a.id)
      && s'.appointments == s.appointments + [a]
      && s'.patients == UpdatePatientContactInfo(s.patients, req)
      && s'.blocks == s.blocks && s'.requests == s.requests
      && s'.doctors == s.doctors && s'.users == s.users
  {
    if !IsWithinWorkingHours(s.blocks, req.doctorId, req.time) then Err(OutsideWorkingHours)
    else if IsTimeSlotFull(s.blocks, s.appointments, req.doctorId, req.time) then Err(SlotFull)
    else
      var a :- Insert(FreshId(Map(s.appointments, (x: Appointment) => x.id)), req.patientId, req.doctorId, req.time, req.notes, now);
      Ok((s.(appointments := s.appointments + [a], patients := UpdatePatientContactInfo(s.patients, req)), a))
  }

  /** A successful booking adds exactly one to the occupancy of the block
      that admitted it, and never takes a block with positive capacity past
      that capacity. */
  lemma BookingFillsItsBlock(s: Store, req: BookingRequest, now: int, i: int)
    requires FirstCovering(s.blocks, req.doctorId, req.time, i)
    requires CreateAppointment(s, req, now).Ok?
    ensures var s' := CreateAppointment(s, req, now).value.0;
            var b := s.blocks[i];
            && BlockOccupancy(s'.appointments, req.doctorId, DateOf(req.time), b)
               == BlockOccupancy(s.appointments, req.doctorId, DateOf(req.time), b) + 1
            && (b.maxPatients > 0 ==>
                  BlockOccupancy(s'.appointments, req.doctorId, DateOf(req.time), b) <= b.maxPatients)
  {
    var (s', a) := CreateAppointment(s, req, now).value;
    var b := s.blocks[i];
    var date := DateOf(req.time);
    var p := (x: Appointment) => Occupies(x, req.doctorId, At(date, b.start), At(date, b.end));
    AtRoundTrip(date, b.start, req.time);
    SameDateOrder(date, b.start, TimeOf(req.time));
    SameDateOrder(date, TimeOf(req.time), b.end);
    assert p(a);
    FilterAppend(s.appointments, [a], p);
    assert Filter([a], p) == [a];
  }

  /** The appointment with this id, first in store order. */
  function FindAppointment(appts: seq<Appointment>, id: int): (r: Option<nat>)
    ensures r.Some? ==> r.value < |appts| && appts[r.value].id == id
    ensures r.None? <==> forall j :: 0 <= j < |appts| ==> appts[j].id != id
  {
    FirstIndex(appts, (a: Appointment) => a.id == id)
  }

  /** Move the appointment `id` to `target` when its status is `from` (or,
      for cancelling, either of the two cancellable statuses), with `notes`
      overwritten when given; `refused` is the error otherwise. */
  function Move(s: Store, id: int, target: AppointmentStatus, refused: Error,
                newNotes: Option<Option<string>>, now: int): (r: Result<(Store, Appointment)>)
    ensures FindAppointment(s.appointments, id).None? ==> r == Err(AppointmentNotFound)
    ensures FindAppointment(s.appointments, id).Some? ==>
              var i := FindAppointment(s.appointments, id).value;
              var a := s.appointments[i];
              && (!Transition(a.status, target) ==> r == Err(refused))
              && (r.Ok? <==> Transition(a.status, target) && NotesFit(newNotes.GetOr(a.notes)))
              && (r.Ok? ==> r.value.1 == a.(status := target, notes := newNotes.GetOr(a.notes), updatedAt := now)
                            && r.value.0 == s.(appointments := s.appointments[i := r.value.1]))
  {
    match FindAppointment(s.appointments, id)
    case None => Err(AppointmentNotFound)
    case Some(i) =>
      var a := s.appointments[i];
      if !Transition(a.status, target) then Err(refused)
      else
        var a' :- Update(a.(status := target, notes := newNotes.GetOr(a.notes)), now);
        Ok((s.(appointments := s.appointments[i := a']), a'))
  }

  /** `cancelAppointment`: only a PENDING or CONFIRMED appointment may be
      cancelled; it becomes CANCELLED and its notes become the reason. */
  function CancelAppointment(s: Store, id: int, reason: Option<string>, now: int): (r: Result<(Store, Appointment)>)
    ensures FindAppointment(s.appointments, id).None? ==> r == Err(AppointmentNotFound)
    ensures FindAppointment(s.appointments, id).Some? ==>
              var i := FindAppointment(s.appointments, id).value;
              var a := s.appointments[i];
              && (a.status !in {Pending, Confirmed} ==> r == Err(CannotCancel))
              && (r.Ok? <==> a.status in {Pending, Confirmed} && NotesFit(reason))
              && (r.Ok? ==> r.value.1 == a.(status := Cancelled, notes := reason, updatedAt := now)
                            && r.value.0 == s.(appointments := s.appointments[i := r.value.1]))
  {
    Move(s, id, Cancelled, CannotCancel, Some(reason), now)
  }

  /** `confirmAppointment`: only from PENDING, to CONFIRMED. */
  function ConfirmAppointment(s: Store, id: int, now: int): (r: Result<(Store, Appointment)>)
    ensures FindAppointment(s.appointments, id).None? ==> r == Err(AppointmentNotFound)
    ensures FindAppointment(s.appointments, id).Some? ==>
              var i := FindAppointment(s.appointments, id).value;
              var a := s.appointments[i];
              && (a.status != Pending ==> r == Err(CannotConfirm))
              && (r.Ok? <==> a.status == Pending && NotesFit(a.notes))
              && (r.Ok? ==> r.value.1 == a.(status := Confirmed, updatedAt := now)
                            && r.value.0 == s.(appointments := s.appointments[i := r.value.1]))
  {
    Move(s, id, Confirmed, CannotConfirm, None, now)
  }

  /** `completeAppointment`: only from CONFIRMED, to COMPLETED. */
  function CompleteAppointment(s: Store, id: int, now: int): (r: Result<(Store, Appointment)>)
    ensures FindAppointment(s.appointments, id).None? ==> r == Err(AppointmentNotFound)
    ensures FindAppointment(s.appointments, id).Some? ==>
              var i := FindAppointment(s.appointments, id).value;
              var a := s.appointments[i];
              && (a.status != Confirmed ==> r == Err(CannotComplete))
              && (r.Ok? <==> a.status == Confirmed && NotesFit(a.notes))
              && (r.Ok? ==> r.value.1 == a.(status := Completed, updatedAt := now)
                            && r.value.0 == s.(appointments := s.appointments[i := r.value.1]))
  {
    Move(s, id, Completed, CannotComplete, None, now)
  }

  /** Every successful lifecycle call moves along the lifecycle graph and
      keeps the appointment's creation stamp. */
  lemma LifecycleFollowsGraph(s: Store, id: int, reason: Option<string>, now: int)
    requires FindAppointment(s.appointments, id).Some?
    ensures var a := s.appointments[FindAppointment(s.appointments, id).value];
            && (CancelAppointment(s, id, reason, now).Ok? ==>
                  Transition(a.status, Cancelled) && CancelAppointment(s, id, reason, now).value.1.createdAt == a.createdAt)
            && (ConfirmAppointment(s, id, now).Ok? ==>
                  Transition(a.status, Confirmed) && ConfirmAppointment(s, id, now).value.1.createdAt == a.createdAt)
            && (CompleteAppointment(s, id, now).Ok? ==>
                  Transition(a.status, Completed) && CompleteAppointment(s, id, now).value.1.createdAt == a.createdAt)
  {
  }

  /** Cancelling an appointment that counted towards a block's occupancy
      frees exactly one place in it. */
  lemma CancelFreesOnePlace(s: Store, id: int, reason: Option<string>, now: int,
                            doctor: int, lo: int, hi: int)
    requires CancelAppointment(s, id, reason, now).Ok?
    requires Occupies(s.appointments[FindAppointment(s.appointments, id).value], doctor, lo, hi)
    ensures CountInRange(CancelAppointment(s, id, reason, now).value.0.appointments, doctor, lo, hi)
            == CountInRange(s.appointments, doctor, lo, hi) - 1
  {
    var i := FindAppointment(s.appointments, id).value;
    var a' := CancelAppointment(s, id, reason, now).value.1;
    CountReplaceLeaving(s.appointments, i, a', (x: Appointment) => Occupies(x, doctor, lo, hi));
  }

  /** `checkTimeConflict`: the instant's first covering block has positive
      capacity and its occupancy has reached it. */
  function CheckTimeConflict(s: Store, doctor: int, t: int): (r: bool)
    ensures r <==> exists i :: FirstCovering(s.blocks, doctor, t, i)
                              && s.blocks[i].maxPatients > 0
                              && BlockOccupancy(s.appointments, doctor, DateOf(t), s.blocks[i]) >= s.blocks[i].maxPatients
  {
    FirstCoveringWhenWithin(s.blocks, doctor, t);
    IsTimeSlotFull(s.blocks, s.appointments, doctor, t)
  }

  lemma FirstCoveringWhenWithin(blocks: seq<Block>, doctor: int, t: int)
    ensures IsWithinWorkingHours(blocks, doctor, t) ==> exists i :: FirstCovering(blocks, doctor, t, i)
  {
    if IsWithinWorkingHours(blocks, doctor, t) {
      var f := FindScheduleForDateTime(blocks, doctor, t);
      assert f.Some?;
    }
  }

  /** A slot a patient may book: free and in working time. */
  predicate Bookable(slot: TimeSlot) {
    slot.available && slot.isWorkingTime
  }

  predicate OpenStartIn(slots: seq<TimeSlot>, t: int) {
    exists i | 0 <= i < |slots| :: Bookable(slots[i]) && slots[i].start == t
  }

  /** The start instants of the bookable slots, in listing order. */
  function OpenStarts(slots: seq<TimeSlot>): (r: seq<int>)
    ensures |r| <= |slots|
    ensures forall k :: 0 <= k < |r| ==> OpenStartIn(slots, r[k])
    ensures forall i :: 0 <= i < |slots| && Bookable(slots[i]) ==> slots[i].start in r
    ensures r == Map(Filter(slots, Bookable), (x: TimeSlot) => x.start)
  {
    if |slots| == 0 then []
    else
      var rest := OpenStarts(slots[1..]);
      StartsStep(slots);
      var r := if Bookable(slots[0]) then [slots[0].start] + rest else rest;
      StartsMembers(slots);
      r
  }

  /** Each bookable slot's start is listed, and only those. */
  lemma StartsMembers(slots: seq<TimeSlot>)
    ensures var m := Map(Filter(slots, Bookable), (x: TimeSlot) => x.start);
            && (forall k :: 0 <= k < |m| ==> OpenStartIn(slots, m[k]))
            && (forall i :: 0 <= i < |slots| && Bookable(slots[i]) ==> slots[i].start in m)
  {
    var f := Filter(slots, Bookable);
    var m := Map(f, (x: TimeSlot) => x.start);
    forall k | 0 <= k < |m| ensures OpenStartIn(slots, m[k]) {
      var i :| 0 <= i < |slots| && slots[i] == f[k];
      assert Bookable(slots[i]) && slots[i].start == m[k];
    }
    forall i | 0 <= i < |slots| && Bookable(slots[i]) ensures slots[i].start in m {
      var k :| 0 <= k < |f| && f[k] == slots[i];
      assert m[k] == slots[i].start;
    }
  }

  /** The bookable starts of a listing are those of its head followed by
      those of its tail. */
  lemma StartsStep(slots: seq<TimeSlot>)
    requires |slots| > 0
    ensures Map(Filter(slots, Bookable), (x: TimeSlot) => x.start)
            == (if Bookable(slots[0]) then [slots[0].start] else [])
               + Map(Filter(slots[1..], Bookable), (x: TimeSlot) => x.start)
  {
    var kept := Filter(slots[1..], Bookable);
    if Bookable(slots[0]) {
      assert ([slots[0]] + kept)[1..] == kept;
    }
  }

  /** `getAvailableTimeSlots` (booking side): the start instants of the
      bookable slots of the doctor's listing for `date`, in listing order.
      Each lies inside one of the doctor's blocks whose occupancy is below
      its capacity, so booking it passes the working-hours check. */
  function GetAvailableStartTimes(s: Store, doctor: int, date: int): (r: seq<int>)
    ensures var slots := GetAvailableTimeSlots(s.blocks, s.appointments, doctor, date);
            r == Map(Filter(slots, Bookable), (x: TimeSlot) => x.start)
    ensures var slots := GetAvailableTimeSlots(s.blocks, s.appointments, doctor, date);
            forall i :: 0 <= i < |slots| && Bookable(slots[i]) ==> slots[i].start in r
    ensures forall k :: 0 <= k < |r| ==> IsWithinWorkingHours(s.blocks, doctor, r[k])
    ensures forall k :: 0 <= k < |r| ==>
              exists j :: 0 <= j < |s.blocks| && Covers(s.blocks[j], doctor, r[k])
                          && BlockOccupancy(s.appointments, doctor, date, s.blocks[j]) < s.blocks[j].maxPatients
  {
    var slots := GetAvailableTimeSlots(s.blocks, s.appointments, doctor, date);
    var r := OpenStarts(slots);
    assert forall k :: 0 <= k < |r| ==>
             && IsWithinWorkingHours(s.blocks, doctor, r[k])
             && exists j :: 0 <= j < |s.blocks| && Covers(s.blocks[j], doctor, r[k])
                            && BlockOccupancy(s.appointments, doctor, date, s.blocks[j]) < s.blocks[j].maxPatients
    by {
      forall k | 0 <= k < |r|
        ensures IsWithinWorkingHours(s.blocks, doctor, r[k])
        ensures exists j :: 0 <= j < |s.blocks| && Covers(s.blocks[j], doctor, r[k])
                            && BlockOccupancy(s.appointments, doctor, date, s.blocks[j]) < s.blocks[j].maxPatients
      {
        OfferedTimesAreWorkingTimes(s, doctor, date, r[k]);
      }
    }
    r
  }

  /** A bookable slot's start lies inside one of the doctor's blocks on that
      date whose occupancy is below its capacity. */
  lemma OfferedTimesAreWorkingTimes(s: Store, doctor: int, date: int, t: int)
    requires OpenStartIn(GetAvailableTimeSlots(s.blocks, s.appointments, doctor, date), t)
    ensures IsWithinWorkingHours(s.blocks, doctor, t)
    ensures exists j :: 0 <= j < |s.blocks| && Covers(s.blocks[j], doctor, t)
                        && BlockOccupancy(s.appointments, doctor, date, s.blocks[j]) < s.blocks[j].maxPatients
  {
    var ds := BlocksOn(s.blocks, doctor, DayOfWeekOf(date));
    var slots := SlotsOfBlocks(ds, s.appointments, doctor, date);
    var i :| 0 <= i < |slots| && Bookable(slots[i]) && slots[i].start == t;
    SlotsComeFromBlocks(ds, s.appointments, doctor, date);
    var j :| 0 <= j < |ds| && SlotOfBlock(slots[i], s.appointments, doctor, date, ds[j]);
    var b := ds[j];
    WithinDay(date, b.start, b.end, t);
    assert Covers(b, doctor, t);
    var jj :| 0 <= jj < |s.blocks| && s.blocks[jj] == b;
  }
}
