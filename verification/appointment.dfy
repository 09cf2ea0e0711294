/** The `Appointment` entity: its status enum, its columns and the JPA
    lifecycle hooks that stamp it. */
module Appointments {
  import opened Base

  datatype AppointmentStatus = Pending | Confirmed | Completed | Cancelled | Expired

  /** Length of the `notes` column. */
  const NotesMaxLength: int := 500

  /** One row. The NOT NULL columns (patient, doctor, time, status) are plain
      values; `notes` may be null. Times are minutes since the epoch. */
  datatype Appointment = Appointment(
    id: int,
    patientId: int,
    doctorId: int,
    time: int,
    status: AppointmentStatus,
    notes: Option<string>,
    createdAt: int,
    updatedAt: int)

  /** Counted against capacity and shown in queues: neither cancelled nor
      expired. */
  predicate IsActive(a: Appointment) {
    a.status != Cancelled && a.status != Expired
  }

  predicate NotesFit(notes: Option<string>) {
    notes.None? || |notes.value| <= NotesMaxLength
  }

  /** The lifecycle graph: PENDING -> CONFIRMED -> COMPLETED, and PENDING or
      CONFIRMED -> CANCELLED. EXPIRED has no way in or out here. */
  predicate Transition(from: AppointmentStatus, to: AppointmentStatus) {
    || (from == Pending && to == Confirmed)
    || (from == Confirmed && to == Completed)
    || (from == Pending && to == Cancelled)
    || (from == Confirmed && to == Cancelled)
  }

  /** Position along the lifecycle; every move goes strictly forward. */
  function Stage(s: AppointmentStatus): nat {
    match s
    case Pending => 0
    case Confirmed => 1
    case Completed => 2
    case Cancelled => 2
    case Expired => 2
  }

  /** Moves are monotonic, and COMPLETED, CANCELLED and EXPIRED are terminal. */
  lemma TransitionsMoveForward(from: AppointmentStatus, to: AppointmentStatus)
    ensures Transition(from, to) ==> Stage(from) < Stage(to)
    ensures from in {Completed, Cancelled, Expired} ==> !Transition(from, to)
    ensures !Transition(to, Expired)
  {
  }

  /** Inserting a new row: `status` takes its default PENDING unless given,
      `@PrePersist` stamps both timestamps with `now`, and the database refuses
      a null patient or notes longer than the column. */
  function Insert(id: int, patientId: Option<int>, doctorId: int, time: int,
                  notes: Option<string>, now: int): (r: Result<Appointment>)
    ensures r.Ok? <==> patientId.Some? && NotesFit(notes)
    ensures r.Err? ==> r.error == ColumnConstraintViolation
    ensures r.Ok? ==> var a := r.value;
      && a.id == id && a.patientId == patientId.value && a.doctorId == doctorId
      && a.time == time && a.notes == notes && a.status == Pending
      && a.createdAt == now && a.updatedAt == now
  {
    if patientId.None? || !NotesFit(notes) then Err(ColumnConstraintViolation)
    else Ok(Appointment(id, patientId.value, doctorId, time, Pending, notes, now, now))
  }

  /** Saving a changed row: `@PreUpdate` refreshes `updatedAt`; `createdAt`
      is not updatable. */
  function Update(a: Appointment, now: int): (r: Result<Appointment>)
    ensures r.Ok? <==> NotesFit(a.notes)
    ensures r.Ok? ==> r.value.createdAt == a.createdAt && r.value.updatedAt == now
    ensures r.Ok? ==> r.value.(updatedAt := a.updatedAt) == a
  {
    if NotesFit(a.notes) then Ok(a.(updatedAt := now)) else Err(ColumnConstraintViolation)
  }
}
