/** The relational store the services share, as one immutable value. A
    service call maps a store to a new store and a value, or fails and leaves
    the store as it was (the transaction rolls back). */
module Store {
  import opened ScheduleService
  import opened Appointments
  import opened AdjustmentRequests
  import opened Directory

  datatype Store = Store(
    blocks: seq<Block>,
    appointments: seq<Appointment>,
    patients: seq<Patient>,
    requests: seq<AdjustmentRequest>,
    doctors: seq<Doctor>,
    users: seq<User>)
}
